/** The transmit loop with its own registers: a shift register, a history of sent bits, a counter that
    lives in the carry flag, and a mirror of the port level. */
module UsbTransmit {
  import opened Machines
  import opened Sequences
  import opened UsbLine

  /** Rotates right through carry; the bit shifted out becomes the carry. */
  function Ror(x: bv8, carry: bool): bv8 {
    if carry then 0x80 | (x >> 1) else x >> 1
  }

  predicate CarryOut(x: bv8) { x & 1 != 0 }

  lemma RorBit(x: bv8, carry: bool, k: nat)
    requires k < 8
    ensures Bit(Ror(x, carry), k) == if k == 7 then carry else Bit(x, k + 1)
  {
    if k == 0 {} else if k == 1 {} else if k == 2 {} else if k == 3 {}
    else if k == 4 {} else if k == 5 {} else if k == 6 {} else {}
  }

  lemma RorBits(x: bv8, carry: bool)
    ensures ByteBits(Ror(x, carry)) == ByteBits(x)[1..] + [carry]
    ensures CarryOut(x) == ByteBits(x)[0]
  {
    forall k | 0 <= k < 8 ensures ByteBits(Ror(x, carry))[k] == (ByteBits(x)[1..] + [carry])[k] {
      RorBit(x, carry, k);
    }
  }

  /** The history register: its top bits are the last bits sent, up to the last zero. */
  predicate Tail(history: bv8, ones: nat) {
    if ones == 0 then history & 0x80 == 0
    else if ones == 1 then history & 0xc0 == 0x80
    else if ones == 2 then history & 0xe0 == 0xc0
    else if ones == 3 then history & 0xf0 == 0xe0
    else if ones == 4 then history & 0xf8 == 0xf0
    else ones == 5 && history & 0xfc == 0xf8
  }

  const STUFF_LIMIT: bv8 := 0xfc

  lemma TailStep(history: bv8, ones: nat, bit: bool)
    requires bit ==> Tail(history, ones)
    ensures var h := Ror(history, bit);
            && (!bit ==> Tail(h, 0) && h < STUFF_LIMIT)
            && (bit && ones < 5 ==> Tail(h, ones + 1) && h < STUFF_LIMIT)
            && (bit && ones == 5 ==> h >= STUFF_LIMIT)
  {
    if bit && ones == 0 {} else if bit && ones == 1 {} else if bit && ones == 2 {}
    else if bit && ones == 3 {} else if bit && ones == 4 {}
  }

  lemma TailReset()
    ensures Tail(0, 0)
  {
  }

  lemma TwoLevels(wire: seq<bool>, x: bool, y: bool)
    ensures wire + [x] + [y] == wire + [x, y]
  {
  }

  /** The history test stuffs exactly when the line code does. */
  lemma StuffsAsCoded(s: Coder, history: bv8, bit: bool)
    requires s.ones < STUFF_AFTER && (bit ==> Tail(history, s.ones))
    ensures var x, h, r := (if bit then s.level else !s.level), Ror(history, bit), Encode(s, bit);
            if h >= STUFF_LIMIT then r == Result(Coder(!x, 0), [x, !x])
            else r.out == [x] && r.state.level == x && r.state.ones < STUFF_AFTER && Tail(h, r.state.ones)
  {
    TailStep(history, s.ones, bit);
  }

  /** `bitStatus` at the start of byte `k`. */
  function StatusAt(k: nat): int { 255 - 3 * k }

  const STATUS_STEP: int := 37

  /** Number of times the inner loop runs from counter value `status` until the subtraction borrows... */
  function Rounds(status: nat): (rounds: nat)
    ensures rounds > 0
  {
    if status < STATUS_STEP then 1 else Rounds(status - STATUS_STEP) + 1
  }

  /** ... and the counter value it then leaves. */
  function Borrowed(status: nat): nat {
    if status < STATUS_STEP then status + 256 - STATUS_STEP else Borrowed(status - STATUS_STEP)
  }

  /** The counter yields seven rounds, hence eight bits, for exactly the first twelve bytes. */
  lemma TwelveBytes(k: nat)
    requires 3 * k <= 255
    ensures Rounds(StatusAt(k)) == 7 <==> k <= 11
    ensures k <= 11 ==> Borrowed(StatusAt(k)) == StatusAt(k + 1)
  {
    var s := StatusAt(k);
    if k <= 11 {
      assert Rounds(s) == Rounds(s - 74) + 2;
      assert Rounds(s - 74) == Rounds(s - 148) + 2;
      assert Rounds(s - 148) == Rounds(s - 222) + 2;
      assert Borrowed(s) == Borrowed(s - 74) == Borrowed(s - 148) == Borrowed(s - 222);
    } else {
      RoundsBound(s);
    }
  }

  lemma {:induction false} RoundsBound(status: nat)
    ensures status < 37 * Rounds(status) <= status + 37
  {
    if status >= 37 { RoundsBound(status - 37); }
  }

  class Transmitter {
    var level: bool        // x1, the port mirror
    var history: bv8       // x2
    var shift: bv8
    var bitStatus: nat     // x3
    var carry: bool
    var wire: seq<bool>    // levels put on the line so far

    ghost var coder: Coder
    ghost var sent: seq<bool>

    /** The registers agree with the line code for the bits sent so far. */
    ghost predicate Follows()
      reads this
    {
      && coder == Fold(Encode, IDLE, sent).state
      && wire == Fold(Encode, IDLE, sent).out
      && level == coder.level && coder.ones < STUFF_AFTER
      && (sent != [] ==> Tail(history, coder.ones))
    }

    constructor (junk: bv8, flag: bool)
      ensures Follows() && sent == [] && wire == [] && bitStatus == 255 && shift == SYNC
    {
      level := true;
      history := junk;
      shift := SYNC;
      bitStatus := 255;
      carry := flag;
      wire := [];
      coder, sent := IDLE, [];
    }

    /** Puts the lowest bit of the shift register on the line and into the history. */
    method ShiftOut()
      modifies this`level, this`wire, this`shift, this`carry, this`history
      ensures level == (if CarryOut(old(shift)) then old(level) else !old(level))
      ensures wire == old(wire) + [level]
      ensures shift == Ror(old(shift), old(carry)) && history == Ror(old(history), CarryOut(old(shift)))
    {
      if !CarryOut(shift) {
        level := !level;
      }
      wire := wire + [level];
      var dataBit := CarryOut(shift);
      shift := Ror(shift, carry);
      carry := dataBit;
      history := Ror(history, carry);
    }

    method StuffIfNeeded()
      modifies this`level, this`wire, this`history
      ensures if old(history) >= STUFF_LIMIT
              then level == !old(level) && wire == old(wire) + [level] && history == 0
              else level == old(level) && wire == old(wire) && history == old(history)
    {
      if history >= STUFF_LIMIT {
        level := !level;
        history := 0;
        wire := wire + [level];
      }
    }

    /** One bit, with its stuffed zero if there has to be one. */
    method SendBit()
      requires Follows()
      requires sent == [] ==> !CarryOut(shift)
      modifies this
      ensures Follows() && sent == old(sent) + [CarryOut(old(shift))]
      ensures shift == Ror(old(shift), old(carry))
      ensures bitStatus == old(bitStatus)
    {
      ghost var bit := CarryOut(shift);
      StuffsAsCoded(coder, history, bit);
      TailReset();
      TwoLevels(wire, if bit then level else !level, if bit then !level else level);
      FoldSnoc(Encode, IDLE, sent, bit);
      ShiftOut();
      StuffIfNeeded();
      coder := Encode(coder, bit).state;
      sent := sent + [bit];
    }

    /** `i` bits of the byte have been sent, the others are at the lower end of the shift register. */
    ghost predicate Progress(before: seq<bool>, byte: bv8, i: nat)
      reads this
    {
      && Follows() && i <= 8
      && sent == before + ByteBits(byte)[..i]
      && ByteBits(shift)[..8 - i] == ByteBits(byte)[i..]
    }

    method SendBitOf(ghost before: seq<bool>, ghost byte: bv8, ghost i: nat)
      requires i < 8 && Progress(before, byte, i)
      requires before == [] ==> !CarryOut(byte)
      modifies this
      ensures Progress(before, byte, i + 1) && bitStatus == old(bitStatus)
    {
      NextBit(byte, shift, carry, i);
      AppendNext(before, ByteBits(byte), i);
      RorBits(byte, false);
      SendBit();
    }

    /** Steps the counter; the loop goes on unless that borrows. */
    method CountBit() returns (again: bool)
      modifies this`bitStatus
      ensures again ==> Rounds(old(bitStatus)) == Rounds(bitStatus) + 1 && Borrowed(old(bitStatus)) == Borrowed(bitStatus)
      ensures !again ==> Rounds(old(bitStatus)) == 1 && Borrowed(old(bitStatus)) == bitStatus
    {
      again := bitStatus >= STATUS_STEP;
      bitStatus := if again then bitStatus - STATUS_STEP else bitStatus + 256 - STATUS_STEP;
    }

    /** The inner loop: bits are sent until stepping the counter borrows; then one more. */
    method SendByte(ghost byte: bv8)
      requires Follows() && shift == byte && Rounds(bitStatus) == 7
      requires sent == [] ==> !CarryOut(byte)
      modifies this
      ensures Follows() && sent == old(sent) + ByteBits(byte)
      ensures bitStatus == Borrowed(old(bitStatus))
    {
      ghost var before, i, left := sent, 0, Borrowed(bitStatus);
      AppendedAll(before, ByteBits(byte));
      var again := true;
      while again
        invariant 0 <= i <= 7 && Progress(before, byte, i)
        invariant again ==> i + Rounds(bitStatus) == 7 && Borrowed(bitStatus) == left
        invariant !again ==> i == 7 && bitStatus == left
        decreases 7 - i, again
      {
        SendBitOf(before, byte, i);
        again := CountBit();
        i := i + 1;
      }
      SendBitOf(before, byte, 7);
    }
  }

  /** After `i` rotations the lower end of the shift register holds the bits still to be sent. */
  lemma NextBit(byte: bv8, shift: bv8, carry: bool, i: nat)
    requires i < 8 && ByteBits(shift)[..8 - i] == ByteBits(byte)[i..]
    ensures CarryOut(shift) == ByteBits(byte)[i]
    ensures ByteBits(Ror(shift, carry))[..7 - i] == ByteBits(byte)[i + 1..]
  {
    RorBits(shift, carry);
    ShiftedSlices(ByteBits(shift), ByteBits(byte), carry, i);
  }

  lemma ShiftedSlices<T>(s: seq<T>, b: seq<T>, c: T, i: nat)
    requires |s| == |b| == 8 && i < 8 && s[..8 - i] == b[i..]
    ensures s[0] == b[i] && (s[1..] + [c])[..7 - i] == b[i + 1..]
  {
    assert s[..8 - i][0] == b[i..][0];
    assert s[..8 - i][1..] == b[i..][1..];
    assert (s[1..] + [c])[..7 - i] == s[..8 - i][1..];
  }

  lemma {:induction false} BitsSnoc(data: seq<bv8>, k: nat)
    requires k < |data|
    ensures Bits(data[..k + 1]) == Bits(data[..k]) + ByteBits(data[k])
  {
    assert data[..k + 1][..k] == data[..k];
  }

  /** Sends a packet of at most twelve bytes, sync included: the wire carries its line code, then SE0 twice. */
  method Transmit(data: seq<bv8>, junk: bv8, flag: bool) returns (wire: seq<Line>)
    requires 1 <= |data| <= 11
    ensures wire == Wire(data)
  {
    var t := new Transmitter(junk, flag);
    ghost var all := [SYNC] + data;
    var cnt := |data| + 1;
    var next := 0;
    while cnt > 0
      invariant t.Follows() && fresh(t)
      invariant next + cnt == |all| && 0 <= cnt
      invariant t.bitStatus == StatusAt(next)
      invariant cnt > 0 ==> t.shift == all[next]
      invariant t.sent == Bits(all[..next])
    {
      assert !CarryOut(SYNC);
      assert next > 0 ==> t.sent != [];
      BitsSnoc(all, next);
      TwelveBytes(next);
      t.SendByte(all[next]);
      t.shift := if next < |data| then data[next] else junk;
      next := next + 1;
      cnt := cnt - 1;
    }
    assert all[..next] == all;
    wire := Lines(t.wire) + [SE0, SE0];
  }
}
