/** The receive loop: first as a reading of the line code, then with its own registers. */
module UsbReceive {
  import opened Sequences
  import opened UsbLine

  // ---- Reading the line code ----

  function Sample(wire: seq<Line>, i: nat): Line {
    if i < |wire| then wire[i] else J
  }

  function Minus(x: Line): bool { x == J }

  const MAX_BYTES: nat := 11

  datatype Reception = Packet(bits: seq<bool>) | Overflow

  /** `skip`: the next level is a stuffed bit. `direct`: the last level was not. */
  datatype Reader = Reader(level: bool, ones: nat, skip: bool, bits: seq<bool>, direct: bool)

  function ReadBit(s: Reader, level: bool): Reader {
    var bit := level == s.level;
    var ones := if bit then s.ones + 1 else 0;
    if ones == STUFF_AFTER then Reader(level, 0, true, s.bits + [bit], true)
    else Reader(level, ones, false, s.bits + [bit], true)
  }

  function SkipBit(s: Reader, level: bool): Reader { Reader(level, 0, false, s.bits, false) }

  /** The end of a packet is looked for once a byte, behind its first bit; the room once a byte, at its third. */
  function Receive(wire: seq<Line>, i: nat, s: Reader): Reception
    decreases if |s.bits| < 8 * MAX_BYTES + 2 then 8 * MAX_BYTES + 2 - |s.bits| else 0, s.skip
  {
    var x := Sample(wire, i);
    if s.direct && |s.bits| % 8 == 1 && x == SE0 then Packet(s.bits[..|s.bits| - 1])
    else if s.skip then Receive(wire, i + 1, SkipBit(s, Minus(x)))
    else if |s.bits| >= 8 * MAX_BYTES + 2 then Overflow
    else Receive(wire, i + 1, ReadBit(s, Minus(x)))
  }

  /** Before the first bit of a packet the line has just been at K for the last bit of the sync byte. */
  const FIRST := Reader(false, 0, false, [], false)

  // ---- The registers ----

  /** An eight-bit register, bit by bit. */
  type Reg = r: seq<bool> | |r| == 8 witness seq(8, _ => false)

  const ALL: Reg := seq(8, _ => true)

  function And(r: Reg, mask: bv8): (t: Reg)
    ensures forall i :: 0 <= i < 8 ==> t[i] == (r[i] && Bit(mask, i))
  {
    seq(8, i requires 0 <= i < 8 => r[i] && Bit(mask, i))
  }

  function Xor(r: Reg, m: Reg): (t: Reg)
    ensures forall i :: 0 <= i < 8 ==> t[i] == (r[i] != m[i])
  {
    seq(8, i requires 0 <= i < 8 => r[i] != m[i])
  }

  predicate IsZero(r: Reg) { forall i :: 0 <= i < 8 ==> !r[i] }

  /** After bit `k`, the two bits that do not belong to the last six are cleared, where the code does so. */
  function RunMask(k: nat): bv8
    requires k < 8
  {
    if k == 0 then 0xf9 else if k == 1 then 0xf3 else if k == 2 then 0xe7 else if k == 3 then 0xcf
    else if k == 4 then 0x9f else if k == 5 then 0x3f else 0xff
  }

  /** The test for six ones in a row: the zero flag for bits 0 to 5, below 2 for bit 6, below 4 for bit 7. */
  function TestMask(k: nat): bv8
    requires k < 8
  {
    if k <= 5 then 0xff else if k == 6 then 0xfe else 0xfc
  }

  predicate Escapes(k: nat, shift: Reg)
    requires k < 8
  {
    IsZero(And(shift, TestMask(k)))
  }

  lemma MaskBits(k: nat, i: nat)
    requires k < 8 && i < 8
    ensures Bit(RunMask(k), i) == (k <= 5 ==> i != k + 1 && i != k + 2)
    ensures Bit(TestMask(k), i) == ((k == 6 ==> i != 0) && (k == 7 ==> i != 0 && i != 1))
  {
  }

  /** The bit entered `j` bits before bit `k`. */
  function Back(r: Reg, k: nat, j: nat): bool
    requires k < 8 && j < 8
  {
    r[(k + 8 - j) % 8]
  }

  /** Read backwards and around from bit `k`, the shift register holds `ones` zeros and then a one:
      it keeps ones as zeros, and a stuffed bit leaves a one behind. */
  predicate Window(k: nat, r: Reg, ones: nat)
    requires k < 8
  {
    && ones <= 5 && Back(r, k, ones)
    && (forall j :: 0 <= j < ones ==> !Back(r, k, j))
    && (k == 5 ==> !r[7])
  }

  /** Entering bit `k` behind bit `k - 1`. */
  function Entered(shift: Reg, k: nat, changed: bool): Reg
    requires k < 8
  {
    And(shift[k := changed], RunMask(k))
  }

  lemma EnteredGet(k: nat, shift: Reg, changed: bool, i: nat)
    requires i < 8 && k < 8
    ensures Entered(shift, k, changed)[i] ==
            if i == k then changed else if k <= 5 && (i == k + 1 || i == k + 2) then false else shift[i]
  {
    MaskBits(k, i);
  }

  lemma BackStep(j: nat, k: nat, shift: Reg, changed: bool, n: nat)
    requires j < 8 && k == (j + 1) % 8 && 1 <= n <= 5
    ensures Back(Entered(shift, k, changed), k, n) == Back(shift, j, n - 1)
    ensures Back(Entered(shift, k, changed), k, 0) == changed
  {
    EnteredGet(k, shift, changed, (k + 8 - n) % 8);
    EnteredGet(k, shift, changed, k);
  }

  lemma WindowStep(j: nat, k: nat, shift: Reg, ones: nat, changed: bool)
    requires j < 8 && k == (j + 1) % 8 && Window(j, shift, ones) && (changed || ones < 5)
    ensures Window(k, Entered(shift, k, changed), if changed then 0 else ones + 1)
  {
    forall n | 1 <= n <= 5 ensures Back(Entered(shift, k, changed), k, n) == Back(shift, j, n - 1) {
      BackStep(j, k, shift, changed, n);
    }
    BackStep(j, k, shift, changed, 1);
    if k == 5 { EnteredGet(k, shift, changed, 7); }
  }

  /** A one within the last six keeps the test from firing. */
  lemma WindowNoEscape(k: nat, shift: Reg, ones: nat)
    requires k < 8 && Window(k, shift, ones)
    ensures !Escapes(k, shift)
  {
    var i := (k + 8 - ones) % 8;
    MaskBits(k, i);
    assert And(shift, TestMask(k))[i];
  }

  lemma SixEscapeAt(j: nat, k: nat, shift: Reg, i: nat)
    requires j < 8 && k == (j + 1) % 8 && Window(j, shift, 5) && i < 8
    ensures !And(Entered(shift, k, false), TestMask(k))[i]
  {
    var n := (k + 8 - i) % 8;
    DistanceBack(k, i);
    if 1 <= n <= 5 {
      BackStep(j, k, shift, false, n);
    } else {
      MaskBits(k, i);
      EnteredGet(k, shift, false, i);
    }
  }

  /** Position `i` lies `n` bits before bit `k`; the two positions behind `k` are six and seven bits before it. */
  lemma DistanceBack(k: nat, i: nat)
    requires k < 8 && i < 8
    ensures var n := (k + 8 - i) % 8;
            && (k + 8 - n) % 8 == i && (n == 0 ==> i == k)
            && (n == 6 ==> i == (k + 2) % 8) && (n == 7 ==> i == (k + 1) % 8)
  {
  }

  /** Six ones in a row are noticed. */
  lemma SixEscape(j: nat, k: nat, shift: Reg)
    requires j < 8 && k == (j + 1) % 8 && Window(j, shift, 5)
    ensures var t := Entered(shift, k, false); Escapes(k, t) && !t[k] && (k == 5 ==> !t[7])
  {
    forall i | 0 <= i < 8 ensures !And(Entered(shift, k, false), TestMask(k))[i] {
      SixEscapeAt(j, k, shift, i);
    }
    EnteredGet(k, shift, false, k);
    if k == 5 { EnteredGet(k, shift, false, 7); }
  }

  /** Marking the last bit as a one keeps the stuffed bit from being counted. */
  lemma WindowMarked(k: nat, shift: Reg)
    requires k < 8 && (k == 5 ==> !shift[7])
    ensures Window(k, shift[k := true], 0)
  {
  }

  /** The bits of the byte received so far, one per position up to `k`. Bits that were set in the shift
      register to stop a run are cleared in the marker register; the exclusive or of both is the data. */
  predicate Assembled(k: nat, marks: Reg, shift: Reg, data: seq<bool>)
    requires k < 8
  {
    && |data| == k + 1
    && (forall i :: 0 <= i <= k ==> data[i] == (marks[i] != shift[i]))
    && (forall i :: k < i < 8 ==> marks[i])
  }

  lemma AssembleBit(k: nat, shift: Reg, marks: Reg, changed: bool, data: seq<bool>)
    requires 1 <= k < 8 && Assembled(k - 1, marks, shift, data)
    ensures Assembled(k, marks, Entered(shift, k, changed), data + [!changed])
  {
    forall i | 0 <= i <= k ensures Entered(shift, k, changed)[i] == if i == k then changed else shift[i] {
      EnteredGet(k, shift, changed, i);
    }
  }

  lemma AssembleFirst(shift: Reg, changed: bool)
    ensures Assembled(0, ALL, Entered(shift, 0, changed), [!changed])
  {
    EnteredGet(0, shift, changed, 0);
  }

  /** Marking: the bit is set here and cleared there, so the data stays. */
  lemma MarkBit(k: nat, shift: Reg, marks: Reg, data: seq<bool>)
    requires k < 8 && Assembled(k, marks, shift, data) && marks[k] && !shift[k]
    ensures Assembled(k, marks[k := false], shift[k := true], data)
  {
  }

  /** The stored byte. */
  lemma AssembledByte(marks: Reg, shift: Reg, data: seq<bool>)
    requires Assembled(7, marks, shift, data)
    ensures Xor(marks, shift) == data
  {
  }

  function StoredBits(regs: seq<Reg>): (bits: seq<bool>)
    ensures |bits| == 8 * |regs|
  {
    if |regs| == 0 then [] else StoredBits(regs[..|regs| - 1]) + regs[|regs| - 1]
  }

  lemma StoredSnoc(regs: seq<Reg>, k: nat)
    requires k < |regs|
    ensures StoredBits(regs[..k + 1]) == StoredBits(regs[..k]) + regs[k]
  {
    assert regs[..k + 1][..k] == regs[..k];
  }

  /** The registers after bit `k` of a byte whose bits so far are `data`, with `ones` ones in a row. */
  predicate Agrees(k: nat, shift: Reg, marks: Reg, escape: bool, data: seq<bool>, ones: nat)
    requires k < 8
  {
    && Assembled(k, marks, shift, data)
    && (if escape then Escapes(k, shift) && !shift[k] && marks[k] && (k == 5 ==> !shift[7]) && ones == 0
        else Window(k, shift, ones))
  }

  function OnesAfter(ones: nat, changed: bool): nat {
    if changed || ones + 1 == STUFF_AFTER then 0 else ones + 1
  }

  /** Entering a bit keeps the register in step with the count of ones, or makes it escape at the sixth. */
  lemma EnterWindow(j: nat, k: nat, shift: Reg, ones: nat, changed: bool)
    requires j < 8 && k == (j + 1) % 8 && Window(j, shift, ones)
    ensures var t := Entered(shift, k, changed);
            && Escapes(k, t) == (!changed && ones + 1 == STUFF_AFTER)
            && if Escapes(k, t) then !t[k] && (k == 5 ==> !t[7]) else Window(k, t, OnesAfter(ones, changed))
  {
    if !changed && ones + 1 == STUFF_AFTER {
      SixEscape(j, k, shift);
    } else {
      WindowStep(j, k, shift, ones, changed);
      WindowNoEscape(k, Entered(shift, k, changed), OnesAfter(ones, changed));
    }
  }

  lemma EnterAgrees(k: nat, shift: Reg, marks: Reg, data: seq<bool>, ones: nat, changed: bool)
    requires 1 <= k < 8 && Agrees(k - 1, shift, marks, false, data, ones)
    ensures var t := Entered(shift, k, changed);
            && Agrees(k, t, marks, Escapes(k, t), data + [!changed], OnesAfter(ones, changed))
            && Escapes(k, t) == (!changed && ones + 1 == STUFF_AFTER)
  {
    AssembleBit(k, shift, marks, changed, data);
    EnterWindow(k - 1, k, shift, ones, changed);
  }

  lemma FirstAgrees(shift: Reg, ones: nat, changed: bool)
    requires Window(7, shift, ones)
    ensures var t := Entered(shift, 0, changed);
            && Agrees(0, t, ALL, Escapes(0, t), [!changed], OnesAfter(ones, changed))
            && Escapes(0, t) == (!changed && ones + 1 == STUFF_AFTER)
  {
    AssembleFirst(shift, changed);
    EnterWindow(7, 0, shift, ones, changed);
  }

  lemma UnstuffAgrees(k: nat, shift: Reg, marks: Reg, data: seq<bool>, ones: nat)
    requires k < 8 && Agrees(k, shift, marks, true, data, ones)
    ensures Agrees(k, shift[k := true], marks[k := false], false, data, 0)
  {
    WindowMarked(k, shift);
    MarkBit(k, shift, marks, data);
  }

  /** The bits read so far are those of the stored bytes and of the byte being received. */
  predicate Read(bits: seq<bool>, stored: seq<Reg>, data: seq<bool>) {
    bits == StoredBits(stored) + data
  }

  lemma ReadMore(bits: seq<bool>, stored: seq<Reg>, data: seq<bool>, bit: bool)
    requires Read(bits, stored, data)
    ensures Read(bits + [bit], stored, data + [bit])
  {
    Assoc(StoredBits(stored), data, [bit]);
  }

  lemma ReadBitFields(s: Reader, level: bool)
    ensures var changed := level != s.level;
            ReadBit(s, level) ==
            Reader(level, OnesAfter(s.ones, changed), !changed && s.ones + 1 == STUFF_AFTER, s.bits + [!changed], true)
  {
  }

  lemma ReadIsDirect(s: Reader, level: bool)
    ensures ReadBit(s, level).direct
  {
  }

  lemma ReceiveReads(wire: seq<Line>, i: nat, s: Reader)
    requires !s.skip && |s.bits| < 8 * MAX_BYTES + 2
    requires !(s.direct && |s.bits| % 8 == 1 && Sample(wire, i) == SE0)
    ensures Receive(wire, i, s) == Receive(wire, i + 1, ReadBit(s, Minus(Sample(wire, i))))
  {
  }

  predicate TracksAt(k: nat, wire: seq<Line>, pos: nat, prev: bool, shift: Reg, marks: Reg, escape: bool,
                     stored: seq<Reg>, reader: Reader, data: seq<bool>)
    requires k < 8
  {
    && reader.level == prev && reader.skip == escape
    && Read(reader.bits, stored, data)
    && Agrees(k, shift, marks, escape, data, reader.ones)
    && Receive(wire, 0, FIRST) == Receive(wire, pos, reader)
  }

  lemma EnterTracks(k: nat, wire: seq<Line>, pos: nat, prev: bool, shift: Reg, marks: Reg,
                    stored: seq<Reg>, reader: Reader, data: seq<bool>)
    requires 1 <= k < 8 && TracksAt(k - 1, wire, pos, prev, shift, marks, false, stored, reader, data)
    requires !(reader.direct && |reader.bits| % 8 == 1 && Sample(wire, pos) == SE0)
    requires |reader.bits| < 8 * MAX_BYTES + 2
    ensures var level := Minus(Sample(wire, pos));
            var t := Entered(shift, k, level != prev);
            TracksAt(k, wire, pos + 1, level, t, marks, Escapes(k, t), stored, ReadBit(reader, level), data + [level == prev])
  {
    var level := Minus(Sample(wire, pos));
    EnterAgrees(k, shift, marks, data, reader.ones, level != prev);
    ReadMore(reader.bits, stored, data, level == prev);
    ReceiveReads(wire, pos, reader);
    ReadBitFields(reader, level);
  }

  /** A stuffed bit leaves the reading where it was. */
  lemma UnstuffTracks(k: nat, wire: seq<Line>, pos: nat, prev: bool, shift: Reg, marks: Reg,
                      stored: seq<Reg>, reader: Reader, data: seq<bool>)
    requires k < 8 && TracksAt(k, wire, pos, prev, shift, marks, true, stored, reader, data)
    requires !(reader.direct && |reader.bits| % 8 == 1 && Sample(wire, pos) == SE0)
    ensures var level := Minus(Sample(wire, pos));
            TracksAt(k, wire, pos + 1, level, shift[k := true], marks[k := false], false, stored, SkipBit(reader, level), data)
  {
    UnstuffAgrees(k, shift, marks, data, reader.ones);
  }

  /** Between two bytes: everything read is stored. */
  predicate BetweenAt(wire: seq<Line>, pos: nat, prev: bool, shift: Reg, stored: seq<Reg>, reader: Reader) {
    && reader.level == prev && !reader.skip
    && reader.bits == StoredBits(stored)
    && Window(7, shift, reader.ones)
    && Receive(wire, 0, FIRST) == Receive(wire, pos, reader)
  }

  lemma FirstTracks(wire: seq<Line>, pos: nat, prev: bool, shift: Reg, stored: seq<Reg>, reader: Reader)
    requires BetweenAt(wire, pos, prev, shift, stored, reader) && |reader.bits| <= 8 * MAX_BYTES
    ensures var level := Minus(Sample(wire, pos));
            var t := Entered(shift, 0, level != prev);
            TracksAt(0, wire, pos + 1, level, t, ALL, Escapes(0, t), stored, ReadBit(reader, level), [level == prev])
  {
    var level := Minus(Sample(wire, pos));
    ReceiveReads(wire, pos, reader);
    ReadBitFields(reader, level);
    FirstAgrees(shift, reader.ones, level != prev);
  }

  class Receiver {
    const wire: seq<Line>
    var pos: nat           // samples taken
    var prev: bool         // the last sample, in x1 and x2 by turns
    var shift: Reg
    var marks: Reg         // x3
    var escape: bool       // six ones in a row: the next sample is a stuffed bit
    var cnt: nat           // room left, in bytes
    const buffer: array<Reg>
    var y: nat             // bytes stored

    ghost var reader: Reader
    ghost var data: seq<bool>  // bits of the current byte

    /** The registers agree with the reading of the line code, bit `k` of byte `y` having been entered. */
    ghost predicate Tracks(k: nat)
      requires k < 8
      reads this, buffer
    {
      && buffer.Length == MAX_BYTES && y <= MAX_BYTES
      && TracksAt(k, wire, pos, prev, shift, marks, escape, buffer[..y], reader, data)
    }

    constructor (wire: seq<Line>)
      ensures this.wire == wire && Tracks(0) && fresh(buffer)
      ensures y == 0 && reader.direct && cnt == MAX_BYTES
    {
      this.wire := wire;
      var x := Sample(wire, 0);
      // bit 0 of the first byte is compared with K, the level of the last sync bit
      shift := ALL[0 := Minus(x)];
      marks := ALL;
      prev := Minus(x);
      pos := 1;
      escape := false;
      cnt := MAX_BYTES;
      y := 0;
      buffer := new Reg[MAX_BYTES](_ => ALL);
      reader := ReadBit(FIRST, Minus(x));
      data := [!Minus(x)];
      new;
      assert buffer[..0] == [];
    }

    /** The registers behind a sample that has been dealt with. */
    method TakeSample(k: nat, level: bool, entered: Reg, marked: Reg, escaped: bool, ghost read: Reader, ghost bits: seq<bool>)
      requires k < 8 && buffer.Length == MAX_BYTES && y <= MAX_BYTES
      requires TracksAt(k, wire, pos + 1, level, entered, marked, escaped, buffer[..y], read, bits)
      modifies this`prev, this`pos, this`shift, this`marks, this`escape, this`reader, this`data
      ensures Tracks(k) && reader == read && data == bits && escape == escaped
    {
      marks := marked;
      shift := entered;
      prev := level;
      pos := pos + 1;
      escape := escaped;
      reader := read;
      data := bits;
    }

    /** Takes a stuffed bit off the line: the escape branch behind bit `k`. */
    method Unstuff(k: nat, x: Line)
      requires k < 8 && Tracks(k) && escape
      requires x == Sample(wire, pos) && !(reader.direct && |reader.bits| % 8 == 1 && x == SE0)
      modifies this
      ensures Tracks(k) && !escape && !reader.direct && y == old(y) && cnt == old(cnt)
    {
      UnstuffTracks(k, wire, pos, prev, shift, marks, buffer[..y], reader, data);
      TakeSample(k, Minus(x), shift[k := true], marks[k := false], false, SkipBit(reader, Minus(x)), data);
    }

    /** Enters bit `k` of the current byte, `k` at least 1, and tests for six ones. */
    method Enter(k: nat, x: Line)
      requires 1 <= k < 8 && Tracks(k - 1) && !escape && x == Sample(wire, pos)
      requires !(reader.direct && |reader.bits| % 8 == 1 && x == SE0)
      requires |reader.bits| < 8 * MAX_BYTES + 2
      modifies this
      ensures Tracks(k) && reader.direct && y == old(y) && cnt == old(cnt)
    {
      var changed := Minus(x) != prev;
      var entered := Entered(shift, k, changed);
      EnterTracks(k, wire, pos, prev, shift, marks, buffer[..y], reader, data);
      ReadIsDirect(reader, Minus(x));
      TakeSample(k, Minus(x), entered, marks, Escapes(k, entered), ReadBit(reader, Minus(x)), data + [Minus(x) == prev]);
    }

    ghost predicate Between()
      reads this, buffer
    {
      && buffer.Length == MAX_BYTES && y <= MAX_BYTES && !escape
      && BetweenAt(wire, pos, prev, shift, buffer[..y], reader)
    }

    method Store()
      requires Tracks(7) && !escape && y < MAX_BYTES
      modifies this`y, buffer
      ensures Between() && y == old(y) + 1
    {
      AssembledByte(marks, shift, data);
      StoredSnoc(buffer[..y] + [data], y);
      buffer[y] := Xor(marks, shift);
      y := y + 1;
      assert buffer[..y] == old(buffer[..y]) + [data];
      assert (old(buffer[..y]) + [data])[..y - 1] == old(buffer[..y]);
    }

    method EnterFirst(x: Line)
      requires Between() && x == Sample(wire, pos) && |reader.bits| <= 8 * MAX_BYTES
      modifies this
      ensures Tracks(0) && reader.direct && y == old(y) && cnt == old(cnt)
    {
      var changed := Minus(x) != prev;
      FirstTracks(wire, pos, prev, shift, buffer[..y], reader);
      ReadBitFields(reader, Minus(x));
      var entered := Entered(shift, 0, changed);
      TakeSample(0, Minus(x), entered, ALL, Escapes(0, entered), ReadBit(reader, Minus(x)), [Minus(x) == prev]);
    }

    /** Bit `k`, unstuffing behind bit `k - 1` if need be; the third bit of a byte also checks for room. */
    method ReceiveBit(k: nat) returns (overflow: bool)
      requires 1 <= k < 8 && Tracks(k - 1) && cnt == MAX_BYTES - y - (if k > 2 then 1 else 0)
      requires k == 1 ==> Sample(wire, pos) != SE0
      modifies this
      ensures overflow ==> Receive(wire, 0, FIRST) == Overflow
      ensures !overflow ==> Tracks(k) && reader.direct && y == old(y) && (k == 2 ==> y < MAX_BYTES)
      ensures !overflow ==> cnt == MAX_BYTES - y - (if k >= 2 then 1 else 0)
    {
      assert |reader.bits| == 8 * y + k;
      var x := Sample(wire, pos);
      if escape {
        Unstuff(k - 1, x);
        x := Sample(wire, pos);
      }
      if k == 2 {
        if cnt == 0 {
          return true;
        }
        cnt := cnt - 1;
      }
      Enter(k, x);
      overflow := false;
    }

    /** Bits 1 to 7 of a byte, and the stuffed bit behind it. */
    method ReceiveRest() returns (overflow: bool)
      requires Tracks(0) && cnt == MAX_BYTES - y && Sample(wire, pos) != SE0
      modifies this
      ensures overflow ==> Receive(wire, 0, FIRST) == Overflow
      ensures !overflow ==> Tracks(7) && !escape && y == old(y) && y < MAX_BYTES && cnt == MAX_BYTES - y - 1
    {
      var k := 1;
      while k < 8
        invariant 1 <= k <= 8 && Tracks(k - 1) && y == old(y) && (k > 2 ==> y < MAX_BYTES)
        invariant cnt == MAX_BYTES - y - (if k > 2 then 1 else 0)
        invariant k == 1 ==> Sample(wire, pos) != SE0
      {
        overflow := ReceiveBit(k);
        if overflow {
          return;
        }
        k := k + 1;
      }
      overflow := false;
      if escape {
        Unstuff(7, Sample(wire, pos));
      }
    }

    /** The rest of the current byte, and the first bit of the next. */
    method ReceiveByte() returns (overflow: bool)
      requires Tracks(0) && cnt == MAX_BYTES - y && Sample(wire, pos) != SE0
      modifies this, buffer
      ensures overflow ==> Receive(wire, 0, FIRST) == Overflow
      ensures !overflow ==> Tracks(0) && reader.direct && cnt == MAX_BYTES - y && y == old(y) + 1
    {
      overflow := ReceiveRest();
      if !overflow {
        Store();
        EnterFirst(Sample(wire, pos));
      }
    }
  }

  /** The end of a packet, one bit into what would be the next byte. */
  lemma EndOfPacket(wire: seq<Line>, i: nat, s: Reader, stored: seq<Reg>, data: seq<bool>)
    requires Sample(wire, i) == SE0 && s.direct && |data| == 1 && Read(s.bits, stored, data)
    ensures Receive(wire, i, s) == Packet(StoredBits(stored))
  {
    assert s.bits[..|s.bits| - 1] == StoredBits(stored);
  }

  datatype Received = Bytes(regs: seq<Reg>) | TooLong

  /** Receives one packet, from the sample after the two K bits that end the sync byte. */
  method ReceivePacket(wire: seq<Line>) returns (r: Received)
    ensures Receive(wire, 0, FIRST) == if r.Bytes? then Packet(StoredBits(r.regs)) else Overflow
    ensures r.Bytes? ==> |r.regs| <= MAX_BYTES
  {
    var rx := new Receiver(wire);
    while Sample(wire, rx.pos) != SE0
      invariant fresh(rx) && fresh(rx.buffer) && rx.wire == wire
      invariant rx.Tracks(0) && rx.reader.direct && rx.cnt == MAX_BYTES - rx.y
      decreases MAX_BYTES - rx.y
    {
      var overflow := rx.ReceiveByte();
      if overflow {
        return TooLong;
      }
    }
    EndOfPacket(wire, rx.pos, rx.reader, rx.buffer[..rx.y], rx.data);
    return Bytes(rx.buffer[..rx.y]);
  }
}
