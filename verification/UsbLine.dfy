/** The USB line code of sections 7.1.8 and 7.1.9 of USB 2.0: NRZI levels with a zero stuffed after six ones. */
module UsbLine {
  import opened Machines
  import opened Sequences

  /** Levels are those of the D- line: idle (J) is high. SE0 pulls both lines low. */
  datatype Line = J | K | SE0

  function LineOf(level: bool): Line { if level then J else K }

  function Lines(levels: seq<bool>): (lines: seq<Line>)
    ensures |lines| == |levels|
  {
    seq(|levels|, i requires 0 <= i < |levels| => LineOf(levels[i]))
  }

  const STUFF_AFTER: nat := 6

  /** Current level, and how many ones have been sent since the last zero. */
  datatype Coder = Coder(level: bool, ones: nat)

  /** A zero toggles the line, a one does not, and six ones in a row are followed by a stuffed zero. */
  function Encode(s: Coder, bit: bool): Result<Coder, bool> {
    if !bit then Result(Coder(!s.level, 0), [!s.level])
    else if s.ones + 1 == STUFF_AFTER then Result(Coder(!s.level, 0), [s.level, !s.level])
    else Result(Coder(s.level, s.ones + 1), [s.level])
  }

  const IDLE := Coder(true, 0)

  // ---- Bytes on the wire, least significant bit first ----

  function BitMask(k: nat): bv8
    requires k < 8
  {
    if k == 0 then 0x01 else if k == 1 then 0x02 else if k == 2 then 0x04 else if k == 3 then 0x08
    else if k == 4 then 0x10 else if k == 5 then 0x20 else if k == 6 then 0x40 else 0x80
  }

  predicate Bit(b: bv8, k: nat)
    requires k < 8
  {
    b & BitMask(k) != 0
  }

  function ByteBits(b: bv8): (bits: seq<bool>)
    ensures |bits| == 8
  {
    seq(8, k requires 0 <= k < 8 => Bit(b, k))
  }

  function Bits(bytes: seq<bv8>): (bits: seq<bool>)
    ensures |bits| == 8 * |bytes|
  {
    if |bytes| == 0 then [] else Bits(bytes[..|bytes| - 1]) + ByteBits(bytes[|bytes| - 1])
  }

  lemma SameBitsSameByte(a: bv8, b: bv8)
    requires ByteBits(a) == ByteBits(b)
    ensures a == b
  {
    var x, y := ByteBits(a), ByteBits(b);
    assert x[0] == y[0] && x[1] == y[1] && x[2] == y[2] && x[3] == y[3];
    assert x[4] == y[4] && x[5] == y[5] && x[6] == y[6] && x[7] == y[7];
  }

  /** Bytes are determined by their bits. */
  lemma {:induction false} BitsInjective(a: seq<bv8>, b: seq<bv8>)
    requires Bits(a) == Bits(b)
    ensures a == b
  {
    if |a| > 0 {
      var x, y := a[..|a| - 1], b[..|b| - 1];
      assert Bits(a)[..8 * |x|] == Bits(x) && Bits(b)[..8 * |y|] == Bits(y);
      assert Bits(a)[8 * |x|..] == ByteBits(a[|a| - 1]) && Bits(b)[8 * |y|..] == ByteBits(b[|b| - 1]);
      BitsInjective(x, y);
      SameBitsSameByte(a[|a| - 1], b[|b| - 1]);
      SnocInit(a);
      SnocInit(b);
    }
  }

  const SYNC: bv8 := 0x80

  /** The levels of a packet: the sync byte, then its bytes. */
  function PacketLevels(data: seq<bv8>): seq<bool> {
    Fold(Encode, IDLE, Bits([SYNC] + data)).out
  }

  /** A whole packet on the line, ended by two bit times of SE0. */
  function Wire(data: seq<bv8>): seq<Line> {
    Lines(PacketLevels(data)) + [SE0, SE0]
  }

  // ---- No level lasts longer than seven bit times ----

  /** The number of bit times the line has spent at its last level. */
  function Dwell(levels: seq<bool>): nat {
    var n := |levels|;
    if n == 0 then 0
    else if n > 1 && levels[n - 2] == levels[n - 1] then Dwell(levels[..n - 1]) + 1
    else 1
  }

  predicate Lively(levels: seq<bool>) {
    forall n :: 0 <= n <= |levels| ==> Dwell(levels[..n]) <= 7
  }

  lemma DwellSnoc(levels: seq<bool>, x: bool)
    ensures Dwell(levels + [x]) == if |levels| > 0 && levels[|levels| - 1] == x then Dwell(levels) + 1 else 1
  {
    assert (levels + [x])[..|levels|] == levels;
  }

  lemma LivelySnoc(levels: seq<bool>, x: bool)
    requires Lively(levels) && Dwell(levels + [x]) <= 7
    ensures Lively(levels + [x])
  {
    var more := levels + [x];
    forall n | 0 <= n <= |more| ensures Dwell(more[..n]) <= 7 {
      if n <= |levels| { assert more[..n] == levels[..n]; } else { assert more[..n] == more; }
    }
  }

  /** What the coder state knows about the levels sent: it dwells one bit time per one, and one for the zero before. */
  predicate DwellsAs(levels: seq<bool>, s: Coder) {
    && s.ones < STUFF_AFTER
    && (|levels| > 0 ==> levels[|levels| - 1] == s.level)
    && Dwell(levels) <= s.ones + 1
    && Lively(levels)
  }

  lemma EncodeDwells(levels: seq<bool>, s: Coder, bit: bool)
    requires DwellsAs(levels, s)
    ensures DwellsAs(levels + Encode(s, bit).out, Encode(s, bit).state)
  {
    if !bit {
      Toggled(levels, !s.level);
    } else if |levels| == 0 {
      Toggled(levels, s.level);
    } else {
      Held(levels, s.level);
    }
    if bit && s.ones + 1 == STUFF_AFTER {
      Toggled(levels + [s.level], !s.level);
      assert levels + [s.level, !s.level] == levels + [s.level] + [!s.level];
    }
  }

  lemma Toggled(levels: seq<bool>, x: bool)
    requires Lively(levels) && (|levels| > 0 ==> levels[|levels| - 1] != x)
    ensures Lively(levels + [x]) && Dwell(levels + [x]) == 1
  {
    DwellSnoc(levels, x);
    LivelySnoc(levels, x);
  }

  lemma Held(levels: seq<bool>, x: bool)
    requires Lively(levels) && |levels| > 0 && levels[|levels| - 1] == x && Dwell(levels) <= STUFF_AFTER
    ensures Lively(levels + [x]) && Dwell(levels + [x]) == Dwell(levels) + 1
  {
    DwellSnoc(levels, x);
    LivelySnoc(levels, x);
  }

  /** Whatever is sent, no level lasts eight bit times; so the receiver sees an edge at least every seven. */
  lemma {:induction false} NeverEightEqual(bits: seq<bool>)
    ensures DwellsAs(Fold(Encode, IDLE, bits).out, Fold(Encode, IDLE, bits).state)
  {
    if |bits| > 0 {
      NeverEightEqual(bits[..|bits| - 1]);
      EncodeDwells(Fold(Encode, IDLE, bits[..|bits| - 1]).out, Fold(Encode, IDLE, bits[..|bits| - 1]).state, bits[|bits| - 1]);
    }
  }

  /** Somewhere the line stays for seven bit times. */
  predicate ReachesSeven(levels: seq<bool>) {
    exists n :: 0 <= n <= |levels| && Dwell(levels[..n]) == 7
  }

  lemma ReachesSnoc(levels: seq<bool>, x: bool)
    ensures ReachesSeven(levels + [x]) <==> ReachesSeven(levels) || Dwell(levels + [x]) == 7
  {
    var more := levels + [x];
    if ReachesSeven(levels) {
      var n :| 0 <= n <= |levels| && Dwell(levels[..n]) == 7;
      assert more[..n] == levels[..n];
    }
    if Dwell(more) == 7 { assert more[..|more|] == more; }
    if ReachesSeven(more) {
      var n :| 0 <= n <= |more| && Dwell(more[..n]) == 7;
      if n <= |levels| { assert more[..n] == levels[..n]; } else { assert more[..n] == more; }
    }
  }

  predicate DwellsExactly(levels: seq<bool>, s: Coder, sent: nat) {
    && s.ones < STUFF_AFTER && |levels| > 0
    && levels[|levels| - 1] == s.level && Dwell(levels) == s.ones + 1
    && |levels| >= sent && (ReachesSeven(levels) <==> |levels| > sent)
  }

  lemma EncodeDwellsExactly(levels: seq<bool>, s: Coder, sent: nat, bit: bool)
    requires DwellsExactly(levels, s, sent)
    ensures DwellsExactly(levels + Encode(s, bit).out, Encode(s, bit).state, sent + 1)
  {
    var x := if bit then s.level else !s.level;
    DwellSnoc(levels, x);
    ReachesSnoc(levels, x);
    if bit && s.ones + 1 == STUFF_AFTER {
      DwellSnoc(levels + [x], !x);
      ReachesSnoc(levels + [x], !x);
      assert levels + [x, !x] == levels + [x] + [!x];
    }
  }

  lemma FirstZero()
    ensures DwellsExactly([!IDLE.level], Coder(!IDLE.level, 0), 1)
  {
    DwellSnoc([], !IDLE.level);
    ReachesSnoc([], !IDLE.level);
    assert [] + [!IDLE.level] == [!IDLE.level];
  }

  lemma {:induction false} ExactRun(bits: seq<bool>)
    requires |bits| > 0 && !bits[0]
    ensures DwellsExactly(Fold(Encode, IDLE, bits).out, Fold(Encode, IDLE, bits).state, |bits|)
  {
    if |bits| == 1 {
      assert bits == [false];
      FoldOne(Encode, IDLE, false);
      FirstZero();
    } else {
      ExactRun(bits[..|bits| - 1]);
      EncodeDwellsExactly(Fold(Encode, IDLE, bits[..|bits| - 1]).out, Fold(Encode, IDLE, bits[..|bits| - 1]).state,
                          |bits| - 1, bits[|bits| - 1]);
    }
  }

  /** Six ones in a row among the bits to be sent. */
  predicate SixOnes(bits: seq<bool>) {
    exists i :: 0 <= i <= |bits| - STUFF_AFTER && OnesAt(bits, i, STUFF_AFTER)
  }

  predicate OnesAt(bits: seq<bool>, i: nat, n: nat)
    requires i + n <= |bits|
  {
    forall j :: i <= j < i + n ==> bits[j]
  }

  function TrailingOnes(bits: seq<bool>): (n: nat)
    ensures n <= |bits| && OnesAt(bits, |bits| - n, n)
    ensures n < |bits| ==> !bits[|bits| - 1 - n]
  {
    if |bits| == 0 || !bits[|bits| - 1] then 0 else TrailingOnes(bits[..|bits| - 1]) + 1
  }

  lemma OnesKept(bits: seq<bool>, bit: bool, i: nat)
    requires i + STUFF_AFTER <= |bits|
    ensures OnesAt(bits + [bit], i, STUFF_AFTER) <==> OnesAt(bits, i, STUFF_AFTER)
  {
    assert forall j :: 0 <= j < |bits| ==> (bits + [bit])[j] == bits[j];
  }

  lemma EndsInSix(bits: seq<bool>)
    requires |bits| >= STUFF_AFTER
    ensures OnesAt(bits, |bits| - STUFF_AFTER, STUFF_AFTER) <==> TrailingOnes(bits) >= STUFF_AFTER
  {
    var n := |bits| - 1 - TrailingOnes(bits);
    assert n >= |bits| - STUFF_AFTER ==> !bits[n];
  }

  /** Six ones in a row were there before, or are the last ones. */
  lemma SixOnesSnoc(bits: seq<bool>, bit: bool)
    ensures SixOnes(bits + [bit]) <==> SixOnes(bits) || TrailingOnes(bits + [bit]) >= STUFF_AFTER
  {
    var more := bits + [bit];
    var last := |more| - STUFF_AFTER;
    if last >= 0 { EndsInSix(more); }
    if SixOnes(bits) {
      var i :| 0 <= i <= |bits| - STUFF_AFTER && OnesAt(bits, i, STUFF_AFTER);
      OnesKept(bits, bit, i);
    }
    if SixOnes(more) {
      var i :| 0 <= i <= last && OnesAt(more, i, STUFF_AFTER);
      if i < last { OnesKept(bits, bit, i); }
    }
  }

  lemma TrailingSnoc(bits: seq<bool>, bit: bool)
    ensures TrailingOnes(bits + [bit]) == if bit then TrailingOnes(bits) + 1 else 0
  {
    assert (bits + [bit])[..|bits|] == bits;
  }

  /** Until there have been six ones in a row, the coder counts them and stuffs nothing. */
  predicate Stuffed(bits: seq<bool>, r: Result<Coder, bool>) {
    if SixOnes(bits) then |r.out| > |bits| else r.state.ones == TrailingOnes(bits) && |r.out| == |bits|
  }

  lemma StuffedNext(bits: seq<bool>, bit: bool, r: Result<Coder, bool>)
    requires Stuffed(bits, r)
    ensures var last := Encode(r.state, bit); Stuffed(bits + [bit], Result(last.state, r.out + last.out))
  {
    SixOnesSnoc(bits, bit);
    TrailingSnoc(bits, bit);
    if |bits| >= STUFF_AFTER { EndsInSix(bits); }
  }

  lemma {:induction false} StuffedIffSixOnes(bits: seq<bool>)
    ensures Stuffed(bits, Fold(Encode, IDLE, bits))
  {
    if |bits| > 0 {
      StuffedIffSixOnes(bits[..|bits| - 1]);
      SnocInit(bits);
      StuffedNext(bits[..|bits| - 1], bits[|bits| - 1], Fold(Encode, IDLE, bits[..|bits| - 1]));
    }
  }

  /** What begins with a zero, as every packet does, keeps the line at one level for seven bit times
      exactly if there are six ones in a row in it: the level of the zero before them is held through them. */
  lemma SevenIffSixOnes(bits: seq<bool>)
    requires |bits| > 0 && !bits[0]
    ensures ReachesSeven(Fold(Encode, IDLE, bits).out) <==> SixOnes(bits)
  {
    ExactRun(bits);
    StuffedIffSixOnes(bits);
  }

  lemma SyncBits()
    ensures !Bit(SYNC, 0) && !Bit(SYNC, 6) && Bit(SYNC, 7)
  {
  }

  lemma {:induction false} BitAt(bytes: seq<bv8>, i: nat, k: nat)
    requires i < |bytes| && k < 8
    ensures Bits(bytes)[8 * i + k] == Bit(bytes[i], k)
  {
    if i + 1 < |bytes| { BitAt(bytes[..|bytes| - 1], i, k); }
  }

  /** The same of a packet, whose bits are those of the sync byte and of its data. */
  lemma PacketReachesSeven(data: seq<bv8>)
    ensures ReachesSeven(PacketLevels(data)) <==> SixOnes(Bits([SYNC] + data))
  {
    BitAt([SYNC] + data, 0, 0);
    SyncBits();
    SevenIffSixOnes(Bits([SYNC] + data));
  }

  lemma AllOnes(k: nat)
    requires k < 8
    ensures Bit(0xff, k)
  {
  }

  /** A packet with a byte 0xff does stay at one level for seven bit times. */
  lemma ByteOfOnesReachesSeven(data: seq<bv8>, i: nat)
    requires i < |data| && data[i] == 0xff
    ensures ReachesSeven(PacketLevels(data))
  {
    var bytes := [SYNC] + data;
    var at := 8 * (i + 1);
    forall j | at <= j < at + STUFF_AFTER ensures Bits(bytes)[j] {
      BitAt(bytes, i + 1, j - at);
      AllOnes(j - at);
    }
    assert OnesAt(Bits(bytes), at, STUFF_AFTER);
    PacketReachesSeven(data);
  }
}
