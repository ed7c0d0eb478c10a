/** What the receiver makes of what the transmitter sends. */
module UsbRoundTrip {
  import opened Machines
  import opened Sequences
  import opened UsbLine
  import opened UsbReceive
  import opened UsbTransmit

  /** Section 8.3.1: the upper half of a packet identifier is the complement of the lower half. */
  predicate ValidPid(pid: bv8) {
    pid >> 4 == !pid & 0x0f
  }

  /** The receiver starts behind the first two consecutive K bits, the end of the sync byte. */
  function BehindSync(wire: seq<Line>, i: nat): nat
    decreases |wire| - i
  {
    if i + 1 >= |wire| || (wire[i] == K && wire[i + 1] == K) then i + 2 else BehindSync(wire, i + 1)
  }

  // ---- Unstuffing inverts stuffing ----

  /** The line from sample `i` on carries `bits` in line code, then the end of the packet. */
  predicate Carries(wire: seq<Line>, i: nat, s: Coder, bits: seq<bool>) {
    i <= |wire| && wire[i..] == Lines(Fold(Encode, s, bits).out) + [SE0, SE0]
  }

  lemma CarriesNext(wire: seq<Line>, i: nat, s: Coder, bits: seq<bool>)
    requires |bits| > 0 && Carries(wire, i, s, bits)
    ensures var r := Encode(s, bits[0]);
            && Carries(wire, i + |r.out|, r.state, bits[1..])
            && forall j :: 0 <= j < |r.out| ==> Sample(wire, i + j) == LineOf(r.out[j])
  {
    var r := Encode(s, bits[0]);
    FoldCons(Encode, s, bits);
    var rest := Fold(Encode, r.state, bits[1..]).out;
    LinesConcat(r.out, rest);
    Assoc(Lines(r.out), Lines(rest), [SE0, SE0]);
    Peel(wire, i, Lines(r.out), Lines(rest) + [SE0, SE0]);
  }

  lemma LinesConcat(a: seq<bool>, b: seq<bool>)
    ensures Lines(a + b) == Lines(a) + Lines(b)
  {
  }

  lemma Peel(wire: seq<Line>, i: nat, a: seq<Line>, b: seq<Line>)
    requires i <= |wire| && wire[i..] == a + b
    ensures i + |a| <= |wire| && wire[i + |a|..] == b
    ensures forall j :: 0 <= j < |a| ==> Sample(wire, i + j) == a[j]
  {
    assert wire[i + |a|..] == wire[i..][|a|..];
    forall j | 0 <= j < |a| ensures Sample(wire, i + j) == a[j] {
      assert wire[i + j] == wire[i..][j];
    }
  }

  /** One data bit: one level, or two of which the second is skipped. */
  lemma ReceivesBit(wire: seq<Line>, i: nat, s: Reader, bits: seq<bool>)
    requires |bits| > 0 && Carries(wire, i, Coder(s.level, s.ones), bits)
    requires !s.skip && s.ones < STUFF_AFTER && |s.bits| < 8 * MAX_BYTES
    ensures var r := Encode(Coder(s.level, s.ones), bits[0]);
            var t := Reader(r.state.level, r.state.ones, false, s.bits + [bits[0]], |r.out| == 1);
            Receive(wire, i, s) == Receive(wire, i + |r.out|, t) && r.state.ones < STUFF_AFTER
  {
    CarriesNext(wire, i, Coder(s.level, s.ones), bits);
    var r := Encode(Coder(s.level, s.ones), bits[0]);
    assert Sample(wire, i + 0) == LineOf(r.out[0]);
    ReceiveReads(wire, i, s);
    ReadBitFields(s, r.out[0]);
    if |r.out| == 2 {
      assert Sample(wire, i + 1) == LineOf(r.out[1]);
      SkipsStuffed(wire, i + 1, ReadBit(s, r.out[0]));
    }
  }

  lemma SkipsStuffed(wire: seq<Line>, i: nat, s: Reader)
    requires s.skip && Sample(wire, i) != SE0
    ensures Receive(wire, i, s) == Receive(wire, i + 1, SkipBit(s, Minus(Sample(wire, i))))
  {
  }

  lemma ReceivesEnd(wire: seq<Line>, i: nat, s: Reader)
    requires !s.skip && Sample(wire, i) == SE0 && Sample(wire, i + 1) == SE0
    requires |s.bits| % 8 == 0 && |s.bits| <= 8 * MAX_BYTES
    ensures Receive(wire, i, s) == Packet(s.bits)
  {
    ReceiveReads(wire, i, s);
    var t := ReadBit(s, false);
    assert t.bits[..|t.bits| - 1] == s.bits;
    assert t.direct && |t.bits| % 8 == 1;
  }

  /** Unstuffing inverts stuffing, from any common level and count of ones. */
  lemma {:induction false} ReceivesBits(wire: seq<Line>, i: nat, s: Reader, bits: seq<bool>)
    requires Carries(wire, i, Coder(s.level, s.ones), bits)
    requires !s.skip && s.ones < STUFF_AFTER
    requires (|s.bits| + |bits|) % 8 == 0 && |s.bits| + |bits| <= 8 * MAX_BYTES
    ensures Receive(wire, i, s) == Packet(s.bits + bits)
    decreases |bits|
  {
    if |bits| == 0 {
      assert Lines([]) + [SE0, SE0] == [SE0, SE0];
      assert wire[i] == wire[i..][0] && wire[i + 1] == wire[i..][1];
      ReceivesEnd(wire, i, s);
      EmptyRight(s.bits);
    } else {
      ReceivesBit(wire, i, s, bits);
      CarriesNext(wire, i, Coder(s.level, s.ones), bits);
      var r := Encode(Coder(s.level, s.ones), bits[0]);
      var t := Reader(r.state.level, r.state.ones, false, s.bits + [bits[0]], |r.out| == 1);
      ReceivesBits(wire, i + |r.out|, t, bits[1..]);
      Assoc(s.bits, [bits[0]], bits[1..]);
      ConsTail(bits);
    }
  }

  // ---- The sync byte ----

  predicate AllOnes(bits: seq<bool>) { forall i :: 0 <= i < |bits| ==> bits[i] }

  lemma {:induction false} EncodeOnes(level: bool, ones: nat, bits: seq<bool>)
    requires AllOnes(bits) && ones + |bits| < STUFF_AFTER
    ensures Fold(Encode, Coder(level, ones), bits) == Result(Coder(level, ones + |bits|), Replicate(level, |bits|))
  {
    if |bits| > 0 {
      EncodeOnes(level, ones, bits[..|bits| - 1]);
      assert Replicate(level, |bits| - 1) + [level] == Replicate(level, |bits|);
    }
  }

  lemma ZeroForgets(level: bool, ones: nat, pre: seq<bool>)
    requires AllOnes(pre) && ones + |pre| < STUFF_AFTER
    ensures Fold(Encode, Coder(level, ones), pre + [false]) ==
            Result(Coder(!level, 0), Replicate(level, |pre|) + [!level])
  {
    EncodeOnes(level, ones, pre);
    FoldSnoc(Encode, Coder(level, ones), pre, false);
  }

  /** A count of ones that the next zero comes too early for makes no difference. */
  lemma CountForgotten(level: bool, ones: nat, bits: seq<bool>, z: nat)
    requires z < |bits| && !bits[z] && AllOnes(bits[..z]) && ones + z < STUFF_AFTER
    ensures Fold(Encode, Coder(level, ones), bits) == Fold(Encode, Coder(level, 0), bits)
  {
    var pre, rest := bits[..z], bits[z + 1..];
    ZeroForgets(level, ones, pre);
    ZeroForgets(level, 0, pre);
    SplitAt(bits, z);
    FoldConcat(Encode, Coder(level, ones), pre + [false], rest);
    FoldConcat(Encode, Coder(level, 0), pre + [false], rest);
  }

  /** Not all of the first five bits are ones; with the one that ends the sync byte there would be six. */
  predicate EarlyZero(first: bv8) { first & 0x1f != 0x1f }

  lemma ValidPidHasEarlyZero(pid: bv8)
    requires ValidPid(pid)
    ensures EarlyZero(pid)
  {
  }

  lemma FindEarlyZero(pid: bv8) returns (z: nat)
    requires EarlyZero(pid)
    ensures z <= 4 && !Bit(pid, z) && forall i :: 0 <= i < z ==> Bit(pid, i)
  {
    if !Bit(pid, 0) { z := 0; }
    else if !Bit(pid, 1) { z := 1; }
    else if !Bit(pid, 2) { z := 2; }
    else if !Bit(pid, 3) { z := 3; }
    else { z := 4; }
  }

  lemma SyncBits()
    ensures ByteBits(SYNC) == [false, false, false, false, false, false, false, true]
  {
    assert !Bit(SYNC, 0) && !Bit(SYNC, 1) && !Bit(SYNC, 2) && !Bit(SYNC, 3);
    assert !Bit(SYNC, 4) && !Bit(SYNC, 5) && !Bit(SYNC, 6) && Bit(SYNC, 7);
  }

  lemma SyncLevels()
    ensures Fold(Encode, IDLE, ByteBits(SYNC)) ==
            Result(Coder(false, 1), [false, true, false, true, false, true, false, false])
  {
    SyncBits();
    var w := ByteBits(SYNC);
    FoldNext(Encode, IDLE, w, 0);
    FoldNext(Encode, IDLE, w, 1);
    FoldNext(Encode, IDLE, w, 2);
    FoldNext(Encode, IDLE, w, 3);
    FoldNext(Encode, IDLE, w, 4);
    FoldNext(Encode, IDLE, w, 5);
    FoldNext(Encode, IDLE, w, 6);
    FoldNext(Encode, IDLE, w, 7);
    assert w[..8] == w;
  }

  lemma PacketBits(data: seq<bv8>)
    ensures Bits([SYNC] + data) == ByteBits(SYNC) + Bits(data)
    decreases |data|
  {
    if |data| == 0 {
      assert [SYNC] + data == [SYNC];
      assert [SYNC][..0] == [];
      assert Bits([SYNC][..0]) == [];
      assert Bits([SYNC]) == [] + ByteBits(SYNC);
      EmptyRight(ByteBits(SYNC));
    } else {
      var d := data[..|data| - 1];
      PacketBits(d);
      assert ([SYNC] + data)[..|data|] == [SYNC] + d;
      Assoc(ByteBits(SYNC), Bits(d), ByteBits(data[|data| - 1]));
    }
  }

  lemma FirstByteBits(data: seq<bv8>, k: nat)
    requires |data| > 0 && k < 8
    ensures Bits(data)[k] == Bit(data[0], k)
    decreases |data|
  {
    if |data| > 1 {
      FirstByteBits(data[..|data| - 1], k);
    } else {
      assert data[..0] == [];
    }
  }

  /** The receiver does not count the one that ends the sync byte; for a valid identifier that makes no difference. */
  lemma PidForgets(data: seq<bv8>)
    requires |data| > 0 && EarlyZero(data[0])
    ensures Fold(Encode, Coder(false, 1), Bits(data)) == Fold(Encode, Coder(false, 0), Bits(data))
  {
    var z := FindEarlyZero(data[0]);
    forall i | 0 <= i <= z ensures Bits(data)[i] == Bit(data[0], i) { FirstByteBits(data, i); }
    CountForgotten(false, 1, Bits(data), z);
  }

  /** The levels of a packet: those of the sync byte, then those of its bytes, as if nothing had gone before. */
  lemma PacketSplit(data: seq<bv8>)
    requires |data| > 0 && EarlyZero(data[0])
    ensures PacketLevels(data) ==
            [false, true, false, true, false, true, false, false] + Fold(Encode, Coder(false, 0), Bits(data)).out
  {
    PacketBits(data);
    SyncLevels();
    PidForgets(data);
    FoldConcat(Encode, IDLE, ByteBits(SYNC), Bits(data));
  }

  lemma SyncFound(wire: seq<Line>)
    requires |wire| >= 8 && wire[..8] == [K, J, K, J, K, J, K, K]
    ensures BehindSync(wire, 0) == 8
  {
    assert wire[0] == wire[..8][0] && wire[1] == wire[..8][1] && wire[2] == wire[..8][2] && wire[3] == wire[..8][3];
    assert wire[4] == wire[..8][4] && wire[5] == wire[..8][5] && wire[6] == wire[..8][6] && wire[7] == wire[..8][7];
    assert BehindSync(wire, 6) == 8;
    assert BehindSync(wire, 4) == BehindSync(wire, 5) == BehindSync(wire, 6);
    assert BehindSync(wire, 2) == BehindSync(wire, 3) == BehindSync(wire, 4);
  }

  lemma JoinWire(levels: seq<bool>, a: seq<bool>, b: seq<bool>)
    requires levels == a + b
    ensures Lines(levels) + [SE0, SE0] == Lines(a) + (Lines(b) + [SE0, SE0])
  {
    LinesConcat(a, b);
    Assoc(Lines(a), Lines(b), [SE0, SE0]);
  }

  lemma SyncLines()
    ensures Lines([false, true, false, true, false, true, false, false]) == [K, J, K, J, K, J, K, K]
  {
  }

  lemma WireParts(data: seq<bv8>)
    requires |data| > 0 && EarlyZero(data[0])
    ensures Wire(data) == [K, J, K, J, K, J, K, K] + (Lines(Fold(Encode, Coder(false, 0), Bits(data)).out) + [SE0, SE0])
  {
    PacketSplit(data);
    SyncLines();
    JoinWire(PacketLevels(data), [false, true, false, true, false, true, false, false],
             Fold(Encode, Coder(false, 0), Bits(data)).out);
  }

  lemma WireSplit(data: seq<bv8>)
    requires |data| > 0 && EarlyZero(data[0])
    ensures |Wire(data)| >= 8 && BehindSync(Wire(data), 0) == 8
    ensures Carries(Wire(data)[8..], 0, Coder(false, 0), Bits(data))
  {
    var rest := Fold(Encode, Coder(false, 0), Bits(data)).out;
    WireParts(data);
    Split8(Wire(data), [K, J, K, J, K, J, K, K], Lines(rest) + [SE0, SE0]);
    SyncFound(Wire(data));
  }

  lemma Split8(wire: seq<Line>, a: seq<Line>, b: seq<Line>)
    requires wire == a + b && |a| == 8
    ensures |wire| >= 8 && wire[..8] == a && wire[8..] == b && wire[8..][0..] == b
  {
  }

  lemma ReceivesAll(wire: seq<Line>, bits: seq<bool>)
    requires Carries(wire, 0, Coder(false, 0), bits) && |bits| % 8 == 0 && |bits| <= 8 * MAX_BYTES
    ensures Receive(wire, 0, FIRST) == Packet(bits)
  {
    ReceivesBits(wire, 0, FIRST, bits);
    assert [] + bits == bits;
  }

  /** Every packet of at most eleven bytes is received as sent, provided its first byte, a packet
      identifier, has a zero among its first five bits, as every valid one has. */
  lemma RoundTrip(data: seq<bv8>)
    requires 1 <= |data| <= MAX_BYTES && EarlyZero(data[0])
    ensures |Wire(data)| >= 8 && BehindSync(Wire(data), 0) == 8
    ensures Receive(Wire(data)[8..], 0, FIRST) == Packet(Bits(data))
  {
    WireSplit(data);
    ReceivesAll(Wire(data)[8..], Bits(data));
  }

  lemma SameParts<T>(a: seq<T>, b: seq<T>, c: seq<T>, d: seq<T>)
    requires a + b == c + d && |a| == |c|
    ensures a == c && b == d
  {
    assert (a + b)[..|a|] == a && (c + d)[..|c|] == c;
    assert (a + b)[|a|..] == b && (c + d)[|c|..] == d;
  }

  /** Stored registers with the bits of `data` are its bytes. */
  lemma {:induction false} StoredAre(regs: seq<Reg>, data: seq<bv8>)
    requires StoredBits(regs) == Bits(data)
    ensures |regs| == |data| && forall i :: 0 <= i < |data| ==> regs[i] == ByteBits(data[i])
  {
    if |data| > 0 {
      var n := |data| - 1;
      assert |regs| == n + 1;
      SameParts(StoredBits(regs[..n]), regs[n], Bits(data[..n]), ByteBits(data[n]));
      StoredAre(regs[..n], data[..n]);
    }
  }

  /** The two loops joined by the line: what was handed to the transmitter ends up in the receive buffer. */
  method SendAndReceive(data: seq<bv8>, junk: bv8, flag: bool) returns (r: Received)
    requires 1 <= |data| <= MAX_BYTES && EarlyZero(data[0])
    ensures r.Bytes? && |r.regs| == |data|
    ensures forall i :: 0 <= i < |data| ==> r.regs[i] == ByteBits(data[i])
  {
    var wire := Transmit(data, junk, flag);
    RoundTrip(data);
    r := ReceivePacket(wire[BehindSync(wire, 0)..]);
    StoredAre(r.regs, data);
  }
}
