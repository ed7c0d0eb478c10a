/** The three computations of the checksum in the driver: bit by bit on the complement, by parity and shifts,
    and by table. */
module UsbCrcLoops {
  import opened UsbCrc
  import opened UsbLine

  function Word(h: bv8, l: bv8): bv16 { ((h as bv16) << 8) | (l as bv16) }

  // ---- The slow form ----

  /** One bit of the slow loop, on the register pair, which holds the complement of the checksum: a set carry
      is rotated in at the top, and the polynomial applied if the bit rotated out is clear. */
  function RotateStep(pair: bv16): bv16 {
    var rotated := 0x8000 | (pair >> 1);
    if pair & 1 == 0 then rotated ^ 0xa001 else rotated
  }

  function Complement(pair: bv16): bv16 { !pair }

  lemma RotateStepComplements(pair: bv16)
    ensures !RotateStep(pair) == ShiftRight(!pair)
  {
  }

  lemma RotateStepShifts(pair: bv16)
    ensures Complement(RotateStep(pair)) == ShiftRight(Complement(pair))
  {
    RotateStepComplements(pair);
    assert Complement(pair) == !pair;
  }

  lemma ByteIntoComplement(pair: bv16, b: bv8)
    ensures Complement(Add(pair, Wide(b))) == Add(Complement(pair), Wide(b))
  {
  }

  // The two registers: rotating the high one through the set carry, then the low one through the bit that leaves it.

  function RotatedHigh(h: bv8): bv8 { 0x80 | (h >> 1) }

  function RotatedLow(h: bv8, l: bv8): bv8 { (if h & 1 != 0 then 0x80 else 0) | (l >> 1) }

  function HighStep(h: bv8, l: bv8): bv8 { if l & 1 == 0 then RotatedHigh(h) ^ 0xa0 else RotatedHigh(h) }

  function LowStep(h: bv8, l: bv8): bv8 { if l & 1 == 0 then RotatedLow(h, l) ^ 0x01 else RotatedLow(h, l) }

  lemma StepWithPolynomialCarry(h: bv8, l: bv8)
    requires l & 1 == 0 && h & 1 != 0
    ensures Word(HighStep(h, l), LowStep(h, l)) == RotateStep(Word(h, l))
  {
  }

  lemma StepWithPolynomialNoCarry(h: bv8, l: bv8)
    requires l & 1 == 0 && h & 1 == 0
    ensures Word(HighStep(h, l), LowStep(h, l)) == RotateStep(Word(h, l))
  {
  }

  lemma StepWithoutPolynomialCarry(h: bv8, l: bv8)
    requires l & 1 != 0 && h & 1 != 0
    ensures Word(HighStep(h, l), LowStep(h, l)) == RotateStep(Word(h, l))
  {
  }

  lemma StepWithoutPolynomialNoCarry(h: bv8, l: bv8)
    requires l & 1 != 0 && h & 1 == 0
    ensures Word(HighStep(h, l), LowStep(h, l)) == RotateStep(Word(h, l))
  {
  }

  lemma StepOfPair(h: bv8, l: bv8)
    ensures Word(HighStep(h, l), LowStep(h, l)) == RotateStep(Word(h, l))
  {
    if l & 1 == 0 {
      if h & 1 == 0 { StepWithPolynomialNoCarry(h, l); } else { StepWithPolynomialCarry(h, l); }
    } else {
      if h & 1 == 0 { StepWithoutPolynomialNoCarry(h, l); } else { StepWithoutPolynomialCarry(h, l); }
    }
  }

  lemma StepShifts(h: bv8, l: bv8)
    ensures Complement(Word(HighStep(h, l), LowStep(h, l))) == ShiftRight(Complement(Word(h, l)))
  {
    StepOfPair(h, l);
    RotateStepShifts(Word(h, l));
  }

  lemma ByteIntoRegisters(h: bv8, l: bv8, b: bv8)
    ensures Complement(Word(h, l ^ b)) == Add(Complement(Word(h, l)), Wide(b))
  {
    ByteIntoLow(h, l, b);
    ByteIntoComplement(Word(h, l), b);
  }

  lemma ZeroRegisters()
    ensures Complement(Word(0, 0)) == 0xffff
  {
  }

  /** One byte. The bit counter steps by 224 modulo 256: it borrows seven times and is zero again after the eighth. */
  method ByteLoop(h: bv8, l: bv8, byte: bv8, bitCnt: nat, ghost crc: bv16) returns (hi: bv8, lo: bv8, count: nat)
    requires bitCnt == 0 && crc == Complement(Word(h, l))
    ensures count == 0 && ByteStep(crc, byte) == Complement(Word(hi, lo))
  {
    hi, lo, count := h, l ^ byte, bitCnt;
    ghost var y, n := Add(crc, Wide(byte)), 0;
    ByteIntoRegisters(h, l, byte);
    var again := true;
    while again
      invariant 0 <= n <= 8 && again == (n < 8) && count == 32 * n % 256
      invariant Shifts(y, n) == Complement(Word(hi, lo))
      decreases 8 - n
    {
      StepShifts(hi, lo);
      hi, lo := HighStep(hi, lo), LowStep(hi, lo);
      again := count < 224;
      count := (count + 32) % 256;
      n := n + 1;
    }
  }

  /** The slow form. `argLen` counts up from the complement of the length until it no longer borrows, at 255. */
  method SlowUsbCrc16(msg: seq<bv8>) returns (l: bv8, h: bv8)
    requires |msg| <= 255
    ensures Crc(msg) == Complement(Word(h, l))
  {
    l, h := 0, 0;
    ZeroRegisters();
    var argLen, bitCnt, i := 255 - |msg|, 0, 0;
    while argLen != 255
      invariant 0 <= i <= |msg| && argLen == 255 - |msg| + i && bitCnt == 0
      invariant Crc(msg[..i]) == Complement(Word(h, l))
    {
      argLen := argLen + 1;
      assert msg[..i + 1][..i] == msg[..i];
      h, l, bitCnt := ByteLoop(h, l, msg[i], bitCnt, Crc(msg[..i]));
      i := i + 1;
    }
    assert msg[..i] == msg;
  }

  // ---- The fast form ----

  predicate OddParity(x: bv8) {
    var a := x ^ (x >> 4);
    var b := a ^ (a >> 2);
    (b ^ (b >> 1)) & 1 == 1
  }

  /** Eight shifts of a byte in closed form. */
  function ShiftedByte(x: bv8): bv16 {
    (((x as bv16) << 6) ^ ((x as bv16) << 7)) ^ (if OddParity(x) then 0xc001 else 0)
  }

  function ShiftEight(x: bv16): bv16 {
    ShiftRight(ShiftRight(ShiftRight(ShiftRight(ShiftRight(ShiftRight(ShiftRight(ShiftRight(x))))))))
  }

  lemma ShiftEightIs(x: bv16)
    ensures ShiftEight(x) == Shifts(x, 8)
  {
    assert Shifts(x, 1) == ShiftRight(x);
    assert Shifts(x, 2) == ShiftRight(Shifts(x, 1));
    assert Shifts(x, 4) == ShiftRight(ShiftRight(Shifts(x, 2)));
    assert Shifts(x, 6) == ShiftRight(ShiftRight(Shifts(x, 4)));
  }

  lemma ByteIntoLow(h: bv8, l: bv8, b: bv8)
    ensures Add(Word(h, l), Wide(b)) == Word(h, l ^ b)
  {
  }

  lemma ShiftEightOfPair(h: bv8, x: bv8)
    ensures ShiftEight(Word(h, x)) == ShiftedByte(x) ^ Wide(h)
  {
  }

  lemma ByteStepOfPair(h: bv8, l: bv8, b: bv8)
    ensures ByteStep(Word(h, l), b) == ShiftedByte(l ^ b) ^ Wide(h)
  {
    ByteIntoLow(h, l, b);
    ShiftEightIs(Word(h, l ^ b));
    ShiftEightOfPair(h, l ^ b);
  }

  function Swap(x: bv8): bv8 { (x << 4) | (x >> 4) }

  /** The parity of `x` in bit 1, by folding nibbles and pairs, and adding one to combine the last two bits. */
  function ParityTwice(x: bv8): bv8 {
    var folded := Swap(x) ^ x;
    (((folded >> 2) ^ folded) + 1) & 2
  }

  lemma ParityTwiceIs(x: bv8)
    ensures ParityTwice(x) == if OddParity(x) then 2 else 0
  {
  }

  /** The shift and rotate sequence of the loop, on `x` and the high register: new high and low register. */
  function FastHigh(x: bv8): bv8 {
    var scratch := (x >> 1) | (if ParityTwice(x) != 0 then 0x80 else 0);
    scratch ^ (scratch >> 1)
  }

  function FastLow(x: bv8, h: bv8): bv8 {
    var scratch := (x >> 1) | (if ParityTwice(x) != 0 then 0x80 else 0);
    var byte := (ParityTwice(x) >> 1) | (if x & 1 != 0 then 0x80 else 0);
    byte ^ h ^ ((byte >> 1) | (if scratch & 1 != 0 then 0x80 else 0))
  }

  lemma FastIsShifted(x: bv8, h: bv8)
    ensures Word(FastHigh(x), FastLow(x, h)) == ShiftedByte(x) ^ Wide(h)
  {
    ParityTwiceIs(x);
  }

  lemma FastStep(h: bv8, l: bv8, b: bv8)
    ensures Word(FastHigh(l ^ b), FastLow(l ^ b, h)) == ByteStep(Word(h, l), b)
  {
    ByteStepOfPair(h, l, b);
    FastIsShifted(l ^ b, h);
  }

  lemma WordComplement(h: bv8, l: bv8)
    ensures Word(!h, !l) == Complement(Word(h, l))
  {
  }

  lemma WordPreset()
    ensures Word(0xff, 0xff) == 0xffff
  {
  }

  /** The fast form. */
  method FastUsbCrc16(msg: seq<bv8>) returns (l: bv8, h: bv8)
    requires |msg| <= 255
    ensures Word(h, l) == Complement(Crc(msg))
  {
    l, h := 0xff, 0xff;
    WordPreset();
    var argLen, i := |msg|, 0;
    while argLen > 0
      invariant 0 <= i <= |msg| && argLen + i == |msg|
      invariant Word(h, l) == Crc(msg[..i])
    {
      argLen := argLen - 1;
      assert msg[..i + 1][..i] == msg[..i];
      FastStep(h, l, msg[i]);
      var x := l ^ msg[i];
      h, l := FastHigh(x), FastLow(x, h);
      i := i + 1;
    }
    assert msg[..i] == msg;
    WordComplement(h, l);
    l, h := !l, !h;
  }

  // ---- The table form ----

  function LowRow(row: bv8): (bytes: seq<bv8>)
    requires row < 32
    ensures |bytes| == 8
  {
    if row == 0 then [0x00, 0xc1, 0x81, 0x40, 0x01, 0xc0, 0x80, 0x41]
    else if row == 1 then [0x01, 0xc0, 0x80, 0x41, 0x00, 0xc1, 0x81, 0x40]
    else if row == 2 then [0x01, 0xc0, 0x80, 0x41, 0x00, 0xc1, 0x81, 0x40]
    else if row == 3 then [0x00, 0xc1, 0x81, 0x40, 0x01, 0xc0, 0x80, 0x41]
    else if row == 4 then [0x01, 0xc0, 0x80, 0x41, 0x00, 0xc1, 0x81, 0x40]
    else if row == 5 then [0x00, 0xc1, 0x81, 0x40, 0x01, 0xc0, 0x80, 0x41]
    else if row == 6 then [0x00, 0xc1, 0x81, 0x40, 0x01, 0xc0, 0x80, 0x41]
    else if row == 7 then [0x01, 0xc0, 0x80, 0x41, 0x00, 0xc1, 0x81, 0x40]
    else if row == 8 then [0x01, 0xc0, 0x80, 0x41, 0x00, 0xc1, 0x81, 0x40]
    else if row == 9 then [0x00, 0xc1, 0x81, 0x40, 0x01, 0xc0, 0x80, 0x41]
    else if row == 10 then [0x00, 0xc1, 0x81, 0x40, 0x01, 0xc0, 0x80, 0x41]
    else if row == 11 then [0x01, 0xc0, 0x80, 0x41, 0x00, 0xc1, 0x81, 0x40]
    else if row == 12 then [0x00, 0xc1, 0x81, 0x40, 0x01, 0xc0, 0x80, 0x41]
    else if row == 13 then [0x01, 0xc0, 0x80, 0x41, 0x00, 0xc1, 0x81, 0x40]
    else if row == 14 then [0x01, 0xc0, 0x80, 0x41, 0x00, 0xc1, 0x81, 0x40]
    else if row == 15 then [0x00, 0xc1, 0x81, 0x40, 0x01, 0xc0, 0x80, 0x41]
    else if row == 16 then [0x01, 0xc0, 0x80, 0x41, 0x00, 0xc1, 0x81, 0x40]
    else if row == 17 then [0x00, 0xc1, 0x81, 0x40, 0x01, 0xc0, 0x80, 0x41]
    else if row == 18 then [0x00, 0xc1, 0x81, 0x40, 0x01, 0xc0, 0x80, 0x41]
    else if row == 19 then [0x01, 0xc0, 0x80, 0x41, 0x00, 0xc1, 0x81, 0x40]
    else if row == 20 then [0x00, 0xc1, 0x81, 0x40, 0x01, 0xc0, 0x80, 0x41]
    else if row == 21 then [0x01, 0xc0, 0x80, 0x41, 0x00, 0xc1, 0x81, 0x40]
    else if row == 22 then [0x01, 0xc0, 0x80, 0x41, 0x00, 0xc1, 0x81, 0x40]
    else if row == 23 then [0x00, 0xc1, 0x81, 0x40, 0x01, 0xc0, 0x80, 0x41]
    else if row == 24 then [0x00, 0xc1, 0x81, 0x40, 0x01, 0xc0, 0x80, 0x41]
    else if row == 25 then [0x01, 0xc0, 0x80, 0x41, 0x00, 0xc1, 0x81, 0x40]
    else if row == 26 then [0x01, 0xc0, 0x80, 0x41, 0x00, 0xc1, 0x81, 0x40]
    else if row == 27 then [0x00, 0xc1, 0x81, 0x40, 0x01, 0xc0, 0x80, 0x41]
    else if row == 28 then [0x01, 0xc0, 0x80, 0x41, 0x00, 0xc1, 0x81, 0x40]
    else if row == 29 then [0x00, 0xc1, 0x81, 0x40, 0x01, 0xc0, 0x80, 0x41]
    else if row == 30 then [0x00, 0xc1, 0x81, 0x40, 0x01, 0xc0, 0x80, 0x41]
    else [0x01, 0xc0, 0x80, 0x41, 0x00, 0xc1, 0x81, 0x40]
  }

  function HighRow(row: bv8): (bytes: seq<bv8>)
    requires row < 32
    ensures |bytes| == 8
  {
    if row == 0 then [0x00, 0xc0, 0xc1, 0x01, 0xc3, 0x03, 0x02, 0xc2]
    else if row == 1 then [0xc6, 0x06, 0x07, 0xc7, 0x05, 0xc5, 0xc4, 0x04]
    else if row == 2 then [0xcc, 0x0c, 0x0d, 0xcd, 0x0f, 0xcf, 0xce, 0x0e]
    else if row == 3 then [0x0a, 0xca, 0xcb, 0x0b, 0xc9, 0x09, 0x08, 0xc8]
    else if row == 4 then [0xd8, 0x18, 0x19, 0xd9, 0x1b, 0xdb, 0xda, 0x1a]
    else if row == 5 then [0x1e, 0xde, 0xdf, 0x1f, 0xdd, 0x1d, 0x1c, 0xdc]
    else if row == 6 then [0x14, 0xd4, 0xd5, 0x15, 0xd7, 0x17, 0x16, 0xd6]
    else if row == 7 then [0xd2, 0x12, 0x13, 0xd3, 0x11, 0xd1, 0xd0, 0x10]
    else if row == 8 then [0xf0, 0x30, 0x31, 0xf1, 0x33, 0xf3, 0xf2, 0x32]
    else if row == 9 then [0x36, 0xf6, 0xf7, 0x37, 0xf5, 0x35, 0x34, 0xf4]
    else if row == 10 then [0x3c, 0xfc, 0xfd, 0x3d, 0xff, 0x3f, 0x3e, 0xfe]
    else if row == 11 then [0xfa, 0x3a, 0x3b, 0xfb, 0x39, 0xf9, 0xf8, 0x38]
    else if row == 12 then [0x28, 0xe8, 0xe9, 0x29, 0xeb, 0x2b, 0x2a, 0xea]
    else if row == 13 then [0xee, 0x2e, 0x2f, 0xef, 0x2d, 0xed, 0xec, 0x2c]
    else if row == 14 then [0xe4, 0x24, 0x25, 0xe5, 0x27, 0xe7, 0xe6, 0x26]
    else if row == 15 then [0x22, 0xe2, 0xe3, 0x23, 0xe1, 0x21, 0x20, 0xe0]
    else if row == 16 then [0xa0, 0x60, 0x61, 0xa1, 0x63, 0xa3, 0xa2, 0x62]
    else if row == 17 then [0x66, 0xa6, 0xa7, 0x67, 0xa5, 0x65, 0x64, 0xa4]
    else if row == 18 then [0x6c, 0xac, 0xad, 0x6d, 0xaf, 0x6f, 0x6e, 0xae]
    else if row == 19 then [0xaa, 0x6a, 0x6b, 0xab, 0x69, 0xa9, 0xa8, 0x68]
    else if row == 20 then [0x78, 0xb8, 0xb9, 0x79, 0xbb, 0x7b, 0x7a, 0xba]
    else if row == 21 then [0xbe, 0x7e, 0x7f, 0xbf, 0x7d, 0xbd, 0xbc, 0x7c]
    else if row == 22 then [0xb4, 0x74, 0x75, 0xb5, 0x77, 0xb7, 0xb6, 0x76]
    else if row == 23 then [0x72, 0xb2, 0xb3, 0x73, 0xb1, 0x71, 0x70, 0xb0]
    else if row == 24 then [0x50, 0x90, 0x91, 0x51, 0x93, 0x53, 0x52, 0x92]
    else if row == 25 then [0x96, 0x56, 0x57, 0x97, 0x55, 0x95, 0x94, 0x54]
    else if row == 26 then [0x9c, 0x5c, 0x5d, 0x9d, 0x5f, 0x9f, 0x9e, 0x5e]
    else if row == 27 then [0x5a, 0x9a, 0x9b, 0x5b, 0x99, 0x59, 0x58, 0x98]
    else if row == 28 then [0x88, 0x48, 0x49, 0x89, 0x4b, 0x8b, 0x8a, 0x4a]
    else if row == 29 then [0x4e, 0x8e, 0x8f, 0x4f, 0x8d, 0x4d, 0x4c, 0x8c]
    else if row == 30 then [0x44, 0x84, 0x85, 0x45, 0x87, 0x47, 0x46, 0x86]
    else [0x82, 0x42, 0x43, 0x83, 0x41, 0x81, 0x80, 0x40]
  }

  function TableLow(x: bv8): bv8 { LowRow(x >> 3)[(x & 7) as int] }

  function TableHigh(x: bv8): bv8 { HighRow(x >> 3)[(x & 7) as int] }

  lemma TableEntriesFrom00(x: bv8)
    requires 0x00 <= x <= 0x1f
    ensures Word(TableHigh(x), TableLow(x)) == ShiftedByte(x)
  {
  }

  lemma TableEntriesFrom20(x: bv8)
    requires 0x20 <= x <= 0x3f
    ensures Word(TableHigh(x), TableLow(x)) == ShiftedByte(x)
  {
  }

  lemma TableEntriesFrom40(x: bv8)
    requires 0x40 <= x <= 0x5f
    ensures Word(TableHigh(x), TableLow(x)) == ShiftedByte(x)
  {
  }

  lemma TableEntriesFrom60(x: bv8)
    requires 0x60 <= x <= 0x7f
    ensures Word(TableHigh(x), TableLow(x)) == ShiftedByte(x)
  {
  }

  lemma TableEntriesFrom80(x: bv8)
    requires 0x80 <= x <= 0x9f
    ensures Word(TableHigh(x), TableLow(x)) == ShiftedByte(x)
  {
  }

  lemma TableEntriesFroma0(x: bv8)
    requires 0xa0 <= x <= 0xbf
    ensures Word(TableHigh(x), TableLow(x)) == ShiftedByte(x)
  {
  }

  lemma TableEntriesFromc0(x: bv8)
    requires 0xc0 <= x <= 0xdf
    ensures Word(TableHigh(x), TableLow(x)) == ShiftedByte(x)
  {
  }

  lemma TableEntriesFrome0(x: bv8)
    requires 0xe0 <= x <= 0xff
    ensures Word(TableHigh(x), TableLow(x)) == ShiftedByte(x)
  {
  }

  /** All 256 entries of the table are eight shifts of their index. */
  lemma TableEntry(x: bv8)
    ensures Word(TableHigh(x), TableLow(x)) == ShiftedByte(x)
  {
    if x < 0x20 { TableEntriesFrom00(x); } else if x < 0x40 { TableEntriesFrom20(x); }
    else if x < 0x60 { TableEntriesFrom40(x); } else if x < 0x80 { TableEntriesFrom60(x); }
    else if x < 0xa0 { TableEntriesFrom80(x); } else if x < 0xc0 { TableEntriesFroma0(x); }
    else if x < 0xe0 { TableEntriesFromc0(x); } else { TableEntriesFrome0(x); }
  }

  lemma TableEntryAdds(x: bv8, x3: bv8)
    ensures Word(TableHigh(x), TableLow(x) ^ x3) == ShiftedByte(x) ^ Wide(x3)
  {
    TableEntry(x);
    AddToLow(TableHigh(x), TableLow(x), x3);
  }

  method LookUp(x: bv8, x3: bv8) returns (h: bv8, l: bv8)
    ensures Word(h, l) == ShiftedByte(x) ^ Wide(x3)
  {
    TableEntryAdds(x, x3);
    h, l := TableHigh(x), TableLow(x) ^ x3;
  }

  lemma AddToLow(h: bv8, l: bv8, b: bv8)
    ensures Word(h, l ^ b) == Word(h, l) ^ Wide(b)
  {
  }

  /** One byte: the table is read at the low register plus the byte. */
  method TableByte(h: bv8, l: bv8, byte: bv8) returns (hi: bv8, lo: bv8)
    ensures Word(hi, lo) == ByteStep(Word(h, l), byte)
  {
    ByteStepOfPair(h, l, byte);
    hi, lo := LookUp(l ^ byte, h);
  }

  method TableCrc(packet: seq<bv8>) returns (h: bv8, l: bv8)
    ensures Word(h, l) == Crc(packet)
  {
    l, h := 0xff, 0xff;
    WordPreset();
    for i := 0 to |packet|
      invariant Word(h, l) == Crc(packet[..i])
    {
      assert packet[..i + 1][..i] == packet[..i];
      h, l := TableByte(h, l, packet[i]);
    }
    assert packet[..|packet|] == packet;
  }

  /** The receiver's checksum over a whole packet, by table, and its comparison with the remainder. */
  method TableCrcAccepts(packet: seq<bv8>) returns (ok: bool)
    ensures ok == Accepts(packet)
  {
    var h, l := TableCrc(packet);
    RemainderBytes(h, l);
    ok := l == 0x01 && h == 0xb0;
  }

  lemma RemainderBytes(h: bv8, l: bv8)
    ensures Word(h, l) == REMAINDER <==> l == 0x01 && h == 0xb0
  {
  }

  // ---- Sending and checking ----

  lemma ComplementBytes(h: bv8, l: bv8, crc: bv16)
    requires crc == Complement(Word(h, l))
    ensures l == LowByte(!crc) && h == HighByte(!crc)
  {
    assert Word(h, l) == !crc;
    BytesOfPair(h, l);
  }

  lemma BytesOfPair(h: bv8, l: bv8)
    ensures LowByte(Word(h, l)) == l && HighByte(Word(h, l)) == h
  {
  }

  /** The two bytes of the checksum of `msg`, low byte first. */
  method CheckBytes(msg: seq<bv8>) returns (l: bv8, h: bv8)
    requires |msg| <= 255
    ensures msg + [l, h] == Checked(msg)
  {
    l, h := SlowUsbCrc16(msg);
    ComplementBytes(h, l, Crc(msg));
  }

  /** `usbCrc16Append`: the checksum of the bytes from `ptr` on is stored behind them. */
  method UsbCrc16Append(buffer: array<bv8>, ptr: nat, len: nat)
    requires len <= 255 && ptr + len + 2 <= buffer.Length
    modifies buffer
    ensures buffer[..ptr] == old(buffer[..ptr])
    ensures buffer[ptr..ptr + len + 2] == Checked(old(buffer[ptr..ptr + len]))
    ensures buffer[ptr + len + 2..] == old(buffer[ptr + len + 2..])
  {
    ghost var msg := buffer[ptr..ptr + len];
    var l, h := CheckBytes(buffer[ptr..ptr + len]);
    buffer[ptr + len], buffer[ptr + len + 1] := l, h;
    assert buffer[ptr..ptr + len + 2] == msg + [l, h];
  }

  lemma OneMoreByte(msg: seq<bv8>, a: bv8)
    ensures Crc(msg + [a]) == ByteStep(Crc(msg), a)
  {
    assert (msg + [a])[..|msg|] == msg;
  }

  lemma OneByOne<T>(msg: seq<T>, a: T, b: T, c: T, d: T)
    ensures msg + [a, b] == msg + [a] + [b]
    ensures msg + [a, b] == msg + [c, d] <==> a == c && b == d
  {
    assert (msg + [a, b])[|msg|] == a && (msg + [a, b])[|msg| + 1] == b;
    assert (msg + [c, d])[|msg|] == c && (msg + [c, d])[|msg| + 1] == d;
  }

  lemma TwoMoreBytes(msg: seq<bv8>, a: bv8, b: bv8)
    ensures Crc(msg + [a, b]) == ByteStep(ByteStep(Crc(msg), a), b)
  {
    OneMoreByte(msg, a);
    OneMoreByte(msg + [a], b);
    OneByOne(msg, a, b, a, b);
  }

  /** The two bytes are the complement of the register, low byte first. */
  predicate IsCheck(crc: bv16, a: bv8, b: bv8) { a == LowByte(!crc) && b == HighByte(!crc) }

  predicate EndsInRemainder(crc: bv16, a: bv8, b: bv8) { ByteStep(ByteStep(crc, a), b) == REMAINDER }

  lemma RemainderNeedsComplement(crc: bv16, a: bv8, b: bv8)
    ensures ShiftEight(Add(ShiftEight(Add(crc, Wide(a))), Wide(b))) == REMAINDER <==> IsCheck(crc, a, b)
  {
  }

  /** Only the complement of the register, low byte first, leads to the remainder. */
  lemma TwoStepsToRemainder(crc: bv16, a: bv8, b: bv8)
    ensures EndsInRemainder(crc, a, b) <==> IsCheck(crc, a, b)
  {
    ShiftEightIs(Add(crc, Wide(a)));
    ShiftEightIs(Add(ShiftEight(Add(crc, Wide(a))), Wide(b)));
    RemainderNeedsComplement(crc, a, b);
  }

  lemma AcceptsEnd(msg: seq<bv8>, a: bv8, b: bv8)
    ensures Accepts(msg + [a, b]) <==> EndsInRemainder(Crc(msg), a, b)
  {
    TwoMoreBytes(msg, a, b);
  }

  lemma CheckedEnd(msg: seq<bv8>, a: bv8, b: bv8)
    ensures msg + [a, b] == Checked(msg) <==> IsCheck(Crc(msg), a, b)
  {
    OneByOne(msg, a, b, LowByte(!Crc(msg)), HighByte(!Crc(msg)));
  }

  /** The receiver's comparison succeeds for a packet of at least two bytes exactly if it ends in its own checksum. */
  lemma AcceptsExactlyChecked(msg: seq<bv8>, a: bv8, b: bv8)
    ensures Accepts(msg + [a, b]) <==> msg + [a, b] == Checked(msg)
  {
    AcceptsEnd(msg, a, b);
    CheckedEnd(msg, a, b);
    TwoStepsToRemainder(Crc(msg), a, b);
  }

  lemma CheckedIsAccepted(msg: seq<bv8>)
    ensures Accepts(Checked(msg))
  {
    AcceptsExactlyChecked(msg, LowByte(!Crc(msg)), HighByte(!Crc(msg)));
  }

  /** The standard's residual: x^15 + x^3 + x^2 + 1. */
  predicate Residual(i: int) { i == 0 || i == 2 || i == 3 || i == 15 }

  lemma RemainderMirrors(i: nat)
    requires i < DEGREE
    ensures Stage(REMAINDER, 15 - i) == Residual(i)
  {
    if i == 0 {} else if i == 1 {} else if i == 2 {} else if i == 3 {} else if i == 4 {} else if i == 5 {}
    else if i == 6 {} else if i == 7 {} else if i == 8 {} else if i == 9 {} else if i == 10 {} else if i == 11 {}
    else if i == 12 {} else if i == 13 {} else if i == 14 {} else {}
  }

  /** What the transmitter appends leaves the standard's residual in the standard's register. */
  lemma ResidualAfterChecked(msg: seq<bv8>, i: nat)
    requires i < DEGREE
    ensures Generator(Bits(Checked(msg)))[i] == Residual(i)
  {
    CheckedIsAccepted(msg);
    CrcMirrorsGenerator(Checked(msg));
    RemainderMirrors(i);
    assert Stage(Crc(Checked(msg)), 15 - i) == Generator(Bits(Checked(msg)))[15 - (15 - i)];
  }
}
