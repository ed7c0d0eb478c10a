/** The data CRC of section 8.3.5.2 of USB 2.0, and the three ways the driver computes it. */
module UsbCrc {
  import opened Sequences
  import opened UsbLine

  // ---- The standard's definition ----

  const DEGREE: nat := 16

  /** The generator x^16 + x^15 + x^2 + 1 as a shift register; stage `i` holds the coefficient of x^i. */
  predicate Tap(i: int) { i == 0 || i == 2 || i == 15 }

  /** One data bit enters at the high end; if it differs from the bit leaving there, the taps are toggled. */
  function GeneratorBit(reg: seq<bool>, bit: bool): (next: seq<bool>)
    requires |reg| == DEGREE
    ensures |next| == DEGREE
  {
    var feedback := reg[15] != bit;
    seq(DEGREE, i requires 0 <= i < DEGREE => (i > 0 && reg[i - 1]) != (feedback && Tap(i)))
  }

  /** The register after some data bits: it starts with all ones. */
  function Generator(bits: seq<bool>): (reg: seq<bool>)
    ensures |reg| == DEGREE
  {
    if |bits| == 0 then Replicate(true, DEGREE) else GeneratorBit(Generator(bits[..|bits| - 1]), bits[|bits| - 1])
  }

  // ---- Shift registers in general ----

  function Iterate<T>(f: T -> T, x: T, n: nat): T {
    if n == 0 then x else f(Iterate(f, x, n - 1))
  }

  /** Data bits entering one by one. */
  function Enter<T>(enter: (T, bool) -> T, x: T, bits: seq<bool>): T {
    if |bits| == 0 then x else enter(Enter(enter, x, bits[..|bits| - 1]), bits[|bits| - 1])
  }

  /** Adding a word at once and shifting `n` times is entering its bits one by one,
      if each shift takes in one bit of the word and leaves what remains of it, `rest`, apart. */
  lemma {:induction false} ShiftsEnterBits<T(!new)>(
    shift: T -> T, enter: (T, bool) -> T, add: (T, T) -> T, rest: nat -> T, x: T, bits: seq<bool>, n: nat)
    requires n <= |bits|
    requires forall k: nat, y :: k < n ==> shift(add(y, rest(k))) == add(enter(y, bits[k]), rest(k + 1))
    ensures Iterate(shift, add(x, rest(0)), n) == add(Enter(enter, x, bits[..n]), rest(n))
  {
    if n > 0 {
      ShiftsEnterBits(shift, enter, add, rest, x, bits, n - 1);
      assert bits[..n][..n - 1] == bits[..n - 1];
    }
  }

  lemma {:induction false} EnterConcat<T>(enter: (T, bool) -> T, x: T, a: seq<bool>, b: seq<bool>)
    ensures Enter(enter, x, a + b) == Enter(enter, Enter(enter, x, a), b)
  {
    if |b| == 0 {
      assert a + b == a;
    } else {
      EnterConcat(enter, x, a, b[..|b| - 1]);
      assert (a + b)[..|a + b| - 1] == a + b[..|b| - 1];
    }
  }

  // ---- The driver's register: the same one read backwards ----

  predicate StageAt(x: bv16, i: bv5)
    requires i < 16
  {
    (x >> i) & 1 == 1
  }

  predicate Stage(x: bv16, i: nat)
    requires i < 16
  {
    StageAt(x, i as bv5)
  }

  function ShiftRight(crc: bv16): bv16 {
    if crc & 1 != 0 then (crc >> 1) ^ 0xa001 else crc >> 1
  }

  function BitWord(bit: bool): bv16 { if bit then 1 else 0 }

  function ReflectedBit(crc: bv16, bit: bool): bv16 { ShiftRight(crc ^ BitWord(bit)) }

  predicate Mirrors(crc: bv16, reg: seq<bool>)
    requires |reg| == DEGREE
  {
    forall i :: 0 <= i < 16 ==> Stage(crc, i) == reg[15 - i]
  }

  lemma ShiftRightAt(x: bv16, i: bv5)
    requires i < 15
    ensures StageAt(ShiftRight(x), i) == (StageAt(x, i + 1) != (StageAt(x, 0) && (i == 0 || i == 13)))
  {
  }

  lemma ShiftRightTop(x: bv16)
    ensures StageAt(ShiftRight(x), 15) == StageAt(x, 0)
  {
  }

  lemma AddBitAt(x: bv16, bit: bool, i: bv5)
    requires i < 16
    ensures StageAt(x ^ BitWord(bit), i) == (StageAt(x, i) != (bit && i == 0))
  {
  }

  lemma StageIndex(i: nat)
    requires i < 16
    ensures (i as bv5) < 16 && (i as bv5) as nat == i
    ensures i < 15 ==> (i as bv5) + 1 == (i + 1) as bv5
  {
  }

  lemma ReflectedStage(crc: bv16, bit: bool, i: nat)
    requires i < 16
    ensures Stage(ReflectedBit(crc, bit), i) ==
            ((i < 15 && Stage(crc, i + 1)) != ((Stage(crc, 0) != bit) && (i == 0 || i == 13 || i == 15)))
  {
    var x := crc ^ BitWord(bit);
    StageIndex(i);
    AddBitAt(crc, bit, 0);
    if i == 15 {
      ShiftRightTop(x);
    } else {
      ShiftRightAt(x, i as bv5);
      AddBitAt(crc, bit, (i + 1) as bv5);
      StageIndex(i + 1);
    }
  }

  lemma MirrorsStep(crc: bv16, reg: seq<bool>, bit: bool)
    requires |reg| == DEGREE && Mirrors(crc, reg)
    ensures Mirrors(ReflectedBit(crc, bit), GeneratorBit(reg, bit))
  {
    forall i | 0 <= i < 16 ensures Stage(ReflectedBit(crc, bit), i) == GeneratorBit(reg, bit)[15 - i] {
      ReflectedStage(crc, bit, i);
    }
  }

  lemma PresetMirrors()
    ensures Mirrors(0xffff, Replicate(true, DEGREE))
  {
    forall i | 0 <= i < 16 ensures Stage(0xffff, i) { AllSet(i as bv5); StageIndex(i); }
  }

  lemma AllSet(i: bv5)
    requires i < 16
    ensures StageAt(0xffff, i)
  {
  }

  /** The driver's register is the standard's, read backwards, after every bit sequence. */
  lemma {:induction false} ReflectedMirrorsGenerator(bits: seq<bool>)
    ensures Mirrors(Enter(ReflectedBit, 0xffff, bits), Generator(bits))
  {
    if |bits| == 0 {
      PresetMirrors();
    } else {
      ReflectedMirrorsGenerator(bits[..|bits| - 1]);
      MirrorsStep(Enter(ReflectedBit, 0xffff, bits[..|bits| - 1]), Generator(bits[..|bits| - 1]), bits[|bits| - 1]);
    }
  }

  // ---- A byte at a time ----

  function Add(x: bv16, y: bv16): bv16 { x ^ y }

  /** The byte enters at the low end all at once, and is then shifted through. */
  function ByteStep(crc: bv16, byte: bv8): bv16 { Shifts(Add(crc, Wide(byte)), 8) }

  function Shifts(x: bv16, n: nat): bv16 {
    if n == 0 then x else ShiftRight(Shifts(x, n - 1))
  }

  lemma {:induction false} ShiftsIterate(x: bv16, n: nat)
    ensures Shifts(x, n) == Iterate(ShiftRight, x, n)
  {
    if n > 0 { ShiftsIterate(x, n - 1); }
  }

  function Crc(msg: seq<bv8>): bv16 {
    if |msg| == 0 then 0xffff else ByteStep(Crc(msg[..|msg| - 1]), msg[|msg| - 1])
  }

  predicate LowBit(b: bv16) { b & 1 == 1 }

  lemma SetBitEnters(y: bv16, b: bv16)
    requires LowBit(b)
    ensures ShiftRight(y ^ b) == Add(ReflectedBit(y, true), b >> 1)
  {
  }

  lemma ClearBitEnters(y: bv16, b: bv16)
    requires !LowBit(b)
    ensures ShiftRight(y ^ b) == Add(ReflectedBit(y, false), b >> 1)
  {
  }

  lemma BitEnters(y: bv16, b: bv16, bit: bool)
    requires LowBit(b) == bit
    ensures ShiftRight(Add(y, b)) == Add(ReflectedBit(y, bit), b >> 1)
  {
    if bit { SetBitEnters(y, b); } else { ClearBitEnters(y, b); }
    assert Add(y, b) == y ^ b;
  }

  function Wide(b: bv8): bv16 { b as bv16 }

  /** What remains of a data byte after `k` shifts. */
  function Rest(b: bv8, k: nat): bv16 {
    if k < 8 then Wide(b) >> k else 0
  }

  lemma RestBits(b: bv8, k: nat)
    requires k < 8
    ensures LowBit(Rest(b, k)) == Bit(b, k)
  {
    if k == 0 {} else if k == 1 {} else if k == 2 {} else if k == 3 {}
    else if k == 4 {} else if k == 5 {} else if k == 6 {} else {}
  }

  lemma RestHalves(b: bv8, k: nat)
    requires k < 8
    ensures Rest(b, k + 1) == Rest(b, k) >> 1
  {
    if k == 0 {} else if k == 1 {} else if k == 2 {} else if k == 3 {}
    else if k == 4 {} else if k == 5 {} else if k == 6 {} else {}
  }

  lemma RestEnters(b: bv8, y: bv16, k: nat)
    requires k < 8
    ensures ShiftRight(Add(y, Rest(b, k))) == Add(ReflectedBit(y, Bit(b, k)), Rest(b, k + 1))
  {
    RestBits(b, k);
    RestHalves(b, k);
    BitEnters(y, Rest(b, k), Bit(b, k));
  }

  lemma RestEnds(b: bv8, x: bv16)
    ensures Rest(b, 0) == Wide(b) && Add(x, Rest(b, 8)) == x
  {
  }

  /** A byte step enters the bits of the byte, lowest first. */
  lemma ByteStepEntersBits(crc: bv16, byte: bv8)
    ensures ByteStep(crc, byte) == Enter(ReflectedBit, crc, ByteBits(byte))
  {
    var bits, rest := ByteBits(byte), (k: nat) => Rest(byte, k);
    forall k: nat, y | k < 8 ensures ShiftRight(Add(y, rest(k))) == Add(ReflectedBit(y, bits[k]), rest(k + 1)) {
      RestEnters(byte, y, k);
    }
    ShiftsEnterBits(ShiftRight, ReflectedBit, Add, rest, crc, bits, 8);
    ShiftsIterate(Add(crc, Wide(byte)), 8);
    RestEnds(byte, Enter(ReflectedBit, crc, bits));
    assert bits[..8] == bits;
  }

  /** The bytewise checksum is the standard's over the bits on the wire, read backwards. */
  lemma {:induction false} CrcEntersBits(msg: seq<bv8>)
    ensures Crc(msg) == Enter(ReflectedBit, 0xffff, Bits(msg))
  {
    if |msg| > 0 {
      var before, byte := msg[..|msg| - 1], msg[|msg| - 1];
      CrcEntersBits(before);
      ByteStepEntersBits(Crc(before), byte);
      EnterConcat(ReflectedBit, 0xffff, Bits(before), ByteBits(byte));
    }
  }

  lemma CrcMirrorsGenerator(msg: seq<bv8>)
    ensures Mirrors(Crc(msg), Generator(Bits(msg)))
  {
    CrcEntersBits(msg);
    ReflectedMirrorsGenerator(Bits(msg));
  }

  // ---- The two bytes that follow the data ----

  function LowByte(w: bv16): bv8 { (w & 0xff) as bv8 }

  function HighByte(w: bv16): bv8 { (w >> 8) as bv8 }

  /** What the driver sends behind the data: the complement of the register, low byte first. */
  function Checked(msg: seq<bv8>): (packet: seq<bv8>)
    ensures |packet| == |msg| + 2
  {
    msg + [LowByte(!Crc(msg)), HighByte(!Crc(msg))]
  }

  /** The constant the receiver compares with. */
  const REMAINDER: bv16 := 0xb001

  predicate Accepts(packet: seq<bv8>) { Crc(packet) == REMAINDER }
}
