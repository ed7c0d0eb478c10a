/** Write commands of the T5557 tag, in fixed-bit-length coding: bits are the lengths of the pulses between gaps. */
module T5557Encoder {
  import opened DataUtils
  import opened Samples
  import opened Sequences

  const DATA_ONE: int := CARRIER_US * ((48 + 63) / 2)
  const DATA_ZERO: int := CARRIER_US * ((16 + 31) / 2)
  const WRITE_GAP: int := CARRIER_US * ((8 + 30) / 2)
  const START_GAP: int := CARRIER_US * ((10 + 50) / 2)

  // ---- Specification: what is sent, and how the tag reads it ----

  function BitSamples(bit: bool): seq<Sample> {
    [Sample(if bit then DATA_ONE else DATA_ZERO, true), Sample(WRITE_GAP, false)]
  }

  function Coded(bits: seq<bool>): (samples: seq<Sample>)
    ensures |samples| == 2 * |bits|
  {
    if |bits| == 0 then [] else Coded(bits[..|bits| - 1]) + BitSamples(bits[|bits| - 1])
  }

  function Command(bits: seq<bool>): (samples: seq<Sample>)
    ensures |samples| == 2 * |bits| + 1
  {
    [Sample(START_GAP, false)] + Coded(bits)
  }

  function Reversed<T>(s: seq<T>): (r: seq<T>)
    ensures |r| == |s| && forall i :: 0 <= i < |s| ==> r[i] == s[|s| - 1 - i]
  {
    seq(|s|, i requires 0 <= i < |s| => s[|s| - 1 - i])
  }

  datatype Option<T> = None | Some(value: T)

  /** A write command: opcode with the page, password, lock bit, data word, block address. */
  datatype Write = Write(page: bool, password: Option<bv32>, lock: bool, data: bv32, block: bv8)

  function BlockBits(block: bv8): (bits: seq<bool>)
    ensures |bits| == 3
  {
    [block & 4 != 0, block & 2 != 0, block & 1 != 0]
  }

  function PasswordBits(password: Option<bv32>): (bits: seq<bool>)
    ensures |bits| == if password.Some? then 32 else 0
  {
    if password.Some? then Reversed(WordBits(password.value)) else []
  }

  function CommandBits(w: Write): (bits: seq<bool>)
    ensures |bits| == if w.password.Some? then 70 else 38
  {
    [true, w.page] + PasswordBits(w.password) + [w.lock] + WordBits(w.data) + BlockBits(w.block)
  }

  /** The tag classifies the time the field is on, in carrier periods, with the limits of the data sheet. */
  function Classify(periods: int): Option<bool> {
    if 16 <= periods <= 31 then Some(false) else if 48 <= periods <= 63 then Some(true) else None
  }

  /** The bits the tag reads from levels and their durations: one per high level. */
  function ReadBits(samples: seq<Sample>): Option<seq<bool>> {
    if |samples| == 0 then Some([])
    else
      var before, s := ReadBits(samples[..|samples| - 1]), samples[|samples| - 1];
      if !s.isHigh || before.None? then before
      else
        var bit := Classify(s.lengthUs / CARRIER_US);
        if bit.None? then None else Some(before.value + [bit.value])
  }

  /** What the tag makes of the bits of a command: page, password, lock, data and block address, as bits. */
  datatype Fields = Fields(page: bool, password: seq<bool>, lock: bool, data: seq<bool>, block: seq<bool>)

  function Parse(bits: seq<bool>, withPassword: bool): Option<Fields> {
    var p := if withPassword then 32 else 0;
    if |bits| != 38 + p || !bits[0] then None
    else Some(Fields(bits[1], Reversed(bits[2..2 + p]), bits[2 + p], bits[3 + p..35 + p], bits[35 + p..]))
  }

  function FieldsOf(w: Write): Fields {
    Fields(w.page, if w.password.Some? then WordBits(w.password.value) else [], w.lock, WordBits(w.data), BlockBits(w.block))
  }

  lemma ReadSnoc(samples: seq<Sample>, s: Sample)
    ensures ReadBits(samples + [s]) ==
            var before := ReadBits(samples);
            if !s.isHigh || before.None? then before
            else
              var bit := Classify(s.lengthUs / CARRIER_US);
              if bit.None? then None else Some(before.value + [bit.value])
  {
    assert (samples + [s])[..|samples|] == samples;
  }

  lemma ReadOneBit(samples: seq<Sample>, bit: bool)
    requires ReadBits(samples).Some?
    ensures ReadBits(samples + BitSamples(bit)) == Some(ReadBits(samples).value + [bit])
  {
    var high := BitSamples(bit)[0];
    ReadSnoc(samples, high);
    ReadSnoc(samples + [high], Sample(WRITE_GAP, false));
    assert samples + BitSamples(bit) == samples + [high] + [Sample(WRITE_GAP, false)];
  }

  /** The tag reads the bits that were coded. */
  lemma {:induction false} ReadsCommand(bits: seq<bool>)
    ensures ReadBits(Command(bits)) == Some(bits)
  {
    if |bits| == 0 {
      ReadSnoc([], Sample(START_GAP, false));
      assert Command(bits) == [] + [Sample(START_GAP, false)];
    } else {
      var before, last := bits[..|bits| - 1], bits[|bits| - 1];
      ReadsCommand(before);
      ReadOneBit(Command(before), last);
      Assoc([Sample(START_GAP, false)], Coded(before), BitSamples(last));
      SnocInit(bits);
    }
  }

  /** In microseconds: the start gap lasts 240, a one 440, a zero 184, and every gap behind a bit 152. */
  lemma {:induction false} CommandTimes(bits: seq<bool>)
    ensures var samples := Command(bits);
            && |samples| == 2 * |bits| + 1 && samples[0] == Sample(240, false)
            && forall k :: 0 <= k < |bits| ==>
                 && samples[2 * k + 1] == Sample(if bits[k] then 440 else 184, true)
                 && samples[2 * k + 2] == Sample(152, false)
  {
    if |bits| > 0 {
      var n := |bits| - 1;
      CommandTimes(bits[..n]);
      assert Command(bits) == Command(bits[..n]) + BitSamples(bits[n]);
    }
  }

  /** Low levels behind a command change nothing. */
  lemma LowIgnored(samples: seq<Sample>, length: int)
    ensures ReadBits(samples + [Sample(length, false)]) == ReadBits(samples)
  {
    ReadSnoc(samples, Sample(length, false));
  }

  lemma ReversedTwice<T>(s: seq<T>)
    ensures Reversed(Reversed(s)) == s
  {
  }

  /** Parsing the bits of a command gives back its fields. */
  lemma ParsesCommand(w: Write)
    ensures Parse(CommandBits(w), w.password.Some?) == Some(FieldsOf(w))
  {
    var bits, p := CommandBits(w), |PasswordBits(w.password)|;
    assert bits[2..2 + p] == PasswordBits(w.password);
    assert bits[3 + p..35 + p] == WordBits(w.data);
    assert bits[35 + p..] == BlockBits(w.block);
    if w.password.Some? { ReversedTwice(WordBits(w.password.value)); }
  }

  // ---- The encoder ----

  /** Bit `k` as the encoder tests it, with a shifted mask. */
  predicate Masked(w: bv32, k: nat)
    requires k < 32
  {
    w & (1 << k) != 0
  }

  lemma MaskedIsBitAt(w: bv32, k: bv6)
    requires k < 32
    ensures (w & (1 << k) != 0) == WordBitAt(w, k)
  {
  }

  lemma MaskedIsBit(w: bv32, k: nat)
    requires k < 32
    ensures Masked(w, k) == WordBit(w, k)
  {
    WordBitIsAt(w, k);
    MaskedIsBitAt(w, k as bv6);
    assert 1 << (k as bv6) == (1 as bv32) << k;
  }

  lemma CommandSnoc(prefix: seq<Sample>, bits: seq<bool>, bit: bool)
    ensures prefix + Command(bits) + BitSamples(bit) == prefix + Command(bits + [bit])
  {
    assert (bits + [bit])[..|bits|] == bits;
    Assoc([Sample(START_GAP, false)], Coded(bits), BitSamples(bit));
    Assoc(prefix, Command(bits), BitSamples(bit));
  }

  class TransferData {
    var samples: seq<Sample>
    ghost const prefix: seq<Sample>
    ghost var bits: seq<bool>

    ghost predicate Valid()
      reads this
    {
      samples == prefix + Command(bits)
    }

    constructor (samples: seq<Sample>)
      ensures Valid() && bits == [] && prefix == samples
    {
      this.samples := samples + [Sample(START_GAP, false)];
      this.prefix := samples;
      this.bits := [];
    }

    method AddPulse(high: bool, length: int)
      modifies this`samples
      ensures samples == old(samples) + [Sample(length, high)]
    {
      samples := samples + [Sample(length, high)];
    }

    method AddBit(bit: bool)
      requires Valid()
      modifies this
      ensures Valid() && bits == old(bits) + [bit]
    {
      CommandSnoc(prefix, bits, bit);
      ghost var before := samples;
      AddPulse(true, if bit then DATA_ONE else DATA_ZERO);
      AddPulse(false, WRITE_GAP);
      assert samples == before + BitSamples(bit);
      bits := bits + [bit];
    }

    method AddBitsLsb(word: bv32, n: nat)
      requires Valid() && n <= 32
      modifies this
      ensures Valid() && bits == old(bits) + WordBits(word)[..n]
    {
      for i := 0 to n
        invariant Valid() && bits == old(bits) + WordBits(word)[..i]
      {
        MaskedIsBit(word, i);
        assert WordBits(word)[..i + 1] == WordBits(word)[..i] + [WordBit(word, i)];
        AddBit(Masked(word, i));
      }
    }

    method AddBitsMsb(word: bv32, n: nat)
      requires Valid() && n <= 32
      modifies this
      ensures Valid() && bits == old(bits) + Reversed(WordBits(word)[..n])
    {
      var i := n;
      ghost var all := Reversed(WordBits(word)[..n]);
      while i > 0
        invariant 0 <= i <= n && Valid() && bits == old(bits) + all[..n - i]
      {
        MaskedIsBit(word, i - 1);
        assert all[..n - i + 1] == all[..n - i] + [WordBit(word, i - 1)];
        AddBit(Masked(word, i - 1));
        i := i - 1;
      }
    }
  }

  lemma OpcodeBits(page: bv8)
    ensures WordBits(1 | (((page & 1) as bv32) << 1))[..2] == [true, page & 1 != 0]
  {
  }

  lemma AddressBits(block: bv8)
    ensures Reversed(WordBits(block as bv32)[..3]) == BlockBits(block)
  {
  }

  function WriteOf(page: bv8, block: bv8, lock: bool, passwordSend: bool, password: bv32, data: bv32): Write {
    Write(page & 1 != 0, if passwordSend then Some(password) else None, lock, data, block)
  }

  method AddOpcode(t: TransferData, page: bv8)
    requires t.Valid()
    modifies t
    ensures t.Valid() && t.bits == old(t.bits) + [true, page & 1 != 0]
  {
    OpcodeBits(page);
    t.AddBitsLsb(1 | (((page & 1) as bv32) << 1), 2);
  }

  method AddPassword(t: TransferData, passwordSend: bool, password: bv32)
    requires t.Valid()
    modifies t
    ensures t.Valid() && t.bits == old(t.bits) + PasswordBits(if passwordSend then Some(password) else None)
  {
    if passwordSend {
      t.AddBitsMsb(password, 32);
      assert WordBits(password)[..32] == WordBits(password);
    }
  }

  method AddData(t: TransferData, lock: bool, data: bv32)
    requires t.Valid()
    modifies t
    ensures t.Valid() && t.bits == old(t.bits) + [lock] + WordBits(data)
  {
    t.AddBit(lock);
    t.AddBitsLsb(data, 32);
    assert WordBits(data)[..32] == WordBits(data);
  }

  method AddAddress(t: TransferData, block: bv8)
    requires t.Valid()
    modifies t
    ensures t.Valid() && t.bits == old(t.bits) + BlockBits(block)
  {
    AddressBits(block);
    t.AddBitsMsb(block as bv32, 3);
  }

  method EncodeBlock(page: bv8, block: bv8, lock: bool, passwordSend: bool, password: bv32, data: bv32, before: seq<Sample>)
    returns (samples: seq<Sample>)
    ensures samples == before + Command(CommandBits(WriteOf(page, block, lock, passwordSend, password, data)))
  {
    var t := new TransferData(before);
    AddOpcode(t, page);
    assert t.bits == [true, page & 1 != 0];
    AddPassword(t, passwordSend, password);
    AddData(t, lock, data);
    AddAddress(t, block);
    samples := t.samples;
  }

  // ---- The configuration block ----

  datatype DataRate = RATE_8 | RATE_16 | RATE_32 | RATE_40 | RATE_50 | RATE_64 | RATE_100 | RATE_128
  datatype Modulation = DIRECT | PSK1 | PSK2 | PSK3 | FSK1 | FSK2 | FSK1A | FSK2A | MANCHESTER | BIPHASE
  datatype PskSubcarrier = RF_2 | RF_4 | RF_8

  datatype Parameters = Parameters(lock: bool, masterKey: bv8, dataRate: DataRate, modulation: Modulation,
    pskSubcarrier: PskSubcarrier, answerOnRequest: bool, maxBlock: bv8, password: bool, sequenceTerminator: bool,
    powerOnResetDelay: bool)

  function RateCode(r: DataRate): bv16 {
    match r
    case RATE_8 => 0 case RATE_16 => 1 case RATE_32 => 2 case RATE_40 => 3
    case RATE_50 => 4 case RATE_64 => 5 case RATE_100 => 6 case RATE_128 => 7
  }

  function ModulationCode(m: Modulation): bv16 {
    match m
    case DIRECT => 0 case PSK1 => 1 case PSK2 => 2 case PSK3 => 3 case FSK1 => 4
    case FSK2 => 5 case FSK1A => 6 case FSK2A => 7 case MANCHESTER => 8 case BIPHASE => 24
  }

  function SubcarrierCode(p: PskSubcarrier): bv16 {
    match p case RF_2 => 0 case RF_4 => 1 case RF_8 => 2
  }

  /** The configuration word, in the order in which it is sent. */
  function ParameterBits(p: Parameters): (bits: seq<bool>)
    ensures |bits| == 32
  {
    MiddleBits(p) + [p.password] + [p.sequenceTerminator] + Replicate(false, 2) + [p.powerOnResetDelay]
  }

  function FrontBits(p: Parameters): (bits: seq<bool>)
    ensures |bits| == 20
  {
    MsbFirst(p.masterKey as bv16, 4) + Replicate(false, 7) + MsbFirst(RateCode(p.dataRate), 3) + [false]
    + MsbFirst(ModulationCode(p.modulation), 5)
  }

  function MiddleBits(p: Parameters): (bits: seq<bool>)
    ensures |bits| == 27
  {
    FrontBits(p) + MsbFirst(SubcarrierCode(p.pskSubcarrier), 2) + [p.answerOnRequest] + [false]
    + MsbFirst(p.maxBlock as bv16, 3)
  }

  lemma ZeroBit(k: nat)
    requires k < 16
    ensures !HalfBit(0, k)
  {
  }

  lemma ZeroField(n: nat)
    requires n <= 16
    ensures MsbFirst(0, n) == Replicate(false, n)
  {
    forall k | 0 <= k < n ensures !MsbFirst(0, n)[k] { ZeroBit(n - 1 - k); }
  }

  /** The word under construction: its first `bitOffset` bits are written. */
  class FieldWriter {
    const word: array<bv32>
    var bitOffset: nat
    ghost var done: seq<bool>

    ghost predicate Valid()
      reads this, word
    {
      word.Length == 1 && bitOffset == |done| <= 32 && BufferBits(word[..])[..bitOffset] == done
    }

    constructor ()
      ensures Valid() && done == [] && fresh(word)
    {
      word := new bv32[1](_ => 0);
      bitOffset, done := 0, [];
    }

    method Bits(value: bv16, count: nat)
      requires Valid() && count <= 16 && bitOffset + count <= 32
      modifies this, word
      ensures Valid() && done == old(done) + MsbFirst(value, count)
    {
      var written := PutBitsMsb(word, bitOffset, value, count);
      bitOffset := bitOffset + written;
      done := done + MsbFirst(value, count);
    }

    method Flag(flag: bool)
      requires Valid() && bitOffset < 32
      modifies this, word
      ensures Valid() && done == old(done) + [flag]
    {
      var written := PutBit(word, bitOffset, flag);
      bitOffset := bitOffset + written;
      done := done + [flag];
    }

    method Zeros(count: nat)
      requires Valid() && count <= 16 && bitOffset + count <= 32
      modifies this, word
      ensures Valid() && done == old(done) + Replicate(false, count)
    {
      ZeroField(count);
      Bits(0, count);
    }

    method Front(p: Parameters)
      requires Valid() && done == []
      modifies this, word
      ensures Valid() && done == FrontBits(p)
    {
      Bits(p.masterKey as bv16, 4);
      Zeros(7);
      Bits(RateCode(p.dataRate), 3);
      Flag(false);
      Bits(ModulationCode(p.modulation), 5);
    }

    method Middle(p: Parameters)
      requires Valid() && done == FrontBits(p)
      modifies this, word
      ensures Valid() && done == MiddleBits(p)
    {
      Bits(SubcarrierCode(p.pskSubcarrier), 2);
      Flag(p.answerOnRequest);
      Flag(false);
      Bits(p.maxBlock as bv16, 3);
    }

    method Back(p: Parameters)
      requires Valid() && done == MiddleBits(p)
      modifies this, word
      ensures Valid() && done == ParameterBits(p)
    {
      Flag(p.password);
      Flag(p.sequenceTerminator);
      Zeros(2);
      Flag(p.powerOnResetDelay);
    }
  }

  lemma RatesDiffer(a: DataRate, b: DataRate)
    requires MsbFirst(RateCode(a), 3) == MsbFirst(RateCode(b), 3)
    ensures a == b
  {
    var x, y := RateCode(a), RateCode(b);
    assert MsbFirst(x, 3)[0] == HalfBit(x, 2) && MsbFirst(x, 3)[1] == HalfBit(x, 1) && MsbFirst(x, 3)[2] == HalfBit(x, 0);
    assert MsbFirst(y, 3)[0] == HalfBit(y, 2) && MsbFirst(y, 3)[1] == HalfBit(y, 1) && MsbFirst(y, 3)[2] == HalfBit(y, 0);
    LowBits(x, y);
    assert x == y;
  }

  /** Codes below 32 with the same five low bits are the same. */
  lemma LowBits(x: bv16, y: bv16)
    requires x < 32 && y < 32
    requires x >= 8 || y >= 8 ==> HalfBit(x, 4) == HalfBit(y, 4) && HalfBit(x, 3) == HalfBit(y, 3)
    requires x >= 4 || y >= 4 ==> HalfBit(x, 2) == HalfBit(y, 2)
    requires HalfBit(x, 1) == HalfBit(y, 1) && HalfBit(x, 0) == HalfBit(y, 0)
    ensures x == y
  {
  }

  lemma ModulationsDiffer(a: Modulation, b: Modulation)
    requires MsbFirst(ModulationCode(a), 5) == MsbFirst(ModulationCode(b), 5)
    ensures a == b
  {
    var x, y := ModulationCode(a), ModulationCode(b);
    assert MsbFirst(x, 5)[0] == HalfBit(x, 4) && MsbFirst(x, 5)[1] == HalfBit(x, 3) && MsbFirst(x, 5)[2] == HalfBit(x, 2);
    assert MsbFirst(y, 5)[0] == HalfBit(y, 4) && MsbFirst(y, 5)[1] == HalfBit(y, 3) && MsbFirst(y, 5)[2] == HalfBit(y, 2);
    assert MsbFirst(x, 5)[3] == HalfBit(x, 1) && MsbFirst(x, 5)[4] == HalfBit(x, 0);
    assert MsbFirst(y, 5)[3] == HalfBit(y, 1) && MsbFirst(y, 5)[4] == HalfBit(y, 0);
    LowBits(x, y);
    assert x == y;
  }

  lemma SubcarriersDiffer(a: PskSubcarrier, b: PskSubcarrier)
    requires MsbFirst(SubcarrierCode(a), 2) == MsbFirst(SubcarrierCode(b), 2)
    ensures a == b
  {
    var x, y := SubcarrierCode(a), SubcarrierCode(b);
    assert MsbFirst(x, 2)[0] == HalfBit(x, 1) && MsbFirst(x, 2)[1] == HalfBit(x, 0);
    assert MsbFirst(y, 2)[0] == HalfBit(y, 1) && MsbFirst(y, 2)[1] == HalfBit(y, 0);
    LowBits(x, y);
    assert x == y;
  }

  lemma FrontSlices(p: Parameters)
    ensures var b := ParameterBits(p);
            b[..4] == MsbFirst(p.masterKey as bv16, 4) && b[11..14] == MsbFirst(RateCode(p.dataRate), 3)
            && b[15..20] == MsbFirst(ModulationCode(p.modulation), 5)
  {
    var b := ParameterBits(p);
    assert b[..20] == FrontBits(p);
    assert b[..4] == b[..20][..4] && b[11..14] == b[..20][11..14] && b[15..20] == b[..20][15..20];
  }

  lemma BackSlices(p: Parameters)
    ensures var b := ParameterBits(p);
            b[20..22] == MsbFirst(SubcarrierCode(p.pskSubcarrier), 2) && b[22] == p.answerOnRequest
            && b[24..27] == MsbFirst(p.maxBlock as bv16, 3)
            && b[27] == p.password && b[28] == p.sequenceTerminator && b[31] == p.powerOnResetDelay
  {
    var b := ParameterBits(p);
    assert b[..27] == MiddleBits(p);
    assert b[20..22] == b[..27][20..22] && b[22] == b[..27][22] && b[24..27] == b[..27][24..27];
  }

  // ---- What the tag makes of the configuration ----

  /** A number, highest bit first. */
  function NumberOf(bits: seq<bool>): nat {
    if |bits| == 0 then 0 else 2 * NumberOf(bits[..|bits| - 1]) + if bits[|bits| - 1] then 1 else 0
  }

  /** How many periods of the carrier a bit of the tag lasts. */
  function BitPeriods(r: DataRate): nat {
    match r
    case RATE_8 => 8 case RATE_16 => 16 case RATE_32 => 32 case RATE_40 => 40
    case RATE_50 => 50 case RATE_64 => 64 case RATE_100 => 100 case RATE_128 => 128
  }

  /** The periods that the tag selects by the number in three bits. */
  function SelectedPeriods(bits: seq<bool>): nat
    requires |bits| == 3
  {
    var n := NumberOf(bits);
    if n == 0 then 8 else if n == 1 then 16 else if n == 2 then 32 else if n == 3 then 40
    else if n == 4 then 50 else if n == 5 then 64 else if n == 6 then 100 else 128
  }

  /** The five bits that select a modulation. */
  function ModulationBits(m: Modulation): (bits: seq<bool>)
    ensures |bits| == 5
  {
    match m
    case DIRECT => [false, false, false, false, false]
    case PSK1 => [false, false, false, false, true]
    case PSK2 => [false, false, false, true, false]
    case PSK3 => [false, false, false, true, true]
    case FSK1 => [false, false, true, false, false]
    case FSK2 => [false, false, true, false, true]
    case FSK1A => [false, false, true, true, false]
    case FSK2A => [false, false, true, true, true]
    case MANCHESTER => [false, true, false, false, false]
    case BIPHASE => [true, true, false, false, false]
  }

  /** The periods of the carrier in one of the subcarrier. */
  function SubcarrierPeriods(p: PskSubcarrier): nat {
    match p case RF_2 => 2 case RF_4 => 4 case RF_8 => 8
  }

  function SelectedSubcarrier(bits: seq<bool>): Option<nat>
    requires |bits| == 2
  {
    var n := NumberOf(bits);
    if n == 0 then Some(2) else if n == 1 then Some(4) else if n == 2 then Some(8) else None
  }

  /** A tag that has these 32 bits in its block 0, in the order in which they were sent, is configured as `p` says. */
  predicate Configures(bits: seq<bool>, p: Parameters)
    requires |bits| == 32
  {
    && bits[..4] == [p.masterKey & 8 != 0, p.masterKey & 4 != 0, p.masterKey & 2 != 0, p.masterKey & 1 != 0]
    && bits[4..11] == Replicate(false, 7) && !bits[14] && !bits[23] && !bits[29] && !bits[30]
    && SelectedPeriods(bits[11..14]) == BitPeriods(p.dataRate)
    && bits[15..20] == ModulationBits(p.modulation)
    && SelectedSubcarrier(bits[20..22]) == Some(SubcarrierPeriods(p.pskSubcarrier))
    && bits[22] == p.answerOnRequest
    && bits[24..27] == [p.maxBlock & 4 != 0, p.maxBlock & 2 != 0, p.maxBlock & 1 != 0]
    && bits[27] == p.password && bits[28] == p.sequenceTerminator && bits[31] == p.powerOnResetDelay
  }

  lemma NumberOfOne(a: bool)
    ensures NumberOf([a]) == if a then 1 else 0
  {
    assert [a][..0] == [] && NumberOf([a][..0]) == 0;
  }

  lemma NumberOfTwo(a: bool, b: bool)
    ensures NumberOf([a, b]) == (if a then 2 else 0) + (if b then 1 else 0)
  {
    NumberOfOne(a);
    assert [a, b][..1] == [a];
  }

  lemma NumberOfThree(a: bool, b: bool, c: bool)
    ensures NumberOf([a, b, c]) == (if a then 4 else 0) + (if b then 2 else 0) + (if c then 1 else 0)
  {
    NumberOfTwo(a, b);
    assert [a, b, c][..2] == [a, b];
  }

  lemma RateIsSelected(r: DataRate)
    ensures SelectedPeriods(MsbFirst(RateCode(r), 3)) == BitPeriods(r)
  {
    var x := RateCode(r);
    assert MsbFirst(x, 3) == [HalfBit(x, 2), HalfBit(x, 1), HalfBit(x, 0)];
    NumberOfThree(HalfBit(x, 2), HalfBit(x, 1), HalfBit(x, 0));
  }

  lemma ModulationIsSelected(m: Modulation)
    ensures MsbFirst(ModulationCode(m), 5) == ModulationBits(m)
  {
    var x := ModulationCode(m);
    assert MsbFirst(x, 5) == [HalfBit(x, 4), HalfBit(x, 3), HalfBit(x, 2), HalfBit(x, 1), HalfBit(x, 0)];
  }

  lemma SubcarrierIsSelected(p: PskSubcarrier)
    ensures SelectedSubcarrier(MsbFirst(SubcarrierCode(p), 2)) == Some(SubcarrierPeriods(p))
  {
    var x := SubcarrierCode(p);
    assert MsbFirst(x, 2) == [HalfBit(x, 1), HalfBit(x, 0)];
    NumberOfTwo(HalfBit(x, 1), HalfBit(x, 0));
  }

  lemma LowBitsOfByte(b: bv8)
    ensures MsbFirst(b as bv16, 4) == [b & 8 != 0, b & 4 != 0, b & 2 != 0, b & 1 != 0]
    ensures MsbFirst(b as bv16, 3) == [b & 4 != 0, b & 2 != 0, b & 1 != 0]
  {
    var x := b as bv16;
    assert MsbFirst(x, 4) == [HalfBit(x, 3), HalfBit(x, 2), HalfBit(x, 1), HalfBit(x, 0)];
    assert MsbFirst(x, 3) == [HalfBit(x, 2), HalfBit(x, 1), HalfBit(x, 0)];
  }

  lemma ZeroSlices(p: Parameters)
    ensures var b := ParameterBits(p); b[4..11] == Replicate(false, 7) && !b[14] && !b[23] && !b[29] && !b[30]
  {
    var b := ParameterBits(p);
    assert b[..20] == FrontBits(p) && b[..27] == MiddleBits(p);
    assert b[4..11] == b[..20][4..11] && b[14] == b[..20][14] && b[23] == b[..27][23];
  }

  /** The configuration sent selects exactly the parameters. */
  lemma ParametersAreSelected(p: Parameters)
    ensures Configures(ParameterBits(p), p)
  {
    FrontSlices(p);
    BackSlices(p);
    ZeroSlices(p);
    LowBitsOfByte(p.masterKey);
    LowBitsOfByte(p.maxBlock);
    RateIsSelected(p.dataRate);
    ModulationIsSelected(p.modulation);
    SubcarrierIsSelected(p.pskSubcarrier);
  }

  method ConfigurationWord(p: Parameters) returns (data: bv32)
    ensures WordBits(data) == ParameterBits(p) && Configures(WordBits(data), p)
  {
    ParametersAreSelected(p);
    var w := new FieldWriter();
    w.Front(p);
    w.Middle(p);
    w.Back(p);
    data := w.word[0];
    assert w.word[..] == [data];
    assert BufferBits([data]) == WordBits(data);
  }

  /** The configuration word determines all its parameters: the four low bits of the master key,
      the three low bits of the highest block, and everything else. */
  lemma ConfigurationIsUnambiguous(p: Parameters, q: Parameters)
    requires ParameterBits(p) == ParameterBits(q)
    ensures MsbFirst(p.masterKey as bv16, 4) == MsbFirst(q.masterKey as bv16, 4)
    ensures MsbFirst(p.maxBlock as bv16, 3) == MsbFirst(q.maxBlock as bv16, 3)
    ensures p.(lock := q.lock, masterKey := q.masterKey, maxBlock := q.maxBlock) == q
  {
    FrontSlices(p);
    FrontSlices(q);
    BackSlices(p);
    BackSlices(q);
    RatesDiffer(p.dataRate, q.dataRate);
    ModulationsDiffer(p.modulation, q.modulation);
    SubcarriersDiffer(p.pskSubcarrier, q.pskSubcarrier);
  }

  method EncodeParameters(p: Parameters, passwordSend: bool, password: bv32, before: seq<Sample>)
    returns (samples: seq<Sample>)
    ensures exists data :: WordBits(data) == ParameterBits(p) && Configures(WordBits(data), p) &&
              samples == before + Command(CommandBits(WriteOf(0, 0, p.lock, passwordSend, password, data)))
  {
    var data := ConfigurationWord(p);
    samples := EncodeBlock(0, 0, p.lock, passwordSend, password, data, before);
  }
}
