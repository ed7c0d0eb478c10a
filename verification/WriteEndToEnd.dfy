/** From a write command to the waveform on the coil, and back to what the tag reads. */
module WriteEndToEnd {
  import opened DataUtils
  import opened Em4100Decoder
  import opened Em4100Eprom
  import opened Em4100Frame
  import opened FirmwareTransfer
  import opened IoBuffer
  import opened SampleUpload
  import opened Samples
  import opened Sequences
  import opened T5557Encoder
  import opened TransferHistory

  // ---- Uploading in chunks ----

  lemma Appended(before: seq<bv8>, data: seq<bv8>, done: nat, n: nat)
    requires done + n <= |data| == |before| && before[..done] == data[..done]
    ensures Overwrite(before, done, data[done..done + n][..n])[..done + n] == data[..done + n]
  {
  }

  /** Hands over a buffer in chunks of any sizes. */
  method UploadAll(f: Firmware, c: Request, data: seq<bv8>, cut: nat -> nat)
    requires f.Valid() && f.state == IDLE
    requires |data| == if c == PulseVector then SAMPLE_BUFFER_SIZE else PULSE_VECTOR_SIZE
    modifies f, f.ioBuffer, f.sampleVector
    ensures f.Valid() && f.state == IDLE && f.id == old(f.id)
    ensures c == PulseVector ==> f.ioBuffer[..] == data && f.sampleVector[..] == old(f.sampleVector[..])
    ensures c == SampleVector ==> f.sampleVector[..] == data && f.ioBuffer[..] == old(f.ioBuffer[..])
  {
    f.SetupTransfer(c);
    var done, i := 0, 0;
    while done < |data|
      invariant f.Valid() && f.state == IDLE && f.id == old(f.id) && f.command == c
      invariant done == f.ioBufferOffset <= |data| == f.Target().Length
      invariant f.Target()[..done] == data[..done]
      invariant c == PulseVector ==> f.sampleVector[..] == old(f.sampleVector[..])
      invariant c == SampleVector ==> f.ioBuffer[..] == old(f.ioBuffer[..])
    {
      var n := Least(cut(i) + 1, |data| - done);
      Appended(f.Target()[..], data, done, n);
      var written := f.FunctionWrite(data[done..done + n]);
      done, i := done + n, i + 1;
    }
  }

  // ---- What a write command looks like ----

  lemma {:induction false} SubsetCount<T>(a: set<T>, b: set<T>)
    requires a <= b
    ensures |a| <= |b|
    decreases |a|
  {
    if a != {} {
      var x :| x in a;
      SubsetCount(a - {x}, b - {x});
    }
  }

  predicate FourLengths(s: Sample) {
    s.lengthUs == CARRIER_US * Units(s) && (Units(s) == 19 || Units(s) == 23 || Units(s) == 30 || Units(s) == 55)
  }

  lemma {:induction false} CodedLengths(bits: seq<bool>)
    ensures forall s :: s in Coded(bits) ==> FourLengths(s)
  {
    if |bits| > 0 {
      CodedLengths(bits[..|bits| - 1]);
      assert FourLengths(BitSamples(bits[|bits| - 1])[0]) && FourLengths(BitSamples(bits[|bits| - 1])[1]);
    }
  }

  /** A command fits the nibbles and the vector: 77 samples, or 141 with a password, of at most four lengths. */
  lemma CommandFits(w: Write)
    ensures var samples := Command(CommandBits(w));
            && |samples| == (if w.password.Some? then 141 else 77)
            && (forall s :: s in samples ==> FourLengths(s))
            && |Lengths(samples)| <= 4 && Shortest(samples) == 19
  {
    var bits := CommandBits(w);
    var samples := Command(bits);
    CodedLengths(bits);
    assert Lengths(samples) <= {19, 23, 30, 55};
    SubsetCount(Lengths(samples), {19, 23, 30, 55});
    ShortestIs(samples);
    assert Coded(bits)[|Coded(bits)| - 1] == Sample(WRITE_GAP, false);
    assert Sample(WRITE_GAP, false) in samples;
    assert Units(Sample(WRITE_GAP, false)) in Lengths(samples);
  }

  /** A waveform as levels with their durations in microseconds. */
  function AsSamples(wave: seq<Pulse>): (samples: seq<Sample>)
    ensures |samples| == |wave|
  {
    seq(|wave|, k requires 0 <= k < |wave| => Sample(CARRIER_US * wave[k].length, wave[k].high))
  }

  /** On the coil: the command, and exactly one more low level, of the shortest length. */
  lemma WaveformOfCommand(w: Write)
    ensures var samples := Command(CommandBits(w));
            AsSamples(Waveform(samples)) == samples + [Sample(WRITE_GAP, false)]
  {
    CommandFits(w);
    var samples := Command(CommandBits(w));
    forall k | 0 <= k < |samples| ensures AsSamples(Waveform(samples))[k] == samples[k] {
      assert FourLengths(samples[k]);
    }
  }

  /** The tag reads from the waveform the fields of the command. */
  lemma TagReadsCommand(w: Write)
    ensures var read := ReadBits(AsSamples(Waveform(Command(CommandBits(w)))));
            read == Some(CommandBits(w)) && Parse(read.value, w.password.Some?) == Some(FieldsOf(w))
  {
    WaveformOfCommand(w);
    ReadsCommand(CommandBits(w));
    LowIgnored(Command(CommandBits(w)), WRITE_GAP);
    ParsesCommand(w);
  }

  // ---- The whole write ----

  const TX_FLAGS: nat := TX_MODE + START_ON_EDGE + FALLING_EDGE + FIRST_ON_START + 8

  /** The timeout passed to the device, cut to 16 bits. */
  const TX_TIMEOUT: nat := 60000 * CARRIER_US % 0x10000

  /** The device is as it was. */
  twostate predicate Untouched(f: Firmware)
    reads f, f.ioBuffer, f.sampleVector
  {
    f.h == old(f.h) && f.ioBuffer[..] == old(f.ioBuffer[..]) && f.sampleVector[..] == old(f.sampleVector[..])
  }

  /** Packing and both uploads: what the device will replay is the waveform of the samples. Samples of more than seven
      lengths are refused, before anything is sent. */
  method UploadSamples(f: Firmware, samples: seq<Sample>, cut: nat -> nat) returns (accepted: bool)
    requires f.Valid() && f.state == IDLE
    requires |samples| <= 2 * SAMPLE_BUFFER_SIZE
    modifies f, f.ioBuffer, f.sampleVector
    ensures f.Valid() && f.state == IDLE
    ensures accepted <==> |Lengths(samples)| <= PULSE_VECTOR_SIZE
    ensures accepted ==> EndsAt(f.ioBuffer[..], |Waveform(samples)|)
    ensures accepted ==> Played(f.ioBuffer[..], f.sampleVector[..], |Waveform(samples)|) == Waveform(samples)
    ensures !accepted ==> Untouched(f)
  {
    var upload := PutSamples(samples);
    accepted := upload.Upload?;
    if accepted {
      UploadAll(f, SampleVector, upload.vector, cut);
      UploadAll(f, PulseVector, upload.buffer, cut);
    }
  }

  /** Periods of the carrier from the edge to the first pulse; the coil is off. */
  const LEAD: nat := 2

  /** The transfer that `putSamples` asks for. */
  predicate AsTransmission(h: History) {
    !h.uploaded && h.tx && h.falling && h.allowed == 21248 && h.lead == 2 && Follows(h)
  }

  /** On the bus: the request for such a transfer; the timeout has lost its high bits. */
  lemma TransmissionRequest(io: seq<bv8>)
    ensures TX_FLAGS == 0xf008 && TX_TIMEOUT == 21248 && AsTransmission(Fresh(io, 21248, 0xf008))
    ensures Flag(0xf008, START_ON_EDGE)
  {
  }

  lemma StaysTransmission(g: History, h: History)
    requires AsTransmission(g) && Continues(g, h) && Follows(h)
    ensures AsTransmission(h) && h.initial == g.initial
  {
  }

  /** A good status means that the buffer at the start was replayed to its end. */
  lemma SentAll(h: History, io: seq<bv8>, vector: seq<bv8>, offset: nat, buffer: seq<bv8>, n: nat)
    requires Sent(h, io, vector, offset) && AsTransmission(h) && h.initial == buffer && EndsAt(buffer, n)
    ensures |vector| == PULSE_VECTOR_SIZE && h.shown == Replay(LEAD, Played(buffer, vector, n))
  {
    EndsOnce(buffer, offset, n);
  }

  lemma SentNothing(h: History, io: seq<bv8>)
    requires TimedOut(h, io) && AsTransmission(h)
    ensures h.shown == [] && h.waited == 84996
  {
  }

  /** The transfer on the device, which takes any `steps` while the host sleeps; what the status then says. */
  method Attempt(f: Firmware, steps: seq<Step>) returns (status: Status, offset: nat)
    requires f.Valid() && f.state == IDLE
    modifies f, f.ioBuffer
    ensures f.Valid() && status != UNKNOWN && AsTransmission(f.h) && f.h.initial == old(f.ioBuffer[..])
    ensures status == IN_PROGRESS <==> f.state != IDLE
    ensures status == TIMEOUT <==> f.state == IDLE && NoEdgeInTime(f.h)
    ensures status == OK ==> FirstEdgeRead(f.h) && Sent(f.h, f.ioBuffer[..], f.sampleVector[..], offset)
    ensures status == TIMEOUT ==> NoEdgeAllowed(f.h) && TimedOut(f.h, f.ioBuffer[..])
  {
    TransmissionRequest(f.ioBuffer[..]);
    var transfer := f.TransferStart(TX_TIMEOUT, TX_FLAGS);
    ghost var start := f.h;
    var effective := Interleave(f, steps);
    StaysTransmission(start, f.h);
    status, offset := f.TransferStatus(transfer);
  }

  method Transfer(f: Firmware, steps: seq<Step>, ghost n: nat) returns (status: Status)
    requires f.Valid() && f.state == IDLE && EndsAt(f.ioBuffer[..], n)
    modifies f, f.ioBuffer
    ensures f.Valid() && status != UNKNOWN && AsTransmission(f.h)
    ensures status == IN_PROGRESS <==> f.state != IDLE
    ensures status == TIMEOUT <==> f.state == IDLE && NoEdgeInTime(f.h)
    ensures status == OK ==>
              FirstEdgeRead(f.h) && f.h.shown == Replay(LEAD, Played(old(f.ioBuffer[..]), old(f.sampleVector[..]), n))
    ensures status == TIMEOUT ==> f.h.shown == [] && |f.h.readings| == 21249 && NoEdgeAllowed(f.h) && f.h.waited == 84996
  {
    ghost var buffer, vector := f.ioBuffer[..], f.sampleVector[..];
    var offset;
    status, offset := Attempt(f, steps);
    assert f.sampleVector[..] == vector;
    if status == OK {
      SentAll(f.h, f.ioBuffer[..], vector, offset, buffer, n);
    } else if status == TIMEOUT {
      SentNothing(f.h, f.ioBuffer[..]);
    }
  }

  /** `putSamples` with its transfer: unless the samples are refused, a good status means that behind the first falling
      edge the coil has shown exactly their waveform, and a timeout that it has shown nothing, and that there was no
      such edge in the conversions the timeout allows. */
  method Transmit(f: Firmware, samples: seq<Sample>, cut: nat -> nat, steps: seq<Step>)
    returns (accepted: bool, status: Status)
    requires f.Valid() && f.state == IDLE
    requires |samples| <= 2 * SAMPLE_BUFFER_SIZE
    modifies f, f.ioBuffer, f.sampleVector
    ensures f.Valid() && (accepted <==> |Lengths(samples)| <= PULSE_VECTOR_SIZE)
    ensures if accepted then status != UNKNOWN else status == UNKNOWN && f.state == IDLE && Untouched(f)
    ensures accepted ==> AsTransmission(f.h) && (status == IN_PROGRESS <==> f.state != IDLE)
    ensures accepted ==> (status == TIMEOUT <==> f.state == IDLE && NoEdgeInTime(f.h))
    ensures status == OK ==> FirstEdgeRead(f.h) && f.h.shown == Replay(LEAD, Waveform(samples))
    ensures status == TIMEOUT ==> f.h.shown == [] && |f.h.readings| == 21249 && NoEdgeAllowed(f.h) && f.h.waited == 84996
  {
    status := UNKNOWN;
    accepted := UploadSamples(f, samples, cut);
    if accepted {
      status := Transfer(f, steps, |Waveform(samples)|);
    }
  }

  /** What the coil has shown from its first switching on. */
  function OnCoil(h: History): seq<Pulse> {
    if h.shown == [] then [] else h.shown[1..]
  }

  lemma ReplayOnCoil(h: History, wave: seq<Pulse>)
    requires h.shown == Replay(LEAD, wave)
    ensures OnCoil(h) == wave
  {
  }

  /** Writes a block: both buffers are uploaded in chunks of any sizes, and the device takes any steps while the host
      sleeps. If the status is then good, which it is exactly if the device is done and there was an edge in time, the
      coil has shown exactly the command, and the tag reads it as it was meant. */
  method WriteBlock(f: Firmware, page: bv8, block: bv8, lock: bool, passwordSend: bool, password: bv32, data: bv32,
                    cut: nat -> nat, steps: seq<Step>)
    returns (ok: bool)
    requires f.Valid() && f.state == IDLE
    modifies f, f.ioBuffer, f.sampleVector
    ensures f.Valid() && AsTransmission(f.h) && (ok <==> f.state == IDLE && !NoEdgeInTime(f.h))
    ensures ok ==>
              var w := WriteOf(page, block, lock, passwordSend, password, data);
              var read := ReadBits(AsSamples(OnCoil(f.h)));
              && f.state == IDLE && FirstEdgeRead(f.h)
              && AsSamples(OnCoil(f.h)) == Command(CommandBits(w)) + [Sample(WRITE_GAP, false)]
              && read == Some(CommandBits(w))
              && Parse(read.value, passwordSend) ==
                 Some(Fields(page & 1 != 0, if passwordSend then WordBits(password) else [], lock, WordBits(data),
                             BlockBits(block)))
  {
    var samples := EncodeBlock(page, block, lock, passwordSend, password, data, []);
    ghost var w := WriteOf(page, block, lock, passwordSend, password, data);
    assert samples == Command(CommandBits(w));
    CommandFits(w);
    var accepted, status := Transmit(f, samples, cut, steps);
    WaveformOfCommand(w);
    TagReadsCommand(w);
    ok := status == OK;
    if ok { ReplayOnCoil(f.h, Waveform(samples)); }
  }

  /** What the tag has read of the last transmission. */
  ghost function TagRead(f: Firmware): Option<Fields>
    reads f
  {
    var read := ReadBits(AsSamples(OnCoil(f.h)));
    if read.None? then None else Parse(read.value, false)
  }

  lemma TwoWords(words: seq<bv32>)
    requires |words| == 2
    ensures WordBits(words[0]) == BufferBits(words)[..32] && WordBits(words[1]) == BufferBits(words)[32..]
  {
  }

  method WriteWord(f: Firmware, block: bv8, lock: bool, word: bv32, cut: nat -> nat, steps: seq<Step>)
    returns (ok: bool, ghost read: Option<Fields>)
    requires f.Valid() && f.state == IDLE
    modifies f, f.ioBuffer, f.sampleVector
    ensures f.Valid() && (ok <==> f.state == IDLE && !NoEdgeInTime(f.h))
    ensures ok ==> read == Some(Fields(false, [], lock, WordBits(word), BlockBits(block)))
  {
    ok := WriteBlock(f, 0, block, lock, false, 0, word, cut, steps);
    read := TagRead(f);
  }

  /** The frame of a customer id and token. */
  function TokenFrame(customerId: bv8, token: bv32): (frame: seq<bool>)
    ensures |frame| == 64
  {
    Frame(IdentityOf(Token(customerId, token)))
  }

  method EpromWords(customerId: bv8, token: bv32) returns (word0: bv32, word1: bv32)
    ensures WordBits(word0) == TokenFrame(customerId, token)[..32] && WordBits(word1) == TokenFrame(customerId, token)[32..]
  {
    var eprom := new bv32[2](_ => 0);
    Generate(eprom, customerId, token);
    TwoWords(eprom[..]);
    word0, word1 := eprom[0], eprom[1];
  }

  /** What the tag reads of a command without password to page 0. */
  function Plain(lock: bool, data: seq<bool>, block: seq<bool>): Fields { Fields(false, [], lock, data, block) }

  lemma Blocks()
    ensures BlockBits(0) == [false, false, false]
    ensures BlockBits(1) == [false, false, true] && BlockBits(2) == [false, true, false]
  {
  }

  /** Programming a tag: the configuration block, then the two halves of the EM4100 frame. If all three transmissions end
      well, the tag has read in block 0 a configuration that selects the parameters, locked if they say so, and in blocks 1
      and 2, not locked, the frame of the token; all in page 0 and without a password. */
  method WriteTag(f: Firmware, p: Parameters, customerId: bv8, token: bv32, cut: nat -> nat, steps: nat -> seq<Step>)
    returns (ok: bool, ghost config: Option<Fields>, ghost first: Option<Fields>, ghost second: Option<Fields>)
    requires f.Valid() && f.state == IDLE
    modifies f, f.ioBuffer, f.sampleVector
    ensures f.Valid() && (ok <==> f.state == IDLE && !NoEdgeInTime(f.h))
    ensures ok ==>
              && config.Some? && config == Some(Plain(p.lock, config.value.data, [false, false, false]))
              && |config.value.data| == 32 && Configures(config.value.data, p)
              && first == Some(Plain(false, TokenFrame(customerId, token)[..32], [false, false, true]))
              && second == Some(Plain(false, TokenFrame(customerId, token)[32..], [false, true, false]))
  {
    config, first, second := None, None, None;
    Blocks();
    var configuration := ConfigurationWord(p);
    ok, config := WriteWord(f, 0, p.lock, configuration, cut, steps(0));
    if !ok { return; }
    var word0, word1 := EpromWords(customerId, token);
    ok, first := WriteWord(f, 1, false, word0, cut, steps(1));
    if !ok { return; }
    ok, second := WriteWord(f, 2, false, word1, cut, steps(2));
  }

  // ---- The choices of the program ----

  datatype Bitrate = BITRATE_16 | BITRATE_32 | BITRATE_64

  datatype Coding = MANCHESTER_CODE | BIPHASE_CODE

  /** The default parameters with rate, code and number of data blocks. */
  function ProgramParameters(bitrate: Bitrate, coding: Coding): Parameters {
    Parameters(false, 0,
               match bitrate case BITRATE_16 => RATE_16 case BITRATE_32 => RATE_32 case BITRATE_64 => RATE_64,
               match coding case MANCHESTER_CODE => MANCHESTER case BIPHASE_CODE => BIPHASE,
               RF_2, true, 2, false, false, false)
  }

  function RateBits(bitrate: Bitrate): (bits: seq<bool>)
    ensures |bits| == 3
  {
    match bitrate
    case BITRATE_16 => [false, false, true] case BITRATE_32 => [false, true, false] case BITRATE_64 => [true, false, true]
  }

  function CodingBits(coding: Coding): (bits: seq<bool>)
    ensures |bits| == 5
  {
    match coding
    case MANCHESTER_CODE => [false, true, false, false, false] case BIPHASE_CODE => [true, true, false, false, false]
  }

  /** The 32 bits of block 0: the codes of rate and modulation, ... */
  function ProgramBits(bitrate: Bitrate, coding: Coding): (bits: seq<bool>)
    ensures |bits| == 32
  {
    CodeBits(bitrate, coding) + OptionBits()
  }

  function CodeBits(bitrate: Bitrate, coding: Coding): (bits: seq<bool>)
    ensures |bits| == 20
  {
    Replicate(false, 11) + RateBits(bitrate) + [false] + CodingBits(coding)
  }

  /** ... answer on request, and two data blocks. */
  function OptionBits(): (bits: seq<bool>)
    ensures |bits| == 12
  {
    [false, false, true, false, false, true, false, false, false, false, false, false]
  }

  lemma ThreeBits(bits: seq<bool>)
    requires |bits| == 3
    ensures SelectedPeriods(bits) == 16 ==> bits == [false, false, true]
    ensures SelectedPeriods(bits) == 32 ==> bits == [false, true, false]
    ensures SelectedPeriods(bits) == 64 ==> bits == [true, false, true]
  {
    assert bits == [bits[0], bits[1], bits[2]];
    NumberOfThree(bits[0], bits[1], bits[2]);
  }

  lemma TwoBits(bits: seq<bool>)
    requires |bits| == 2
    ensures SelectedSubcarrier(bits) == Some(2) ==> bits == [false, false]
  {
    assert bits == [bits[0], bits[1]];
    NumberOfTwo(bits[0], bits[1]);
  }

  lemma CodeSlices(bitrate: Bitrate, coding: Coding)
    ensures var b := CodeBits(bitrate, coding);
            (forall k :: 0 <= k < 11 ==> !b[k]) && b[11..14] == RateBits(bitrate) && !b[14] && b[15..20] == CodingBits(coding)
  {
    var b := CodeBits(bitrate, coding);
    assert b[11..14] == RateBits(bitrate);
    assert b[15..20] == CodingBits(coding);
  }

  lemma ProgramSlices(bitrate: Bitrate, coding: Coding)
    ensures var b := ProgramBits(bitrate, coding);
            (forall k :: 0 <= k < 20 ==> b[k] == CodeBits(bitrate, coding)[k])
            && (forall k :: 20 <= k < 32 ==> b[k] == (k == 22 || k == 25))
  {
  }

  lemma SameSlice(a: seq<bool>, b: seq<bool>, from: nat, to: nat)
    requires from <= to <= |a| == |b| && a[from..to] == b[from..to]
    ensures forall k :: from <= k < to ==> a[k] == b[k]
  {
    assert forall k :: from <= k < to ==> a[k] == a[from..to][k - from] && b[k] == b[from..to][k - from];
  }

  lemma ConfiguredBits(b: seq<bool>, bitrate: Bitrate, coding: Coding)
    requires |b| == 32 && Configures(b, ProgramParameters(bitrate, coding))
    ensures (forall k :: 0 <= k < 11 ==> !b[k]) && b[11..14] == RateBits(bitrate) && !b[14] && b[15..20] == CodingBits(coding)
    ensures !b[20] && !b[21] && b[22] && !b[23] && !b[24] && b[25] && (forall k :: 26 <= k < 32 ==> !b[k])
  {
    ThreeBits(b[11..14]);
    TwoBits(b[20..22]);
    assert b[0] == b[..4][0] && b[1] == b[..4][1] && b[2] == b[..4][2] && b[3] == b[..4][3];
    forall k | 4 <= k < 11 ensures !b[k] { assert b[k] == b[4..11][k - 4]; }
    assert b[20] == b[20..22][0] && b[21] == b[20..22][1];
    assert b[24] == b[24..27][0] && b[25] == b[24..27][1] && b[26] == b[24..27][2];
  }

  /** Only these bits configure a tag in that way. */
  lemma OnlyProgramBits(bits: seq<bool>, bitrate: Bitrate, coding: Coding)
    requires |bits| == 32 && Configures(bits, ProgramParameters(bitrate, coding))
    ensures bits == ProgramBits(bitrate, coding)
  {
    var want, codes := ProgramBits(bitrate, coding), CodeBits(bitrate, coding);
    ConfiguredBits(bits, bitrate, coding);
    ProgramSlices(bitrate, coding);
    CodeSlices(bitrate, coding);
    SameSlice(bits[..20], codes, 11, 14);
    SameSlice(bits[..20], codes, 15, 20);
    assert forall k :: 0 <= k < 20 ==> bits[k] == bits[..20][k] == codes[k];
    assert forall k :: 0 <= k < 32 ==> bits[k] == want[k];
  }

  /** The write branch of the program, for each of its six choices. */
  method WriteToken(f: Firmware, bitrate: Bitrate, coding: Coding, customerId: bv8, token: bv32, cut: nat -> nat,
                    steps: nat -> seq<Step>)
    returns (ok: bool, ghost config: Option<Fields>, ghost first: Option<Fields>, ghost second: Option<Fields>)
    requires f.Valid() && f.state == IDLE
    modifies f, f.ioBuffer, f.sampleVector
    ensures f.Valid() && (ok <==> f.state == IDLE && !NoEdgeInTime(f.h))
    ensures ok ==>
              && config == Some(Plain(false, ProgramBits(bitrate, coding), [false, false, false]))
              && first == Some(Plain(false, TokenFrame(customerId, token)[..32], [false, false, true]))
              && second == Some(Plain(false, TokenFrame(customerId, token)[32..], [false, true, false]))
  {
    ok, config, first, second := WriteTag(f, ProgramParameters(bitrate, coding), customerId, token, cut, steps);
    if ok { OnlyProgramBits(config.value.data, bitrate, coding); }
  }
}
