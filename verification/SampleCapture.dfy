/** The host's reading of a captured buffer: bits into runs. */
module SampleCapture {
  import opened IoBuffer
  import opened Samples
  import opened Sequences
  import opened UsbLine

  const PRESCALER: int := 8

  /** Where the last run of equal bits begins. */
  function LastRun(bits: seq<bool>): (start: nat)
    requires |bits| > 0
    ensures start < |bits|
  {
    var n := |bits| - 1;
    if n > 0 && bits[n] == bits[n - 1] then LastRun(bits[..n]) else n
  }

  /** Expands runs into bits; a set bit is a low level. */
  function Expand(samples: seq<Sample>): seq<bool>
    requires Runs(samples)
  {
    if |samples| == 0 then []
    else
      var s := samples[|samples| - 1];
      Expand(samples[..|samples| - 1]) + Replicate(!s.isHigh, s.lengthUs / (CARRIER_US * PRESCALER))
  }

  /** Lengths are whole numbers of conversions; only the first one may be zero. */
  predicate Runs(samples: seq<Sample>) {
    forall i :: 0 <= i < |samples| ==>
      samples[i].lengthUs % (CARRIER_US * PRESCALER) == 0 && samples[i].lengthUs >= 0 && (i > 0 ==> samples[i].lengthUs > 0)
  }

  predicate Alternate(samples: seq<Sample>) {
    forall i :: 0 <= i < |samples| - 1 ==> samples[i].isHigh != samples[i + 1].isHigh
  }

  /** What is known of the samples of `bits`: they expand to all but the first bit and the last run. */
  predicate SamplesOf(bits: seq<bool>, samples: seq<Sample>) {
    && Runs(samples) && Alternate(samples)
    && if |bits| == 0 || LastRun(bits) == 0 then samples == []
       else
         && Expand(samples) == bits[1..LastRun(bits)]
         && |samples| > 0 && samples[|samples| - 1].isHigh == bits[|bits| - 1]
         && samples[0].isHigh == !bits[0]
  }

  /** The length counted for the run under way: the first bit of all is not counted. */
  function Counted(bits: seq<bool>): nat {
    if |bits| == 0 then 0 else if LastRun(bits) == 0 then |bits| - 1 else |bits| - LastRun(bits)
  }

  lemma SameRun(bits: seq<bool>, bit: bool)
    requires |bits| > 0 && bits[|bits| - 1] == bit
    ensures LastRun(bits + [bit]) == LastRun(bits)
  {
    assert (bits + [bit])[..|bits|] == bits;
  }

  lemma RunIsConstant(bits: seq<bool>)
    requires |bits| > 0
    ensures forall i :: LastRun(bits) <= i < |bits| ==> bits[i] == bits[|bits| - 1]
  {
  }

  function RunSample(bits: seq<bool>): Sample
    requires |bits| > 0
  {
    Sample(Counted(bits) * CARRIER_US * PRESCALER, !bits[|bits| - 1])
  }

  /** A change of level ends a run, which becomes a sample. */
  lemma EndRun(bits: seq<bool>, samples: seq<Sample>)
    requires |bits| > 0 && SamplesOf(bits, samples)
    ensures SamplesOf(bits + [!bits[|bits| - 1]], samples + [RunSample(bits)])
  {
    var more, s := bits + [!bits[|bits| - 1]], RunSample(bits);
    var all := samples + [s];
    assert LastRun(more) == |bits|;
    RunIsConstant(bits);
    assert all[..|samples|] == samples;
    assert s.lengthUs / (CARRIER_US * PRESCALER) == Counted(bits);
    assert more[1..|bits|] == bits[1..];
    var run := Replicate(bits[|bits| - 1], Counted(bits));
    if LastRun(bits) == 0 {
      assert bits[1..] == run;
      assert Expand(all) == [] + run;
    } else {
      assert bits[1..] == bits[1..LastRun(bits)] + run;
    }
  }

  lemma ContinueRun(bits: seq<bool>, samples: seq<Sample>)
    requires |bits| > 0 && SamplesOf(bits, samples)
    ensures SamplesOf(bits + [bits[|bits| - 1]], samples)
    ensures Counted(bits + [bits[|bits| - 1]]) == Counted(bits) + 1
  {
    var more := bits + [bits[|bits| - 1]];
    SameRun(bits, bits[|bits| - 1]);
    assert LastRun(bits) == 0 || more[1..LastRun(bits)] == bits[1..LastRun(bits)];
  }

  function SamplesAfter(bits: seq<bool>, samples: seq<Sample>, bit: bool): seq<Sample> {
    if |bits| > 0 && bit != bits[|bits| - 1] then samples + [RunSample(bits)] else samples
  }

  function CountAfter(bits: seq<bool>, bit: bool): nat {
    if |bits| == 0 then 0 else if bit != bits[|bits| - 1] then 1 else Counted(bits) + 1
  }

  lemma OneMoreBit(bits: seq<bool>, samples: seq<Sample>, bit: bool)
    requires SamplesOf(bits, samples)
    ensures SamplesOf(bits + [bit], SamplesAfter(bits, samples, bit))
    ensures Counted(bits + [bit]) == CountAfter(bits, bit)
  {
    if |bits| == 0 {
      assert LastRun(bits + [bit]) == 0;
    } else if bit != bits[|bits| - 1] {
      EndRun(bits, samples);
      assert LastRun(bits + [bit]) == |bits|;
    } else {
      ContinueRun(bits, samples);
    }
  }

  /** The samples of a bit sequence: one for each run but the last. */
  function RunSamples(bits: seq<bool>): seq<Sample> {
    if |bits| == 0 then [] else SamplesAfter(bits[..|bits| - 1], RunSamples(bits[..|bits| - 1]), bits[|bits| - 1])
  }

  lemma RunSamplesSnoc(bits: seq<bool>, bit: bool)
    ensures RunSamples(bits + [bit]) == SamplesAfter(bits, RunSamples(bits), bit)
  {
    assert (bits + [bit])[..|bits|] == bits;
  }

  /** What the three variables hold after some bits. */
  predicate Reading(bits: seq<bool>, state: int, length: int, samples: seq<Sample>) {
    && SamplesOf(bits, samples) && samples == RunSamples(bits)
    && length == Counted(bits)
    && state == if |bits| == 0 then -1 else if bits[|bits| - 1] then 1 else 0
  }

  lemma ReadsBit(bits: seq<bool>, bit: bool, state: int, length: int, samples: seq<Sample>)
    requires Reading(bits, state, length, samples)
    ensures var now := if bit then 1 else 0;
            Reading(bits + [bit], now,
                    if now == state then length + 1 else if state == -1 then length else 1,
                    if now == state || state == -1 then samples
                    else samples + [Sample(length * CARRIER_US * PRESCALER, state == 0)])
  {
    OneMoreBit(bits, samples, bit);
    RunSamplesSnoc(bits, bit);
  }

  /** The reading loop of `getSamples` with its three variables. */
  class RunReader {
    var currentState: int
    var currentStateLength: int
    var samples: seq<Sample>
    ghost var bits: seq<bool>

    ghost predicate Valid()
      reads this
    {
      Reading(bits, currentState, currentStateLength, samples)
    }

    constructor ()
      ensures Valid() && bits == [] && samples == []
    {
      currentState, currentStateLength, samples, bits := -1, 0, [], [];
    }

    method OnBit(bit: bool)
      requires Valid()
      modifies this
      ensures Valid() && bits == old(bits) + [bit]
    {
      ReadsBit(bits, bit, currentState, currentStateLength, samples);
      var lastState := currentState;
      currentState := if bit then 1 else 0;
      if currentState != lastState {
        if lastState != -1 {
          samples := samples + [Sample(currentStateLength * CARRIER_US * PRESCALER, lastState == 0)];
          currentStateLength := 1;
        }
      } else {
        currentStateLength := currentStateLength + 1;
      }
      bits := bits + [bit];
    }

    /** The eight bits of a byte, lowest first. */
    method OnByte(byte: bv8)
      requires Valid()
      modifies this
      ensures Valid() && bits == old(bits) + ByteBits(byte)
    {
      ghost var before, all := bits, ByteBits(byte);
      AppendedAll(before, all);
      for j := 0 to 8
        invariant Valid() && bits == before + all[..j]
      {
        AppendNext(before, all, j);
        OnBit(Bit(byte, j));
      }
    }
  }

  lemma NextIoByte(buffer: seq<bv8>, i: nat)
    requires i < |buffer|
    ensures IoBits(buffer)[..8 * (i + 1)] == IoBits(buffer)[..8 * i] + ByteBits(buffer[i])
  {
    forall k | 8 * i <= k < 8 * (i + 1) ensures IoBits(buffer)[k] == ByteBits(buffer[i])[k - 8 * i] {
      assert k / 8 == i && k % 8 == k - 8 * i;
    }
  }

  /** `getSamples`, behind the transfer. */
  method GetSamples(buffer: seq<bv8>) returns (samples: seq<Sample>)
    ensures SamplesOf(IoBits(buffer), samples) && samples == RunSamples(IoBits(buffer))
  {
    var r := new RunReader();
    for i := 0 to |buffer|
      invariant r.Valid() && r.bits == IoBits(buffer)[..8 * i]
    {
      NextIoByte(buffer, i);
      r.OnByte(buffer[i]);
    }
    assert IoBits(buffer)[..8 * |buffer|] == IoBits(buffer);
    samples := r.samples;
  }
}
