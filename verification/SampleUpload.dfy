/** The host's packing of samples: a vector of the different pulse lengths, and a nibble per sample. */
module SampleUpload {
  import opened IoBuffer
  import opened Samples

  /** The length in carrier periods; the division truncates. */
  function Units(s: Sample): int {
    if s.lengthUs >= 0 then s.lengthUs / CARRIER_US else -(-s.lengthUs / CARRIER_US)
  }

  // ---- The ordered set of lengths ----

  predicate Increasing(s: seq<int>) {
    forall i, j :: 0 <= i < j < |s| ==> s[i] < s[j]
  }

  ghost predicate Holds(pulses: seq<int>, lengths: set<int>) {
    Increasing(pulses) && forall x :: x in pulses <==> x in lengths
  }

  function Lengths(samples: seq<Sample>): set<int> {
    set s | s in samples :: Units(s)
  }

  /** An ordered sequence of different numbers is as long as the set of them is large. */
  lemma {:induction false} HoldsCount(pulses: seq<int>, lengths: set<int>)
    requires Holds(pulses, lengths)
    ensures |pulses| == |lengths|
  {
    if |pulses| == 0 {
      assert forall x :: x in lengths ==> x in pulses;
      assert lengths == {};
    } else {
      var rest, last := pulses[..|pulses| - 1], pulses[|pulses| - 1];
      assert last in pulses;
      assert forall x :: x in pulses <==> x in rest || x == last;
      HoldsCount(rest, lengths - {last});
    }
  }

  method Insert(pulses: seq<int>, x: int, ghost lengths: set<int>) returns (r: seq<int>)
    requires Holds(pulses, lengths)
    ensures Holds(r, lengths + {x})
  {
    var i := 0;
    while i < |pulses| && pulses[i] < x
      invariant 0 <= i <= |pulses| && forall j :: 0 <= j < i ==> pulses[j] < x
    {
      i := i + 1;
    }
    if i < |pulses| && pulses[i] == x {
      return pulses;
    }
    r := pulses[..i] + [x] + pulses[i..];
    InsertedElements(pulses, i, x);
  }

  lemma InsertedElements(pulses: seq<int>, i: nat, x: int)
    requires i <= |pulses|
    ensures forall y :: y in pulses[..i] + [x] + pulses[i..] <==> y in pulses || y == x
  {
    assert pulses == pulses[..i] + pulses[i..];
  }

  method CollectLengths(samples: seq<Sample>) returns (pulses: seq<int>)
    ensures Holds(pulses, Lengths(samples))
  {
    pulses := [];
    for i := 0 to |samples|
      invariant Holds(pulses, Lengths(samples[..i]))
    {
      assert samples[..i + 1] == samples[..i] + [samples[i]];
      assert Lengths(samples[..i + 1]) == Lengths(samples[..i]) + {Units(samples[i])};
      pulses := Insert(pulses, Units(samples[i]), Lengths(samples[..i]));
    }
    assert samples[..|samples|] == samples;
  }

  // ---- Packing ----

  /** Position of a length in the ordered set. */
  function IndexOf(pulses: seq<int>, x: int): (i: nat)
    requires x in pulses
    ensures i < |pulses| && pulses[i] == x
  {
    if pulses[0] == x then 0 else 1 + IndexOf(pulses[1..], x)
  }

  function CodeOf(high: bool, index: nat): bv8
    requires index < 8
  {
    (if high then 0x08 else 0) | (index as bv8)
  }

  lemma CodeFields(high: bool, index: nat)
    requires index < 8
    ensures CodeOf(high, index) < 0x10 && HighLevel(CodeOf(high, index)) == high
    ensures LengthIndex(CodeOf(high, index)) == index
  {
    if index == 0 {} else if index == 1 {} else if index == 2 {} else if index == 3 {}
    else if index == 4 {} else if index == 5 {} else if index == 6 {} else {}
  }

  lemma PackNibbles(low: bv8, high: bv8)
    requires low < 0x10 && high < 0x10
    ensures low & 0x0f == low && low >> 4 == 0
    ensures (low | (high << 4)) & 0x0f == low && (low | (high << 4)) >> 4 == high
  {
  }

  lemma StopCode()
    ensures (0xff as bv8) >> 4 == 0x0f && (0xff as bv8) & 0x0f == 0x0f && LengthIndex(0x0f) == STOP
    ensures LengthIndex(0) == 0 && !HighLevel(0)
  {
  }

  /** The nibbles after `n` codes: the codes, a zero if the last byte is half full, stop codes from there on. */
  predicate Packed(buffer: seq<bv8>, codes: seq<bv8>, n: nat) {
    && n <= |codes| && n <= 2 * |buffer|
    && (forall k :: 0 <= k < n ==> PulseCode(buffer, k) == codes[k])
    && (n % 2 == 1 ==> n < 2 * |buffer| && PulseCode(buffer, n) == 0)
    && (forall j :: (n + 1) / 2 <= j < |buffer| ==> buffer[j] == 0xff)
  }

  function Stored(buffer: seq<bv8>, n: nat, code: bv8): bv8
    requires n / 2 < |buffer|
  {
    if n % 2 == 1 then buffer[n / 2] | (code << 4) else code
  }

  /** An even nibble is assigned, and clears the odd one with it; an odd one is added to it. */
  lemma PackOne(buffer: seq<bv8>, codes: seq<bv8>, n: nat)
    requires Packed(buffer, codes, n) && n < |codes| && n < 2 * |buffer|
    requires forall k :: 0 <= k < |codes| ==> codes[k] < 0x10
    ensures Packed(buffer[n / 2 := Stored(buffer, n, codes[n])], codes, n + 1)
  {
    var after := buffer[n / 2 := Stored(buffer, n, codes[n])];
    if n % 2 == 1 {
      assert PulseCode(buffer, n - 1) == codes[n - 1];
      NibblesOfByte(buffer[n / 2], codes[n - 1]);
      PackNibbles(codes[n - 1], codes[n]);
    } else {
      PackNibbles(codes[n], 0);
    }
    forall k | 0 <= k < n + 1 ensures PulseCode(after, k) == codes[k] {
      if k / 2 != n / 2 { assert PulseCode(after, k) == PulseCode(buffer, k); }
    }
  }

  lemma NibblesOfByte(b: bv8, low: bv8)
    requires b & 0x0f == low && b >> 4 == 0
    ensures b == low
  {
  }

  method PackCodes(codes: seq<bv8>) returns (buffer: array<bv8>)
    requires |codes| <= 2 * SAMPLE_BUFFER_SIZE && forall k :: 0 <= k < |codes| ==> codes[k] < 0x10
    ensures fresh(buffer) && buffer.Length == SAMPLE_BUFFER_SIZE && Packed(buffer[..], codes, |codes|)
  {
    buffer := new bv8[SAMPLE_BUFFER_SIZE](_ => 0xff);
    var written := 0;
    while written < |codes|
      invariant written <= |codes| && Packed(buffer[..], codes, written)
    {
      PackOne(buffer[..], codes, written);
      ghost var after := buffer[..][written / 2 := Stored(buffer[..], written, codes[written])];
      if written % 2 == 1 {
        buffer[written / 2] := buffer[written / 2] | (codes[written] << 4);
      } else {
        buffer[written / 2] := codes[written];
      }
      assert buffer[..] == after;
      written := written + 1;
    }
  }

  // ---- The whole upload ----

  datatype Upload = TooManyPulses | Upload(vector: seq<bv8>, buffer: seq<bv8>)

  /** Lengths are stored in bytes, and a zero makes the timer run for 256 periods. */
  function Periods(units: int): nat { if units % 256 == 0 then 256 else units % 256 }

  function PulseFor(s: Sample): Pulse { Pulse(s.isHigh, Periods(Units(s))) }

  function Shortest(samples: seq<Sample>): int
    requires |samples| > 0
  {
    var u := Units(samples[|samples| - 1]);
    if |samples| == 1 then u
    else
      var v := Shortest(samples[..|samples| - 1]);
      if u < v then u else v
  }

  /** The waveform of an upload: the samples, and behind an odd number of them a low pulse of the shortest length. */
  function Waveform(samples: seq<Sample>): (wave: seq<Pulse>)
    ensures |wave| == |samples| + |samples| % 2
  {
    seq(|samples|, k requires 0 <= k < |samples| => PulseFor(samples[k]))
    + (if |samples| % 2 == 1 then [Pulse(false, Periods(Shortest(samples)))] else [])
  }

  lemma {:induction false} ShortestIs(samples: seq<Sample>)
    requires |samples| > 0
    ensures Shortest(samples) in Lengths(samples) && forall x :: x in Lengths(samples) ==> Shortest(samples) <= x
  {
    var before, last := samples[..|samples| - 1], samples[|samples| - 1];
    assert samples == before + [last];
    assert last in samples;
    if |samples| > 1 {
      ShortestIs(before);
      assert Lengths(samples) == Lengths(before) + {Units(last)};
    } else {
      assert Lengths(samples) == {Units(last)};
    }
  }

  lemma FirstIsShortest(pulses: seq<int>, samples: seq<Sample>)
    requires Holds(pulses, Lengths(samples)) && |samples| > 0
    ensures |pulses| > 0 && pulses[0] == Shortest(samples)
  {
    ShortestIs(samples);
    assert Shortest(samples) in pulses;
    assert pulses[0] in pulses;
  }

  function LowByteOf(units: int): bv8 { (units % 256) as bv8 }

  lemma LowByteValue(units: int)
    ensures TimerPeriods(LowByteOf(units)) == Periods(units)
  {
  }

  /** The vector holds the low bytes of the lengths, in order. */
  predicate Vector(vector: seq<bv8>, pulses: seq<int>) {
    && |vector| == PULSE_VECTOR_SIZE && |pulses| <= PULSE_VECTOR_SIZE
    && forall i :: 0 <= i < |pulses| ==> vector[i] == LowByteOf(pulses[i])
  }

  function Codes(samples: seq<Sample>, pulses: seq<int>): (codes: seq<bv8>)
    requires |pulses| <= PULSE_VECTOR_SIZE && forall s :: s in samples ==> Units(s) in pulses
    ensures |codes| == |samples|
  {
    seq(|samples|, k requires 0 <= k < |samples| => CodeOf(samples[k].isHigh, IndexOf(pulses, Units(samples[k]))))
  }

  lemma CodesAre(samples: seq<Sample>, pulses: seq<int>, vector: seq<bv8>, k: nat)
    requires Vector(vector, pulses) && k < |samples| && forall s :: s in samples ==> Units(s) in pulses
    ensures var code := Codes(samples, pulses)[k];
            && code < 0x10 && LengthIndex(code) != STOP && PulseOf(vector, code) == PulseFor(samples[k])
  {
    CodeFields(samples[k].isHigh, IndexOf(pulses, Units(samples[k])));
    LowByteValue(Units(samples[k]));
  }

  lemma LengthsHeld(samples: seq<Sample>, pulses: seq<int>)
    requires Holds(pulses, Lengths(samples))
    ensures forall s :: s in samples ==> Units(s) in pulses
  {
    forall s | s in samples ensures Units(s) in pulses {
      assert Units(s) in Lengths(samples);
    }
  }

  /** Replaying the packed nibbles gives the samples, then at most one low pulse, then the stop code or the end. */
  lemma ReplaysSamples(samples: seq<Sample>, pulses: seq<int>, vector: seq<bv8>, buffer: seq<bv8>)
    requires Holds(pulses, Lengths(samples)) && Vector(vector, pulses)
    requires forall s :: s in samples ==> Units(s) in pulses
    requires |buffer| == SAMPLE_BUFFER_SIZE && Packed(buffer, Codes(samples, pulses), |samples|)
    ensures var n := |Waveform(samples)|;
            EndsAt(buffer, n) && Played(buffer, vector, n) == Waveform(samples)
  {
    var n, wave := |Waveform(samples)|, Waveform(samples);
    StopCode();
    forall k | 0 <= k < n
      ensures LengthIndex(PulseCode(buffer, k)) != STOP && PulseOf(vector, PulseCode(buffer, k)) == wave[k]
    {
      if k < |samples| {
        CodesAre(samples, pulses, vector, k);
      } else {
        FirstIsShortest(pulses, samples);
        LowByteValue(pulses[0]);
      }
    }
    if n < 2 * |buffer| { assert buffer[n / 2] == 0xff; }
  }

  method MakeVector(pulses: seq<int>) returns (vector: seq<bv8>)
    requires |pulses| <= PULSE_VECTOR_SIZE
    ensures Vector(vector, pulses)
  {
    var buffer := new bv8[PULSE_VECTOR_SIZE](_ => 0);
    for i := 0 to |pulses|
      invariant forall j :: 0 <= j < i ==> buffer[j] == LowByteOf(pulses[j])
    {
      buffer[i] := LowByteOf(pulses[i]);
    }
    vector := buffer[..];
  }

  /** `putSamples` up to the transfer: refused exactly if there are more than seven different lengths.
      The program does not check that the samples fit its buffer, and would write behind it; here that is required. */
  method PutSamples(samples: seq<Sample>) returns (r: Upload)
    requires |samples| <= 2 * SAMPLE_BUFFER_SIZE
    ensures r.TooManyPulses? <==> |Lengths(samples)| > PULSE_VECTOR_SIZE
    ensures r.Upload? ==>
              && |r.vector| == PULSE_VECTOR_SIZE && |r.buffer| == SAMPLE_BUFFER_SIZE
              && EndsAt(r.buffer, |Waveform(samples)|)
              && Played(r.buffer, r.vector, |Waveform(samples)|) == Waveform(samples)
  {
    var pulses := CollectLengths(samples);
    HoldsCount(pulses, Lengths(samples));
    if |pulses| > PULSE_VECTOR_SIZE {
      return TooManyPulses;
    }
    LengthsHeld(samples, pulses);
    var vector := MakeVector(pulses);
    forall k | 0 <= k < |samples| ensures Codes(samples, pulses)[k] < 0x10 { CodesAre(samples, pulses, vector, k); }
    var buffer := PackCodes(Codes(samples, pulses));
    ReplaysSamples(samples, pulses, vector, buffer[..]);
    r := Upload(vector, buffer[..]);
  }
}
