/** What a capture makes of a pulse train: whole pulses become samples of nominal length, the pulse in which the
    capture begins is cut short, and the one in which it ends is lost. */
module CapturedPulses {
  import opened CarrierEvents
  import opened CarrierLock
  import opened CarrierMachine
  import opened SampleCapture
  import opened Samples
  import Manchester = ManchesterMachine

  /** A half bit of data rate `d` lasts `d / 2` periods of the carrier, and there is a conversion every eight. */
  function HalfBit(d: nat): (n: nat)
    requires IsDivider(d)
    ensures n > 0
  {
    d / 2 / PRESCALER
  }

  /** A long pulse lasts two half bits. */
  function Span(d: nat, p: Event): (n: nat)
    requires IsDivider(d) && p.NewPulse?
    ensures n > 0
  {
    if p.isLong then 2 * HalfBit(d) else HalfBit(d)
  }

  predicate AllPulses(ps: seq<Event>) {
    forall i :: 0 <= i < |ps| ==> ps[i].NewPulse?
  }

  /** The conversion with which pulse `k` begins. */
  function Offset(d: nat, ps: seq<Event>, k: nat): (n: nat)
    requires IsDivider(d) && AllPulses(ps) && k <= |ps|
    ensures n >= k
  {
    if k == 0 then 0 else Offset(d, ps, k - 1) + Span(d, ps[k - 1])
  }

  /** The pulse a conversion falls into. */
  function PulseAt(d: nat, ps: seq<Event>, c: nat): (k: nat)
    requires IsDivider(d) && AllPulses(ps) && c < Offset(d, ps, |ps|)
    ensures k < |ps| && Offset(d, ps, k) <= c < Offset(d, ps, k + 1)
  {
    PulseFrom(d, ps, c, 0)
  }

  function PulseFrom(d: nat, ps: seq<Event>, c: nat, from: nat): (k: nat)
    requires IsDivider(d) && AllPulses(ps) && from <= |ps| && Offset(d, ps, from) <= c < Offset(d, ps, |ps|)
    ensures from <= k < |ps| && Offset(d, ps, k) <= c < Offset(d, ps, k + 1)
    decreases |ps| - from
  {
    if c < Offset(d, ps, from + 1) then from else PulseFrom(d, ps, c, from + 1)
  }

  /** The bits of the conversions from `c` on, up to but not including `end`: a set bit is a low level. */
  function Stretch(d: nat, ps: seq<Event>, c: nat, end: nat): (bits: seq<bool>)
    requires IsDivider(d) && AllPulses(ps) && c <= end <= Offset(d, ps, |ps|)
    ensures |bits| == end - c
    decreases end
  {
    if c == end then [] else Stretch(d, ps, c, end - 1) + [!ps[PulseAt(d, ps, end - 1)].isHigh]
  }

  lemma {:induction false} OffsetsGrow(d: nat, ps: seq<Event>, k: nat, l: nat)
    requires IsDivider(d) && AllPulses(ps) && k < l <= |ps|
    ensures Offset(d, ps, k + 1) <= Offset(d, ps, l)
  {
    if k + 1 < l { OffsetsGrow(d, ps, k, l - 1); }
  }

  /** The pulse of a conversion is determined by where pulses begin. */
  lemma PulseIs(d: nat, ps: seq<Event>, c: nat, k: nat)
    requires IsDivider(d) && AllPulses(ps) && k < |ps| && Offset(d, ps, k) <= c < Offset(d, ps, k + 1)
    ensures c < Offset(d, ps, |ps|) && PulseAt(d, ps, c) == k
  {
    if k + 1 < |ps| { OffsetsGrow(d, ps, k + 1, |ps|); }
    var l := PulseAt(d, ps, c);
    if k < l { OffsetsGrow(d, ps, k, l); }
    if l < k { OffsetsGrow(d, ps, l, k); }
  }

  /** The next conversion falls into the same pulse or begins the next one. */
  lemma NextConversion(d: nat, ps: seq<Event>, c: nat)
    requires IsDivider(d) && AllPulses(ps) && c + 1 < Offset(d, ps, |ps|)
    ensures var k := PulseAt(d, ps, c);
            if c + 1 < Offset(d, ps, k + 1) then PulseAt(d, ps, c + 1) == k
            else k + 1 < |ps| && c + 1 == Offset(d, ps, k + 1) && PulseAt(d, ps, c + 1) == k + 1
  {
    var k := PulseAt(d, ps, c);
    if c + 1 < Offset(d, ps, k + 1) {
      PulseIs(d, ps, c + 1, k);
    } else {
      assert Offset(d, ps, k + 2) == Offset(d, ps, k + 1) + Span(d, ps[k + 1]);
      PulseIs(d, ps, c + 1, k + 1);
    }
  }

  /** The sample of a whole pulse. */
  function Whole(d: nat, p: Event): Sample
    requires IsDivider(d) && p.NewPulse?
  {
    Sample(Span(d, p) * CARRIER_US * PRESCALER, p.isHigh)
  }

  lemma WholeIsClassified(d: nat, p: Event)
    requires IsDivider(d) && p.NewPulse?
    ensures InRange(d, Whole(d, p)) && Classify(d, Whole(d, p)) == p
  {
  }

  /** After the conversions `bits` of a capture begun in pulse `first` and now in pulse `last`, with `past` of its
      conversions behind it: one sample for each pulse before that one, whole but for the first. */
  predicate CapturedUpTo(d: nat, ps: seq<Event>, first: nat, last: nat, past: nat, bits: seq<bool>)
    requires IsDivider(d) && AllPulses(ps)
  {
    && |bits| > 0 && first <= last < |ps| && bits[|bits| - 1] == !ps[last].isHigh
    && |RunSamples(bits)| == last - first
    && (forall i :: 1 <= i < last - first ==> RunSamples(bits)[i] == Whole(d, ps[first + i]))
    && (last > first ==> Counted(bits) == past)
  }

  lemma CaptureSamePulse(d: nat, ps: seq<Event>, first: nat, last: nat, past: nat, bits: seq<bool>)
    requires IsDivider(d) && AllPulses(ps) && CapturedUpTo(d, ps, first, last, past, bits)
    ensures CapturedUpTo(d, ps, first, last, past + 1, bits + [!ps[last].isHigh])
  {
    RunSamplesSnoc(bits, !ps[last].isHigh);
    CountSame(bits);
  }

  lemma CountSame(bits: seq<bool>)
    requires |bits| > 0
    ensures Counted(bits + [bits[|bits| - 1]]) == Counted(bits) + 1
  {
    SameRun(bits, bits[|bits| - 1]);
  }

  lemma CountChanged(bits: seq<bool>)
    requires |bits| > 0
    ensures Counted(bits + [!bits[|bits| - 1]]) == 1
  {
    var more := bits + [!bits[|bits| - 1]];
    assert more[|bits|] != more[|bits| - 1];
  }

  lemma CaptureNextPulse(d: nat, ps: seq<Event>, first: nat, last: nat, bits: seq<bool>)
    requires IsDivider(d) && AllPulses(ps) && Manchester.Alternating(ps) && last + 1 < |ps|
    requires CapturedUpTo(d, ps, first, last, Span(d, ps[last]), bits)
    ensures CapturedUpTo(d, ps, first, last + 1, 1, bits + [!ps[last + 1].isHigh])
  {
    assert ps[last + 1].isHigh == !ps[last].isHigh;
    RunSamplesSnoc(bits, !ps[last + 1].isHigh);
    CountChanged(bits);
    if last > first {
      assert RunSample(bits) == Whole(d, ps[last]);
    }
  }

  /** The same by the number `e` of the last conversion. */
  predicate Caught(d: nat, ps: seq<Event>, first: nat, e: nat, bits: seq<bool>)
    requires IsDivider(d) && AllPulses(ps) && e < Offset(d, ps, |ps|)
  {
    var last := PulseAt(d, ps, e);
    CapturedUpTo(d, ps, first, last, e + 1 - Offset(d, ps, last), bits)
  }

  lemma OneMoreInPulse(d: nat, ps: seq<Event>, first: nat, e: nat, bits: seq<bool>)
    requires IsDivider(d) && AllPulses(ps) && 0 < e < Offset(d, ps, |ps|) && Caught(d, ps, first, e - 1, bits)
    requires PulseAt(d, ps, e) == PulseAt(d, ps, e - 1)
    ensures Caught(d, ps, first, e, bits + [!ps[PulseAt(d, ps, e)].isHigh])
  {
    var last := PulseAt(d, ps, e - 1);
    CaptureSamePulse(d, ps, first, last, e - Offset(d, ps, last), bits);
  }

  lemma OneMorePulse(d: nat, ps: seq<Event>, first: nat, e: nat, bits: seq<bool>)
    requires IsDivider(d) && AllPulses(ps) && Manchester.Alternating(ps) && 0 < e < Offset(d, ps, |ps|)
    requires Caught(d, ps, first, e - 1, bits)
    requires PulseAt(d, ps, e) == PulseAt(d, ps, e - 1) + 1 && e == Offset(d, ps, PulseAt(d, ps, e))
    ensures Caught(d, ps, first, e, bits + [!ps[PulseAt(d, ps, e)].isHigh])
  {
    var last := PulseAt(d, ps, e - 1);
    assert Offset(d, ps, last + 1) == Offset(d, ps, last) + Span(d, ps[last]);
    CaptureNextPulse(d, ps, first, last, bits);
  }

  /** One conversion more, whichever pulse it falls into. */
  lemma CaptureOneMore(d: nat, ps: seq<Event>, first: nat, e: nat, bits: seq<bool>, more: seq<bool>)
    requires IsDivider(d) && AllPulses(ps) && Manchester.Alternating(ps) && 0 < e < Offset(d, ps, |ps|)
    requires Caught(d, ps, first, e - 1, bits) && more == bits + [!ps[PulseAt(d, ps, e)].isHigh]
    ensures Caught(d, ps, first, e, more)
  {
    NextConversion(d, ps, e - 1);
    if PulseAt(d, ps, e) == PulseAt(d, ps, e - 1) {
      OneMoreInPulse(d, ps, first, e, bits);
    } else {
      OneMorePulse(d, ps, first, e, bits);
    }
  }

  lemma FirstConversion(d: nat, ps: seq<Event>, c: nat, bits: seq<bool>)
    requires IsDivider(d) && AllPulses(ps) && c < Offset(d, ps, |ps|) && bits == [!ps[PulseAt(d, ps, c)].isHigh]
    ensures Caught(d, ps, PulseAt(d, ps, c), c, bits)
  {
    OneConversion(!ps[PulseAt(d, ps, c)].isHigh);
  }

  lemma CaptureFirst(d: nat, ps: seq<Event>, c: nat)
    requires IsDivider(d) && AllPulses(ps) && c < Offset(d, ps, |ps|)
    ensures Caught(d, ps, PulseAt(d, ps, c), c, Stretch(d, ps, c, c + 1))
  {
    assert Stretch(d, ps, c, c) == [];
    FirstConversion(d, ps, c, Stretch(d, ps, c, c + 1));
  }

  /** Every capture of the conversions from `c` to `e`. */
  lemma {:induction false} CapturesPulses(d: nat, ps: seq<Event>, c: nat, e: nat)
    requires IsDivider(d) && AllPulses(ps) && Manchester.Alternating(ps) && c <= e < Offset(d, ps, |ps|)
    ensures Caught(d, ps, PulseAt(d, ps, c), e, Stretch(d, ps, c, e + 1))
    decreases e
  {
    if c == e {
      CaptureFirst(d, ps, c);
    } else {
      CapturesPulses(d, ps, c, e - 1);
      CaptureOneMore(d, ps, PulseAt(d, ps, c), e, Stretch(d, ps, c, e), Stretch(d, ps, c, e + 1));
    }
  }

  lemma OneConversion(bit: bool)
    ensures RunSamples([bit]) == []
  {
    assert [bit][..0] == [];
  }

  /** Clean samples, one for each pulse from `first` to before `last`, all but the first classified as that pulse. */
  predicate CleanPulses(d: nat, ps: seq<Event>, first: nat, last: nat, samples: seq<Sample>)
    requires IsDivider(d)
  {
    && Clean(d, samples) && first + |samples| == last <= |ps|
    && forall i :: 1 <= i < |samples| ==> Classify(d, samples[i]) == ps[first + i]
  }

  lemma CapturedIsClean(d: nat, ps: seq<Event>, first: nat, last: nat, past: nat, bits: seq<bool>)
    requires IsDivider(d) && AllPulses(ps) && CapturedUpTo(d, ps, first, last, past, bits)
    ensures CleanPulses(d, ps, first, last, RunSamples(bits))
  {
    var samples := RunSamples(bits);
    forall i | 1 <= i < |samples| ensures InRange(d, samples[i]) && Classify(d, samples[i]) == ps[first + i] {
      WholeIsClassified(d, ps[first + i]);
    }
  }

  lemma CaughtIsClean(d: nat, ps: seq<Event>, first: nat, e: nat, bits: seq<bool>)
    requires IsDivider(d) && AllPulses(ps) && e < Offset(d, ps, |ps|) && Caught(d, ps, first, e, bits)
    ensures CleanPulses(d, ps, first, PulseAt(d, ps, e), RunSamples(bits))
  {
    var last := PulseAt(d, ps, e);
    CapturedIsClean(d, ps, first, last, e + 1 - Offset(d, ps, last), bits);
  }

  /** The samples of a capture of the conversions from `c` to `e` are clean pulses. */
  lemma CaptureIsClean(d: nat, ps: seq<Event>, c: nat, e: nat)
    requires IsDivider(d) && AllPulses(ps) && Manchester.Alternating(ps) && c <= e < Offset(d, ps, |ps|)
    ensures CleanPulses(d, ps, PulseAt(d, ps, c), PulseAt(d, ps, e), RunSamples(Stretch(d, ps, c, e + 1)))
  {
    CapturesPulses(d, ps, c, e);
    CaughtIsClean(d, ps, PulseAt(d, ps, c), e, Stretch(d, ps, c, e + 1));
  }

  /** They even have the nominal length of their pulse. */
  predicate WholePulses(d: nat, ps: seq<Event>, first: nat, samples: seq<Sample>)
    requires IsDivider(d) && AllPulses(ps)
  {
    first + |samples| <= |ps| && forall i :: 1 <= i < |samples| ==> samples[i] == Whole(d, ps[first + i])
  }

  lemma CaughtIsWhole(d: nat, ps: seq<Event>, first: nat, e: nat, bits: seq<bool>)
    requires IsDivider(d) && AllPulses(ps) && e < Offset(d, ps, |ps|) && Caught(d, ps, first, e, bits)
    ensures WholePulses(d, ps, first, RunSamples(bits))
  {
  }

  lemma CaptureIsWhole(d: nat, ps: seq<Event>, c: nat, e: nat)
    requires IsDivider(d) && AllPulses(ps) && Manchester.Alternating(ps) && c <= e < Offset(d, ps, |ps|)
    ensures WholePulses(d, ps, PulseAt(d, ps, c), RunSamples(Stretch(d, ps, c, e + 1)))
  {
    CapturesPulses(d, ps, c, e);
    CaughtIsWhole(d, ps, PulseAt(d, ps, c), e, Stretch(d, ps, c, e + 1));
  }
}
