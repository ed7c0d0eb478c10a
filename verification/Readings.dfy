/** Readings of the analogue-to-digital converter: the signals they decide, and the edges of these. */
module Readings {
  // ---- What a reading decides ----

  // in millivolts: the supply, which is the reference, and how far below it a level counts as high or as low
  const ADC_REF_MV: nat := 4750
  const ADC_HI_MV: nat := 100
  const ADC_LO_MV: nat := 350
  const ADC_MAX: nat := 255

  const ADC_HI: nat := (ADC_REF_MV - ADC_HI_MV) * ADC_MAX / ADC_REF_MV
  const ADC_LO: nat := (ADC_REF_MV - ADC_LO_MV) * ADC_MAX / ADC_REF_MV

  /** The signal decided by a conversion: set (1) at a low level of the field, clear (0) at a high one,
      between the thresholds what it was. Before the first decision it is -1. */
  function Decide(last: int, adch: nat): int {
    if adch >= ADC_HI then 0 else if adch <= ADC_LO then 1 else last
  }

  /** The edge of the signal waited for. The comparison with -1 is on an unsigned byte and never holds,
      so before a falling edge an undecided signal counts as set. */
  predicate Edge(falling: bool, before: int, now: int) {
    if falling then before != 0 && now == 0 else before == 0 && now != 0
  }

  /** The signal before conversion `k` of a transfer. */
  function SignalBefore(trace: seq<int>, k: nat): int
    requires k <= |trace|
  {
    if k == 0 then -1 else trace[k - 1]
  }

  /** The signal after each conversion. */
  function Decided(readings: seq<nat>): (trace: seq<int>)
    ensures |trace| == |readings|
  {
    if |readings| == 0 then []
    else
      var before := Decided(readings[..|readings| - 1]);
      before + [Decide(SignalBefore(before, |before|), readings[|readings| - 1])]
  }

  lemma DecidedNext(readings: seq<nat>, reading: nat)
    ensures Decided(readings + [reading]) ==
            Decided(readings) + [Decide(SignalBefore(Decided(readings), |readings|), reading)]
  {
    assert (readings + [reading])[..|readings|] == readings;
  }

  lemma {:induction false} DecidedPrefix(readings: seq<nat>, n: nat)
    requires n <= |readings|
    ensures Decided(readings)[..n] == Decided(readings[..n])
    ensures SignalBefore(Decided(readings), n) == SignalBefore(Decided(readings[..n]), n)
  {
    if n == |readings| {
      assert readings[..n] == readings;
    } else {
      var before := readings[..|readings| - 1];
      DecidedPrefix(before, n);
      assert before[..n] == readings[..n];
    }
  }

  lemma DecidedAt(readings: seq<nat>, k: nat)
    requires k < |readings|
    ensures Decided(readings)[k] == Decide(SignalBefore(Decided(readings), k), readings[k])
  {
    DecidedPrefix(readings, k);
    DecidedPrefix(readings, k + 1);
    DecidedNext(readings[..k], readings[k]);
    assert readings[..k + 1] == readings[..k] + [readings[k]];
  }

  /** A reading that decides nothing. */
  predicate Unclear(reading: nat) { 236 < reading < 249 }

  predicate AllUnclear(readings: seq<nat>) {
    forall j :: 0 <= j < |readings| ==> Unclear(readings[j])
  }

  /** Number `j` is the last reading that decides. */
  predicate LastClear(readings: seq<nat>, j: nat) {
    j < |readings| && !Unclear(readings[j]) && AllUnclear(readings[j + 1..])
  }

  /** The last reading that decides is low, ... */
  ghost predicate SaysLow(readings: seq<nat>) {
    exists j: nat :: LastClear(readings, j) && readings[j] <= 236
  }

  /** ... or high. */
  ghost predicate SaysHigh(readings: seq<nat>) {
    exists j: nat :: LastClear(readings, j) && readings[j] >= 249
  }

  lemma UnclearNext(readings: seq<nat>, reading: nat)
    ensures AllUnclear(readings + [reading]) <==> AllUnclear(readings) && Unclear(reading)
  {
    var more := readings + [reading];
    assert more[|readings|] == reading && forall j :: 0 <= j < |readings| ==> more[j] == readings[j];
  }

  lemma LastClearNext(readings: seq<nat>, reading: nat, j: nat)
    requires Unclear(reading)
    ensures LastClear(readings + [reading], j) <==> LastClear(readings, j)
  {
    var more := readings + [reading];
    if j < |readings| {
      assert more[j + 1..] == readings[j + 1..] + [reading];
      UnclearNext(readings[j + 1..], reading);
    }
  }

  lemma ClearIsLast(readings: seq<nat>, reading: nat, j: nat)
    requires !Unclear(reading)
    ensures LastClear(readings + [reading], j) <==> j == |readings|
  {
    var more := readings + [reading];
    if j < |readings| {
      assert more[j + 1..][|readings| - j - 1] == reading;
    }
  }

  /** One more reading. */
  lemma SaysNext(readings: seq<nat>, reading: nat)
    ensures SaysLow(readings + [reading]) <==> reading <= 236 || (reading < 249 && SaysLow(readings))
    ensures SaysHigh(readings + [reading]) <==> reading >= 249 || (reading > 236 && SaysHigh(readings))
  {
    var more := readings + [reading];
    if Unclear(reading) {
      forall j: nat ensures LastClear(more, j) <==> LastClear(readings, j) { LastClearNext(readings, reading, j); }
    } else {
      forall j: nat ensures LastClear(more, j) <==> j == |readings| { ClearIsLast(readings, reading, j); }
      assert more[|readings|] == reading;
    }
  }

  predicate Signals(trace: seq<int>) {
    forall k :: 0 <= k < |trace| ==> -1 <= trace[k] <= 1
  }

  lemma {:induction false} SignalsInRange(readings: seq<nat>)
    ensures Signals(Decided(readings))
  {
    if |readings| > 0 { SignalsInRange(readings[..|readings| - 1]); }
  }

  ghost predicate Says(readings: seq<nat>, signal: int) {
    && (signal == 1 <==> SaysLow(readings))
    && (signal == 0 <==> SaysHigh(readings))
    && (signal == -1 <==> AllUnclear(readings))
  }

  lemma DecideSays(readings: seq<nat>, signal: int, reading: nat)
    requires Says(readings, signal) && -1 <= signal <= 1
    ensures Says(readings + [reading], Decide(signal, reading))
  {
    SaysNext(readings, reading);
    UnclearNext(readings, reading);
  }

  /** After any run of readings the signal is set exactly if the last one outside the thresholds was a low one, clear
      exactly if it was a high one, and unknown exactly if there was none. */
  lemma {:induction false} SignalIs(readings: seq<nat>)
    ensures var signal := SignalBefore(Decided(readings), |readings|);
            && (signal == 1 <==> SaysLow(readings))
            && (signal == 0 <==> SaysHigh(readings))
            && (signal == -1 <==> AllUnclear(readings))
  {
    if |readings| > 0 {
      var before, reading := readings[..|readings| - 1], readings[|readings| - 1];
      SignalIs(before);
      SignalsInRange(before);
      DecideSays(before, SignalBefore(Decided(before), |before|), reading);
      DecidedNext(before, reading);
      assert readings == before + [reading];
    } else {
      NothingRead(readings);
    }
  }

  lemma NothingRead(readings: seq<nat>)
    requires |readings| == 0
    ensures !SaysLow(readings) && !SaysHigh(readings) && AllUnclear(readings)
  {
  }

  lemma SignalAt(readings: seq<nat>, k: nat)
    requires k < |readings|
    ensures var signal := Decided(readings)[k];
            && (signal == 1 <==> SaysLow(readings[..k + 1]))
            && (signal == 0 <==> SaysHigh(readings[..k + 1]))
            && (signal == -1 <==> AllUnclear(readings[..k + 1]))
  {
    DecidedPrefix(readings, k + 1);
    SignalIs(readings[..k + 1]);
  }

  /** Conversion `k` is an edge of the kind waited for. */
  predicate EdgeAt(falling: bool, trace: seq<int>, k: nat)
    requires k < |trace|
  {
    Edge(falling, SignalBefore(trace, k), trace[k])
  }

  /** None of the first `n` conversions is. */
  predicate NoEdge(falling: bool, trace: seq<int>, n: nat)
    requires n <= |trace|
  {
    forall k :: 0 <= k < n ==> !EdgeAt(falling, trace, k)
  }

  /** The same in readings: a falling edge is a high reading unless the signal was already decided to be high, a rising
      one a low reading behind a signal decided to be high. */
  ghost predicate EdgeRead(falling: bool, readings: seq<nat>, k: nat)
    requires k < |readings|
  {
    if falling then readings[k] >= 249 && !SaysHigh(readings[..k]) else readings[k] <= 236 && SaysHigh(readings[..k])
  }

  lemma EdgeSays(falling: bool, before: seq<nat>, signal: int, reading: nat)
    requires Says(before, signal) && -1 <= signal <= 1
    ensures Edge(falling, signal, Decide(signal, reading)) <==>
            if falling then reading >= 249 && !SaysHigh(before) else reading <= 236 && SaysHigh(before)
  {
  }

  lemma EdgeIff(falling: bool, readings: seq<nat>, k: nat)
    requires k < |readings|
    ensures EdgeAt(falling, Decided(readings), k) <==> EdgeRead(falling, readings, k)
  {
    SignalIs(readings[..k]);
    SignalsInRange(readings[..k]);
    DecidedPrefix(readings, k);
    DecidedAt(readings, k);
    EdgeSays(falling, readings[..k], SignalBefore(Decided(readings), k), readings[k]);
  }

  ghost predicate NoEdgeRead(falling: bool, readings: seq<nat>) {
    forall k :: 0 <= k < |readings| ==> !EdgeRead(falling, readings, k)
  }

  lemma NoEdgeIff(falling: bool, readings: seq<nat>)
    ensures NoEdge(falling, Decided(readings), |readings|) <==> NoEdgeRead(falling, readings)
  {
    forall k | 0 <= k < |readings|
      ensures EdgeAt(falling, Decided(readings), k) <==> EdgeRead(falling, readings, k)
    {
      EdgeIff(falling, readings, k);
    }
  }

  /** A change between two decided signals. */
  predicate Change(trace: seq<int>, k: nat)
    requires k < |trace|
  {
    SignalBefore(trace, k) >= 0 && trace[k] >= 0 && SignalBefore(trace, k) != trace[k]
  }

  /** The guard against an unknown last signal fails: what starts the operation is a change between two decided signals
      exactly if it waits for a rising edge, or an earlier conversion has decided. */
  lemma EdgeIsChangeIff(falling: bool, readings: seq<nat>, k: nat)
    requires k < |readings| && EdgeAt(falling, Decided(readings), k)
    ensures Change(Decided(readings), k) <==> !falling || !AllUnclear(readings[..k])
  {
    DecidedPrefix(readings, k);
    SignalIs(readings[..k]);
    SignalsInRange(readings);
    SignalsInRange(readings[..k]);
    DecidedAt(readings, k);
    EdgeChanges(falling, SignalBefore(Decided(readings), k), Decided(readings)[k]);
  }

  lemma EdgeChanges(falling: bool, before: int, now: int)
    requires Edge(falling, before, now) && -1 <= before <= 1 && -1 <= now <= 1 && (before >= 0 ==> now >= 0)
    ensures before >= 0 && now >= 0 && before != now <==> !falling || before != -1
  {
  }

  /** Waiting for a falling edge, a first conversion above the high threshold is one, and no change. */
  lemma FirstReadingTriggers(reading: nat)
    requires reading >= 249
    ensures var t := Decided([reading]); EdgeAt(true, t, 0) && !Change(t, 0)
  {
    assert [reading][..0] == [];
    DecidedNext([], reading);
    assert [] + [reading] == [reading];
  }
}
