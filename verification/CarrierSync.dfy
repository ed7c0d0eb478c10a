/** The carrier stage on every stream, clean or not: each event it gives, by the samples alone. */
module CarrierSync {
  import opened Machines
  import opened CarrierEvents
  import opened CarrierLock
  import opened CarrierMachine
  import opened CarrierSearch
  import opened Samples

  // ---- Reference ----

  /** In microseconds: a short pulse of data rate `d` is `4 * d` long and a long one twice that, either give or take `d`. */
  predicate ShortPulse(d: nat, x: Sample) { 3 * d <= x.lengthUs <= 5 * d }

  predicate LongPulse(d: nat, x: Sample) { 7 * d <= x.lengthUs <= 9 * d }

  /** Misfits among the samples `ys` of the current window, at a rate entered before the first of them. */
  function Misfits(d: nat, ys: seq<Sample>): nat { Bad(d, ys[WindowStart(|ys|)..]) }

  /** The rate tried, and the number of samples after which it was entered. */
  datatype Rate = Rate(divider: nat, entered: nat)

  predicate ValidRate(r: Rate) { r.divider == 16 || r.divider == 32 || r.divider == 64 }

  /** The sample behind the tenth misfit of a window, number `n` of all, is spent on the change to the next rate. */
  function NextRate(r: Rate, misfits: nat, n: nat): Rate {
    if misfits < 10 then r else Rate(if r.divider == 64 then 16 else 2 * r.divider, n)
  }

  function RateAfter(xs: seq<Sample>): (r: Rate)
    ensures r.entered <= |xs| && ValidRate(r)
    decreases |xs|, 0
  {
    if |xs| == 0 then Rate(16, 0)
    else
      var before := xs[..|xs| - 1];
      NextRate(RateAfter(before), Misfits(RateAfter(before).divider, SinceEntry(before)), |xs|)
  }

  /** The samples since the current rate was entered. */
  function SinceEntry(xs: seq<Sample>): seq<Sample>
    decreases |xs|, 1
  {
    xs[RateAfter(xs).entered..]
  }

  /** More than four pulses of either length since the rate was entered, counted in bytes, and fewer than four misfits in
      the current window. */
  predicate SyncDue(d: nat, ys: seq<Sample>) {
    Shorts(d, ys) % 256 > 4 && Longs(d, ys) % 256 > 4 && Misfits(d, ys) < 4
  }

  predicate Synced(d: nat, ys: seq<Sample>) {
    exists k :: 0 <= k <= |ys| && SyncDue(d, ys[..k])
  }

  function PulseEvents(d: nat, x: Sample): seq<Event> {
    if LongPulse(d, x) then [NewPulse(x.isHigh, true)]
    else if ShortPulse(d, x) then [NewPulse(x.isHigh, false)]
    else []
  }

  /** What sample `x` brings behind the samples `xs`. */
  function EventsAt(xs: seq<Sample>, x: Sample): seq<Event> {
    var d, ys := RateAfter(xs).divider, SinceEntry(xs);
    if Misfits(d, ys) >= 10 then [SyncChanged(false, 0)]
    else if Synced(d, ys) then PulseEvents(d, x)
    else if SyncDue(d, ys + [x]) then [SyncChanged(true, d)]
    else []
  }

  function EventsOf(xs: seq<Sample>): seq<Event> {
    if |xs| == 0 then [] else EventsOf(xs[..|xs| - 1]) + EventsAt(xs[..|xs| - 1], xs[|xs| - 1])
  }

  // ---- The machine agrees ----

  lemma PulseWindows(d: nat, x: Sample)
    requires IsDivider(d)
    ensures IsShort(d, x) <==> ShortPulse(d, x)
    ensures IsLong(d, x) <==> LongPulse(d, x)
  {
  }

  lemma SyncedNext(d: nat, ys: seq<Sample>, x: Sample)
    ensures Synced(d, ys + [x]) <==> Synced(d, ys) || SyncDue(d, ys + [x])
  {
    var more := ys + [x];
    assert more[..|more|] == more;
    forall k | 0 <= k <= |ys| ensures SyncDue(d, more[..k]) <==> SyncDue(d, ys[..k]) { assert more[..k] == ys[..k]; }
  }

  /** The counters after the samples `ys` at a rate. */
  predicate Tracked(d: nat, ys: seq<Sample>, s: State) {
    && Searching(d, ys, s)
    && (s.hasSync <==> Synced(d, ys))
    && (!s.hasSync ==> s.loCount == Shorts(d, ys) % 256 && s.hiCount == Longs(d, ys) % 256)
  }

  lemma CountsSync(d: nat, x: Sample, s: State)
    requires IsDivider(d) && Valid(s) && s.divider == d && s.errorCount < 10 && !s.hasSync
    ensures var r, lo, hi := Step(s, x), (s.loCount + if IsShort(d, x) then 1 else 0) % 256,
                             (s.hiCount + if IsLong(d, x) then 1 else 0) % 256;
            && r.state.loCount == lo && r.state.hiCount == hi
            && (r.state.hasSync <==> lo > 4 && hi > 4 && r.state.errorCount < 4)
            && r.out == if r.state.hasSync then [SyncChanged(true, d)] else []
  {
    ShortNotLong(d, x);
  }

  lemma ForwardsPulse(d: nat, x: Sample, s: State)
    requires IsDivider(d) && s.divider == d && s.errorCount < 10 && s.hasSync
    ensures Step(s, x).state.hasSync && Step(s, x).out == PulseEvents(d, x)
  {
    PulseWindows(d, x);
  }

  lemma StaysTracked(d: nat, ys: seq<Sample>, x: Sample, s: State)
    requires IsDivider(d) && Tracked(d, ys, s) && Misfits(d, ys) < 10
    ensures Tracked(d, ys + [x], Step(s, x).state)
    ensures Step(s, x).out ==
            if Synced(d, ys) then PulseEvents(d, x)
            else if SyncDue(d, ys + [x]) then [SyncChanged(true, d)]
            else []
  {
    SearchNext(d, ys, x, s);
    SyncedNext(d, ys, x);
    if s.hasSync {
      ForwardsPulse(d, x, s);
    } else {
      CountsSync(d, x, s);
      CountsModulo(d, ys, x, s.loCount, s.hiCount);
    }
  }

  lemma NothingSynced(d: nat, none: seq<Sample>)
    requires IsDivider(d) && none == []
    ensures Tracked(d, none, Fresh(d))
  {
    assert forall k :: 0 <= k <= |none| ==> none[..k] == none;
    assert none[0..] == none;
  }

  lemma LeavesTracked(d: nat, ys: seq<Sample>, x: Sample, s: State)
    requires IsDivider(d) && Tracked(d, ys, s) && Misfits(d, ys) >= 10
    ensures Step(s, x) == Result(Fresh(if d == 64 then 16 else 2 * d), [SyncChanged(false, 0)])
  {
  }

  lemma RateSnoc(xs: seq<Sample>, x: Sample)
    ensures RateAfter(xs + [x]) == NextRate(RateAfter(xs), Misfits(RateAfter(xs).divider, SinceEntry(xs)), |xs| + 1)
  {
    assert (xs + [x])[..|xs|] == xs;
  }

  lemma TailSnoc(xs: seq<Sample>, x: Sample, k: nat)
    requires k <= |xs| + 1
    ensures (xs + [x])[k..] == if k <= |xs| then xs[k..] + [x] else []
  {
  }

  /** The samples at the current rate, with one more. */
  lemma RateNext(xs: seq<Sample>, x: Sample)
    ensures Misfits(RateAfter(xs).divider, SinceEntry(xs)) < 10 ==>
              RateAfter(xs + [x]).divider == RateAfter(xs).divider && SinceEntry(xs + [x]) == SinceEntry(xs) + [x]
    ensures Misfits(RateAfter(xs).divider, SinceEntry(xs)) >= 10 ==>
              RateAfter(xs + [x]).divider == (if RateAfter(xs).divider == 64 then 16 else 2 * RateAfter(xs).divider)
              && SinceEntry(xs + [x]) == []
  {
    RateSnoc(xs, x);
    TailSnoc(xs, x, RateAfter(xs + [x]).entered);
  }

  /** The machine is where the reference is. */
  predicate At(xs: seq<Sample>, s: State) { Tracked(RateAfter(xs).divider, SinceEntry(xs), s) }

  lemma TrackOne(xs: seq<Sample>, x: Sample, s: State)
    requires At(xs, s)
    ensures At(xs + [x], Step(s, x).state) && Step(s, x).out == EventsAt(xs, x)
  {
    var d, ys := RateAfter(xs).divider, SinceEntry(xs);
    RateNext(xs, x);
    if Misfits(d, ys) < 10 {
      StaysTracked(d, ys, x, s);
    } else {
      LeavesTracked(d, ys, x, s);
      NothingSynced(RateAfter(xs + [x]).divider, SinceEntry(xs + [x]));
    }
  }

  lemma TracksNothing(xs: seq<Sample>)
    requires xs == []
    ensures At(xs, RESET)
  {
    NothingSynced(16, SinceEntry(xs));
  }

  lemma TracksNext(xs: seq<Sample>, x: Sample)
    requires At(xs, Run(RESET, xs).state)
    ensures At(xs + [x], Run(RESET, xs + [x]).state)
  {
    FoldSnoc(Step, RESET, xs, x);
    TrackOne(xs, x, Run(RESET, xs).state);
  }

  lemma {:induction false} Tracks(xs: seq<Sample>)
    ensures At(xs, Run(RESET, xs).state)
  {
    if |xs| == 0 {
      TracksNothing(xs);
    } else {
      var before, x := xs[..|xs| - 1], xs[|xs| - 1];
      Tracks(before);
      TracksNext(before, x);
      assert before + [x] == xs;
    }
  }

  /** For every stream from reset and every further sample: the event is exactly the one of the reference. In particular
      sync is declared exactly if there is none yet, the rate is not given up, enough pulses of both lengths have been
      counted since it was entered, and the window holds fewer than four misfits. */
  lemma EventIs(xs: seq<Sample>, x: Sample)
    ensures Step(Run(RESET, xs).state, x).out == EventsAt(xs, x)
  {
    Tracks(xs);
    TrackOne(xs, x, Run(RESET, xs).state);
  }

  lemma SyncIff(xs: seq<Sample>, x: Sample, d: nat)
    ensures Step(Run(RESET, xs).state, x).out == [SyncChanged(true, d)] <==>
            && d == RateAfter(xs).divider && Misfits(d, SinceEntry(xs)) < 10 && !Synced(d, SinceEntry(xs))
            && SyncDue(d, SinceEntry(xs) + [x])
  {
    EventIs(xs, x);
  }

  /** So every run is determined by the samples. */
  lemma {:induction false} RunIs(xs: seq<Sample>)
    ensures Run(RESET, xs).out == EventsOf(xs)
    ensures Run(RESET, xs).state.divider == RateAfter(xs).divider
    ensures Run(RESET, xs).state.hasSync <==> Synced(RateAfter(xs).divider, SinceEntry(xs))
  {
    Tracks(xs);
    if |xs| > 0 {
      RunIs(xs[..|xs| - 1]);
      EventIs(xs[..|xs| - 1], xs[|xs| - 1]);
    }
  }
}
