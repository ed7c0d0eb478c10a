/** The search for the data rate, exactly: when a rate is left, and when a clean stream is locked onto at all. */
module CarrierSearch {
  import opened Machines
  import opened CarrierEvents
  import opened Samples
  import opened CarrierMachine
  import opened CarrierLock

  /** The first sample of the window that is current before sample `n`: the first window holds 49 samples, later ones 50. */
  function WindowStart(n: nat): (start: nat)
    ensures start <= n
  {
    if n < 50 then 0 else 50 * (n / 50) - 1
  }

  lemma NextWindowStart(n: nat)
    ensures WindowStart(n + 1) == if n % 50 == 49 then n else WindowStart(n)
  {
  }

  /** Before each sample the current window held fewer than ten samples out of range. */
  predicate Stays(e: nat, xs: seq<Sample>) {
    forall n :: 0 <= n < |xs| ==> Bad(e, xs[WindowStart(n)..n]) < ERROR_THRESHOLD
  }

  lemma StaysPrefix(e: nat, xs: seq<Sample>, k: nat)
    requires k <= |xs| && Stays(e, xs)
    ensures Stays(e, xs[..k])
  {
    forall n | 0 <= n < k ensures Bad(e, xs[..k][WindowStart(n)..n]) < ERROR_THRESHOLD {
      assert xs[..k][WindowStart(n)..n] == xs[WindowStart(n)..n];
    }
  }

  /** The counters after `xs` at a rate not left. */
  predicate Searching(e: nat, xs: seq<Sample>, s: State) {
    && Valid(s) && s.divider == e && s.pulseCount == |xs| % 50
    && s.errorCount == Bad(e, xs[WindowStart(|xs|)..])
  }

  lemma CountsOn(e: nat, ys: seq<Sample>, x: Sample, s: State, a: nat)
    requires Valid(s) && s.divider == e && s.errorCount < ERROR_THRESHOLD && s.pulseCount < 49
    requires a <= |ys| && s.errorCount == Bad(e, ys[a..])
    ensures var t := Step(s, x).state;
            Valid(t) && t.divider == e && t.pulseCount == s.pulseCount + 1 && t.errorCount == Bad(e, (ys + [x])[a..])
  {
    StepErrors(s, x);
    BadSnoc(e, ys, x, |ys| - a);
  }

  lemma OpensWindow(e: nat, ys: seq<Sample>, x: Sample, s: State)
    requires Valid(s) && s.divider == e && s.errorCount < ERROR_THRESHOLD && s.pulseCount == 49
    ensures var t := Step(s, x).state;
            Valid(t) && t.divider == e && t.pulseCount == 0 && t.errorCount == Bad(e, (ys + [x])[|ys|..])
  {
    StepErrors(s, x);
    BadSnoc(e, ys, x, 0);
    assert ys[|ys|..] == [];
  }

  lemma NextRemainder(n: nat)
    ensures (n + 1) % 50 == if n % 50 == 49 then 0 else n % 50 + 1
  {
  }

  lemma SearchNext(e: nat, ys: seq<Sample>, x: Sample, s: State)
    requires Searching(e, ys, s) && s.errorCount < ERROR_THRESHOLD
    ensures Searching(e, ys + [x], Step(s, x).state)
  {
    NextWindowStart(|ys|);
    NextRemainder(|ys|);
    if s.pulseCount == 49 {
      OpensWindow(e, ys, x, s);
    } else {
      CountsOn(e, ys, x, s, WindowStart(|ys|));
    }
  }

  lemma {:induction false} Searches(e: nat, xs: seq<Sample>)
    requires IsDivider(e) && Stays(e, xs)
    ensures Searching(e, xs, Run(Fresh(e), xs).state)
  {
    if |xs| == 0 {
      assert xs[0..] == [];
    } else {
      var n := |xs| - 1;
      var ys := xs[..n];
      StaysPrefix(e, xs, n);
      Searches(e, ys);
      assert ys[WindowStart(n)..] == xs[WindowStart(n)..n];
      assert ys + [xs[n]] == xs;
      SearchNext(e, ys, xs[n], Run(Fresh(e), ys).state);
    }
  }

  /** The number of samples after which rate `e` is given up, or all of them if it never is. */
  function Leaves(e: nat, xs: seq<Sample>): (n: nat)
    ensures n <= |xs|
    ensures forall k :: 0 <= k < n ==> Bad(e, xs[WindowStart(k)..k]) < ERROR_THRESHOLD
    ensures n < |xs| ==> Bad(e, xs[WindowStart(n)..n]) >= ERROR_THRESHOLD
  {
    LeavesFrom(e, xs, 0)
  }

  function LeavesFrom(e: nat, xs: seq<Sample>, from: nat): (n: nat)
    requires from <= |xs|
    ensures from <= n <= |xs|
    ensures forall k :: from <= k < n ==> Bad(e, xs[WindowStart(k)..k]) < ERROR_THRESHOLD
    ensures n < |xs| ==> Bad(e, xs[WindowStart(n)..n]) >= ERROR_THRESHOLD
    decreases |xs| - from
  {
    if from == |xs| || Bad(e, xs[WindowStart(from)..from]) >= ERROR_THRESHOLD then from else LeavesFrom(e, xs, from + 1)
  }

  lemma LeavesIsStays(e: nat, xs: seq<Sample>)
    ensures Stays(e, xs) <==> Leaves(e, xs) == |xs|
    ensures Stays(e, xs[..Leaves(e, xs)])
  {
    var n := Leaves(e, xs);
    forall k | 0 <= k < n ensures Bad(e, xs[..n][WindowStart(k)..k]) < ERROR_THRESHOLD {
      assert xs[..n][WindowStart(k)..k] == xs[WindowStart(k)..k];
    }
  }

  /** Up to there the rate is `e`; the next sample is spent on the change to the next rate. */
  lemma LeavesThere(e: nat, xs: seq<Sample>)
    requires IsDivider(e)
    ensures var n := Leaves(e, xs);
            && (forall k :: 0 <= k <= n ==> Run(Fresh(e), xs[..k]).state.divider == e)
            && (n < |xs| ==> Run(Fresh(e), xs[..n + 1]).state == Fresh(Next(e)))
  {
    var n := Leaves(e, xs);
    LeavesIsStays(e, xs);
    forall k | 0 <= k <= n ensures Run(Fresh(e), xs[..k]).state.divider == e {
      StaysPrefix(e, xs[..n], k);
      assert xs[..n][..k] == xs[..k];
      Searches(e, xs[..k]);
    }
    if n < |xs| {
      Searches(e, xs[..n]);
      assert xs[..n][WindowStart(n)..] == xs[WindowStart(n)..n];
      FoldNext(Step, Fresh(e), xs, n);
      GiveUp(e, Run(Fresh(e), xs[..n]).state, xs[n]);
    }
  }

  /** A rate is kept throughout exactly if no window held ten samples out of range before its end. */
  lemma StaysIff(e: nat, xs: seq<Sample>)
    requires IsDivider(e)
    ensures (forall k :: 0 <= k <= |xs| ==> Run(Fresh(e), xs[..k]).state.divider == e) <==> Stays(e, xs)
  {
    LeavesThere(e, xs);
    LeavesIsStays(e, xs);
    var n := Leaves(e, xs);
    if n < |xs| {
      assert Run(Fresh(e), xs[..n + 1]).state.divider == Next(e) != e;
    }
  }

  /** In particular the first rate is never left exactly if no window of the whole stream held ten such samples. */
  lemma StaysAtFirstRate(xs: seq<Sample>)
    ensures (forall k :: 0 <= k <= |xs| ==> Run(RESET, xs[..k]).state.divider == 16) <==>
            (forall n :: 0 <= n < |xs| ==> Bad(16, xs[WindowStart(n)..n]) < ERROR_THRESHOLD)
  {
    StaysIff(16, xs);
    assert RESET == Fresh(16);
  }

  // ---- Clean streams ----

  /** Number of samples after which the search is at rate `d`; more than there are if it never gets there. */
  function Reached(d: nat, xs: seq<Sample>): (at: nat)
    requires IsDivider(d)
    ensures at <= |xs| + 1
  {
    if d == 16 then 0
    else
      var first := Leaves(16, xs) + 1;
      if d == 32 || first > |xs| then first else first + (Leaves(32, xs[first..]) + 1)
  }

  lemma RunFrom(xs: seq<Sample>, at: nat, e: nat, k: nat)
    requires at <= k <= |xs| && Run(RESET, xs[..at]).state == Fresh(e)
    ensures Run(RESET, xs[..k]).state == Run(Fresh(e), xs[at..][..k - at]).state
  {
    assert xs[..k] == xs[..at] + xs[at..][..k - at];
    FoldConcat(Step, RESET, xs[..at], xs[at..][..k - at]);
  }

  /** A rate entered after `at` samples is left for the next one, or kept to the end. */
  lemma LeavesLater(e: nat, xs: seq<Sample>, at: nat)
    requires IsDivider(e) && at <= |xs| && Run(RESET, xs[..at]).state == Fresh(e)
    ensures var n := Leaves(e, xs[at..]);
            if at + n < |xs| then Run(RESET, xs[..at + n + 1]).state == Fresh(Next(e)) else Run(RESET, xs).state.divider == e
  {
    var rest := xs[at..];
    var n := Leaves(e, rest);
    LeavesThere(e, rest);
    assert rest[..|rest|] == rest && xs[..|xs|] == xs;
    RunFrom(xs, at, e, if n < |rest| then at + n + 1 else |xs|);
  }

  /** Where the search is: at `d` from `Reached` on, at smaller rates before. */
  lemma ReachedIs(d: nat, xs: seq<Sample>)
    requires IsDivider(d)
    ensures var at := Reached(d, xs);
            if at <= |xs| then Run(RESET, xs[..at]).state == Fresh(d) else Run(RESET, xs).state.divider < d
  {
    assert xs[..0] == [] && xs[0..] == xs;
    if d != 16 {
      LeavesLater(16, xs, 0);
      var first := Leaves(16, xs) + 1;
      if first <= |xs| && d == 64 { LeavesLater(32, xs, first); }
    }
  }

  /** At some point more than four short and more than four long pulses have been counted, in bytes. */
  predicate Enough(d: nat, xs: seq<Sample>) {
    exists k :: 0 <= k <= |xs| && EnoughAt(d, xs[..k])
  }

  predicate EnoughAt(d: nat, xs: seq<Sample>) {
    Shorts(d, xs) % 256 > 4 && Longs(d, xs) % 256 > 4
  }

  lemma EnoughSnoc(d: nat, xs: seq<Sample>, x: Sample)
    ensures Enough(d, xs + [x]) <==> Enough(d, xs) || EnoughAt(d, xs + [x])
  {
    var more := xs + [x];
    if Enough(d, xs) {
      var k :| 0 <= k <= |xs| && EnoughAt(d, xs[..k]);
      assert more[..k] == xs[..k];
    }
    if EnoughAt(d, more) { assert more[..|more|] == more; }
    if Enough(d, more) {
      var k :| 0 <= k <= |more| && EnoughAt(d, more[..k]);
      if k <= |xs| { assert more[..k] == xs[..k]; } else { assert more[..k] == more; }
    }
  }

  /** The counters at the right rate: the bytes wrap, and nothing but a cut first sample is an error. */
  predicate Tallied(d: nat, xs: seq<Sample>, s: State) {
    && Valid(s) && s.divider == d && s.errorCount <= 1 && (|xs| == 0 ==> s.errorCount == 0)
    && (s.hasSync <==> Enough(d, xs))
    && (!s.hasSync ==> s.loCount == Shorts(d, xs) % 256 && s.hiCount == Longs(d, xs) % 256)
  }

  lemma AddOne(a: nat, b: nat)
    requires a == b % 256
    ensures (a + 1) % 256 == (b + 1) % 256
  {
  }

  /** With sync there are no more errors than there were. */
  lemma TallySynced(d: nat, x: Sample, s: State)
    requires IsDivider(d) && Valid(s) && s.divider == d && s.errorCount <= 1 && s.hasSync && InRange(d, x)
    ensures var t := Step(s, x).state; Valid(t) && t.divider == d && t.errorCount <= 1 && t.hasSync
  {
  }

  lemma TallySearching(d: nat, x: Sample, s: State)
    requires IsDivider(d) && Valid(s) && s.divider == d && s.errorCount <= 1 && !s.hasSync
    requires s.errorCount == 0 || InRange(d, x)
    ensures var t, lo, hi := Step(s, x).state, (s.loCount + if IsShort(d, x) then 1 else 0) % 256,
                             (s.hiCount + if IsLong(d, x) then 1 else 0) % 256;
            && Valid(t) && t.divider == d && t.errorCount <= 1
            && t.loCount == lo && t.hiCount == hi && (t.hasSync <==> lo > 4 && hi > 4)
  {
    ShortNotLong(d, x);
  }

  lemma NothingIsNotEnough(d: nat)
    ensures !Enough(d, [])
  {
    assert forall k :: 0 <= k <= 0 ==> !EnoughAt(d, [][..k]);
  }

  lemma CountsModulo(d: nat, xs: seq<Sample>, x: Sample, lo: nat, hi: nat)
    requires lo == Shorts(d, xs) % 256 && hi == Longs(d, xs) % 256
    ensures (lo + if IsShort(d, x) then 1 else 0) % 256 == Shorts(d, xs + [x]) % 256
    ensures (hi + if IsLong(d, x) then 1 else 0) % 256 == Longs(d, xs + [x]) % 256
  {
    CountsSnoc(d, xs, x);
    AddOne(lo, Shorts(d, xs));
    AddOne(hi, Longs(d, xs));
  }

  lemma TallyNext(d: nat, xs: seq<Sample>, x: Sample, s: State)
    requires IsDivider(d) && Tallied(d, xs, s) && (|xs| > 0 ==> InRange(d, x))
    ensures Tallied(d, xs + [x], Step(s, x).state)
  {
    EnoughSnoc(d, xs, x);
    NothingIsNotEnough(d);
    if s.hasSync {
      assert xs != [];
      TallySynced(d, x, s);
    } else {
      TallySearching(d, x, s);
      CountsModulo(d, xs, x, s.loCount, s.hiCount);
    }
  }

  lemma {:induction false} TalliesAll(d: nat, xs: seq<Sample>)
    requires IsDivider(d) && Clean(d, xs)
    ensures Tallied(d, xs, Run(Fresh(d), xs).state)
  {
    if |xs| > 0 {
      var ys, x := xs[..|xs| - 1], xs[|xs| - 1];
      TalliesAll(d, ys);
      assert ys + [x] == xs;
      TallyNext(d, ys, x, Run(Fresh(d), ys).state);
    } else {
      NothingIsNotEnough(d);
    }
  }

  /** A clean stream is locked onto exactly if the search reaches its rate and then meets enough pulses of both lengths. */
  lemma LocksIff(d: nat, xs: seq<Sample>)
    requires IsDivider(d) && Clean(d, xs)
    ensures Run(RESET, xs).state.hasSync <==> Reached(d, xs) <= |xs| && Enough(d, xs[Reached(d, xs)..])
  {
    var at := Reached(d, xs);
    ReachedIs(d, xs);
    RunOnTheWay(d, xs);
    if at <= |xs| {
      RunFrom(xs, at, d, |xs|);
      assert xs[..|xs|] == xs && xs[at..][..|xs| - at] == xs[at..];
      TalliesAll(d, xs[at..]);
    }
  }
}
