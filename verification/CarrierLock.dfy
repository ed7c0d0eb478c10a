/** The carrier stage on clean streams: when it locks, and what it forwards afterwards. */
module CarrierLock {
  import opened Machines
  import opened CarrierEvents
  import opened Samples
  import opened Sequences
  import opened CarrierMachine

  /** Every pulse, except perhaps the first, which a capture cuts short, lies in one of the two windows of data rate `d`. */
  predicate Clean(d: nat, xs: seq<Sample>) {
    forall i :: 1 <= i < |xs| ==> InRange(d, xs[i])
  }

  /** Before the right data rate is reached nothing but the first sample looks like a short pulse;
      at it nothing but the first sample is an error. */
  predicate OnTheWay(d: nat, s: State) {
    && Valid(s) && IsDivider(d) && s.divider <= d
    && (s.divider < d ==> s.loCount <= 1 && !s.hasSync)
    && (s.divider == d ==> s.errorCount <= 1)
  }

  lemma WindowsApart(e: nat, d: nat, x: Sample)
    requires IsDivider(e) && IsDivider(d) && e < d
    ensures InRange(d, x) ==> !IsShort(e, x)
    ensures IsLong(d, x) ==> !InRange(e, x)
    ensures e == 16 && d == 64 && InRange(d, x) ==> !InRange(e, x)
  {
  }

  lemma StepOnTheWay(d: nat, s: State, x: Sample)
    requires OnTheWay(d, s) && InRange(d, x)
    ensures OnTheWay(d, Step(s, x).state)
    ensures s.hasSync ==> Step(s, x).state.hasSync && Step(s, x).out == [Classify(d, x)]
    ensures !s.hasSync ==> OnlySync(d, Step(s, x).out)
  {
    if s.divider < d { WindowsApart(s.divider, d, x); }
  }

  /** The first sample, whatever it is, is only counted. */
  lemma FirstOnTheWay(d: nat, x: Sample)
    requires IsDivider(d)
    ensures OnTheWay(d, Step(RESET, x).state) && !Step(RESET, x).state.hasSync && Step(RESET, x).out == []
  {
  }

  lemma {:induction false} RunOnTheWay(d: nat, xs: seq<Sample>)
    requires IsDivider(d) && Clean(d, xs)
    ensures OnTheWay(d, Run(RESET, xs).state)
  {
    if |xs| == 1 {
      FoldNext(Step, RESET, xs, 0);
      assert xs[..1] == xs;
      FirstOnTheWay(d, xs[0]);
    } else if |xs| > 1 {
      RunOnTheWay(d, xs[..|xs| - 1]);
      StepOnTheWay(d, Run(RESET, xs[..|xs| - 1]).state, xs[|xs| - 1]);
    }
  }

  /** No false lock: on a stream clean at `d`, sync is never declared at another data rate. */
  lemma NoFalseLock(d: nat, xs: seq<Sample>)
    requires IsDivider(d) && Clean(d, xs)
    ensures Run(RESET, xs).state.hasSync ==> Run(RESET, xs).state.divider == d
  {
    RunOnTheWay(d, xs);
  }

  function Classify(d: nat, x: Sample): Event { NewPulse(x.isHigh, IsLong(d, x)) }

  function Classified(d: nat, xs: seq<Sample>): (es: seq<Event>)
    ensures |es| == |xs| && forall i :: 0 <= i < |es| ==> es[i] == Classify(d, xs[i])
  {
    seq(|xs|, i requires 0 <= i < |xs| => Classify(d, xs[i]))
  }

  predicate OnlySync(d: nat, es: seq<Event>) {
    forall i :: 0 <= i < |es| ==> es[i] == SyncChanged(false, 0) || es[i] == SyncChanged(true, d)
  }

  /** The samples up to the `lock`-th completed the lock (or there is none); all later ones were forwarded. */
  predicate LockedAt(d: nat, xs: seq<Sample>, lock: nat, pre: seq<Event>) {
    && lock <= |xs| && OnlySync(d, pre)
    && Run(RESET, xs).out == pre + Classified(d, xs[lock..])
    && (Run(RESET, xs).state.hasSync ==> 0 < lock && Run(RESET, xs[..lock]).state.hasSync)
    && (!Run(RESET, xs).state.hasSync ==> lock == |xs|)
    && forall k :: 0 <= k < lock ==> !Run(RESET, xs[..k]).state.hasSync
  }

  /** `lock` samples are the first after which there is sync, or all of them if there never is. */
  predicate FirstLock(xs: seq<Sample>, lock: nat) {
    && lock <= |xs|
    && (forall k :: 0 <= k < lock ==> !Run(RESET, xs[..k]).state.hasSync)
    && (lock < |xs| ==> Run(RESET, xs[..lock]).state.hasSync)
  }

  lemma LockedAtIsFirst(d: nat, xs: seq<Sample>, lock: nat, pre: seq<Event>)
    requires LockedAt(d, xs, lock, pre)
    ensures FirstLock(xs, lock)
  {
  }

  lemma ForwardOne(d: nat, ys: seq<Sample>, x: Sample, lock: nat, pre: seq<Event>)
    requires IsDivider(d) && Clean(d, ys + [x])
    requires LockedAt(d, ys, lock, pre) && Run(RESET, ys).state.hasSync
    ensures LockedAt(d, ys + [x], lock, pre)
  {
    var xs := ys + [x];
    assert xs[|ys|] == x && ys == xs[..|xs| - 1] && forall k :: 0 <= k <= |ys| ==> xs[..k] == ys[..k];
    RunOnTheWay(d, ys);
    StepOnTheWay(d, Run(RESET, ys).state, x);
    assert xs[lock..] == ys[lock..] + [x];
    assert Classified(d, xs[lock..]) == Classified(d, ys[lock..]) + [Classify(d, x)];
  }

  lemma SearchOne(d: nat, ys: seq<Sample>, x: Sample, lock: nat, pre: seq<Event>)
    requires IsDivider(d) && Clean(d, ys + [x])
    requires LockedAt(d, ys, lock, pre) && !Run(RESET, ys).state.hasSync
    ensures LockedAt(d, ys + [x], |ys| + 1, pre + Step(Run(RESET, ys).state, x).out)
  {
    var xs := ys + [x];
    assert xs[|ys|] == x && ys == xs[..|xs| - 1] && forall k :: 0 <= k <= |ys| ==> xs[..k] == ys[..k];
    assert ys[..|ys|] == ys && xs[..|xs|] == xs && xs[|xs|..] == [] && ys[lock..] == [];
    if |ys| == 0 {
      FirstOnTheWay(d, x);
    } else {
      RunOnTheWay(d, ys);
      StepOnTheWay(d, Run(RESET, ys).state, x);
    }
  }

  /** A clean stream is forwarded from the sample after the one that completed the lock, each sample
      once, in order and correctly classified; sync is never lost again. */
  lemma {:induction false} ForwardsAfterLock(d: nat, xs: seq<Sample>) returns (lock: nat, pre: seq<Event>)
    requires IsDivider(d) && Clean(d, xs)
    ensures LockedAt(d, xs, lock, pre)
  {
    if |xs| == 0 {
      lock, pre := 0, [];
    } else {
      var ys, x := xs[..|xs| - 1], xs[|xs| - 1];
      lock, pre := ForwardsAfterLock(d, ys);
      assert ys + [x] == xs;
      if Run(RESET, ys).state.hasSync {
        ForwardOne(d, ys, x, lock, pre);
      } else {
        SearchOne(d, ys, x, lock, pre);
        pre := pre + Step(Run(RESET, ys).state, x).out;
        lock := |xs|;
      }
    }
  }

  // ---- Locking in bounded time ----

  function Shorts(d: nat, xs: seq<Sample>): nat {
    if |xs| == 0 then 0 else Shorts(d, xs[..|xs| - 1]) + if IsShort(d, xs[|xs| - 1]) then 1 else 0
  }

  function Longs(d: nat, xs: seq<Sample>): nat {
    if |xs| == 0 then 0 else Longs(d, xs[..|xs| - 1]) + if IsLong(d, xs[|xs| - 1]) then 1 else 0
  }

  /** Every 49 consecutive samples hold at least ten short and ten long pulses. */
  ghost predicate Dense(d: nat, xs: seq<Sample>) {
    forall i, j :: 0 <= i <= j <= |xs| && j - i == 49 ==> TenOfEach(d, xs[i..j])
  }

  predicate TenOfEach(d: nat, xs: seq<Sample>) {
    Shorts(d, xs) >= 10 && Longs(d, xs) >= 10
  }

  function Fresh(e: nat): State { State(e, 0, 0, 0, 0, false) }

  lemma {:induction false} LongsAreBad(e: nat, d: nat, xs: seq<Sample>)
    requires IsDivider(e) && IsDivider(d) && e < d && Clean(d, xs)
    ensures Longs(d, xs) <= Bad(e, xs) <= |xs|
    ensures e == 16 && d == 64 && |xs| > 0 ==> Bad(e, xs) >= |xs| - if InRange(d, xs[0]) then 0 else 1
  {
    if |xs| > 0 {
      LongsAreBad(e, d, xs[..|xs| - 1]);
      WindowsApart(e, d, xs[|xs| - 1]);
    }
  }

  predicate Erring(e: nat, xs: seq<Sample>, s: State) {
    && s.divider == e && !s.hasSync && s.loCount <= 1 && (|xs| == 0 ==> s.loCount == 0)
    && s.pulseCount == |xs| && s.errorCount == Bad(e, xs)
  }

  lemma ErrOne(e: nat, xs: seq<Sample>, x: Sample, s: State)
    requires Erring(e, xs, s) && (|xs| > 0 ==> !IsShort(e, x)) && |xs| < 49 && s.errorCount < ERROR_THRESHOLD
    ensures Erring(e, xs + [x], Step(s, x).state)
  {
    assert (xs + [x])[..|xs|] == xs;
  }

  lemma ErrNext(e: nat, d: nat, xs: seq<Sample>, at: nat, k: nat, s: State)
    requires IsDivider(e) && IsDivider(d) && e < d && Clean(d, xs) && at <= k < |xs| && k < at + 49
    requires s == Run(RESET, xs[..k]).state && Erring(e, xs[at..k], s) && s.errorCount < ERROR_THRESHOLD
    ensures var t := Step(s, xs[k]).state; t == Run(RESET, xs[..k + 1]).state && Erring(e, xs[at..k + 1], t)
  {
    FoldNext(Step, RESET, xs, k);
    SliceSnoc(xs, at, k);
    if k > at { WindowsApart(e, d, xs[k]); }
    ErrOne(e, xs[at..k], xs[k], s);
  }

  lemma GiveUp(e: nat, s: State, x: Sample)
    requires IsDivider(e) && s.divider == e && s.errorCount >= ERROR_THRESHOLD
    ensures Step(s, x).state == Fresh(Next(e))
  {
  }

  lemma {:induction false} MeetsTenErrors(e: nat, d: nat, xs: seq<Sample>, at: nat, end: nat, from: nat, s: State)
    returns (k: nat)
    requires IsDivider(e) && IsDivider(d) && e < d && Clean(d, xs)
    requires at <= from <= end < |xs| && end <= at + 49 && Bad(e, xs[at..end]) >= ERROR_THRESHOLD
    requires s == Run(RESET, xs[..from]).state && Erring(e, xs[at..from], s)
    ensures from <= k <= end
    ensures var t := Run(RESET, xs[..k]).state; t.divider == e && t.errorCount >= ERROR_THRESHOLD
    decreases end - from
  {
    if from == end || s.errorCount >= ERROR_THRESHOLD {
      k := from;
    } else {
      ErrNext(e, d, xs, at, from, s);
      k := MeetsTenErrors(e, d, xs, at, end, from + 1, Step(s, xs[from]).state);
    }
  }

  /** A wrong data rate, entered after `at` samples, is left as soon as ten errors have been met. */
  lemma LeavesWrongRate(e: nat, d: nat, xs: seq<Sample>, at: nat, n: nat) returns (next: nat)
    requires IsDivider(e) && IsDivider(d) && e < d && Clean(d, xs)
    requires n <= 49 && at + n < |xs| && Bad(e, xs[at..at + n]) >= ERROR_THRESHOLD
    requires Run(RESET, xs[..at]).state == Fresh(e)
    ensures at <= next <= at + n + 1 && Run(RESET, xs[..next]).state == Fresh(Next(e))
  {
    assert xs[at..at] == [];
    assert Erring(e, [], Fresh(e));
    var k := MeetsTenErrors(e, d, xs, at, at + n, at, Fresh(e));
    FoldNext(Step, RESET, xs, k);
    GiveUp(e, Run(RESET, xs[..k]).state, xs[k]);
    next := k + 1;
  }

  predicate Counting(d: nat, xs: seq<Sample>, s: State) {
    && s.divider == d && s.errorCount <= 1 && (|xs| == 0 ==> s.errorCount == 0) && s.pulseCount == |xs| && !s.hasSync
    && s.loCount == Shorts(d, xs) && s.hiCount == Longs(d, xs) && !(s.loCount > 4 && s.hiCount > 4)
  }

  lemma CountsSnoc(d: nat, xs: seq<Sample>, x: Sample)
    ensures Shorts(d, xs + [x]) == Shorts(d, xs) + if IsShort(d, x) then 1 else 0
    ensures Longs(d, xs + [x]) == Longs(d, xs) + if IsLong(d, x) then 1 else 0
  {
    assert (xs + [x])[..|xs|] == xs;
  }

  lemma ShortNotLong(d: nat, x: Sample)
    requires IsDivider(d)
    ensures !(IsShort(d, x) && IsLong(d, x))
  {
  }

  lemma CountOne(d: nat, xs: seq<Sample>, x: Sample, s: State)
    requires IsDivider(d) && (|xs| > 0 ==> InRange(d, x)) && |xs| < 49 && Counting(d, xs, s)
    ensures var t := Step(s, x).state; t.hasSync || Counting(d, xs + [x], t)
  {
    CountsSnoc(d, xs, x);
    ShortNotLong(d, x);
    CountsBounded(d, xs);
  }

  lemma CountNext(d: nat, xs: seq<Sample>, at: nat, k: nat, s: State)
    requires IsDivider(d) && Clean(d, xs) && at <= k < |xs| && k < at + 49
    requires s == Run(RESET, xs[..k]).state && Counting(d, xs[at..k], s)
    ensures var t := Step(s, xs[k]).state;
            t == Run(RESET, xs[..k + 1]).state && (t.hasSync || Counting(d, xs[at..k + 1], t))
  {
    FoldNext(Step, RESET, xs, k);
    SliceSnoc(xs, at, k);
    CountOne(d, xs[at..k], xs[k], s);
  }

  lemma {:induction false} LocksFrom(d: nat, xs: seq<Sample>, at: nat, from: nat, s: State) returns (lock: nat)
    requires IsDivider(d) && Clean(d, xs) && at <= from <= at + 49 <= |xs| && TenOfEach(d, xs[at..at + 49])
    requires s == Run(RESET, xs[..from]).state && (s.hasSync || Counting(d, xs[at..from], s))
    ensures from <= lock <= at + 49 && Run(RESET, xs[..lock]).state.hasSync
    decreases at + 49 - from
  {
    if s.hasSync || from == at + 49 {
      lock := from;
    } else {
      CountNext(d, xs, at, from, s);
      lock := LocksFrom(d, xs, at, from + 1, Step(s, xs[from]).state);
    }
  }

  /** At the right data rate, entered after `at` samples, five short and five long pulses complete the lock. */
  lemma LocksAtRightRate(d: nat, xs: seq<Sample>, at: nat) returns (lock: nat)
    requires IsDivider(d) && Clean(d, xs) && at + 49 <= |xs| && TenOfEach(d, xs[at..at + 49])
    requires Run(RESET, xs[..at]).state == Fresh(d)
    ensures at <= lock <= at + 49 && Run(RESET, xs[..lock]).state.hasSync
  {
    assert xs[at..at] == [];
    lock := LocksFrom(d, xs, at, at, Fresh(d));
  }

  lemma {:induction false} CountsBounded(d: nat, xs: seq<Sample>)
    ensures Shorts(d, xs) <= |xs| && Longs(d, xs) <= |xs|
  {
    if |xs| > 0 { CountsBounded(d, xs[..|xs| - 1]); }
  }

  lemma TenErrors(e: nat, d: nat, xs: seq<Sample>, at: nat, n: nat)
    requires IsDivider(e) && IsDivider(d) && e < d && Clean(d, xs) && Dense(d, xs)
    requires at + 49 <= |xs| && n == if e == 16 && d == 64 then (if InRange(d, xs[at]) then 10 else 11) else 49
    ensures Bad(e, xs[at..at + n]) >= ERROR_THRESHOLD
  {
    LongsAreBad(e, d, xs[at..at + n]);
    if n == 49 { assert TenOfEach(d, xs[at..at + n]); }
  }

  /** 49 samples at each data rate, or at the first of three as many as make ten errors. */
  function LockBound(d: nat, xs: seq<Sample>): nat {
    if d == 16 then 49 else if d == 32 then 99 else if |xs| > 0 && !InRange(d, xs[0]) then 111 else 110
  }

  /** The search reaches the right rate. */
  lemma ReachesRate(d: nat, xs: seq<Sample>) returns (at: nat)
    requires IsDivider(d) && Clean(d, xs) && Dense(d, xs) && |xs| >= LockBound(d, xs)
    ensures at + 49 <= LockBound(d, xs) && Run(RESET, xs[..at]).state == Fresh(d)
  {
    at := 0;
    assert Run(RESET, xs[..at]).state == Fresh(16);
    if d == 32 {
      TenErrors(16, d, xs, at, 49);
      at := LeavesWrongRate(16, d, xs, at, 49);
    } else if d == 64 {
      var n := if InRange(d, xs[0]) then 10 else 11;
      TenErrors(16, d, xs, at, n);
      at := LeavesWrongRate(16, d, xs, at, n);
      TenErrors(32, d, xs, at, 49);
      at := LeavesWrongRate(32, d, xs, at, 49);
    }
  }

  /** Bounded lock: a clean dense stream is locked onto within 49, 99 or 110 samples of a reset, depending on its rate
      (111 if the first one is cut). */
  lemma LocksInTime(d: nat, xs: seq<Sample>) returns (lock: nat)
    requires IsDivider(d) && Clean(d, xs) && Dense(d, xs) && |xs| >= LockBound(d, xs)
    ensures lock <= LockBound(d, xs) && Run(RESET, xs[..lock]).state.hasSync && Run(RESET, xs[..lock]).state.divider == d
  {
    var at := ReachesRate(d, xs);
    assert TenOfEach(d, xs[at..at + 49]);
    lock := LocksAtRightRate(d, xs, at);
    NoFalseLock(d, xs[..lock]);
  }

  lemma FirstLockInTime(d: nat, xs: seq<Sample>, lock: nat)
    requires IsDivider(d) && Clean(d, xs) && FirstLock(xs, lock)
    ensures Dense(d, xs) && |xs| >= LockBound(d, xs) ==> lock <= LockBound(d, xs)
  {
    if Dense(d, xs) && |xs| >= LockBound(d, xs) {
      var n := LocksInTime(d, xs);
    }
  }
}
