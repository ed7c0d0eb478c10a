/** The carrier stage: finds the data rate, then classifies samples as short and long pulses. */
module CarrierMachine {
  import opened Machines
  import opened CarrierEvents
  import opened Samples

  const PULSE_MAX: nat := 50
  const ERROR_THRESHOLD: nat := 10

  predicate IsDivider(d: nat) { d == 16 || d == 32 || d == 64 }

  function PulseLength(d: nat): nat { d * CARRIER_US / 2 }

  function Delta(d: nat): nat { PulseLength(d) / 4 }

  predicate IsShort(d: nat, s: Sample) {
    PulseLength(d) - Delta(d) <= s.lengthUs <= PulseLength(d) + Delta(d)
  }

  predicate IsLong(d: nat, s: Sample) {
    2 * PulseLength(d) - Delta(d) <= s.lengthUs <= 2 * PulseLength(d) + Delta(d)
  }

  predicate InRange(d: nat, s: Sample) { IsShort(d, s) || IsLong(d, s) }

  /** The cycle in which data rates are tried. */
  function Next(d: nat): nat
    requires IsDivider(d)
  {
    if d == 16 then 32 else if d == 32 then 64 else 16
  }

  datatype State = State(divider: nat, errorCount: nat, pulseCount: nat, loCount: nat, hiCount: nat, hasSync: bool)

  const RESET := State(16, 0, 0, 0, 0, false)

  /** Gives up on the current data rate. */
  function NextCarrier(s: State): State {
    State(if IsDivider(s.divider) then Next(s.divider) else s.divider, 0, 0, 0, 0, false)
  }

  /** The counters when a sample has been taken into the current window, or has opened a new one. */
  function Window(s: State): State {
    if s.pulseCount + 1 == PULSE_MAX then s.(pulseCount := 0, errorCount := 0) else s.(pulseCount := s.pulseCount + 1)
  }

  function Tally(s: State, x: Sample): State {
    if IsShort(s.divider, x) then s.(loCount := (s.loCount + 1) % 256)
    else if IsLong(s.divider, x) then s.(hiCount := (s.hiCount + 1) % 256)
    else s.(errorCount := s.errorCount + 1)
  }

  /** Without sync, pulses are only counted. */
  function Count(s: State, x: Sample): Result<State, Event> {
    var t := Tally(s, x);
    if t.hiCount > 4 && t.loCount > 4 && t.errorCount < 4
    then Result(t.(hasSync := true), [SyncChanged(true, t.divider)])
    else Result(t, [])
  }

  /** With sync, pulses are forwarded. */
  function Forward(s: State, x: Sample): Result<State, Event> {
    if IsLong(s.divider, x) then Result(s, [NewPulse(x.isHigh, true)])
    else if IsShort(s.divider, x) then Result(s, [NewPulse(x.isHigh, false)])
    else Result(s.(errorCount := s.errorCount + 1), [])
  }

  function Step(s: State, x: Sample): Result<State, Event> {
    if s.errorCount >= ERROR_THRESHOLD then Result(NextCarrier(s), [SyncChanged(false, 0)])
    else if s.hasSync then Forward(Window(s), x)
    else Count(Window(s), x)
  }

  function Run(s: State, xs: seq<Sample>): Result<State, Event> {
    Fold(Step, s, xs)
  }

  // ---- Windows and errors ----

  predicate Valid(s: State) {
    && IsDivider(s.divider)
    && s.pulseCount < PULSE_MAX
    && s.errorCount <= ERROR_THRESHOLD
    && s.errorCount <= s.pulseCount + 1
    && s.loCount < 256 && s.hiCount < 256
  }

  lemma {:induction false} RunValid(xs: seq<Sample>)
    ensures Valid(Run(RESET, xs).state)
  {
    if |xs| > 0 { RunValid(xs[..|xs| - 1]); }
  }

  /** Number of samples out of range for a data rate. */
  function Bad(d: nat, xs: seq<Sample>): nat {
    if |xs| == 0 then 0 else Bad(d, xs[..|xs| - 1]) + if InRange(d, xs[|xs| - 1]) then 0 else 1
  }

  lemma {:induction false} BadConcat(d: nat, a: seq<Sample>, b: seq<Sample>)
    ensures Bad(d, a + b) == Bad(d, a) + Bad(d, b)
  {
    if |b| == 0 {
      assert a + b == a;
    } else {
      BadConcat(d, a, b[..|b| - 1]);
      assert (a + b)[..|a + b| - 1] == a + b[..|b| - 1];
    }
  }

  /** The last `w` samples seen are the current window, and `errorCount` counts its bad ones. */
  predicate WindowIs(xs: seq<Sample>, s: State, w: nat) {
    w <= |xs| && s.pulseCount <= w <= s.pulseCount + 1 && s.errorCount == Bad(s.divider, xs[|xs| - w..])
  }

  lemma StepErrors(s: State, x: Sample)
    requires Valid(s) && s.errorCount < ERROR_THRESHOLD
    ensures var t := Step(s, x).state;
            t.divider == s.divider && t.pulseCount == Window(s).pulseCount &&
            t.errorCount == Window(s).errorCount + if InRange(s.divider, x) then 0 else 1
  {
  }

  lemma BadSnoc(d: nat, xs: seq<Sample>, x: Sample, w: nat)
    requires w <= |xs|
    ensures Bad(d, (xs + [x])[|xs| - w..]) == Bad(d, xs[|xs| - w..]) + if InRange(d, x) then 0 else 1
  {
    var tail := (xs + [x])[|xs| - w..];
    assert tail[..|tail| - 1] == xs[|xs| - w..];
  }

  lemma {:induction false} ErrorsAreCounted(xs: seq<Sample>) returns (w: nat)
    ensures WindowIs(xs, Run(RESET, xs).state, w)
  {
    if |xs| == 0 {
      w := 0;
      assert xs[0..] == [];
    } else {
      var ys, x := xs[..|xs| - 1], xs[|xs| - 1];
      assert xs == ys + [x];
      w := ErrorsAreCounted(ys);
      RunValid(ys);
      var s := Run(RESET, ys).state;
      if s.errorCount >= ERROR_THRESHOLD {
        w := 0;
        assert xs[|xs|..] == [];
      } else {
        StepErrors(s, x);
        if s.pulseCount + 1 == PULSE_MAX {
          w := 0;
          assert ys[|ys|..] == [];
        }
        BadSnoc(s.divider, ys, x, w);
        w := w + 1;
      }
    }
  }

  /** Sync is given up, and the data rate changed, only if the window of at most fifty samples before
      this one already held ten pulses out of range. */
  lemma GivesUpOnlyAfterTenErrors(xs: seq<Sample>, x: Sample) returns (w: nat)
    ensures w <= PULSE_MAX && w <= |xs|
    ensures var s := Run(RESET, xs).state;
            Step(s, x).state.divider != s.divider || (s.hasSync && !Step(s, x).state.hasSync) ==>
            Bad(s.divider, xs[|xs| - w..]) == ERROR_THRESHOLD
  {
    w := ErrorsAreCounted(xs);
    RunValid(xs);
  }
}
