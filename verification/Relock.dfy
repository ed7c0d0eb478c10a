/** A lock after a loss: both coding decoders start over, whatever they heard before. */
module Relock {
  import opened CarrierEvents
  import opened CarrierLock
  import opened CarrierMachine
  import opened CarrierSync
  import opened Machines
  import opened Samples
  import opened Sequences
  import Biphase = BiphaseMachine
  import Manchester = ManchesterMachine

  /** What a Manchester decoder reads behind a change of sync does not depend on what it heard before. */
  lemma ManchesterForgets(s: Manchester.State, before: seq<Event>, sync: Event, rest: seq<Event>)
    requires sync.SyncChanged?
    ensures Manchester.Run(s, before + ([sync] + rest)) ==
            Then(Manchester.Run(s, before), Manchester.Run(Manchester.State(false, false), rest))
  {
    var t := Manchester.Run(s, before).state;
    FoldConcat(Manchester.Step, s, before, [sync] + rest);
    FoldCons(Manchester.Step, t, [sync] + rest);
    assert ([sync] + rest)[1..] == rest;
    EmptyLeft(Manchester.Run(Manchester.State(false, false), rest).out);
  }

  /** Nor does what a biphase decoder reads. */
  lemma BiphaseForgets(s: Biphase.State, before: seq<Event>, sync: Event, rest: seq<Event>)
    requires sync.SyncChanged?
    ensures Biphase.Run(s, before + ([sync] + rest)) ==
            Then(Biphase.Run(s, before), Biphase.Run(Biphase.State(false), rest))
  {
    var t := Biphase.Run(s, before).state;
    FoldConcat(Biphase.Step, s, before, [sync] + rest);
    FoldCons(Biphase.Step, t, [sync] + rest);
    assert ([sync] + rest)[1..] == rest;
    EmptyLeft(Biphase.Run(Biphase.State(false), rest).out);
  }

  /** With sync, and room for errors, samples in range are forwarded. */
  lemma {:induction false} ForwardsAll(d: nat, s: State, ys: seq<Sample>)
    requires IsDivider(d) && Valid(s) && s.divider == d && s.hasSync && s.errorCount < 10
    requires forall i :: 0 <= i < |ys| ==> InRange(d, ys[i])
    ensures var r := Run(s, ys);
            && r.out == Classified(d, ys)
            && Valid(r.state) && r.state.divider == d && r.state.hasSync && r.state.errorCount < 10
  {
    if |ys| > 0 {
      var before := ys[..|ys| - 1];
      ForwardsAll(d, s, before);
      ForwardsOne(d, Run(s, before).state, ys[|ys| - 1]);
      assert Classified(d, ys) == Classified(d, before) + [Classify(d, ys[|ys| - 1])];
    }
  }

  lemma ForwardsOne(d: nat, s: State, x: Sample)
    requires IsDivider(d) && Valid(s) && s.divider == d && s.hasSync && s.errorCount < 10 && InRange(d, x)
    ensures var r := Step(s, x);
            && r.out == [Classify(d, x)]
            && Valid(r.state) && r.state.divider == d && r.state.hasSync && r.state.errorCount < 10
  {
  }

  lemma LocksWithFewErrors(d: nat, s: State, x: Sample)
    requires Valid(s) && Step(s, x).out == [SyncChanged(true, d)]
    ensures var t := Step(s, x).state; Valid(t) && t.divider == d && t.hasSync && t.errorCount < 10
  {
  }

  /** The events of a stream that declares sync at sample `x` and is clean behind it. */
  lemma EventsBehindLock(d: nat, xs: seq<Sample>, x: Sample, ys: seq<Sample>)
    requires EventsAt(xs, x) == [SyncChanged(true, d)] && IsDivider(d)
    requires forall i :: 0 <= i < |ys| ==> InRange(d, ys[i])
    ensures Run(RESET, xs + ([x] + ys)).out == Run(RESET, xs).out + ([SyncChanged(true, d)] + Classified(d, ys))
  {
    var s := Run(RESET, xs).state;
    EventIs(xs, x);
    RunValid(xs);
    LocksWithFewErrors(d, s, x);
    ForwardsAll(d, Step(s, x).state, ys);
    FoldConcat(Step, RESET, xs, [x] + ys);
    FoldCons(Step, s, [x] + ys);
    assert ([x] + ys)[1..] == ys;
  }

  /** Behind every lock, be it the first or one after a loss, and whatever the stream was before it, both decoders read
      the pulses like fresh ones. */
  lemma ReadsBehindLock(d: nat, xs: seq<Sample>, x: Sample, ys: seq<Sample>)
    requires EventsAt(xs, x) == [SyncChanged(true, d)] && IsDivider(d)
    requires forall i :: 0 <= i < |ys| ==> InRange(d, ys[i])
    ensures var all, before := Run(RESET, xs + ([x] + ys)).out, Run(RESET, xs).out;
            && Manchester.Run(Manchester.RESET, all).out ==
               Manchester.Run(Manchester.RESET, before).out
               + Manchester.Run(Manchester.State(false, false), Classified(d, ys)).out
            && Biphase.Run(Biphase.RESET, all).out ==
               Biphase.Run(Biphase.RESET, before).out + Biphase.Run(Biphase.State(false), Classified(d, ys)).out
  {
    EventsBehindLock(d, xs, x, ys);
    var before, sync := Run(RESET, xs).out, SyncChanged(true, d);
    ManchesterForgets(Manchester.RESET, before, sync, Classified(d, ys));
    BiphaseForgets(Biphase.RESET, before, sync, Classified(d, ys));
  }

  /** So a Manchester train of some bits, followed from any pulse on behind a lock, adds some zeros and then a suffix of
      the bits to what was read before. */
  lemma TrainBehindLock(d: nat, xs: seq<Sample>, x: Sample, ys: seq<Sample>, prev: bool, bits: seq<bool>, k: nat)
    returns (zeros: seq<bool>, i: nat, j: nat)
    requires EventsAt(xs, x) == [SyncChanged(true, d)] && IsDivider(d)
    requires forall i :: 0 <= i < |ys| ==> InRange(d, ys[i])
    requires k <= |Manchester.Pulses(prev, bits)| && Classified(d, ys) == Manchester.Pulses(prev, bits)[k..]
    ensures Manchester.AllZero(zeros) && i <= j <= |bits| && j <= i + 1
    ensures i < |bits| ==> bits[i] == !Manchester.Last(prev, bits[..i])
    ensures Manchester.Run(Manchester.RESET, Run(RESET, xs + ([x] + ys)).out).out ==
            Manchester.Run(Manchester.RESET, Run(RESET, xs).out).out + (zeros + bits[j..])
  {
    ReadsBehindLock(d, xs, x, ys);
    zeros, i, j := Manchester.FromReset(prev, bits, k);
  }
}
