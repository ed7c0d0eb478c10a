/** The two halves of the read pipeline joined: what the chains report of the conversions of the field of a tag. */
module CaptureAndRead {
  import opened CapturedPulses
  import opened CarrierEvents
  import opened CarrierMachine
  import opened Em4100Decoder
  import opened Em4100Eprom
  import opened Em4100Frame
  import opened ReadEndToEnd
  import opened ReadPipeline
  import opened SampleCapture
  import opened Samples
  import opened Sequences
  import Biphase = BiphaseMachine
  import Lock = CarrierLock
  import Manchester = ManchesterMachine
  import Resync = Em4100Resync

  // ---- The field of a tag ----

  /** The pulses of `n` repetitions of the frame, Manchester-coded. */
  function ManchesterField(id: Identity, n: nat): seq<Event> { Repeat(ManchesterTrain(id), n) }

  /** A repeated frame is one long bit sequence, so its pulses alternate. */
  lemma {:induction false} ManchesterFieldIsPulses(id: Identity, n: nat)
    ensures ManchesterField(id, n) == Manchester.Pulses(false, Repeat(Frame(id), n))
    ensures AllPulses(ManchesterField(id, n)) && Manchester.Alternating(ManchesterField(id, n))
  {
    var f := Frame(id);
    Manchester.PulsesAlternate(false, Repeat(f, n));
    if n > 0 {
      ManchesterFieldIsPulses(id, n - 1);
      FieldEndsLow(id, n - 1);
      Manchester.PulsesConcat(false, Repeat(f, n - 1), f);
    }
  }

  lemma FieldEndsLow(id: Identity, n: nat)
    ensures !Manchester.Last(false, Repeat(Frame(id), n))
  {
    FrameEnds(id);
  }

  /** Pulses of alternating level, whichever is first, with the shapes of `n` repetitions of the frame in biphase code. */
  predicate BiphaseField(id: Identity, n: nat, ps: seq<Event>) {
    AllPulses(ps) && Manchester.Alternating(ps) && Biphase.ShapesOf(ps) == Repeat(BiphaseTrain(id), n)
  }

  /** `bits` are those of consecutive conversions, from `c` to `e`, in a field that lasts long enough. */
  predicate Seen(bits: seq<bool>, d: nat, ps: seq<Event>, c: nat, e: nat) {
    IsDivider(d) && AllPulses(ps) && c <= e < Offset(d, ps, |ps|) && bits == Stretch(d, ps, c, e + 1)
  }

  // ---- What is read of it ----

  /** Number of pulses of a frame. */
  function ManchesterPulses(id: Identity): (p: nat)
    ensures p == |ManchesterTrain(id)| > 0
  {
    ManchesterInStep(id);
    |ManchesterTrain(id)|
  }

  function BiphasePulses(id: Identity): (p: nat)
    ensures p == |BiphaseTrain(id)| > 0
  {
    BiphaseInStep(Biphase.RESET, id);
    |BiphaseTrain(id)|
  }

  /** Number of reports: the frames that lie wholly between the first lock and the end of a capture, which begins in
      pulse `first` and ends in pulse `last`. */
  function ManchesterCount(id: Identity, first: nat, last: nat, lock: nat): nat {
    var p := ManchesterPulses(id);
    WholeFrames(p, last / p, first + lock)
  }

  /** Biphase: likewise, but none if the identity is trapped at the pulse behind the lock. */
  function BiphaseCount(id: Identity, first: nat, last: nat, lock: nat): nat {
    var p := BiphasePulses(id);
    if Resync.Trapped(id, (first + lock) % p) then 0 else WholeFrames(p, last / p, first + lock)
  }

  lemma ManchesterFollows(d: nat, id: Identity, n: nat, first: nat, last: nat, samples: seq<Sample>)
    requires IsDivider(d) && CleanPulses(d, ManchesterField(id, n), first, last, samples)
    ensures |ManchesterTrain(id)| > 0 && FollowsTo(Lock.Classified(d, samples), ManchesterTrain(id), first, last)
  {
    var p := ManchesterPulses(id);
    AgreesFollows(Lock.Classified(d, samples), ManchesterTrain(id), n, first, last);
  }

  /** Samples that follow the pulses from inside pulse `first` to inside pulse `last`. */
  lemma ManchesterSampled(d: nat, id: Identity, first: nat, last: nat, samples: seq<Sample>) returns (lock: nat)
    requires IsDivider(d) && Lock.Clean(d, samples) && |ManchesterTrain(id)| > 0
    requires FollowsTo(Lock.Classified(d, samples), ManchesterTrain(id), first, last)
    ensures Lock.FirstLock(samples, lock)
    ensures ManchesterIds(samples) == Replicate(id, ManchesterCount(id, first, last, lock))
  {
    var p := ManchesterPulses(id);
    DivMod(last, p);
    lock := ManchesterEndToEnd(d, id, last / p, last % p, first, samples);
  }

  lemma ShapesFollow(es: seq<Event>, ps: seq<Event>, n: nat, first: nat, train: seq<bool>)
    requires AllPulses(es) && AllPulses(ps) && first + |es| <= |ps| && Biphase.ShapesOf(ps) == Repeat(train, n)
    requires forall i :: 1 <= i < |es| ==> es[i] == ps[first + i]
    ensures var shapes := Biphase.ShapesOf(es);
            && |shapes| == |es| && |ps| == n * |train|
            && forall i :: 1 <= i < |shapes| ==> shapes[i] == Repeat(train, n)[first + i]
  {
    forall i | 1 <= i < |es| ensures Biphase.ShapesOf(es)[i] == Repeat(train, n)[first + i] {
      assert Biphase.ShapesOf(ps)[first + i] == ps[first + i].isLong;
    }
  }

  lemma BiphaseFollows(d: nat, id: Identity, n: nat, ps: seq<Event>, first: nat, last: nat, samples: seq<Sample>)
    requires IsDivider(d) && BiphaseField(id, n, ps) && CleanPulses(d, ps, first, last, samples)
    ensures |BiphaseTrain(id)| > 0 && FollowsTo(Biphase.ShapesOf(Lock.Classified(d, samples)), BiphaseTrain(id), first, last)
  {
    var p, es := BiphasePulses(id), Lock.Classified(d, samples);
    ShapesFollow(es, ps, n, first, BiphaseTrain(id));
    AgreesFollows(Biphase.ShapesOf(es), BiphaseTrain(id), n, first, last);
  }

  lemma BiphaseCounted(id: Identity, first: nat, last: nat, lock: nat)
    ensures BiphaseExpected(id, last / BiphasePulses(id), first + lock) == Replicate(id, BiphaseCount(id, first, last, lock))
  {
    assert Replicate(id, 0) == [];
  }

  lemma BiphaseSampled(d: nat, id: Identity, first: nat, last: nat, samples: seq<Sample>) returns (lock: nat)
    requires IsDivider(d) && Lock.Clean(d, samples) && |BiphaseTrain(id)| > 0
    requires FollowsTo(Biphase.ShapesOf(Lock.Classified(d, samples)), BiphaseTrain(id), first, last)
    ensures Lock.FirstLock(samples, lock)
    ensures BiphaseIds(samples) == Replicate(id, BiphaseCount(id, first, last, lock))
  {
    var p := BiphasePulses(id);
    DivMod(last, p);
    lock := BiphaseEndToEnd(d, id, last / p, last % p, first, samples);
    BiphaseCounted(id, first, last, lock);
  }

  // ---- In tokens ----

  ghost predicate ManchesterOutcome(id: Identity, first: nat, last: nat, samples: seq<Sample>, ids: seq<Identity>) {
    exists lock :: Lock.FirstLock(samples, lock) && ids == Replicate(id, ManchesterCount(id, first, last, lock))
  }

  ghost predicate BiphaseOutcome(id: Identity, first: nat, last: nat, samples: seq<Sample>, ids: seq<Identity>) {
    exists lock :: Lock.FirstLock(samples, lock) && ids == Replicate(id, BiphaseCount(id, first, last, lock))
  }

  ghost predicate ManchesterTokens(t: Token, first: nat, last: nat, samples: seq<Sample>, tokens: seq<Token>) {
    exists lock :: Lock.FirstLock(samples, lock) && tokens == Replicate(t, ManchesterCount(IdentityOf(t), first, last, lock))
  }

  ghost predicate BiphaseTokens(t: Token, first: nat, last: nat, samples: seq<Sample>, tokens: seq<Token>) {
    exists lock :: Lock.FirstLock(samples, lock) && tokens == Replicate(t, BiphaseCount(IdentityOf(t), first, last, lock))
  }

  lemma NameManchester(t: Token, first: nat, last: nat, samples: seq<Sample>, tokens: seq<Token>)
    requires ManchesterOutcome(IdentityOf(t), first, last, samples, Identities(tokens))
    ensures ManchesterTokens(t, first, last, samples, tokens)
  {
    var id := IdentityOf(t);
    var lock :| Lock.FirstLock(samples, lock) && Identities(tokens) == Replicate(id, ManchesterCount(id, first, last, lock));
    TokensOfIdentity(tokens, t, ManchesterCount(id, first, last, lock));
  }

  lemma NameBiphase(t: Token, first: nat, last: nat, samples: seq<Sample>, tokens: seq<Token>)
    requires BiphaseOutcome(IdentityOf(t), first, last, samples, Identities(tokens))
    ensures BiphaseTokens(t, first, last, samples, tokens)
  {
    var id := IdentityOf(t);
    var lock :| Lock.FirstLock(samples, lock) && Identities(tokens) == Replicate(id, BiphaseCount(id, first, last, lock));
    TokensOfIdentity(tokens, t, BiphaseCount(id, first, last, lock));
  }

  lemma ManchesterFollowed(d: nat, id: Identity, first: nat, last: nat, samples: seq<Sample>)
    requires IsDivider(d) && Lock.Clean(d, samples) && |ManchesterTrain(id)| > 0
    requires FollowsTo(Lock.Classified(d, samples), ManchesterTrain(id), first, last)
    ensures ManchesterOutcome(id, first, last, samples, ManchesterIds(samples))
  {
    var lock := ManchesterSampled(d, id, first, last, samples);
  }

  lemma BiphaseFollowed(d: nat, id: Identity, first: nat, last: nat, samples: seq<Sample>)
    requires IsDivider(d) && Lock.Clean(d, samples) && |BiphaseTrain(id)| > 0
    requires FollowsTo(Biphase.ShapesOf(Lock.Classified(d, samples)), BiphaseTrain(id), first, last)
    ensures BiphaseOutcome(id, first, last, samples, BiphaseIds(samples))
  {
    var lock := BiphaseSampled(d, id, first, last, samples);
  }

  lemma ManchesterHeard(d: nat, id: Identity, n: nat, first: nat, last: nat, samples: seq<Sample>)
    requires IsDivider(d) && CleanPulses(d, ManchesterField(id, n), first, last, samples)
    ensures ManchesterOutcome(id, first, last, samples, ManchesterIds(samples))
  {
    ManchesterFollows(d, id, n, first, last, samples);
    ManchesterFollowed(d, id, first, last, samples);
  }

  lemma BiphaseHeard(d: nat, id: Identity, n: nat, ps: seq<Event>, first: nat, last: nat, samples: seq<Sample>)
    requires IsDivider(d) && BiphaseField(id, n, ps) && CleanPulses(d, ps, first, last, samples)
    ensures BiphaseOutcome(id, first, last, samples, BiphaseIds(samples))
  {
    BiphaseFollows(d, id, n, ps, first, last, samples);
    BiphaseFollowed(d, id, first, last, samples);
  }

  lemma SeenIsClean(bits: seq<bool>, d: nat, ps: seq<Event>, c: nat, e: nat)
    requires Seen(bits, d, ps, c, e) && Manchester.Alternating(ps)
    ensures CleanPulses(d, ps, PulseAt(d, ps, c), PulseAt(d, ps, e), RunSamples(bits))
  {
    CaptureIsClean(d, ps, c, e);
  }

  lemma ManchesterSeen(bits: seq<bool>, d: nat, id: Identity, n: nat, c: nat, e: nat)
    requires Seen(bits, d, ManchesterField(id, n), c, e)
    ensures var ps, samples := ManchesterField(id, n), RunSamples(bits);
            ManchesterOutcome(id, PulseAt(d, ps, c), PulseAt(d, ps, e), samples, ManchesterIds(samples))
  {
    var ps := ManchesterField(id, n);
    ManchesterFieldIsPulses(id, n);
    SeenIsClean(bits, d, ps, c, e);
    ManchesterHeard(d, id, n, PulseAt(d, ps, c), PulseAt(d, ps, e), RunSamples(bits));
  }

  lemma BiphaseSeen(bits: seq<bool>, d: nat, id: Identity, n: nat, ps: seq<Event>, c: nat, e: nat)
    requires BiphaseField(id, n, ps) && Seen(bits, d, ps, c, e)
    ensures var samples := RunSamples(bits);
            BiphaseOutcome(id, PulseAt(d, ps, c), PulseAt(d, ps, e), samples, BiphaseIds(samples))
  {
    SeenIsClean(bits, d, ps, c, e);
    BiphaseHeard(d, id, n, ps, PulseAt(d, ps, c), PulseAt(d, ps, e), RunSamples(bits));
  }
}
