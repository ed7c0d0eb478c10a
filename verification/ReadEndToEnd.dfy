/** From samples to tokens, through the Manchester and the biphase chain. */
module ReadEndToEnd {
  import opened Machines
  import opened Sequences
  import opened CarrierEvents
  import opened Samples
  import opened Em4100Frame
  import opened ReadPipeline
  import opened Em4100Decoder
  import opened ManchesterDecoder
  import opened BiphaseDecoder
  import opened CarrierListeners
  import opened CarrierDecoder
  import Em4100 = Em4100Machine
  import Resync = Em4100Resync
  import Manchester = ManchesterMachine
  import Biphase = BiphaseMachine
  import Carrier = CarrierMachine
  import Lock = CarrierLock

  // ---- Frame facts ----

  lemma FrameEnds(id: Identity)
    ensures !Frame(id)[FRAME - 1]
    ensures forall i :: 0 <= i < PREAMBLE ==> Frame(id)[i]
  {
  }

  lemma {:induction false} ZerosAreIgnored(zeros: seq<bool>)
    requires forall i :: 0 <= i < |zeros| ==> !zeros[i]
    ensures Em4100.Run(Em4100.START, zeros) == Result(Em4100.START, [])
  {
    if |zeros| > 0 { ZerosAreIgnored(zeros[..|zeros| - 1]); }
  }

  /** Zeros followed by the end of a frame leave the decoder as new, unless that end is a trap. */
  lemma ZerosThenEnd(zeros: seq<bool>, id: Identity, o: nat)
    requires forall i :: 0 <= i < |zeros| ==> !zeros[i]
    requires 1 <= o <= FRAME && !Resync.Trapped(id, o)
    ensures Em4100.Run(Em4100.START, zeros + Frame(id)[o..]) == Result(Em4100.START, [])
  {
    ZerosAreIgnored(zeros);
    if o < FRAME { Resync.EntersFrameStart(id, o); } else { Resync.EnterLate(id, o); }
    FoldConcat(Em4100.Step, Em4100.START, zeros, Frame(id)[o..]);
  }

  // ---- Manchester ----

  function ManchesterTrain(id: Identity): seq<Event> { Manchester.Pulses(false, Frame(id)) }

  lemma ManchesterInStep(id: Identity)
    ensures InStep(Manchester.Step, Manchester.RESET, Manchester.RESET, ManchesterTrain(id), id)
  {
    var f, train := Frame(id), ManchesterTrain(id);
    FrameEnds(id);
    Manchester.DecodesInStep(false, f);
    var most, last := f[..FRAME - 1], f[FRAME - 1];
    SnocInit(f);
    Manchester.PulsesConcat(false, most, [last]);
    var p := Manchester.Last(false, most);
    assert Manchester.Pulses(p, [last]) == Manchester.Hop(p, last) + [];
    EmptyRight(Manchester.Hop(p, last));
    ManchesterLastPulse(most, last);
  }

  lemma ManchesterLastPulse(most: seq<bool>, last: bool)
    ensures var p := Manchester.Last(false, most);
            var train := Manchester.Pulses(false, most) + Manchester.Hop(p, last);
            |train| > 0 && |Manchester.Run(Manchester.RESET, train[..|train| - 1]).out| == |most|
  {
    var p, ps := Manchester.Last(false, most), Manchester.Pulses(false, most);
    var hop := Manchester.Hop(p, last);
    Manchester.DecodesInStep(false, most);
    var short := hop[..|hop| - 1];
    assert (ps + hop)[..|ps + hop| - 1] == ps + short;
    FoldConcat(Manchester.Step, Manchester.RESET, ps, short);
    if |short| == 1 {
      assert short == [NewPulse(!p, false)];
      FoldOne(Manchester.Step, Manchester.State(p, false), NewPulse(!p, false));
    }
  }

  /** Joining a Manchester frame at any pulse but its first: at most a suffix that starts behind the preamble is read. */
  lemma ManchesterAbsorbed(id: Identity, r: nat)
    requires 0 < r <= |ManchesterTrain(id)|
    ensures Absorbed(Manchester.Step, Manchester.RESET, ManchesterTrain(id), id, r)
  {
    var f := Frame(id);
    FrameEnds(id);
    var zeros, i, o := Manchester.FromReset(false, f, r);
    if i < FRAME {
      BehindPreamble(id, i);
    }
    ZerosThenEnd(zeros, id, o);
    ManchesterInStep(id);
  }

  lemma BehindPreamble(id: Identity, i: nat)
    requires 0 < i < FRAME && Frame(id)[i] == !Manchester.Last(false, Frame(id)[..i])
    ensures i >= PREAMBLE
  {
    FrameEnds(id);
    assert Manchester.Last(false, Frame(id)[..i]) == Frame(id)[i - 1];
  }

  /** Manchester read: from whichever pulse the stream of a repeating frame is followed, exactly the
      frames that lie wholly behind it are reported, each once, and nothing else. */
  lemma ManchesterReads(id: Identity, m: nat, j: nat, a: nat)
    requires j < |ManchesterTrain(id)| && a <= m * |ManchesterTrain(id)| + j
    ensures Reported(Manchester.Step, Manchester.RESET, Joined(ManchesterTrain(id), m, j, a)) ==
            Replicate(id, WholeFrames(|ManchesterTrain(id)|, m, a))
  {
    ManchesterInStep(id);
    var r := a % |ManchesterTrain(id)|;
    if r != 0 { ManchesterAbsorbed(id, r); }
    JoinedStream(Manchester.Step, Manchester.RESET, ManchesterTrain(id), id, m, j, a);
  }

  // ---- Biphase ----

  function BiphaseTrain(id: Identity): seq<bool> { Biphase.Shapes(Frame(id)) }

  /** Every frame starts with a one, so it is read whole from any state. */
  lemma BiphaseInStep(s: Biphase.State, id: Identity)
    ensures InStep(Biphase.StepShape, Biphase.RESET, s, BiphaseTrain(id), id)
  {
    var f, train := Frame(id), BiphaseTrain(id);
    FrameEnds(id);
    ConsTail(f);
    Biphase.SelfSynchronisation(s, f[1..]);
    var most, last := f[..FRAME - 1], f[FRAME - 1];
    SnocInit(f);
    Biphase.ShapesConcat(most, [last]);
    assert Biphase.Shapes([last]) == [false, false];
    ConsTail(most);
    Biphase.SelfSynchronisation(s, most[1..]);
    BiphaseLastPulse(s, most);
    assert train[..|train| - 1] == Biphase.Shapes(most) + [false];
  }

  lemma BiphaseLastPulse(s: Biphase.State, most: seq<bool>)
    requires Biphase.RunShapes(s, Biphase.Shapes(most)) == Result(Biphase.RESET, most)
    ensures Biphase.RunShapes(s, Biphase.Shapes(most) + [false]).out == most
  {
    FoldSnoc(Biphase.StepShape, s, Biphase.Shapes(most), false);
    EmptyRight(most);
  }

  /** Preamble ones take one pulse each. */
  lemma {:induction false} OnesArePulses(n: nat)
    ensures Biphase.Shapes(Ones(n)) == Ones(n)
  {
    if n > 0 {
      OnesArePulses(n - 1);
      assert Ones(n)[1..] == Ones(n - 1);
      assert [true] + Ones(n - 1) == Ones(n);
    }
  }

  lemma PreamblePulses(id: Identity, i: nat)
    requires i <= PREAMBLE
    ensures Biphase.Shapes(Frame(id)[..i]) == Ones(i)
    ensures i <= |BiphaseTrain(id)| && BiphaseTrain(id)[i..] == Biphase.Shapes(Frame(id)[i..])
    ensures i < PREAMBLE ==> i < |BiphaseTrain(id)| && BiphaseTrain(id)[i]
  {
    FrameEnds(id);
    assert Frame(id)[..i] == Ones(i);
    OnesArePulses(i);
    assert Frame(id) == Frame(id)[..i] + Frame(id)[i..];
    Biphase.ShapesConcat(Frame(id)[..i], Frame(id)[i..]);
  }

  /** Joining a biphase frame at a pulse of the preamble is joining it at that bit. */
  lemma JoinedBit(id: Identity, r: nat, q: nat, i: nat)
    requires 0 < r <= q < |BiphaseTrain(id)| && i < FRAME
    requires |Biphase.Shapes(Frame(id)[..i])| == q && Biphase.AllZero(BiphaseTrain(id)[r..q])
    ensures i >= 1 && (i < 5 ==> i == r)
  {
    forall k | r <= k < q ensures !BiphaseTrain(id)[k] {
      assert BiphaseTrain(id)[r..q][k - r] == BiphaseTrain(id)[k];
    }
    if i < 5 {
      PreamblePulses(id, i);
      PreamblePulses(id, r);
    }
  }

  lemma BiphaseAbsorbed(id: Identity, r: nat)
    requires 0 < r < |BiphaseTrain(id)| && !Resync.Trapped(id, r)
    ensures Absorbed(Biphase.StepShape, Biphase.RESET, BiphaseTrain(id), id, r)
  {
    var zeros, q, i := Biphase.FromAnywhere(Biphase.RESET, Frame(id), r);
    if i < FRAME {
      Biphase.ShapesConcat(Frame(id)[..i], Frame(id)[i..]);
      assert Frame(id) == Frame(id)[..i] + Frame(id)[i..];
      JoinedBit(id, r, q, i);
    }
    ZerosThenEnd(zeros, id, i);
    BiphaseInStep(Fold(Biphase.StepShape, Biphase.RESET, BiphaseTrain(id)[r..]).state, id);
  }

  lemma {:induction false} ShapesRepeat(bits: seq<bool>, n: nat)
    ensures Biphase.Shapes(Repeat(bits, n)) == Repeat(Biphase.Shapes(bits), n)
  {
    if n > 0 {
      ShapesRepeat(bits, n - 1);
      Biphase.ShapesConcat(Repeat(bits, n - 1), bits);
    }
  }

  /** A trapped identity is never reported, however long the stream. */
  lemma BiphaseTrapped(id: Identity, m: nat, j: nat, a: nat)
    requires j < |BiphaseTrain(id)| && a <= m * |BiphaseTrain(id)| + j
    requires Resync.Trapped(id, a % |BiphaseTrain(id)|)
    ensures Reported(Biphase.StepShape, Biphase.RESET, Joined(BiphaseTrain(id), m, j, a)) == []
  {
    var train := BiphaseTrain(id);
    var r := a % |train|;
    RepeatDrop(train, m + 1, a);
    var n := m - a / |train|;
    PreamblePulses(id, r);
    ShapesRepeat(Frame(id), n);
    Biphase.ShapesConcat(Frame(id)[r..], Repeat(Frame(id), n));
    Biphase.DecodesInStep(Frame(id)[r..] + Repeat(Frame(id), n));
    Resync.TrappedForever(id, r, n);
    JoinedGrows(train, m, j, a);
    SilentPrefix(Biphase.StepShape, Biphase.RESET, Joined(train, m, j, a), train[j..]);
  }

  lemma JoinedGrows<E>(train: seq<E>, m: nat, j: nat, a: nat)
    requires j <= |train| && a <= m * |train| + j
    ensures Joined(train, m, j, a) + train[j..] == Repeat(train, m + 1)[a..]
  {
    assert train == train[..j] + train[j..];
    Assoc(Repeat(train, m), train[..j], train[j..]);
    DropConcat(Repeat(train, m) + train[..j], train[j..], [], a);
    EmptyRight(Repeat(train, m + 1)[a..]);
    EmptyRight(train[j..]);
  }

  /** Each frame behind the point of joining once, unless the identity is trapped there. */
  function BiphaseExpected(id: Identity, m: nat, a: nat): seq<Identity>
    requires |BiphaseTrain(id)| > 0
  {
    if Resync.Trapped(id, a % |BiphaseTrain(id)|) then []
    else Replicate(id, WholeFrames(|BiphaseTrain(id)|, m, a))
  }

  /** Biphase read: likewise, except that an identity trapped at the joined pulse is never reported. */
  lemma BiphaseReads(id: Identity, m: nat, j: nat, a: nat)
    requires j < |BiphaseTrain(id)| && a <= m * |BiphaseTrain(id)| + j
    ensures Reported(Biphase.StepShape, Biphase.RESET, Joined(BiphaseTrain(id), m, j, a)) ==
            BiphaseExpected(id, m, a)
  {
    var r := a % |BiphaseTrain(id)|;
    if Resync.Trapped(id, r) {
      BiphaseTrapped(id, m, j, a);
    } else {
      BiphaseInStep(Biphase.RESET, id);
      if r != 0 { BiphaseAbsorbed(id, r); }
      JoinedStream(Biphase.StepShape, Biphase.RESET, BiphaseTrain(id), id, m, j, a);
    }
  }

  // ---- With the carrier stage in front ----

  lemma {:induction false} SyncEventsReset(d: nat, es: seq<Event>)
    requires Lock.OnlySync(d, es)
    ensures Manchester.Run(Manchester.RESET, es) == Result(Manchester.RESET, [])
    ensures Biphase.Run(Biphase.RESET, es) == Result(Biphase.RESET, [])
  {
    if |es| > 0 {
      SyncEventsReset(d, es[..|es| - 1]);
    }
  }

  const FRESH_MANCHESTER: ManchesterChain := Pipe(Manchester.RESET, Em4100.START, [])
  const FRESH_BIPHASE: BiphaseChain := Pipe(Biphase.RESET, Em4100.START, [])

  /** The identities the two chains report for a list of samples. */
  function ManchesterIds(xs: seq<Sample>): seq<Identity> {
    HearManchester(FRESH_MANCHESTER, Carrier.Run(Carrier.RESET, xs).out).out
  }

  function BiphaseIds(xs: seq<Sample>): seq<Identity> {
    HearBiphase(FRESH_BIPHASE, Carrier.Run(Carrier.RESET, xs).out).out
  }

  /** After the lock, both chains see exactly the classified samples. */
  lemma AfterLock(d: nat, xs: seq<Sample>, lock: nat, pre: seq<Event>)
    requires Lock.LockedAt(d, xs, lock, pre)
    ensures var es := Lock.Classified(d, xs[lock..]);
            ManchesterIds(xs) == Reported(Manchester.Step, Manchester.RESET, es) &&
            BiphaseIds(xs) == Reported(Biphase.StepShape, Biphase.RESET, Biphase.ShapesOf(es))
  {
    var es := Lock.Classified(d, xs[lock..]);
    SyncEventsReset(d, pre);
    PipeSkips(Manchester.Step, Em4100.Step, Manchester.RESET, Em4100.START, pre, es);
    PipeSkips(Biphase.Step, Em4100.Step, Biphase.RESET, Em4100.START, pre, es);
    Biphase.RunIsRunShapes(Biphase.RESET, es);
  }

  lemma ClassifiedDrop(d: nat, xs: seq<Sample>, k: nat)
    requires k <= |xs|
    ensures Lock.Classified(d, xs[k..]) == Lock.Classified(d, xs)[k..]
    ensures Biphase.ShapesOf(Lock.Classified(d, xs)[k..]) == Biphase.ShapesOf(Lock.Classified(d, xs))[k..]
  {
  }

  /** The lock is never before the second sample. */
  lemma LockBehindFirst(d: nat, xs: seq<Sample>, lock: nat, pre: seq<Event>)
    requires Lock.LockedAt(d, xs, lock, pre)
    ensures lock <= |xs| && (lock == 0 ==> xs == [])
  {
  }

  lemma ManchesterLater(d: nat, train: seq<Event>, m: nat, j: nat, start: nat, xs: seq<Sample>, lock: nat)
    requires lock <= |xs| && (lock == 0 ==> xs == [])
    requires j <= |train| && Follows(Lock.Classified(d, xs), train, m, j, start)
    ensures start + lock <= m * |train| + j
    ensures Lock.Classified(d, xs[lock..]) == Joined(train, m, j, start + lock)
  {
    ClassifiedDrop(d, xs, lock);
    FollowsLater(Lock.Classified(d, xs), train, m, j, start, lock);
  }

  lemma ManchesterAfterLock(d: nat, xs: seq<Sample>, lock: nat, pre: seq<Event>)
    requires Lock.LockedAt(d, xs, lock, pre)
    ensures ManchesterIds(xs) == Reported(Manchester.Step, Manchester.RESET, Lock.Classified(d, xs[lock..]))
  {
    AfterLock(d, xs, lock, pre);
  }

  lemma ManchesterJoined(id: Identity, m: nat, j: nat, a: nat, es: seq<Event>)
    requires j < |ManchesterTrain(id)| && a <= m * |ManchesterTrain(id)| + j && es == Joined(ManchesterTrain(id), m, j, a)
    ensures Reported(Manchester.Step, Manchester.RESET, es) == Replicate(id, WholeFrames(|ManchesterTrain(id)|, m, a))
  {
    ManchesterReads(id, m, j, a);
  }

  lemma ManchesterLocked(d: nat, id: Identity, m: nat, j: nat, start: nat, xs: seq<Sample>, lock: nat, pre: seq<Event>)
    requires Lock.LockedAt(d, xs, lock, pre)
    requires j < |ManchesterTrain(id)| && Follows(Lock.Classified(d, xs), ManchesterTrain(id), m, j, start)
    ensures ManchesterIds(xs) == Replicate(id, WholeFrames(|ManchesterTrain(id)|, m, start + lock))
  {
    LockBehindFirst(d, xs, lock, pre);
    ManchesterLater(d, ManchesterTrain(id), m, j, start, xs, lock);
    ManchesterJoined(id, m, j, start + lock, Lock.Classified(d, xs[lock..]));
    ManchesterAfterLock(d, xs, lock, pre);
  }

  /** End-to-end read, Manchester. The samples follow `m` repetitions of the frame of `id` and `j` pulses more,
      from pulse `start` on, clean at data rate `d`; the first one may be anything, as a capture cuts it short.
      If the carrier stage locks, it does so at `d` and exactly the frames that lie wholly behind the lock are
      reported, each once; otherwise nothing is. On a dense stream the lock takes at most `LockBound` samples. */
  lemma ManchesterEndToEnd(d: nat, id: Identity, m: nat, j: nat, start: nat, xs: seq<Sample>) returns (lock: nat)
    requires Carrier.IsDivider(d) && Lock.Clean(d, xs)
    requires j < |ManchesterTrain(id)| && Follows(Lock.Classified(d, xs), ManchesterTrain(id), m, j, start)
    ensures Lock.FirstLock(xs, lock)
    ensures ManchesterIds(xs) == Replicate(id, WholeFrames(|ManchesterTrain(id)|, m, start + lock))
    ensures Lock.Dense(d, xs) && |xs| >= Lock.LockBound(d, xs) ==> lock <= Lock.LockBound(d, xs)
  {
    var pre;
    lock, pre := Lock.ForwardsAfterLock(d, xs);
    ManchesterLocked(d, id, m, j, start, xs, lock, pre);
    Lock.LockedAtIsFirst(d, xs, lock, pre);
    Lock.FirstLockInTime(d, xs, lock);
  }

  lemma BiphaseLater(d: nat, train: seq<bool>, m: nat, j: nat, start: nat, xs: seq<Sample>, lock: nat)
    requires lock <= |xs| && (lock == 0 ==> xs == [])
    requires j <= |train| && Follows(Biphase.ShapesOf(Lock.Classified(d, xs)), train, m, j, start)
    ensures start + lock <= m * |train| + j
    ensures Biphase.ShapesOf(Lock.Classified(d, xs[lock..])) == Joined(train, m, j, start + lock)
  {
    ClassifiedDrop(d, xs, lock);
    FollowsLater(Biphase.ShapesOf(Lock.Classified(d, xs)), train, m, j, start, lock);
  }

  lemma BiphaseAfterLock(d: nat, xs: seq<Sample>, lock: nat, pre: seq<Event>)
    requires Lock.LockedAt(d, xs, lock, pre)
    ensures BiphaseIds(xs) ==
            Reported(Biphase.StepShape, Biphase.RESET, Biphase.ShapesOf(Lock.Classified(d, xs[lock..])))
  {
    AfterLock(d, xs, lock, pre);
  }

  lemma BiphaseJoined(id: Identity, m: nat, j: nat, a: nat, shapes: seq<bool>)
    requires j < |BiphaseTrain(id)| && a <= m * |BiphaseTrain(id)| + j && shapes == Joined(BiphaseTrain(id), m, j, a)
    ensures Reported(Biphase.StepShape, Biphase.RESET, shapes) == BiphaseExpected(id, m, a)
  {
    BiphaseReads(id, m, j, a);
  }

  lemma BiphaseLocked(d: nat, id: Identity, m: nat, j: nat, start: nat, xs: seq<Sample>, lock: nat, pre: seq<Event>)
    requires Lock.LockedAt(d, xs, lock, pre)
    requires j < |BiphaseTrain(id)| && Follows(Biphase.ShapesOf(Lock.Classified(d, xs)), BiphaseTrain(id), m, j, start)
    ensures BiphaseIds(xs) == BiphaseExpected(id, m, start + lock)
  {
    LockBehindFirst(d, xs, lock, pre);
    BiphaseLater(d, BiphaseTrain(id), m, j, start, xs, lock);
    BiphaseJoined(id, m, j, start + lock, Biphase.ShapesOf(Lock.Classified(d, xs[lock..])));
    BiphaseAfterLock(d, xs, lock, pre);
  }

  /** End-to-end read, biphase: the same, except for identities trapped at the pulse behind the lock. */
  lemma BiphaseEndToEnd(d: nat, id: Identity, m: nat, j: nat, start: nat, xs: seq<Sample>) returns (lock: nat)
    requires Carrier.IsDivider(d) && Lock.Clean(d, xs)
    requires j < |BiphaseTrain(id)| && Follows(Biphase.ShapesOf(Lock.Classified(d, xs)), BiphaseTrain(id), m, j, start)
    ensures Lock.FirstLock(xs, lock)
    ensures BiphaseIds(xs) == BiphaseExpected(id, m, start + lock)
    ensures Lock.Dense(d, xs) && |xs| >= Lock.LockBound(d, xs) ==> lock <= Lock.LockBound(d, xs)
  {
    var pre;
    lock, pre := Lock.ForwardsAfterLock(d, xs);
    BiphaseLocked(d, id, m, j, start, xs, lock, pre);
    Lock.LockedAtIsFirst(d, xs, lock, pre);
    Lock.FirstLockInTime(d, xs, lock);
  }

  /** A clean stream that is never locked onto is never read. */
  lemma NotLockedNotRead(d: nat, xs: seq<Sample>)
    requires Carrier.IsDivider(d) && Lock.Clean(d, xs) && !Carrier.Run(Carrier.RESET, xs).state.hasSync
    ensures ManchesterIds(xs) == [] && BiphaseIds(xs) == []
  {
    var lock, pre := Lock.ForwardsAfterLock(d, xs);
    assert xs[|xs|..] == [];
    AfterLock(d, xs, lock, pre);
  }

  /** The reading half of the program: fresh decoders, one list of samples. */
  method Read(samples: seq<Sample>) returns (manchesterTokens: seq<Token>, biphaseTokens: seq<Token>)
    ensures Identities(manchesterTokens) == ManchesterIds(samples)
    ensures Identities(biphaseTokens) == BiphaseIds(samples)
  {
    var emM := new Em4100Decoder();
    var emB := new Em4100Decoder();
    var manchester := new ManchesterDecoder(emM);
    var biphase := new BiphaseDecoder(emB);
    var listeners := new Notifier(manchester, biphase);
    var carrier := new CarrierDecoder(listeners);
    assert listeners.manchesterChain == FRESH_MANCHESTER;
    assert listeners.biphaseChain == FRESH_BIPHASE;
    carrier.CheckPulses(samples);
    manchesterTokens := emM.tokens;
    biphaseTokens := emB.tokens;
  }
}
