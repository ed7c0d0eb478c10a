/** What the chain of one code makes of a field in the other code. */
module OtherChain {
  import opened CaptureAndRead
  import opened CapturedPulses
  import opened CarrierEvents
  import opened CarrierMachine
  import opened CodeDuality
  import opened Em4100Frame
  import opened Em4100Reports
  import opened Machines
  import opened ReadEndToEnd
  import opened ReadPipeline
  import opened Samples
  import opened Sequences
  import Biphase = BiphaseMachine
  import Em4100 = Em4100Machine
  import Lock = CarrierLock
  import Manchester = ManchesterMachine

  // ---- The bits heard ----

  /** A decoder that gets some zeros and a stretch of bits reports what it reports of the stretch. */
  lemma BehindZeros(zeros: seq<bool>, bits: seq<bool>, i: nat, out: seq<bool>, rest: seq<bool>) returns (j: nat, k: nat)
    requires (forall z :: 0 <= z < |zeros| ==> !zeros[z]) && i <= |bits| && out + rest == zeros + bits[i..]
    ensures j <= k <= |bits| && Em4100.Run(Em4100.START, out) == Em4100.Run(Em4100.START, bits[j..k])
  {
    var all := zeros + bits[i..];
    assert out == all[..|out|];
    if |out| <= |zeros| {
      j, k := 0, 0;
      assert out == zeros[..|out|] && bits[0..0] == [];
      ZerosAreIgnored(out);
    } else {
      j, k := i, i + |out| - |zeros|;
      assert out == zeros + bits[j..k];
      ZerosAreIgnored(zeros);
      FoldConcat(Em4100.Step, Em4100.START, zeros, bits[j..k]);
      EmptyLeft(Em4100.Run(Em4100.START, bits[j..k]).out);
    }
  }

  lemma EmptyLeft<T>(s: seq<T>)
    ensures [] + s == s
  {
  }

  /** The biphase chain on a stretch of the pulses of `bits`: it reports what stands in a stretch of the bits. */
  lemma BiphaseHears(bits: seq<bool>, a: nat, b: nat) returns (j: nat, k: nat)
    requires a <= b <= |Biphase.Shapes(bits)|
    ensures j <= k <= |bits|
    ensures Reported(Biphase.StepShape, Biphase.RESET, Biphase.Shapes(bits)[a..b]) == Em4100.Run(Em4100.START, bits[j..k]).out
  {
    var shapes := Biphase.Shapes(bits);
    var zeros, q, i := Biphase.FromAnywhere(Biphase.RESET, bits, a);
    SliceInTwo(shapes, a, b);
    FoldConcat(Biphase.StepShape, Biphase.RESET, shapes[a..b], shapes[b..]);
    var head := Fold(Biphase.StepShape, Biphase.RESET, shapes[a..b]);
    j, k := BehindZeros(zeros, bits, i, head.out, Fold(Biphase.StepShape, head.state, shapes[b..]).out);
  }

  lemma ManchesterHears(prev: bool, bits: seq<bool>, a: nat, b: nat) returns (j: nat, k: nat)
    requires a <= b <= |Manchester.Pulses(prev, bits)|
    ensures j <= k <= |bits|
    ensures Reported(Manchester.Step, Manchester.RESET, Manchester.Pulses(prev, bits)[a..b]) ==
            Em4100.Run(Em4100.START, bits[j..k]).out
  {
    var ps := Manchester.Pulses(prev, bits);
    var zeros, i, from := Manchester.FromReset(prev, bits, a);
    SliceInTwo(ps, a, b);
    FoldConcat(Manchester.Step, Manchester.RESET, ps[a..b], ps[b..]);
    var head := Fold(Manchester.Step, Manchester.RESET, ps[a..b]);
    j, k := BehindZeros(zeros, bits, from, head.out, Fold(Manchester.Step, head.state, ps[b..]).out);
  }

  lemma ClassifiedStretch(d: nat, ps: seq<Event>, first: nat, last: nat, samples: seq<Sample>, lock: nat)
    requires IsDivider(d) && CleanPulses(d, ps, first, last, samples) && lock <= |samples| && (lock == 0 ==> samples == [])
    ensures first + lock <= last <= |ps| && Lock.Classified(d, samples[lock..]) == ps[first + lock..last]
  {
    var es := Lock.Classified(d, samples[lock..]);
    forall i | 0 <= i < |es| ensures es[i] == ps[first + lock..last][i] {
      assert es[i] == Lock.Classify(d, samples[lock + i]);
    }
  }

  lemma ShapesStretch(ps: seq<Event>, a: nat, b: nat)
    requires AllPulses(ps) && a <= b <= |ps|
    ensures Biphase.ShapesOf(ps[a..b]) == Biphase.ShapesOf(ps)[a..b]
  {
  }

  /** Behind the lock both chains hear a stretch of the pulses. */
  lemma HeardStretch(d: nat, ps: seq<Event>, first: nat, last: nat, samples: seq<Sample>) returns (a: nat)
    requires IsDivider(d) && AllPulses(ps) && CleanPulses(d, ps, first, last, samples)
    ensures a <= last <= |ps|
    ensures ManchesterIds(samples) == Reported(Manchester.Step, Manchester.RESET, ps[a..last])
    ensures BiphaseIds(samples) == Reported(Biphase.StepShape, Biphase.RESET, Biphase.ShapesOf(ps)[a..last])
  {
    var lock, pre := Lock.ForwardsAfterLock(d, samples);
    LockBehindFirst(d, samples, lock, pre);
    a := first + lock;
    ClassifiedStretch(d, ps, first, last, samples, lock);
    ShapesStretch(ps, a, last);
    ManchesterAfterLock(d, samples, lock, pre);
    BiphaseAfterLock(d, samples, lock, pre);
  }

  // ---- Only what stands in the bits is named ----

  ghost predicate Stands(bits: seq<bool>, id: Identity) {
    exists q: nat :: FrameAt(bits, q, id)
  }

  lemma NamedStands(bits: seq<bool>, j: nat, k: nat, id: Identity)
    requires j <= k <= |bits| && id in Em4100.Run(Em4100.START, bits[j..k]).out
    ensures Stands(bits, id)
  {
    var q := NamedHasFrame(bits[j..k], id);
    SliceOfSlice(bits, j, k, q, FRAME);
    assert FrameAt(bits, j + q, id);
  }

  /** The biphase chain names only what stands in the bits that a biphase decoder makes of the field. */
  lemma BiphaseNamesStanding(d: nat, ps: seq<Event>, bits: seq<bool>, first: nat, last: nat, samples: seq<Sample>)
    requires IsDivider(d) && AllPulses(ps) && CleanPulses(d, ps, first, last, samples)
    requires Biphase.ShapesOf(ps) == Biphase.Shapes(bits)
    ensures exists j, k :: 0 <= j <= k <= |bits| && BiphaseIds(samples) == Em4100.Run(Em4100.START, bits[j..k]).out
    ensures forall id :: id in BiphaseIds(samples) ==> Stands(bits, id)
  {
    var a := HeardStretch(d, ps, first, last, samples);
    var j, k := BiphaseHears(bits, a, last);
    forall id | id in BiphaseIds(samples) ensures Stands(bits, id) { NamedStands(bits, j, k, id); }
  }

  lemma ManchesterNamesStanding(d: nat, ps: seq<Event>, prev: bool, bits: seq<bool>, first: nat, last: nat,
                                samples: seq<Sample>)
    requires IsDivider(d) && CleanPulses(d, ps, first, last, samples) && ps == Manchester.Pulses(prev, bits)
    ensures exists j, k :: 0 <= j <= k <= |bits| && ManchesterIds(samples) == Em4100.Run(Em4100.START, bits[j..k]).out
    ensures forall id :: id in ManchesterIds(samples) ==> Stands(bits, id)
  {
    var a := HeardStretch(d, ps, first, last, samples);
    var j, k := ManchesterHears(prev, bits, a, last);
    forall id | id in ManchesterIds(samples) ensures Stands(bits, id) { NamedStands(bits, j, k, id); }
  }

  // ---- A Manchester field in the biphase chain ----

  /** What the biphase chain makes of the frame of `id` in Manchester code: the last bit of a frame is a zero. */
  function CyclicDifferences(id: Identity): seq<bool> { Differences(false, Frame(id)) }

  lemma ManchesterFieldShapes(id: Identity, n: nat)
    ensures AllPulses(ManchesterField(id, n))
    ensures Biphase.ShapesOf(ManchesterField(id, n)) == Biphase.Shapes(Repeat(CyclicDifferences(id), n))
  {
    FrameEnds(id);
    ManchesterFieldIsPulses(id, n);
    ShapesOfManchester(false, Repeat(Frame(id), n));
    DifferencesRepeat(false, Frame(id), n);
  }

  /** The frame of `u` is the rotation by `r` bits of a word of 64 bits. */
  predicate Rotates(word: seq<bool>, r: nat, u: Identity) {
    r < FRAME == |word| && Turned(word, r) == Frame(u)
  }

  /** What stands in a repeated word of 64 bits is one of its rotations. */
  lemma StandsIsRotation(word: seq<bool>, n: nat, u: Identity)
    requires |word| == FRAME && Stands(Repeat(word, n), u)
    ensures exists r :: Rotates(word, r, u)
  {
    var q: nat :| FrameAt(Repeat(word, n), q, u);
    StretchIsTurned(word, n, q);
    assert Rotates(word, q % FRAME, u);
  }

  /** The pulses of the repeated word are a stretch of those of the repeated frame. */
  lemma ShapesInside(word: seq<bool>, r: nat, u: Identity, n: nat)
    requires Rotates(word, r, u)
    ensures Biphase.Shapes(word[r..]) + Biphase.Shapes(Repeat(word, n)) + Biphase.Shapes(word[..r]) ==
            Repeat(BiphaseTrain(u), n + 1)
  {
    var x, y := word[..r], word[r..];
    TurnedRepeat(word, r, n);
    ShapesRepeat(Frame(u), n + 1);
    Biphase.ShapesConcat(y + Repeat(word, n), x);
    Biphase.ShapesConcat(y, Repeat(word, n));
  }

  /** Pulses by which a stretch of the repeated word is later in the repeated frame. */
  function BiphaseAhead(word: seq<bool>, r: nat): nat
    requires r <= |word|
  {
    |Biphase.Shapes(word[r..])|
  }

  /** A list that agrees with a stretch of a repeated train follows that train. */
  lemma InsideFollows<E>(es: seq<E>, ahead: seq<E>, all: seq<E>, behind: seq<E>, train: seq<E>, n: nat, first: nat, last: nat)
    requires |train| > 0 && ahead + all + behind == Repeat(train, n) && first + |es| == last <= |all|
    requires forall i :: 1 <= i < |es| ==> es[i] == all[first + i]
    ensures FollowsTo(es, train, first + |ahead|, last + |ahead|)
  {
    var s, repeated := |ahead|, Repeat(train, n);
    forall i | 1 <= i < |es| ensures es[i] == repeated[first + s + i] {
      InsideAt(ahead, all, behind, first + i);
    }
    AgreesFollows(es, train, n, first + s, last + s);
  }

  lemma InsideAt<T>(a: seq<T>, b: seq<T>, c: seq<T>, k: nat)
    requires k < |b|
    ensures |a + b + c| == |a| + |b| + |c| && (a + b + c)[k + |a|] == b[k]
  {
  }

  lemma ShapesAgree(d: nat, ps: seq<Event>, shapes: seq<bool>, first: nat, last: nat, samples: seq<Sample>)
    requires IsDivider(d) && AllPulses(ps) && CleanPulses(d, ps, first, last, samples) && Biphase.ShapesOf(ps) == shapes
    ensures var es := Biphase.ShapesOf(Lock.Classified(d, samples));
            first + |es| == last <= |shapes| && forall i :: 1 <= i < |es| ==> es[i] == shapes[first + i]
  {
    var es := Biphase.ShapesOf(Lock.Classified(d, samples));
    forall i | 1 <= i < |es| ensures es[i] == shapes[first + i] {
      assert shapes[first + i] == ps[first + i].isLong;
    }
  }

  lemma ShapesEcho(es: seq<bool>, word: seq<bool>, n: nat, r: nat, u: Identity, first: nat, last: nat)
    requires Rotates(word, r, u) && first + |es| == last <= |Biphase.Shapes(Repeat(word, n))|
    requires forall i :: 1 <= i < |es| ==> es[i] == Biphase.Shapes(Repeat(word, n))[first + i]
    ensures var s := BiphaseAhead(word, r); |BiphaseTrain(u)| > 0 && FollowsTo(es, BiphaseTrain(u), first + s, last + s)
  {
    var p := BiphasePulses(u);
    ShapesInside(word, r, u, n);
    InsideFollows(es, Biphase.Shapes(word[r..]), Biphase.Shapes(Repeat(word, n)), Biphase.Shapes(word[..r]), BiphaseTrain(u),
                  n + 1, first, last);
  }

  lemma BiphaseEchoFollows(d: nat, ps: seq<Event>, word: seq<bool>, n: nat, r: nat, u: Identity, first: nat, last: nat,
                           samples: seq<Sample>)
    requires IsDivider(d) && AllPulses(ps) && CleanPulses(d, ps, first, last, samples)
    requires Biphase.ShapesOf(ps) == Biphase.Shapes(Repeat(word, n)) && Rotates(word, r, u)
    ensures var s := BiphaseAhead(word, r);
            && |BiphaseTrain(u)| > 0
            && FollowsTo(Biphase.ShapesOf(Lock.Classified(d, samples)), BiphaseTrain(u), first + s, last + s)
  {
    ShapesAgree(d, ps, Biphase.Shapes(Repeat(word, n)), first, last, samples);
    ShapesEcho(Biphase.ShapesOf(Lock.Classified(d, samples)), word, n, r, u, first, last);
  }

  /** If the frame of `u` is a rotation of the word, the biphase chain reads it as if `u` were on the field. */
  lemma BiphaseEcho(d: nat, ps: seq<Event>, word: seq<bool>, n: nat, r: nat, u: Identity, first: nat, last: nat,
                    samples: seq<Sample>)
    requires IsDivider(d) && AllPulses(ps) && CleanPulses(d, ps, first, last, samples)
    requires Biphase.ShapesOf(ps) == Biphase.Shapes(Repeat(word, n)) && Rotates(word, r, u)
    ensures var s := BiphaseAhead(word, r); BiphaseOutcome(u, first + s, last + s, samples, BiphaseIds(samples))
  {
    var s := BiphaseAhead(word, r);
    BiphaseEchoFollows(d, ps, word, n, r, u, first, last, samples);
    BiphaseFollowed(d, u, first + s, last + s, samples);
  }

  // ---- A biphase field in the Manchester chain ----

  function ManchesterAhead(word: seq<bool>, r: nat): nat
    requires r <= |word|
  {
    |Manchester.Pulses(false, word[r..])|
  }

  /** A word that ends at the level before it can be repeated. */
  lemma PulsesInside(prev: bool, word: seq<bool>, r: nat, u: Identity, n: nat)
    requires Rotates(word, r, u) && word[FRAME - 1] == prev
    ensures Manchester.Pulses(false, word[r..]) + Manchester.Pulses(prev, Repeat(word, n)) + Manchester.Pulses(prev, word[..r]) ==
            ManchesterField(u, n + 1)
  {
    var x, y := word[..r], word[r..];
    TurnedRepeat(word, r, n);
    ManchesterFieldIsPulses(u, n + 1);
    LastOfRepeat(prev, word, n);
    assert y[|y| - 1] == prev;
    PulsesInThree(y, Repeat(word, n), x, prev);
  }

  lemma PulsesInThree(y: seq<bool>, bits: seq<bool>, x: seq<bool>, prev: bool)
    requires |y| > 0 && y[|y| - 1] == prev && Manchester.Last(prev, bits) == prev
    ensures Manchester.Pulses(false, y + bits + x) ==
            Manchester.Pulses(false, y) + Manchester.Pulses(prev, bits) + Manchester.Pulses(prev, x)
  {
    Manchester.PulsesConcat(false, y, bits);
    Manchester.PulsesConcat(false, y + bits, x);
    LastOfConcat(y, bits, prev);
  }

  lemma LastOfConcat(y: seq<bool>, bits: seq<bool>, prev: bool)
    requires |y| > 0 && y[|y| - 1] == prev && Manchester.Last(prev, bits) == prev
    ensures Manchester.Last(false, y + bits) == prev
  {
  }

  lemma ManchesterEchoFollows(d: nat, prev: bool, word: seq<bool>, n: nat, r: nat, u: Identity, first: nat, last: nat,
                              samples: seq<Sample>)
    requires IsDivider(d) && CleanPulses(d, Manchester.Pulses(prev, Repeat(word, n)), first, last, samples)
    requires Rotates(word, r, u) && word[FRAME - 1] == prev
    ensures var s := ManchesterAhead(word, r);
            |ManchesterTrain(u)| > 0 && FollowsTo(Lock.Classified(d, samples), ManchesterTrain(u), first + s, last + s)
  {
    var p := ManchesterPulses(u);
    PulsesInside(prev, word, r, u, n);
    InsideFollows(Lock.Classified(d, samples), Manchester.Pulses(false, word[r..]),
                  Manchester.Pulses(prev, Repeat(word, n)), Manchester.Pulses(prev, word[..r]), ManchesterTrain(u),
                  n + 1, first, last);
  }

  /** Likewise for the Manchester chain, if the word ends at the level before it. */
  lemma ManchesterEcho(d: nat, prev: bool, word: seq<bool>, n: nat, r: nat, u: Identity, first: nat, last: nat,
                       samples: seq<Sample>)
    requires IsDivider(d) && CleanPulses(d, Manchester.Pulses(prev, Repeat(word, n)), first, last, samples)
    requires Rotates(word, r, u) && word[FRAME - 1] == prev
    ensures var s := ManchesterAhead(word, r); ManchesterOutcome(u, first + s, last + s, samples, ManchesterIds(samples))
  {
    var s := ManchesterAhead(word, r);
    ManchesterEchoFollows(d, prev, word, n, r, u, first, last, samples);
    ManchesterFollowed(d, u, first + s, last + s, samples);
  }

  // ---- What the other list is ----

  /** The biphase list on a field read as the repeated word: an identity whose frame is a rotation of the word is
      reported as if it were on the field, and no other is. */
  ghost predicate BiphaseEchoes(word: seq<bool>, first: nat, last: nat, samples: seq<Sample>, ids: seq<Identity>) {
    && (forall u, r :: Rotates(word, r, u) ==>
          BiphaseOutcome(u, first + BiphaseAhead(word, r), last + BiphaseAhead(word, r), samples, ids))
    && (forall u :: u in ids ==> exists r :: Rotates(word, r, u))
  }

  ghost predicate ManchesterEchoes(word: seq<bool>, first: nat, last: nat, samples: seq<Sample>, ids: seq<Identity>) {
    && (forall u, r :: Rotates(word, r, u) ==>
          ManchesterOutcome(u, first + ManchesterAhead(word, r), last + ManchesterAhead(word, r), samples, ids))
    && (forall u :: u in ids ==> exists r :: Rotates(word, r, u))
  }

  lemma AllBiphaseEchoes(d: nat, ps: seq<Event>, word: seq<bool>, n: nat, first: nat, last: nat, samples: seq<Sample>)
    requires IsDivider(d) && AllPulses(ps) && CleanPulses(d, ps, first, last, samples)
    requires Biphase.ShapesOf(ps) == Biphase.Shapes(Repeat(word, n))
    ensures forall u, r :: Rotates(word, r, u) ==>
              BiphaseOutcome(u, first + BiphaseAhead(word, r), last + BiphaseAhead(word, r), samples, BiphaseIds(samples))
  {
    forall u, r | Rotates(word, r, u)
      ensures BiphaseOutcome(u, first + BiphaseAhead(word, r), last + BiphaseAhead(word, r), samples, BiphaseIds(samples))
    {
      BiphaseEcho(d, ps, word, n, r, u, first, last, samples);
    }
  }

  lemma OnlyBiphaseEchoes(d: nat, ps: seq<Event>, word: seq<bool>, n: nat, first: nat, last: nat, samples: seq<Sample>)
    requires IsDivider(d) && AllPulses(ps) && CleanPulses(d, ps, first, last, samples) && |word| == FRAME
    requires Biphase.ShapesOf(ps) == Biphase.Shapes(Repeat(word, n))
    ensures forall u :: u in BiphaseIds(samples) ==> exists r :: Rotates(word, r, u)
  {
    BiphaseNamesStanding(d, ps, Repeat(word, n), first, last, samples);
    forall u | u in BiphaseIds(samples) ensures exists r :: Rotates(word, r, u) { StandsIsRotation(word, n, u); }
  }

  /** A Manchester field in the biphase chain: the word is that of the cyclic differences of the frame. */
  lemma ManchesterFieldInBiphaseChain(d: nat, id: Identity, n: nat, first: nat, last: nat, samples: seq<Sample>)
    requires IsDivider(d) && CleanPulses(d, ManchesterField(id, n), first, last, samples)
    ensures BiphaseEchoes(CyclicDifferences(id), first, last, samples, BiphaseIds(samples))
  {
    ManchesterFieldShapes(id, n);
    AllBiphaseEchoes(d, ManchesterField(id, n), CyclicDifferences(id), n, first, last, samples);
    OnlyBiphaseEchoes(d, ManchesterField(id, n), CyclicDifferences(id), n, first, last, samples);
  }

  /** The bits a Manchester decoder makes of a biphase field of `n` frames whose first pulse is not at level `prev`. */
  function Accumulated(prev: bool, id: Identity, n: nat): seq<bool> { RunningXor(prev, Repeat(Frame(id), n)) }

  lemma BiphaseFieldPulses(id: Identity, n: nat, ps: seq<Event>, prev: bool)
    requires BiphaseField(id, n, ps) && (|ps| > 0 ==> ps[0].isHigh == !prev)
    ensures ps == Manchester.Pulses(prev, Accumulated(prev, id, n))
  {
    ShapesRepeat(Frame(id), n);
    BiphaseIsManchester(prev, Repeat(Frame(id), n), ps);
  }

  /** Whether an odd number of bits is set. */
  function Odd(bits: seq<bool>): bool {
    if |bits| == 0 then false else bits[0] != Odd(bits[1..])
  }

  lemma {:induction false} OddConcat(a: seq<bool>, b: seq<bool>)
    ensures Odd(a + b) == (Odd(a) != Odd(b))
  {
    if |a| == 0 {
      assert a + b == b;
    } else {
      OddConcat(a[1..], b);
      TailConcat(a, b);
    }
  }

  lemma {:induction false} RunningXorEnds(prev: bool, bits: seq<bool>)
    ensures Manchester.Last(prev, RunningXor(prev, bits)) == (prev != Odd(bits))
    decreases |bits|
  {
    if |bits| > 0 {
      var x := bits[0] != prev;
      RunningXorEnds(x, bits[1..]);
      Manchester.LastOfTail(prev, RunningXor(prev, bits));
      assert RunningXor(prev, bits)[1..] == RunningXor(x, bits[1..]);
    }
  }

  lemma OddFive(w: seq<bool>)
    requires |w| == 5
    ensures Odd(w) == (w[4] != Xor(Xor(w[0], w[1]), Xor(w[2], w[3])))
  {
    assert w[1..][1..] == w[2..] && w[2..][1..] == w[3..] && w[3..][1..] == w[4..] && w[4..][1..] == [];
    assert Odd(w[4..]) == w[4];
    assert Odd(w[3..]) == (w[3] != w[4]);
    assert Odd(w[2..]) == (w[2] != (w[3] != w[4]));
  }

  lemma {:induction false} OddRows(ns: seq<Nibble>)
    ensures !Odd(Rows(ns))
  {
    if |ns| > 0 {
      OddRows(ns[..|ns| - 1]);
      OddConcat(Rows(ns[..|ns| - 1]), RowBits(ns[|ns| - 1]));
      OddFive(RowBits(ns[|ns| - 1]));
    }
  }

  lemma {:induction false} OddOnes(n: nat)
    ensures Odd(Ones(n)) == (n % 2 == 1)
  {
    if n > 0 {
      OddOnes(n - 1);
      assert Ones(n)[1..] == Ones(n - 1);
    }
  }

  /** A frame has an even number of ones exactly if its column parities have an odd one. */
  lemma OddFrame(id: Identity)
    ensures Odd(Frame(id)) == !Parity(Columns(id))
  {
    OddOnes(PREAMBLE);
    OddRows(id);
    OddFive(Trailer(id));
    OddConcat(Ones(PREAMBLE), Rows(id));
    OddConcat(Ones(PREAMBLE) + Rows(id), Trailer(id));
  }

  /** Then what a Manchester decoder makes of it repeats, too. */
  lemma AccumulatedRepeats(prev: bool, id: Identity, n: nat)
    requires Parity(Columns(id))
    ensures var word := RunningXor(prev, Frame(id));
            |word| == FRAME && word[FRAME - 1] == prev && Accumulated(prev, id, n) == Repeat(word, n)
  {
    OddFrame(id);
    RunningXorEnds(prev, Frame(id));
    RunningXorRepeat(prev, Frame(id), n);
  }

  /** A biphase field in the Manchester chain: a fresh EM4100 decoder is given a stretch of the accumulated bits, so only
      what stands there is named, ... */
  lemma BiphaseFieldInManchesterChain(d: nat, id: Identity, n: nat, ps: seq<Event>, prev: bool, first: nat, last: nat,
                                      samples: seq<Sample>)
    requires IsDivider(d) && BiphaseField(id, n, ps) && CleanPulses(d, ps, first, last, samples)
    requires |ps| > 0 ==> ps[0].isHigh == !prev
    ensures var bits := Accumulated(prev, id, n);
            && (exists j, k :: 0 <= j <= k <= |bits| && ManchesterIds(samples) == Em4100.Run(Em4100.START, bits[j..k]).out)
            && (forall u :: u in ManchesterIds(samples) ==> Stands(bits, u))
  {
    BiphaseFieldPulses(id, n, ps, prev);
    ManchesterNamesStanding(d, ps, prev, Accumulated(prev, id, n), first, last, samples);
  }

  lemma AllManchesterEchoes(d: nat, prev: bool, word: seq<bool>, n: nat, first: nat, last: nat, samples: seq<Sample>)
    requires IsDivider(d) && CleanPulses(d, Manchester.Pulses(prev, Repeat(word, n)), first, last, samples)
    requires |word| == FRAME && word[FRAME - 1] == prev
    ensures forall u, r :: Rotates(word, r, u) ==>
              ManchesterOutcome(u, first + ManchesterAhead(word, r), last + ManchesterAhead(word, r), samples,
                                ManchesterIds(samples))
  {
    forall u, r | Rotates(word, r, u)
      ensures ManchesterOutcome(u, first + ManchesterAhead(word, r), last + ManchesterAhead(word, r), samples,
                                ManchesterIds(samples))
    {
      ManchesterEcho(d, prev, word, n, r, u, first, last, samples);
    }
  }

  lemma OnlyManchesterEchoes(d: nat, prev: bool, word: seq<bool>, n: nat, first: nat, last: nat, samples: seq<Sample>)
    requires IsDivider(d) && CleanPulses(d, Manchester.Pulses(prev, Repeat(word, n)), first, last, samples) && |word| == FRAME
    ensures forall u :: u in ManchesterIds(samples) ==> exists r :: Rotates(word, r, u)
  {
    ManchesterNamesStanding(d, Manchester.Pulses(prev, Repeat(word, n)), prev, Repeat(word, n), first, last, samples);
    forall u | u in ManchesterIds(samples) ensures exists r :: Rotates(word, r, u) { StandsIsRotation(word, n, u); }
  }

  lemma ManchesterEchoesOf(d: nat, ps: seq<Event>, prev: bool, word: seq<bool>, n: nat, first: nat, last: nat,
                           samples: seq<Sample>)
    requires IsDivider(d) && CleanPulses(d, ps, first, last, samples) && ps == Manchester.Pulses(prev, Repeat(word, n))
    requires |word| == FRAME && word[FRAME - 1] == prev
    ensures ManchesterEchoes(word, first, last, samples, ManchesterIds(samples))
  {
    AllManchesterEchoes(d, prev, word, n, first, last, samples);
    OnlyManchesterEchoes(d, prev, word, n, first, last, samples);
  }

  lemma EvenFieldPulses(id: Identity, n: nat, ps: seq<Event>, prev: bool)
    requires BiphaseField(id, n, ps) && (|ps| > 0 ==> ps[0].isHigh == !prev) && Parity(Columns(id))
    ensures var word := RunningXor(prev, Frame(id));
            word[FRAME - 1] == prev && ps == Manchester.Pulses(prev, Repeat(word, n))
  {
    AccumulatedRepeats(prev, id, n);
    BiphaseFieldPulses(id, n, ps, prev);
  }

  /** ... and if the frame has an even number of ones, exactly the rotations of the running exclusive or are. */
  lemma EvenFieldInManchesterChain(d: nat, id: Identity, n: nat, ps: seq<Event>, prev: bool, first: nat, last: nat,
                                   samples: seq<Sample>)
    requires IsDivider(d) && BiphaseField(id, n, ps) && CleanPulses(d, ps, first, last, samples)
    requires (|ps| > 0 ==> ps[0].isHigh == !prev) && Parity(Columns(id))
    ensures ManchesterEchoes(RunningXor(prev, Frame(id)), first, last, samples, ManchesterIds(samples))
  {
    EvenFieldPulses(id, n, ps, prev);
    ManchesterEchoesOf(d, ps, prev, RunningXor(prev, Frame(id)), n, first, last, samples);
  }
}
