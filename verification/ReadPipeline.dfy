/** The whole read path: a repeating EM4100 frame, seen as pulses from an arbitrary point on. */
module ReadPipeline {
  import opened Machines
  import opened Sequences
  import opened Em4100Frame
  import Em4100 = Em4100Machine
  import Distance = Em4100Distance

  /** The identities reported for a pulse train by a coding decoder in state `s` feeding a fresh EM4100 decoder. */
  function Reported<S, E>(step: (S, E) -> Result<S, bool>, s: S, es: seq<E>): seq<Identity> {
    Em4100.Run(Em4100.START, Fold(step, s, es).out).out
  }

  /** From state `s` the pulses `train` of one frame are read as its 64 bits, the last of them only with the last pulse. */
  predicate InStep<S(==), E>(step: (S, E) -> Result<S, bool>, reset: S, s: S, train: seq<E>, id: Identity) {
    && |train| > 0
    && Fold(step, s, train) == Result(reset, Frame(id))
    && |Fold(step, s, train[..|train| - 1]).out| < FRAME
  }

  /** The first `j` pulses of a frame. */
  lemma UnfinishedFrame<S, E>(step: (S, E) -> Result<S, bool>, reset: S, s: S, train: seq<E>, id: Identity, j: nat)
    requires InStep(step, reset, s, train, id) && j < |train|
    ensures Reported(step, s, train[..j]) == []
  {
    var most := train[..|train| - 1];
    assert most == train[..j] + most[j..];
    FoldConcat(step, s, train[..j], most[j..]);
    Distance.ReportNeedsFrame(Fold(step, s, train[..j]).out);
  }

  /** A run that reports nothing has reported nothing at any earlier point. */
  lemma SilentPrefix<S, E>(step: (S, E) -> Result<S, bool>, s: S, es: seq<E>, fs: seq<E>)
    requires Reported(step, s, es + fs) == []
    ensures Reported(step, s, es) == []
  {
    FoldConcat(step, s, es, fs);
    var r := Fold(step, s, es);
    FoldConcat(Em4100.Step, Em4100.START, r.out, Fold(step, r.state, fs).out);
  }

  /** What is reported after a part that left the EM4100 decoder as new. */
  lemma ReportedAfter<S, E>(step: (S, E) -> Result<S, bool>, s: S, head: seq<E>, rest: seq<E>, ids: seq<Identity>)
    requires Em4100.Run(Em4100.START, Fold(step, s, head).out) == Result(Em4100.START, ids)
    ensures Reported(step, s, head + rest) == ids + Reported(step, Fold(step, s, head).state, rest)
  {
    FoldConcat(step, s, head, rest);
    var r := Fold(step, s, head);
    FoldConcat(Em4100.Step, Em4100.START, r.out, Fold(step, r.state, rest).out);
  }

  /** Joined at a frame start: every whole frame is reported once. */
  lemma {:induction false} FromFrameStart<S, E>(
    step: (S, E) -> Result<S, bool>, reset: S, s: S, train: seq<E>, id: Identity, m: nat, j: nat)
    requires InStep(step, reset, s, train, id) && InStep(step, reset, reset, train, id) && j < |train|
    ensures Reported(step, s, Repeat(train, m) + train[..j]) == Replicate(id, m)
    decreases m
  {
    if m == 0 {
      UnfinishedFrame(step, reset, s, train, id, j);
      assert Repeat(train, 0) + train[..j] == train[..j];
    } else {
      RepeatCons(train, m);
      Assoc(train, Repeat(train, m - 1), train[..j]);
      Em4100.Completeness(id);
      ReportedAfter(step, s, train, Repeat(train, m - 1) + train[..j], [id]);
      FromFrameStart(step, reset, reset, train, id, m - 1, j);
      assert [id] + Replicate(id, m - 1) == Replicate(id, m);
    }
  }

  /** The pulses of `m` frames and `j` more, joined `a` pulses in. */
  function Joined<E>(train: seq<E>, m: nat, j: nat, a: nat): seq<E>
    requires j <= |train| && a <= m * |train| + j
  {
    (Repeat(train, m) + train[..j])[a..]
  }

  /** Number of frames that lie wholly behind the point of joining. */
  function WholeFrames(p: nat, m: nat, a: nat): nat
    requires p > 0
  {
    var started := (a + p - 1) / p;
    if started <= m then m - started else 0
  }

  /** The joined frame leaves the EM4100 decoder as new and the coding decoder ready for the next frame. */
  predicate Absorbed<S(==), E>(step: (S, E) -> Result<S, bool>, reset: S, train: seq<E>, id: Identity, r: nat)
    requires r <= |train|
  {
    var head := Fold(step, reset, train[r..]);
    && Em4100.Run(Em4100.START, head.out) == Result(Em4100.START, [])
    && InStep(step, reset, head.state, train, id)
  }

  lemma StartedFrames(p: nat, a: nat)
    requires p > 0
    ensures a % p == 0 ==> (a + p - 1) / p == a / p
    ensures a % p != 0 ==> (a + p - 1) / p == a / p + 1
  {
    var q, r := a / p, a % p;
    assert a == q * p + r;
    if r == 0 {
      DivUnique(a + p - 1, p, q, p - 1);
    } else {
      assert a + p - 1 == (q + 1) * p + (r - 1);
      DivUnique(a + p - 1, p, q + 1, r - 1);
    }
  }

  lemma JoinedAtStart<S, E>(step: (S, E) -> Result<S, bool>, reset: S, train: seq<E>, id: Identity, m: nat, j: nat, a: nat)
    requires InStep(step, reset, reset, train, id)
    requires j < |train| && a < m * |train| && a % |train| == 0
    ensures a / |train| <= m
    ensures Reported(step, reset, Joined(train, m, j, a)) == Replicate(id, m - a / |train|)
  {
    RepeatDrop(train, m, a);
    var left := m - a / |train|;
    RepeatCons(train, left);
    assert train[0..] == train;
    DropConcat(Repeat(train, m), train[..j], [], a);
    EmptyRight(Joined(train, m, j, a));
    EmptyRight(train[..j]);
    FromFrameStart(step, reset, reset, train, id, left, j);
  }

  lemma JoinedInside<S, E>(step: (S, E) -> Result<S, bool>, reset: S, train: seq<E>, id: Identity, m: nat, j: nat, a: nat)
    requires InStep(step, reset, reset, train, id)
    requires j < |train| && a < m * |train|
    requires Absorbed(step, reset, train, id, a % |train|)
    ensures a / |train| < m
    ensures Reported(step, reset, Joined(train, m, j, a)) == Replicate(id, m - 1 - a / |train|)
  {
    RepeatDrop(train, m, a);
    var left, head := m - 1 - a / |train|, train[a % |train|..];
    DropConcat(Repeat(train, m), train[..j], [], a);
    EmptyRight(Joined(train, m, j, a));
    EmptyRight(train[..j]);
    Assoc(head, Repeat(train, left), train[..j]);
    ReportedAfter(step, reset, head, Repeat(train, left) + train[..j], []);
    FromFrameStart(step, reset, Fold(step, reset, head).state, train, id, left, j);
  }

  /** The general statement: if the joined frame is absorbed, exactly the whole frames behind it are reported. */
  lemma JoinedStream<S, E>(step: (S, E) -> Result<S, bool>, reset: S, train: seq<E>, id: Identity, m: nat, j: nat, a: nat)
    requires InStep(step, reset, reset, train, id)
    requires j < |train| && a <= m * |train| + j
    requires a % |train| != 0 ==> Absorbed(step, reset, train, id, a % |train|)
    ensures Reported(step, reset, Joined(train, m, j, a)) == Replicate(id, WholeFrames(|train|, m, a))
  {
    StartedFrames(|train|, a);
    if a >= m * |train| {
      LastFrame(step, reset, train, id, m, j, a);
    } else if a % |train| == 0 {
      JoinedAtStart(step, reset, train, id, m, j, a);
    } else {
      JoinedInside(step, reset, train, id, m, j, a);
    }
  }

  lemma LastFrame<S, E>(step: (S, E) -> Result<S, bool>, reset: S, train: seq<E>, id: Identity, m: nat, j: nat, a: nat)
    requires InStep(step, reset, reset, train, id)
    requires j < |train| && m * |train| <= a <= m * |train| + j
    requires a % |train| != 0 ==> Absorbed(step, reset, train, id, a % |train|)
    ensures Reported(step, reset, Joined(train, m, j, a)) == []
    ensures WholeFrames(|train|, m, a) == 0
  {
    var p := |train|;
    var r := a - m * p;
    DivUnique(a, p, m, r);
    StartedFrames(p, a);
    assert Joined(train, m, j, a) == train[r..j];
    if r == 0 {
      UnfinishedFrame(step, reset, reset, train, id, j);
      assert train[0..j] == train[..j];
    } else {
      SliceInTwo(train, r, j);
      SilentPrefix(step, reset, train[r..j], train[j..]);
    }
  }

  /** A pulse of the stream. */
  lemma JoinedAt<T>(part: seq<T>, m: nat, j: nat, k: nat)
    requires j < |part| && k < m * |part| + j
    ensures (Repeat(part, m) + part[..j])[k] == part[k % |part|]
  {
    if k < m * |part| {
      RepeatAt(part, m, k);
    } else {
      DivUnique(k, |part|, m, k - m * |part|);
    }
  }

  /** A list that continues the pulses of `m` frames and `j` more from pulse `start` on, whatever its first element is:
      a capture begins in the middle of a pulse. */
  predicate Follows<E(==)>(es: seq<E>, train: seq<E>, m: nat, j: nat, start: nat)
    requires j <= |train|
  {
    && start + |es| == m * |train| + j
    && forall i :: 1 <= i < |es| ==> es[i] == (Repeat(train, m) + train[..j])[start + i]
  }

  /** Behind its first element it is the pulse train. */
  lemma FollowsLater<E>(es: seq<E>, train: seq<E>, m: nat, j: nat, start: nat, k: nat)
    requires j <= |train| && Follows(es, train, m, j, start) && k <= |es| && (k == 0 ==> es == [])
    ensures start + k <= m * |train| + j && es[k..] == Joined(train, m, j, start + k)
  {
  }

  lemma DivMod(a: nat, p: nat)
    requires p > 0
    ensures a == (a / p) * p + a % p && a % p < p
  {
  }

  /** The same with the stream given by where it ends. */
  predicate FollowsTo<E(==)>(es: seq<E>, train: seq<E>, first: nat, last: nat)
    requires |train| > 0
  {
    Follows(es, train, last / |train|, last % |train|, first)
  }

  /** A list that agrees with a repeated train from its second element on follows it. */
  lemma AgreesFollows<E>(es: seq<E>, train: seq<E>, n: nat, first: nat, last: nat)
    requires |train| > 0 && first + |es| == last <= n * |train|
    requires forall i :: 1 <= i < |es| ==> es[i] == Repeat(train, n)[first + i]
    ensures FollowsTo(es, train, first, last)
  {
    var m, j := last / |train|, last % |train|;
    DivMod(last, |train|);
    forall i | 1 <= i < |es| ensures es[i] == (Repeat(train, m) + train[..j])[first + i] {
      RepeatAt(train, n, first + i);
      JoinedAt(train, m, j, first + i);
    }
  }
}
