/** Streaming state machines: a step consumes one input and emits some outputs.
    Every decoder of the read pipeline and both ends of the USB line are machines of this kind. */
module Machines {

  datatype Result<+S, +O> = Result(state: S, out: seq<O>)

  /** Feeds `inputs` one by one, starting in state `s`; the outputs are concatenated. */
  function Fold<S, I, O>(step: (S, I) -> Result<S, O>, s: S, inputs: seq<I>): Result<S, O> {
    if |inputs| == 0 then Result(s, [])
    else
      var before := Fold(step, s, inputs[..|inputs| - 1]);
      var last := step(before.state, inputs[|inputs| - 1]);
      Result(last.state, before.out + last.out)
  }

  /** What a machine does when another one has run first. */
  function Then<S, O>(first: Result<S, O>, second: Result<S, O>): Result<S, O> {
    Result(second.state, first.out + second.out)
  }

  /** A run over `a + b` is a run over `a` followed by a run over `b` from the state reached. */
  lemma {:induction false} FoldConcat<S, I, O>(step: (S, I) -> Result<S, O>, s: S, a: seq<I>, b: seq<I>)
    ensures Fold(step, s, a + b) == Then(Fold(step, s, a), Fold(step, Fold(step, s, a).state, b))
  {
    if |b| == 0 {
      assert a + b == a;
    } else {
      var c := b[..|b| - 1];
      FoldConcat(step, s, a, c);
      assert (a + b)[..|a + b| - 1] == a + c;
      assert (a + b)[|a + b| - 1] == b[|b| - 1];
    }
  }

  /** The first input of a run, unfolded. */
  lemma FoldCons<S, I, O>(step: (S, I) -> Result<S, O>, s: S, inputs: seq<I>)
    requires |inputs| > 0
    ensures Fold(step, s, inputs) == Then(step(s, inputs[0]), Fold(step, step(s, inputs[0]).state, inputs[1..]))
  {
    FoldOne(step, s, inputs[0]);
    FoldConcat(step, s, inputs[..1], inputs[1..]);
    assert inputs[..1] + inputs[1..] == inputs;
  }

  /** The last input of a run, unfolded. */
  lemma FoldSnoc<S, I, O>(step: (S, I) -> Result<S, O>, s: S, xs: seq<I>, x: I)
    ensures Fold(step, s, xs + [x]) == Then(Fold(step, s, xs), step(Fold(step, s, xs).state, x))
  {
    assert (xs + [x])[..|xs|] == xs;
  }

  /** One more input of a longer sequence. */
  lemma FoldNext<S, I, O>(step: (S, I) -> Result<S, O>, s: S, xs: seq<I>, k: nat)
    requires k < |xs|
    ensures xs[..k + 1] == xs[..k] + [xs[k]]
    ensures Fold(step, s, xs[..k + 1]) == Then(Fold(step, s, xs[..k]), step(Fold(step, s, xs[..k]).state, xs[k]))
  {
    assert xs[..k + 1][..k] == xs[..k];
  }

  /** A run over a single input is one step. */
  lemma FoldOne<S, I, O>(step: (S, I) -> Result<S, O>, s: S, x: I)
    ensures Fold(step, s, [x]) == step(s, x)
  {
    assert [x][..0] == [];
    assert Fold(step, s, [x][..0]) == Result(s, []);
  }

  // ---- Two machines in a row: the second one reads the outputs of the first ----

  datatype Pipe<S, T, O> = Pipe(first: S, second: T, out: seq<O>)

  /** One input of the first machine, and what the second makes of its outputs. */
  function PipeOne<S, I, M, T, O>(first: (S, I) -> Result<S, M>, second: (T, M) -> Result<T, O>,
                                  p: Pipe<S, T, O>, x: I): Pipe<S, T, O> {
    var a := first(p.first, x);
    var b := Fold(second, p.second, a.out);
    Pipe(a.state, b.state, p.out + b.out)
  }

  function PipeAll<S, I, M, T, O>(first: (S, I) -> Result<S, M>, second: (T, M) -> Result<T, O>,
                                  p: Pipe<S, T, O>, xs: seq<I>): Pipe<S, T, O> {
    if |xs| == 0 then p else PipeOne(first, second, PipeAll(first, second, p, xs[..|xs| - 1]), xs[|xs| - 1])
  }

  lemma {:induction false} PipeConcat<S, I, M, T, O>(
    first: (S, I) -> Result<S, M>, second: (T, M) -> Result<T, O>, p: Pipe<S, T, O>, xs: seq<I>, ys: seq<I>)
    ensures PipeAll(first, second, p, xs + ys) == PipeAll(first, second, PipeAll(first, second, p, xs), ys)
  {
    if |ys| == 0 {
      assert xs + ys == xs;
    } else {
      PipeConcat(first, second, p, xs, ys[..|ys| - 1]);
      assert (xs + ys)[..|xs + ys| - 1] == xs + ys[..|ys| - 1];
    }
  }

  lemma PipeSingle<S, I, M, T, O>(
    first: (S, I) -> Result<S, M>, second: (T, M) -> Result<T, O>, p: Pipe<S, T, O>, x: I)
    ensures PipeAll(first, second, p, [x]) == PipeOne(first, second, p, x)
  {
    assert [x][..0] == [];
    assert PipeAll(first, second, p, [x][..0]) == p;
  }

  /** Running the machines in lockstep is running one after the other. */
  lemma {:induction false} PipeIsFolds<S, I, M, T, O>(
    first: (S, I) -> Result<S, M>, second: (T, M) -> Result<T, O>, p: Pipe<S, T, O>, xs: seq<I>)
    ensures var a := Fold(first, p.first, xs);
            var b := Fold(second, p.second, a.out);
            PipeAll(first, second, p, xs) == Pipe(a.state, b.state, p.out + b.out)
  {
    if |xs| > 0 {
      var ys, x := xs[..|xs| - 1], xs[|xs| - 1];
      PipeIsFolds(first, second, p, ys);
      var a := Fold(first, p.first, ys);
      FoldConcat(second, p.second, a.out, first(a.state, x).out);
    }
  }

  /** Inputs that leave the first machine silent and in its initial state do not count. */
  lemma PipeSkips<S, I, M, T, O>(
    first: (S, I) -> Result<S, M>, second: (T, M) -> Result<T, O>, s: S, t: T, pre: seq<I>, xs: seq<I>)
    requires Fold(first, s, pre) == Result(s, [])
    ensures PipeAll(first, second, Pipe(s, t, []), pre + xs).out == Fold(second, t, Fold(first, s, xs).out).out
  {
    PipeIsFolds(first, second, Pipe(s, t, []), pre + xs);
    FoldConcat(first, s, pre, xs);
    var r := Fold(first, s, xs);
    assert Then(Result(s, []), r) == r;
    var out := Fold(second, t, r.out).out;
    assert [] + out == out;
  }
}
