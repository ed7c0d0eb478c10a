/** Biphase code, in which a one is a long pulse and a zero is two short ones, whatever their levels. */
module BiphaseMachine {
  import opened Machines
  import opened Sequences
  import opened CarrierEvents

  // ---- The code: `true` stands for a long pulse ----

  function Hop(bit: bool): seq<bool> {
    if bit then [true] else [false, false]
  }

  function Shapes(bits: seq<bool>): seq<bool> {
    if |bits| == 0 then [] else Hop(bits[0]) + Shapes(bits[1..])
  }

  lemma {:induction false} ShapesConcat(a: seq<bool>, b: seq<bool>)
    ensures Shapes(a + b) == Shapes(a) + Shapes(b)
  {
    if |a| == 0 {
      assert a + b == b;
    } else {
      ShapesConcat(a[1..], b);
      TailConcat(a, b);
      Assoc(Hop(a[0]), Shapes(a[1..]), Shapes(b));
    }
  }

  // ---- The decoder ----

  datatype State = State(lastShort: bool)

  const RESET := State(false)

  function StepShape(s: State, isLong: bool): Result<State, bool> {
    if isLong then Result(State(false), [true])
    else if s.lastShort then Result(State(false), [false])
    else Result(State(true), [])
  }

  function Step(s: State, e: Event): Result<State, bool> {
    match e
    case SyncChanged(_, _) => Result(RESET, [])
    case NewPulse(_, isLong) => StepShape(s, isLong)
  }

  function Run(s: State, es: seq<Event>): Result<State, bool> {
    Fold(Step, s, es)
  }

  function RunShapes(s: State, shapes: seq<bool>): Result<State, bool> {
    Fold(StepShape, s, shapes)
  }

  function ShapesOf(es: seq<Event>): (shapes: seq<bool>)
    requires forall i :: 0 <= i < |es| ==> es[i].NewPulse?
    ensures |shapes| == |es|
  {
    seq(|es|, i requires 0 <= i < |es| => es[i].isLong)
  }

  /** Levels do not matter. */
  lemma {:induction false} RunIsRunShapes(s: State, es: seq<Event>)
    requires forall i :: 0 <= i < |es| ==> es[i].NewPulse?
    ensures Run(s, es) == RunShapes(s, ShapesOf(es))
  {
    if |es| > 0 {
      RunIsRunShapes(s, es[..|es| - 1]);
      assert ShapesOf(es)[..|es| - 1] == ShapesOf(es[..|es| - 1]);
    }
  }

  lemma DecodesHop(bit: bool)
    ensures RunShapes(RESET, Hop(bit)) == Result(RESET, [bit])
  {
    if bit {
      FoldOne(StepShape, RESET, true);
    } else {
      FoldCons(StepShape, RESET, Hop(bit));
      assert Hop(bit)[1..] == [false];
      FoldOne(StepShape, State(true), false);
    }
  }

  /** In step with the bits, the decoder returns them. */
  lemma {:induction false} DecodesInStep(bits: seq<bool>)
    ensures RunShapes(RESET, Shapes(bits)) == Result(RESET, bits)
  {
    if |bits| > 0 {
      DecodesHop(bits[0]);
      DecodesInStep(bits[1..]);
      FoldConcat(StepShape, RESET, Hop(bits[0]), Shapes(bits[1..]));
      ConsTail(bits);
    }
  }

  /** Self-synchronisation: any state reads a one and all that follows it. */
  lemma SelfSynchronisation(s: State, rest: seq<bool>)
    ensures RunShapes(s, Shapes([true] + rest)) == Result(RESET, [true] + rest)
  {
    var bits := [true] + rest;
    assert bits[1..] == rest;
    FoldOne(StepShape, s, true);
    DecodesInStep(rest);
    FoldConcat(StepShape, s, Hop(true), Shapes(rest));
  }

  predicate AllZero(bits: seq<bool>) {
    forall i :: 0 <= i < |bits| ==> !bits[i]
  }

  lemma {:induction false} ShortsAreZeros(s: State, shapes: seq<bool>)
    requires AllZero(shapes)
    ensures AllZero(RunShapes(s, shapes).out)
  {
    if |shapes| > 0 {
      ShortsAreZeros(s, shapes[..|shapes| - 1]);
    }
  }

  lemma {:induction false} LongStartsOne(bits: seq<bool>, q: nat) returns (i: nat)
    requires q < |Shapes(bits)| && Shapes(bits)[q]
    ensures i < |bits| && bits[i] && |Shapes(bits[..i])| == q
    ensures Shapes(bits)[q..] == Shapes(bits[i..])
  {
    var head, rest := Hop(bits[0]), Shapes(bits[1..]);
    if q < |head| {
      i := 0;
      assert q == 0 && bits[0..] == bits;
    } else {
      var i' := LongStartsOne(bits[1..], q - |head|);
      i := i' + 1;
      assert bits[..i][0] == bits[0] && bits[..i][1..] == bits[1..][..i'];
      assert bits[1..][i'..] == bits[i..];
      assert (head + rest)[q..] == rest[q - |head|..];
    }
  }

  lemma FirstLong(shapes: seq<bool>, k: nat) returns (q: nat)
    requires k <= |shapes|
    ensures k <= q <= |shapes| && AllZero(shapes[k..q])
    ensures q < |shapes| ==> shapes[q]
  {
    q := k;
    while q < |shapes| && !shapes[q]
      invariant k <= q <= |shapes|
      invariant AllZero(shapes[k..q])
    {
      assert shapes[k..q + 1] == shapes[k..q] + [shapes[q]];
      q := q + 1;
    }
  }

  lemma FromLong(s: State, bits: seq<bool>, q: nat) returns (i: nat)
    requires q < |Shapes(bits)| && Shapes(bits)[q]
    ensures i < |bits| && bits[i] && |Shapes(bits[..i])| == q
    ensures RunShapes(s, Shapes(bits)[q..]) == Result(RESET, bits[i..])
  {
    i := LongStartsOne(bits, q);
    ConsTail(bits[i..]);
    SelfSynchronisation(s, bits[i + 1..]);
  }

  /** Joining the pulses of `bits` anywhere: some zeros, then all bits from the first one met, that is
      from the bit carried by the first long pulse `q` met. */
  lemma FromAnywhere(s: State, bits: seq<bool>, k: nat) returns (zeros: seq<bool>, q: nat, i: nat)
    requires k <= |Shapes(bits)|
    ensures AllZero(zeros) && i <= |bits| && k <= q <= |Shapes(bits)|
    ensures RunShapes(s, Shapes(bits)[k..]).out == zeros + bits[i..]
    ensures AllZero(Shapes(bits)[k..q])
    ensures i < |bits| ==> bits[i] && |Shapes(bits[..i])| == q && RunShapes(s, Shapes(bits)[k..]).state == RESET
  {
    var shapes := Shapes(bits);
    q := FirstLong(shapes, k);
    ShortsAreZeros(s, shapes[k..q]);
    var shorts := RunShapes(s, shapes[k..q]);
    zeros := shorts.out;
    SliceInTwo(shapes, k, q);
    if q == |shapes| {
      i := |bits|;
      SliceInTwo(bits, i, i);
      EmptyRight(zeros);
    } else {
      i := FromLong(shorts.state, bits, q);
      FoldConcat(StepShape, s, shapes[k..q], shapes[q..]);
    }
  }
}
