/** What the carrier stage tells its listeners. */
module CarrierEvents {
  datatype Event =
    | SyncChanged(hasSync: bool, carrierDivider: nat)
    | NewPulse(isHigh: bool, isLong: bool)
}

/** Manchester code, in which bit b is sent as level b followed by level not-b: the pulse train of a
    bit sequence, and the machine that turns pulses back into bits. */
module ManchesterMachine {
  import opened Machines
  import opened Sequences
  import opened CarrierEvents

  // ---- The code ----

  /** The half-bit levels of a bit sequence. */
  function Levels(bits: seq<bool>): (levels: seq<bool>)
    ensures |levels| == 2 * |bits|
  {
    if |bits| == 0 then [] else [bits[0], !bits[0]] + Levels(bits[1..])
  }

  function Last(prev: bool, bits: seq<bool>): bool {
    if |bits| == 0 then prev else bits[|bits| - 1]
  }

  /** The pulses from the middle of a bit `prev` to the middle of the next bit. */
  function Hop(prev: bool, bit: bool): seq<Event> {
    if bit == prev then [NewPulse(!prev, false), NewPulse(prev, false)] else [NewPulse(!prev, true)]
  }

  /** The pulses from the middle of a bit `prev` up to the middle of the last bit of `bits`. */
  function Pulses(prev: bool, bits: seq<bool>): (ps: seq<Event>)
    ensures forall i :: 0 <= i < |ps| ==> ps[i].NewPulse?
    decreases |bits|
  {
    if |bits| == 0 then [] else Hop(prev, bits[0]) + Pulses(bits[0], bits[1..])
  }

  /** The levels covered by a pulse train: a long pulse lasts two half bits. */
  function Covered(ps: seq<Event>): seq<bool>
    requires forall i :: 0 <= i < |ps| ==> ps[i].NewPulse?
  {
    if |ps| == 0 then []
    else (if ps[0].isLong then [ps[0].isHigh, ps[0].isHigh] else [ps[0].isHigh]) + Covered(ps[1..])
  }

  predicate Alternating(ps: seq<Event>)
    requires forall i :: 0 <= i < |ps| ==> ps[i].NewPulse?
  {
    forall i :: 0 < i < |ps| ==> ps[i].isHigh == !ps[i - 1].isHigh
  }

  lemma {:induction false} PulsesAlternate(prev: bool, bits: seq<bool>)
    ensures Alternating(Pulses(prev, bits))
    ensures |bits| > 0 ==> |Pulses(prev, bits)| > 0 && Pulses(prev, bits)[0].isHigh == !prev
    ensures |bits| > 0 ==> Pulses(prev, bits)[|Pulses(prev, bits)| - 1].isHigh == Last(prev, bits)
    decreases |bits|
  {
    if |bits| > 0 {
      PulsesAlternate(bits[0], bits[1..]);
      assert Last(bits[0], bits[1..]) == Last(prev, bits);
    }
  }

  lemma {:induction false} PulsesCover(prev: bool, bits: seq<bool>)
    ensures Covered(Pulses(prev, bits)) + [!Last(prev, bits)] == [!prev] + Levels(bits)
    decreases |bits|
  {
    if |bits| > 0 {
      var b, rest := bits[0], bits[1..];
      PulsesCover(b, rest);
      assert Last(b, rest) == Last(prev, bits);
      CoveredConcat(Hop(prev, b), Pulses(b, rest));
      HopCovers(prev, b);
      Weave(!prev, b, !b, Covered(Pulses(b, rest)), !Last(prev, bits), Levels(rest));
    }
  }

  /** `Pulses` is the run-length form of the half-bit levels: its pulses alternate, start and end at
      the right levels, and cover exactly the levels from one middle to the other. */
  lemma PulsesAreRuns(prev: bool, bits: seq<bool>)
    ensures Alternating(Pulses(prev, bits))
    ensures |bits| > 0 ==> |Pulses(prev, bits)| > 0 && Pulses(prev, bits)[0].isHigh == !prev
    ensures Covered(Pulses(prev, bits)) + [!Last(prev, bits)] == [!prev] + Levels(bits)
  {
    PulsesAlternate(prev, bits);
    PulsesCover(prev, bits);
  }

  lemma HopCovers(prev: bool, bit: bool)
    ensures Alternating(Hop(prev, bit)) && Covered(Hop(prev, bit)) == [!prev, bit]
  {
    var ps := Hop(prev, bit);
    assert Covered(ps[1..]) == if bit == prev then [prev] else [];
  }

  lemma {:induction false} CoveredConcat(ps: seq<Event>, qs: seq<Event>)
    requires forall i :: 0 <= i < |ps| ==> ps[i].NewPulse?
    requires forall i :: 0 <= i < |qs| ==> qs[i].NewPulse?
    ensures Covered(ps + qs) == Covered(ps) + Covered(qs)
  {
    if |ps| == 0 {
      assert ps + qs == qs;
    } else {
      CoveredConcat(ps[1..], qs);
      TailConcat(ps, qs);
    }
  }

  /** If `c` closed by `z` is `y` opening `l`, then so they are behind `x` and `b`. */
  lemma Weave<T>(x: T, b: T, y: T, c: seq<T>, z: T, l: seq<T>)
    requires c + [z] == [y] + l
    ensures [x, b] + c + [z] == [x] + ([b, y] + l)
  {
    Assoc([x, b], c, [z]);
    assert [x, b] + ([y] + l) == [x] + ([b, y] + l);
  }

  lemma {:induction false} PulsesConcat(prev: bool, a: seq<bool>, b: seq<bool>)
    ensures Pulses(prev, a + b) == Pulses(prev, a) + Pulses(Last(prev, a), b)
    decreases |a|
  {
    if |a| == 0 {
      assert a + b == b;
    } else {
      PulsesConcat(a[0], a[1..], b);
      TailConcat(a, b);
      assert Last(prev, a) == Last(a[0], a[1..]);
      Assoc(Hop(prev, a[0]), Pulses(a[0], a[1..]), Pulses(Last(prev, a), b));
    }
  }

  // ---- The decoder ----

  datatype State = State(ffOut: bool, timerRunning: bool)

  const RESET := State(false, false)

  function Step(s: State, e: Event): Result<State, bool> {
    match e
    case SyncChanged(_, _) => Result(RESET, [])
    case NewPulse(isHigh, isLong) =>
      if s.timerRunning then Result(State(isHigh, false), [isHigh])
      else if isHigh == s.ffOut then Result(s, [])
      else if isLong then Result(State(isHigh, false), [isHigh])
      else Result(State(s.ffOut, true), [])
  }

  function Run(s: State, es: seq<Event>): Result<State, bool> {
    Fold(Step, s, es)
  }

  lemma DecodesHop(prev: bool, bit: bool)
    ensures Run(State(prev, false), Hop(prev, bit)) == Result(State(bit, false), [bit])
  {
    var s := State(prev, false);
    if bit == prev {
      var two := [NewPulse(!prev, false), NewPulse(prev, false)];
      FoldCons(Step, s, two);
      assert two[1..] == [NewPulse(prev, false)];
      FoldOne(Step, State(prev, true), NewPulse(prev, false));
    } else {
      FoldOne(Step, s, NewPulse(!prev, true));
    }
  }

  lemma LastOfTail(prev: bool, bits: seq<bool>)
    requires |bits| > 0
    ensures Last(prev, bits) == Last(bits[0], bits[1..])
  {
  }

  /** In step with the middle of a bit `prev`, the decoder returns the transmitted bits. */
  lemma {:induction false} DecodesInStep(prev: bool, bits: seq<bool>)
    ensures Run(State(prev, false), Pulses(prev, bits)) == Result(State(Last(prev, bits), false), bits)
    decreases |bits|
  {
    if |bits| > 0 {
      DecodesHop(prev, bits[0]);
      DecodesInStep(bits[0], bits[1..]);
      FoldConcat(Step, State(prev, false), Hop(prev, bits[0]), Pulses(bits[0], bits[1..]));
      ConsTail(bits);
      LastOfTail(prev, bits);
    }
  }

  /** Self-synchronisation: whatever its state, the decoder is in step after one long pulse, so after the long pulse of
      bit `v` it returns exactly the bits that follow; and `v` itself unless it takes that level for the one it holds. */
  lemma SelfSynchronisation(s: State, v: bool, rest: seq<bool>)
    ensures Pulses(!v, [v] + rest) == [NewPulse(v, true)] + Pulses(v, rest)
    ensures var r := Run(s, Pulses(!v, [v] + rest));
            r.state == State(Last(v, rest), false) && r.out == if !s.timerRunning && s.ffOut == v then rest else [v] + rest
  {
    assert ([v] + rest)[1..] == rest;
    var ps := Pulses(!v, [v] + rest);
    FoldCons(Step, s, ps);
    assert ps[1..] == Pulses(v, rest);
    DecodesInStep(v, rest);
    assert [] + rest == rest;
  }

  predicate AllShort(ps: seq<Event>) {
    forall i :: 0 <= i < |ps| ==> ps[i].NewPulse? && !ps[i].isLong
  }

  predicate AllZero(bits: seq<bool>) {
    forall i :: 0 <= i < |bits| ==> !bits[i]
  }

  /** How many high pulses have a low one behind them. */
  function Pairs(ps: seq<Event>): nat {
    if |ps| < 2 then 0
    else
      var last := ps[|ps| - 2..];
      Pairs(ps[..|ps| - 1]) + if last == [NewPulse(true, false), NewPulse(false, false)] then 1 else 0
  }

  /** From reset, alternating short pulses are read as zeros, one for each high and low one; after a low one the decoder
      is as after reset. */
  lemma {:induction false} ShortsAreZeros(ps: seq<Event>)
    requires AllShort(ps) && Alternating(ps)
    ensures var r := Run(RESET, ps);
            AllZero(r.out) && !r.state.ffOut && |r.out| == Pairs(ps) &&
            (r.state.timerRunning <==> |ps| > 0 && ps[|ps| - 1].isHigh)
  {
    if |ps| > 0 {
      ShortsAreZeros(ps[..|ps| - 1]);
    }
  }

  lemma LongLater(prev: bool, bits: seq<bool>, q: nat, i: nat)
    requires |bits| > 0 && |Hop(prev, bits[0])| <= q && i < |bits| - 1
    requires q < |Pulses(prev, bits)| && q - |Hop(prev, bits[0])| < |Pulses(bits[0], bits[1..])|
    requires bits[i + 1] == !Last(bits[0], bits[1..][..i])
    requires Pulses(bits[0], bits[1..])[q - |Hop(prev, bits[0])|..] == Pulses(!bits[i + 1], bits[1..][i..])
    ensures bits[i + 1] == !Last(prev, bits[..i + 1])
    ensures Pulses(prev, bits)[q..] == Pulses(!bits[i + 1], bits[i + 1..])
  {
    assert bits[1..][..i] == bits[1..i + 1];
    assert Last(prev, bits[..i + 1]) == Last(bits[0], bits[1..i + 1]);
    assert bits[1..][i..] == bits[i + 1..];
    var head, rest := Hop(prev, bits[0]), Pulses(bits[0], bits[1..]);
    assert (head + rest)[q..] == rest[q - |head|..];
  }

  /** A long pulse is the first of the pulses that carry a bit differing from the one before. */
  lemma {:induction false} LongStartsBit(prev: bool, bits: seq<bool>, q: nat) returns (i: nat)
    requires q < |Pulses(prev, bits)| && Pulses(prev, bits)[q].isLong
    ensures i < |bits| && bits[i] == !Last(prev, bits[..i])
    ensures Pulses(prev, bits)[q..] == Pulses(!bits[i], bits[i..])
    ensures q > 0 ==> i > 0
    decreases |bits|
  {
    var head := Hop(prev, bits[0]);
    if q < |head| {
      i := 0;
      assert q == 0 && bits[0..] == bits;
    } else {
      var i' := LongStartsBit(bits[0], bits[1..], q - |head|);
      LongLater(prev, bits, q, i');
      i := i' + 1;
    }
  }

  lemma FirstLong(ps: seq<Event>, k: nat) returns (q: nat)
    requires k <= |ps| && forall i :: 0 <= i < |ps| ==> ps[i].NewPulse?
    ensures k <= q <= |ps| && AllShort(ps[k..q])
    ensures q < |ps| ==> ps[q].isLong
  {
    q := k;
    while q < |ps| && !ps[q].isLong
      invariant k <= q <= |ps|
      invariant AllShort(ps[k..q])
    {
      assert ps[k..q + 1] == ps[k..q] + [ps[q]];
      q := q + 1;
    }
  }

  lemma FromLong(s: State, prev: bool, bits: seq<bool>, q: nat) returns (i: nat, j: nat)
    requires q < |Pulses(prev, bits)| && Pulses(prev, bits)[q].isLong
    ensures i < |bits| && i <= j <= i + 1
    ensures bits[i] == !Last(prev, bits[..i]) && (q > 0 ==> i > 0)
    ensures Run(s, Pulses(prev, bits)[q..]) == Result(State(Last(prev, bits), false), bits[j..])
  {
    i := LongStartsBit(prev, bits, q);
    ConsTail(bits[i..]);
    SelfSynchronisation(s, bits[i], bits[i + 1..]);
    assert Last(bits[i], bits[i + 1..]) == Last(prev, bits);
    j := if Run(s, Pulses(prev, bits)[q..]).out == bits[i + 1..] then i + 1 else i;
  }

  /** From reset, joining the pulse train of `bits` anywhere: some zeros, then a suffix of `bits`
      that begins at, or just after, a bit that differs from its predecessor. */
  lemma FromReset(prev: bool, bits: seq<bool>, k: nat) returns (zeros: seq<bool>, i: nat, j: nat)
    requires k <= |Pulses(prev, bits)|
    ensures AllZero(zeros) && i <= j <= |bits| && j <= i + 1
    ensures Run(RESET, Pulses(prev, bits)[k..]).out == zeros + bits[j..]
    ensures i < |bits| ==> bits[i] == !Last(prev, bits[..i])
    ensures k > 0 ==> i > 0 || |bits| == 0
    ensures |bits| > 0 && !Last(prev, bits) ==> Run(RESET, Pulses(prev, bits)[k..]).state == RESET
  {
    var ps := Pulses(prev, bits);
    PulsesAlternate(prev, bits);
    var q := FirstLong(ps, k);
    ShortsAreZeros(ps[k..q]);
    var shorts := Run(RESET, ps[k..q]);
    zeros := shorts.out;
    SliceInTwo(ps, k, q);
    if q == |ps| {
      i, j := |bits|, |bits|;
      SliceInTwo(bits, j, j);
      EmptyRight(zeros);
    } else {
      i, j := FromLong(shorts.state, prev, bits, q);
      FoldConcat(Step, RESET, ps[k..q], ps[q..]);
    }
  }
}
