/** What an EM4100 decoder reports of an arbitrary bit sequence. */
module Em4100Reports {
  import opened Machines
  import opened Sequences
  import opened Em4100Distance
  import opened Em4100Frame
  import opened Em4100Machine

  /** The frame of `id` stands in the bits at position `q`. */
  predicate FrameAt(bits: seq<bool>, q: nat, id: Identity) {
    q + FRAME <= |bits| && bits[q..q + FRAME] == Frame(id)
  }

  lemma FrameAtEnd(bits: seq<bool>, id: Identity)
    requires EndsWith(bits, Frame(id))
    ensures FrameAt(bits, |bits| - FRAME, id)
  {
  }

  lemma FrameAtPrefix(bits: seq<bool>, more: seq<bool>, q: nat, id: Identity)
    requires bits <= more && FrameAt(bits, q, id)
    ensures FrameAt(more, q, id)
  {
    assert more[q..q + FRAME] == bits[q..q + FRAME];
  }

  /** Whatever is reported stands in the bits. */
  lemma {:induction false} NamedHasFrame(bits: seq<bool>, id: Identity) returns (q: nat)
    requires id in Run(START, bits).out
    ensures FrameAt(bits, q, id)
  {
    var g, bit := bits[..|bits| - 1], bits[|bits| - 1];
    assert g + [bit] == bits;
    if id in Run(START, g).out {
      q := NamedHasFrame(g, id);
      FrameAtPrefix(g, bits, q, id);
    } else {
      Soundness(g, bit);
      FrameAtEnd(bits, id);
      q := |bits| - FRAME;
    }
  }

  /** The number of bits since the decoder was last as new. */
  function Age(s: State): nat {
    match s
    case Hunting(ones) => ones
    case Reading(rows, part) => PREAMBLE + 5 * |rows| + |part|
  }

  lemma StepAges(s: State, bit: bool)
    requires Valid(s)
    ensures var t := Step(s, bit);
            && Valid(t.state)
            && (t.state == START || (t.out == [] && Age(t.state) == Age(s) + 1))
            && (t.out != [] ==> Age(s) == FRAME - 1)
  {
  }

  lemma {:induction false} AgeBack(h: seq<bool>)
    ensures var s := Run(START, h).state;
            Valid(s) && Age(s) <= |h| && Run(START, h[..|h| - Age(s)]).state == START
  {
    var s := Run(START, h).state;
    if |h| > 0 {
      var g := h[..|h| - 1];
      AgeBack(g);
      StepAges(Run(START, g).state, h[|h| - 1]);
      if s == START { assert h[..|h|] == h; } else { assert h[..|h| - Age(s)] == g[..|g| - Age(Run(START, g).state)]; }
    } else {
      assert h[..0] == h;
    }
  }

  /** The last bit of a frame read from its first on is the one that reports it. */
  lemma LastBitReports(g: seq<bool>, h: seq<bool>, bit: bool, id: Identity)
    requires Run(START, g).state == START && h + [bit] == g + Frame(id)
    ensures Step(Run(START, h).state, bit).out == [id]
  {
    var most, last := Frame(id)[..FRAME - 1], Frame(id)[FRAME - 1];
    SnocInit(Frame(id));
    Assoc(g, most, [last]);
    SnocEqual(h, bit, g + most, last);
    FoldConcat(Step, START, g, most);
    Completeness(id);
    ReportNeedsFrame(most);
    RunSnoc(START, most, bit);
    Soundness(h, bit);
  }

  /** Exactly: a bit reports an identity if and only if it completes its frame, and the decoder was as new before it. */
  lemma ReportsExactly(h: seq<bool>, bit: bool, id: Identity)
    ensures Step(Run(START, h).state, bit).out == [id] <==>
            && |h| >= FRAME - 1 && h[|h| - (FRAME - 1)..] + [bit] == Frame(id)
            && Run(START, h[..|h| - (FRAME - 1)]).state == START
  {
    var s := Run(START, h).state;
    AgeBack(h);
    StepAges(s, bit);
    if Step(s, bit).out == [id] {
      Soundness(h, bit);
      assert id in Step(s, bit).out;
      assert (h + [bit])[|h| + 1 - FRAME..] == h[|h| - (FRAME - 1)..] + [bit];
    } else if |h| >= FRAME - 1 && h[|h| - (FRAME - 1)..] + [bit] == Frame(id)
              && Run(START, h[..|h| - (FRAME - 1)]).state == START {
      var g := h[..|h| - (FRAME - 1)];
      assert h + [bit] == g + (h[|h| - (FRAME - 1)..] + [bit]);
      LastBitReports(g, h, bit, id);
    }
  }
}
