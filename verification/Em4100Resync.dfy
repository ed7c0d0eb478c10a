/** Entering a repeating EM4100 frame at an arbitrary bit. */
module Em4100Resync {
  import opened Machines
  import opened Em4100Frame
  import opened Em4100Machine
  import opened Sequences

  function Body(id: Identity): (bits: seq<bool>)
    ensures |bits| == 55
  {
    Rows(id) + Trailer(id)
  }

  // ---- Rows never complete a preamble ----

  /** At most four ones can precede a row, and a row starts with at most four. */
  lemma HuntRow(k: nat, n: Nibble)
    requires k <= 4
    ensures Run(Hunting(k), RowBits(n)).out == []
    ensures exists k' :: 0 <= k' <= 4 && Run(Hunting(k), RowBits(n)).state == Hunting(k')
  {
    RunFive(Hunting(k), RowBits(n));
  }

  lemma HuntTrailer(k: nat, ns: seq<Nibble>)
    requires k <= 4
    ensures Run(Hunting(k), Trailer(ns)) == Result(START, [])
  {
    RunFive(Hunting(k), Trailer(ns));
  }

  lemma {:induction false} RowsCons(ns: seq<Nibble>)
    requires |ns| > 0
    ensures Rows(ns) == RowBits(ns[0]) + Rows(ns[1..])
  {
    var ms := ns[..|ns| - 1];
    if |ns| == 1 {
      assert ms == [] && ns[1..] == [];
    } else {
      RowsCons(ms);
      assert ns[1..][..|ns| - 2] == ms[1..];
      assert Rows(ns[1..]) == Rows(ms[1..]) + RowBits(ns[|ns| - 1]);
    }
  }

  lemma {:induction false} HuntBody(k: nat, ns: seq<Nibble>, id: Identity)
    requires k <= 4
    ensures Run(Hunting(k), Rows(ns) + Trailer(id)) == Result(START, [])
    decreases |ns|
  {
    if |ns| == 0 {
      HuntTrailer(k, id);
      assert Rows(ns) + Trailer(id) == Trailer(id);
    } else {
      HuntRow(k, ns[0]);
      var k' :| 0 <= k' <= 4 && Run(Hunting(k), RowBits(ns[0])).state == Hunting(k');
      HuntBody(k', ns[1..], id);
      RowsCons(ns);
      assert Rows(ns) + Trailer(id) == RowBits(ns[0]) + (Rows(ns[1..]) + Trailer(id));
      FoldConcat(Step, Hunting(k), RowBits(ns[0]), Rows(ns[1..]) + Trailer(id));
    }
  }

  lemma {:induction false} RowsAt(ns: seq<Nibble>, i: nat)
    requires i < |ns|
    ensures Rows(ns)[5 * i..5 * i + 5] == RowBits(ns[i])
    ensures Rows(ns)[5 * i..] == Rows(ns[i..])
    decreases i
  {
    RowsCons(ns);
    if i == 0 {
      assert ns[0..] == ns;
    } else {
      RowsAt(ns[1..], i - 1);
      assert Rows(ns)[5 * i..5 * i + 5] == Rows(ns[1..])[5 * (i - 1)..5 * (i - 1) + 5];
      assert Rows(ns)[5 * i..] == Rows(ns[1..])[5 * (i - 1)..];
      assert ns[1..][i - 1..] == ns[i..];
    }
  }

  /** The last `5 - j` bits of a row, from a decoder that has no ones yet. */
  lemma HuntShort(w: seq<bool>)
    requires |w| <= 4
    ensures exists k :: 0 <= k <= |w| && Run(START, w) == Result(Hunting(k), [])
  {
    if |w| == 0 {
      assert Run(START, w) == Result(Hunting(0), []);
    } else {
      var v := w[..|w| - 1];
      HuntShort(v);
      assert v + [w[|w| - 1]] == w;
      RunSnoc(START, v, w[|w| - 1]);
      var k :| 0 <= k <= |v| && Run(START, v) == Result(Hunting(k), []);
      var k' := if w[|w| - 1] then k + 1 else 0;
      assert Run(START, w) == Result(Hunting(k'), []);
    }
  }

  lemma HuntFromTrailer(id: Identity, j: nat)
    requires j <= 5
    ensures Run(START, Trailer(id)[j..]) == Result(START, [])
  {
    var w := Trailer(id)[j..];
    if j == 0 {
      HuntTrailer(0, id);
      assert w == Trailer(id);
    } else if j < 5 {
      HuntShort(w[..|w| - 1]);
      assert w == w[..|w| - 1] + [false];
      RunSnoc(START, w[..|w| - 1], false);
    }
  }

  lemma HuntShortThenRows(w: seq<bool>, ns: seq<Nibble>, id: Identity)
    requires |w| <= 4
    ensures Run(START, w + (Rows(ns) + Trailer(id))) == Result(START, [])
  {
    HuntShort(w);
    var k :| 0 <= k <= |w| && Run(START, w) == Result(Hunting(k), []);
    HuntBody(k, ns, id);
    FoldConcat(Step, START, w, Rows(ns) + Trailer(id));
  }

  lemma HuntFromRow(ns: seq<Nibble>, id: Identity, j: nat)
    requires |ns| > 0 && 1 <= j < 5
    ensures Run(START, Rows(ns)[j..] + Trailer(id)) == Result(START, [])
  {
    RowsCons(ns);
    DropConcat(RowBits(ns[0]), Rows(ns[1..]), Trailer(id), j);
    HuntShortThenRows(RowBits(ns[0])[j..], ns[1..], id);
  }

  /** From any point of the body to its end nothing is taken for a preamble. */
  lemma HuntFrom(id: Identity, p: nat)
    requires p <= 55
    ensures Run(START, Body(id)[p..]) == Result(START, [])
  {
    if p >= 50 {
      assert Body(id)[p..] == Trailer(id)[p - 50..];
      HuntFromTrailer(id, p - 50);
    } else {
      var i, j := p / 5, p % 5;
      RowsAt(id, i);
      assert Rows(id)[p..] == Rows(id)[5 * i..][j..];
      assert Body(id)[p..] == Rows(id[i..])[j..] + Trailer(id);
      if j == 0 {
        assert Rows(id[i..])[0..] == Rows(id[i..]);
        HuntBody(0, id[i..], id);
      } else {
        HuntFromRow(id[i..], id, j);
      }
    }
  }

  /** Entering the frame at bit `o`, five or more bits into the preamble or anywhere after it. */
  lemma EnterLate(id: Identity, o: nat)
    requires 5 <= o <= FRAME
    ensures Run(START, Frame(id)[o..]) == Result(START, [])
  {
    if o >= 9 {
      assert Frame(id)[o..] == Body(id)[o - 9..];
      HuntFrom(id, o - 9);
    } else {
      RunOnes(9 - o);
      assert Frame(id)[o..] == Ones(9 - o) + (Rows(id) + Trailer(id));
      HuntBody(9 - o, id, id);
      FoldConcat(Step, START, Ones(9 - o), Rows(id) + Trailer(id));
    }
  }

  // ---- Entering within the first four preamble bits ----

  predicate HeadOnes(n: Nibble, o: nat) {
    (o >= 1 ==> n.b3) && (o >= 2 ==> n.b2) && (o >= 3 ==> n.b1) && (o >= 4 ==> n.b0)
  }

  /** Parity of the first `o` bits of a nibble. */
  function HeadParity(n: Nibble, o: nat): bool {
    Xor(Xor(o >= 1 && n.b3, o >= 2 && n.b2), Xor(o >= 3 && n.b1, o >= 4 && n.b0))
  }

  /** The identities a decoder entering at bit `o` never gets out of: shifted by `o` bits, every row
      still has even parity, so the frame is misread again and again. */
  predicate Trapped(id: Identity, o: nat) {
    || (o == 2 && HeadOnes(id[0], 2) && forall i :: 0 <= i < ROWS ==> id[i].b3 == id[i].b2)
    || (o == 4 && HeadOnes(id[0], 4) && forall i :: 0 <= i < ROWS ==> !Parity(id[i]))
  }

  /** The nibble behind the `i`-th group of five body bits. */
  function Group(id: Identity, i: nat): Nibble
    requires i <= ROWS
  {
    if i < ROWS then id[i] else Columns(id)
  }

  predicate ShiftedRowsEven(id: Identity, o: nat) {
    forall i :: 0 <= i < ROWS ==> HeadParity(Group(id, i), o) == HeadParity(Group(id, i + 1), o)
  }

  lemma {:induction false} ColumnsHeadParity(ns: seq<Nibble>, o: nat, v: bool)
    requires forall i :: 0 <= i < |ns| ==> HeadParity(ns[i], o) == v
    ensures HeadParity(Columns(ns), o) == (v && |ns| % 2 == 1)
  {
    if |ns| > 0 {
      ColumnsHeadParity(ns[..|ns| - 1], o, v);
    }
  }

  lemma {:induction false} GroupsAgree(id: Identity, o: nat, i: nat)
    requires ShiftedRowsEven(id, o) && i <= ROWS
    ensures HeadParity(Group(id, i), o) == HeadParity(Group(id, 0), o)
  {
    if i > 0 { GroupsAgree(id, o, i - 1); }
  }

  /** The column row has even head parity whenever ten equal rows do, which rules out odd shifts. */
  lemma TrappedIff(id: Identity, o: nat)
    requires 1 <= o <= 4
    ensures Trapped(id, o) <==> HeadOnes(id[0], o) && ShiftedRowsEven(id, o)
  {
    var v := HeadParity(id[0], o);
    if HeadOnes(id[0], o) && ShiftedRowsEven(id, o) {
      forall i | 0 <= i <= ROWS ensures HeadParity(Group(id, i), o) == v { GroupsAgree(id, o, i); }
      assert forall i :: 0 <= i < ROWS ==> HeadParity(Group(id, i), o) == HeadParity(id[i], o);
      ColumnsHeadParity(id, o, v);
      assert HeadParity(Group(id, ROWS), o) == HeadParity(Columns(id), o);
    }
    if Trapped(id, o) {
      assert forall i :: 0 <= i < ROWS ==> HeadParity(id[i], o) == false;
      ColumnsHeadParity(id, o, false);
    }
  }

  lemma BodyGroup(id: Identity, i: nat)
    requires i <= ROWS
    ensures Body(id)[5 * i..5 * i + 5] == if i < ROWS then RowBits(id[i]) else Trailer(id)
    ensures Body(id)[5 * i..5 * i + 5][..4] == NibbleBits(Group(id, i))
  {
    if i < ROWS {
      RowsAt(id, i);
      assert Body(id)[5 * i..5 * i + 5] == Rows(id)[5 * i..5 * i + 5];
    }
  }

  /** Parity of a row shifted by `o`: what is lost in front is regained behind. */
  lemma ShiftedParity(n: Nibble, m: Nibble, o: nat)
    requires 1 <= o <= 4
    ensures HeadParity(n, o) == HeadParity(m, o) <==>
            if o == 1 then m.b3 == Xor(Xor(n.b2, n.b1), Xor(n.b0, Parity(n)))
            else if o == 2 then m.b2 == Xor(Xor(n.b1, n.b0), Xor(Parity(n), m.b3))
            else if o == 3 then m.b1 == Xor(Xor(n.b0, Parity(n)), Xor(m.b3, m.b2))
            else m.b0 == Xor(Xor(Parity(n), m.b3), Xor(m.b2, m.b1))
  {
  }

  lemma ShiftedFive<T>(r: seq<T>, b: seq<T>, o: nat, w: seq<T>)
    requires 1 <= o <= 4 && |r| == 5 && |b| == 4 && w == r[o..] + b[..o]
    ensures |w| == 5 && w[0] == r[o]
    ensures w[1] == if o <= 3 then r[o + 1] else b[0]
    ensures w[2] == if o <= 2 then r[o + 2] else b[o - 3]
    ensures w[3] == if o <= 1 then r[4] else b[o - 2]
    ensures w[4] == b[o - 1]
  {
  }

  /** The `i`-th group of five bits seen by a decoder that is `o` bits late. */
  function Shifted(id: Identity, o: nat, i: nat): (w: seq<bool>)
    requires 1 <= o <= 4 && i < ROWS
    ensures |w| == 5
  {
    Body(id)[5 * i + o..5 * i + o + 5]
  }

  /** It is the end of one row and the beginning of the next. */
  lemma ShiftedIs(id: Identity, o: nat, i: nat)
    requires 1 <= o <= 4 && i < ROWS
    ensures Shifted(id, o, i) == RowBits(id[i])[o..] + NibbleBits(Group(id, i + 1))[..o]
  {
    BodyGroup(id, i);
    BodyGroup(id, i + 1);
    SliceAcross(Body(id), 5 * i, o);
    var b := Body(id)[5 * i + 5..5 * i + 10];
    assert b[..4][..o] == b[..o];
  }

  lemma ShiftedEven(id: Identity, o: nat, i: nat)
    requires 1 <= o <= 4 && i < ROWS
    ensures Even(Shifted(id, o, i)) <==> HeadParity(Group(id, i), o) == HeadParity(Group(id, i + 1), o)
  {
    ShiftedIs(id, o, i);
    ShiftedFive(RowBits(id[i]), NibbleBits(Group(id, i + 1)), o, Shifted(id, o, i));
    ShiftedParity(id[i], Group(id, i + 1), o);
  }

  /** As long as the shifted rows have even parity they are taken for rows. */
  lemma {:induction false} ReadShifted(id: Identity, o: nat, i: nat)
    requires 1 <= o <= 4 && i <= ROWS
    requires forall j :: 0 <= j < i ==> Even(Shifted(id, o, j))
    ensures exists rows :: |rows| == i && Run(Reading([], []), Body(id)[o..5 * i + o]) == Result(Reading(rows, []), [])
  {
    if i == 0 {
      assert Run(Reading([], []), Body(id)[o..o]) == Result(Reading([], []), []);
    } else {
      ReadShifted(id, o, i - 1);
      var rows :| |rows| == i - 1 && Run(Reading([], []), Body(id)[o..5 * (i - 1) + o]) == Result(Reading(rows, []), []);
      var w := Shifted(id, o, i - 1);
      ReadRow(rows, w);
      SliceMiddle(Body(id), o, 5 * (i - 1) + o, 5 * i + o);
      FoldConcat(Step, Reading([], []), Body(id)[o..5 * (i - 1) + o], w);
      var more := rows + [NibbleOfBits(w[..4])];
      assert |more| == i && Run(Reading([], []), Body(id)[o..5 * i + o]) == Result(Reading(more, []), []);
    }
  }

  /** The first odd shifted row, the `i`-th, sends the decoder back to hunting. */
  lemma LeaveShifted(id: Identity, o: nat, i: nat)
    requires 1 <= o <= 4 && i < ROWS
    requires forall j :: 0 <= j < i ==> Even(Shifted(id, o, j))
    requires !Even(Shifted(id, o, i))
    ensures Run(Reading([], []), Body(id)[o..]) == Result(START, [])
  {
    ReadShifted(id, o, i);
    var rows :| |rows| == i && Run(Reading([], []), Body(id)[o..5 * i + o]) == Result(Reading(rows, []), []);
    var a, w, b := Body(id)[o..5 * i + o], Shifted(id, o, i), Body(id)[5 * i + o + 5..];
    ReadRow(rows, w);
    FoldConcat(Step, Reading([], []), a, w);
    HuntFrom(id, 5 * i + o + 5);
    FoldConcat(Step, Reading([], []), a + w, b);
    SliceInThree(Body(id), o, 5 * i + o, 5 * i + o + 5);
  }

  lemma LeaveOddRows(id: Identity, o: nat)
    requires 1 <= o <= 4 && !ShiftedRowsEven(id, o)
    ensures Run(Reading([], []), Body(id)[o..]) == Result(START, [])
  {
    var i := 0;
    while i < ROWS && Even(Shifted(id, o, i))
      invariant 0 <= i <= ROWS
      invariant forall j :: 0 <= j < i ==> Even(Shifted(id, o, j))
    {
      i := i + 1;
    }
    if i < ROWS {
      LeaveShifted(id, o, i);
    } else {
      forall j | 0 <= j < ROWS ensures HeadParity(Group(id, j), o) == HeadParity(Group(id, j + 1), o) {
        ShiftedEven(id, o, j);
      }
    }
  }

  /** If all shifted rows are even, the shifted stop bit is a preamble one: back to where it began. */
  lemma Circle(id: Identity, o: nat)
    requires 1 <= o <= 4 && ShiftedRowsEven(id, o)
    ensures Run(Reading([], []), Body(id)[o..] + Ones(o)) == Result(START, [])
    ensures Run(Reading([], []), Body(id)[o..]).out == []
  {
    forall j | 0 <= j < ROWS ensures Even(Shifted(id, o, j)) { ShiftedEven(id, o, j); }
    ReadShifted(id, o, ROWS);
    var rows :| |rows| == ROWS && Run(Reading([], []), Body(id)[o..50 + o]) == Result(Reading(rows, []), []);
    var a, b := Body(id)[o..50 + o], Body(id)[50 + o..];
    ReadTrailer(rows, b + Ones(o));
    FoldConcat(Step, Reading([], []), a, b + Ones(o));
    SliceInTwo(Body(id), o, 50 + o);
    Assoc(a, b, Ones(o));
    FoldConcat(Step, Reading([], []), Body(id)[o..], Ones(o));
  }

  lemma EnterPreamble(id: Identity, o: nat)
    requires 1 <= o <= 4
    ensures HeadOnes(id[0], o) ==>
      Run(START, Frame(id)[o..]) == Run(Reading([], []), Body(id)[o..])
    ensures !HeadOnes(id[0], o) ==> Run(START, Frame(id)[o..]) == Result(START, [])
  {
    RunOnes(9 - o);
    var n, rest := id[0], Rows(id[1..]) + Trailer(id);
    RowsCons(id);
    assert Body(id) == RowBits(n) + rest;
    assert Frame(id)[o..] == Ones(9 - o) + Body(id);
    FoldConcat(Step, START, Ones(9 - o), Body(id));
    if HeadOnes(n, o) {
      assert RowBits(n)[..o] == Ones(o);
      assert Ones(9 - o) + RowBits(n)[..o] == Ones(9);
      RunOnes(9);
      assert Frame(id)[o..] == Ones(9) + Body(id)[o..];
      FoldConcat(Step, START, Ones(9), Body(id)[o..]);
    } else {
      MissPreamble(n, o);
      var k :| 0 <= k <= 4 && Run(Hunting(9 - o), RowBits(n)) == Result(Hunting(k), []);
      HuntBody(k, id[1..], id);
      FoldConcat(Step, Hunting(9 - o), RowBits(n), rest);
    }
  }

  lemma MissPreamble(n: Nibble, o: nat)
    requires 1 <= o <= 4 && !HeadOnes(n, o)
    ensures exists k :: 0 <= k <= 4 && Run(Hunting(9 - o), RowBits(n)) == Result(Hunting(k), [])
  {
    RunFive(Hunting(9 - o), RowBits(n));
    var r := FiveSteps(Hunting(9 - o), RowBits(n));
    assert r.out == [];
    assert r.state.Hunting? && r.state.ones <= 4;
    assert Run(Hunting(9 - o), RowBits(n)) == Result(Hunting(r.state.ones), []);
  }

  // ---- The repeating stream ----

  lemma {:induction false} WholeFrames(id: Identity, m: nat)
    ensures Run(START, Repeat(Frame(id), m)) == Result(START, Replicate(id, m))
  {
    if m > 0 {
      WholeFrames(id, m - 1);
      Completeness(id);
      FoldConcat(Step, START, Repeat(Frame(id), m - 1), Frame(id));
      assert Replicate(id, m - 1) + [id] == Replicate(id, m);
    }
  }

  lemma {:induction false} SilentCircles(round: seq<bool>, m: nat)
    requires Run(START, round) == Result(START, [])
    ensures Run(START, Repeat(round, m)) == Result(START, [])
  {
    if m > 0 {
      SilentCircles(round, m - 1);
      FoldConcat(Step, START, Repeat(round, m - 1), round);
    }
  }

  lemma TrappedForever(id: Identity, o: nat, m: nat)
    requires 1 <= o <= 4 && Trapped(id, o)
    ensures Run(START, Frame(id)[o..] + Repeat(Frame(id), m)).out == []
  {
    TrappedIff(id, o);
    EnterPreamble(id, o);
    Circle(id, o);
    var p, q := Frame(id)[..o], Frame(id)[o..];
    assert p == Ones(o);
    FoldConcat(Step, START, q, p);
    FoldConcat(Step, Reading([], []), Body(id)[o..], Ones(o));
    assert Run(START, q + p) == Result(START, []);
    SilentCircles(q + p, m);
    FoldConcat(Step, START, Repeat(q + p, m), q);
    Rotate(p, q, m);
    assert p + q == Frame(id);
  }

  lemma EntersFrameStart(id: Identity, o: nat)
    requires 1 <= o < FRAME && !Trapped(id, o)
    ensures Run(START, Frame(id)[o..]) == Result(START, [])
  {
    if o >= 5 {
      EnterLate(id, o);
    } else {
      TrappedIff(id, o);
      EnterPreamble(id, o);
      if HeadOnes(id[0], o) { LeaveOddRows(id, o); }
    }
  }

  /** Bit-level resynchronisation. A decoder that joins a repeating frame at bit `o` reports nothing
      for the rest of that frame and then each of the `m` following frames once, unless the identity
      is trapped at `o`: then it never reports anything. */
  lemma Resynchronisation(id: Identity, o: nat, m: nat)
    requires 1 <= o < FRAME
    ensures Run(START, Frame(id)[o..] + Repeat(Frame(id), m)).out ==
            if Trapped(id, o) then [] else Replicate(id, m)
  {
    if Trapped(id, o) {
      TrappedForever(id, o, m);
    } else {
      EntersFrameStart(id, o);
      WholeFrames(id, m);
      FoldConcat(Step, START, Frame(id)[o..], Repeat(Frame(id), m));
      assert [] + Replicate(id, m) == Replicate(id, m);
    }
  }

  /** Customer id 0xC0, token 0. */
  function TrappedIdentity(): Identity {
    [Nibble(true, true, false, false)] + Replicate(ZERO_NIBBLE, 9)
  }

  lemma ItIsTrapped()
    ensures Trapped(TrappedIdentity(), 2)
  {
    assert TrappedIdentity()[0] == Nibble(true, true, false, false);
    assert forall i :: 1 <= i < ROWS ==> TrappedIdentity()[i] == ZERO_NIBBLE;
  }

  /** The trap exists: this identity, joined at the third preamble bit. */
  lemma TrapExists(m: nat)
    ensures Run(START, Frame(TrappedIdentity())[2..] + Repeat(Frame(TrappedIdentity()), m)).out == []
  {
    ItIsTrapped();
    TrappedForever(TrappedIdentity(), 2, m);
  }
}
