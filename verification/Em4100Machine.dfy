module Em4100Machine {
  import opened Machines
  import opened Em4100Frame

  /** Looking for nine ones in a row, or collecting rows after having found them. */
  datatype State =
    | Hunting(ones: nat)
    | Reading(rows: seq<Nibble>, part: seq<bool>)

  const START := Hunting(0)

  predicate Valid(s: State) {
    match s
    case Hunting(ones) => ones < PREAMBLE
    case Reading(rows, part) => |rows| <= ROWS && |part| <= 4
  }

  function Step(s: State, bit: bool): Result<State, Identity> {
    match s
    case Hunting(ones) =>
      if !bit then Result(Hunting(0), [])
      else if ones + 1 == PREAMBLE then Result(Reading([], []), [])
      else Result(Hunting(ones + 1), [])
    case Reading(rows, part) =>
      if |part| != 4 then Result(Reading(rows, part + [bit]), [])
      else if |rows| == ROWS then
        // the stop bit ends the frame
        if !bit && NibbleOfBits(part) == Columns(rows) then Result(Hunting(0), [rows])
        else Result(Hunting(0), [])
      else if bit == Parity(NibbleOfBits(part)) then Result(Reading(rows + [NibbleOfBits(part)], []), [])
      else Result(Hunting(0), [])
  }

  function Run(s: State, bits: seq<bool>): Result<State, Identity> {
    Fold(Step, s, bits)
  }

  function Snoc(s: State, bits: seq<bool>, bit: bool): Result<State, Identity> {
    Then(Run(s, bits), Step(Run(s, bits).state, bit))
  }

  lemma RunSnoc(s: State, bits: seq<bool>, bit: bool)
    ensures Run(s, bits + [bit]) == Snoc(s, bits, bit)
  {
    assert (bits + [bit])[..|bits|] == bits;
  }

  // ---- Soundness ----

  predicate EndsWith(h: seq<bool>, tail: seq<bool>) {
    |tail| <= |h| && h[|h| - |tail|..] == tail
  }

  /** What the decoder's state says about the bits it has consumed. */
  predicate Remembers(h: seq<bool>, s: State) {
    Valid(s) &&
    match s
    case Hunting(ones) => EndsWith(h, Ones(ones))
    case Reading(rows, part) => EndsWith(h, Seen(rows, part))
  }

  lemma EndsWithSnoc(h: seq<bool>, tail: seq<bool>, bit: bool)
    requires EndsWith(h, tail)
    ensures EndsWith(h + [bit], tail + [bit])
  {
  }

  lemma RowComplete(rows: seq<Nibble>, part: seq<bool>, bit: bool)
    requires |part| == 4 && bit == Parity(NibbleOfBits(part))
    ensures Rows(rows + [NibbleOfBits(part)]) == Rows(rows) + part + [bit]
  {
    var n := NibbleOfBits(part);
    assert (rows + [n])[..|rows|] == rows;
    assert RowBits(n) == part + [bit];
  }

  /** What a state that is reading has seen. */
  function Seen(rows: seq<Nibble>, part: seq<bool>): seq<bool> {
    Ones(PREAMBLE) + Rows(rows) + part
  }

  lemma PartRemembers(h: seq<bool>, rows: seq<Nibble>, part: seq<bool>, bit: bool)
    requires EndsWith(h, Seen(rows, part))
    ensures EndsWith(h + [bit], Seen(rows, part + [bit]))
  {
    EndsWithSnoc(h, Seen(rows, part), bit);
    assert Seen(rows, part) + [bit] == Seen(rows, part + [bit]);
  }

  lemma RowRemembers(h: seq<bool>, rows: seq<Nibble>, part: seq<bool>, bit: bool)
    requires EndsWith(h, Seen(rows, part)) && |part| == 4 && bit == Parity(NibbleOfBits(part))
    ensures EndsWith(h + [bit], Seen(rows + [NibbleOfBits(part)], []))
  {
    EndsWithSnoc(h, Seen(rows, part), bit);
    RowComplete(rows, part, bit);
    assert Seen(rows, part) + [bit] == Seen(rows + [NibbleOfBits(part)], []);
  }

  lemma FrameRemembers(h: seq<bool>, rows: Identity, part: seq<bool>)
    requires EndsWith(h, Seen(rows, part)) && |part| == 4 && NibbleOfBits(part) == Columns(rows)
    ensures EndsWith(h + [false], Frame(rows))
  {
    EndsWithSnoc(h, Seen(rows, part), false);
    assert part == NibbleBits(Columns(rows));
    assert Seen(rows, part) + [false] == Frame(rows);
  }

  lemma StepRemembers(h: seq<bool>, s: State, bit: bool)
    requires Remembers(h, s)
    ensures Remembers(h + [bit], Step(s, bit).state)
    ensures |Step(s, bit).out| <= 1
    ensures forall id :: id in Step(s, bit).out ==> EndsWith(h + [bit], Frame(id))
  {
    match s
    case Hunting(ones) =>
      EndsWithSnoc(h, Ones(ones), bit);
      if bit { assert Ones(ones) + [true] == Ones(ones + 1); }
      assert Seen([], []) == Ones(PREAMBLE);
    case Reading(rows, part) =>
      if |part| != 4 {
        PartRemembers(h, rows, part, bit);
      } else if |rows| == ROWS {
        if !bit && NibbleOfBits(part) == Columns(rows) { FrameRemembers(h, rows, part); }
      } else if bit == Parity(NibbleOfBits(part)) {
        RowRemembers(h, rows, part, bit);
      }
  }

  lemma {:induction false} RunRemembers(h: seq<bool>)
    ensures Remembers(h, Run(START, h).state)
  {
    if |h| > 0 {
      var g := h[..|h| - 1];
      RunRemembers(g);
      StepRemembers(g, Run(START, g).state, h[|h| - 1]);
      assert g + [h[|h| - 1]] == h;
    }
  }

  /** EM4100 soundness: from reset, an identity is reported on a bit only when the last 64 bits are its frame. */
  lemma Soundness(h: seq<bool>, bit: bool)
    ensures |Step(Run(START, h).state, bit).out| <= 1
    ensures forall id :: id in Step(Run(START, h).state, bit).out ==> EndsWith(h + [bit], Frame(id))
  {
    RunRemembers(h);
    StepRemembers(h, Run(START, h).state, bit);
  }

  // ---- Completeness ----

  lemma {:induction false} RunOnes(n: nat)
    requires n <= PREAMBLE
    ensures Run(START, Ones(n)) == Result(if n == PREAMBLE then Reading([], []) else Hunting(n), [])
  {
    if n > 0 {
      RunOnes(n - 1);
      RunSnoc(START, Ones(n - 1), true);
      assert Ones(n - 1) + [true] == Ones(n);
    }
  }

  /** Five steps written out. */
  function FiveSteps(s: State, w: seq<bool>): Result<State, Identity>
    requires |w| == 5
  {
    var a := Step(s, w[0]);
    var b := Step(a.state, w[1]);
    var c := Step(b.state, w[2]);
    var d := Step(c.state, w[3]);
    Then(Then(Then(Then(a, b), c), d), Step(d.state, w[4]))
  }

  lemma RunFive(s: State, w: seq<bool>)
    requires |w| == 5
    ensures Run(s, w) == FiveSteps(s, w)
  {
    FoldNext(Step, s, w, 0);
    FoldNext(Step, s, w, 1);
    FoldNext(Step, s, w, 2);
    FoldNext(Step, s, w, 3);
    FoldNext(Step, s, w, 4);
    assert w[..5] == w;
  }

  predicate Even(w: seq<bool>)
    requires |w| == 5
  {
    w[4] == Xor(Xor(w[0], w[1]), Xor(w[2], w[3]))
  }

  /** A reading decoder accepts any five bits of even parity as a row and gives up on any others. */
  lemma ReadRow(rows: seq<Nibble>, w: seq<bool>)
    requires |w| == 5 && |rows| < ROWS
    ensures Run(Reading(rows, []), w) ==
            Result(if Even(w) then Reading(rows + [NibbleOfBits(w[..4])], []) else Hunting(0), [])
  {
    RunFive(Reading(rows, []), w);
    assert [w[0]] + [w[1]] + [w[2]] + [w[3]] == w[..4];
    assert FiveSteps(Reading(rows, []), w) == Step(Reading(rows, w[..4]), w[4]);
  }

  lemma ReadTrailer(rows: Identity, w: seq<bool>)
    requires |w| == 5
    ensures Run(Reading(rows, []), w) ==
            Result(Hunting(0), if !w[4] && NibbleOfBits(w[..4]) == Columns(rows) then [rows] else [])
  {
    RunFive(Reading(rows, []), w);
    assert [w[0]] + [w[1]] + [w[2]] + [w[3]] == w[..4];
    assert FiveSteps(Reading(rows, []), w) == Step(Reading(rows, w[..4]), w[4]);
  }

  lemma {:induction false} ReadRows(ns: seq<Nibble>)
    requires |ns| <= ROWS
    ensures Run(Reading([], []), Rows(ns)) == Result(Reading(ns, []), [])
  {
    if |ns| > 0 {
      var ms, n := ns[..|ns| - 1], ns[|ns| - 1];
      ReadRows(ms);
      FoldConcat(Step, Reading([], []), Rows(ms), RowBits(n));
      ReadRow(ms, RowBits(n));
      assert NibbleOfBits(RowBits(n)[..4]) == n;
      assert ms + [n] == ns;
    }
  }

  /** EM4100 completeness: a decoder that has seen nothing of a preamble reports each whole frame once. */
  lemma Completeness(id: Identity)
    ensures Run(START, Frame(id)) == Result(START, [id])
  {
    RunOnes(PREAMBLE);
    FoldConcat(Step, START, Ones(PREAMBLE), Rows(id));
    ReadRows(id);
    FoldConcat(Step, START, Ones(PREAMBLE) + Rows(id), Trailer(id));
    ReadTrailer(id, Trailer(id));
    assert Trailer(id)[..4] == NibbleBits(Columns(id));
  }
}
