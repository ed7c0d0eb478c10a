/** How many flipped bits the EM4100 parities are sure to notice. */
module Em4100Distance {
  import opened Machines
  import opened Em4100Frame
  import opened Em4100Machine

  /** Number of positions in which two bit sequences differ. */
  function Hamming(a: seq<bool>, b: seq<bool>): nat
    requires |a| == |b|
  {
    if |a| == 0 then 0
    else Hamming(a[..|a| - 1], b[..|b| - 1]) + if a[|a| - 1] != b[|b| - 1] then 1 else 0
  }

  lemma {:induction false} HammingConcat(a: seq<bool>, b: seq<bool>, a': seq<bool>, b': seq<bool>)
    requires |a| == |a'| && |b| == |b'|
    ensures Hamming(a + b, a' + b') == Hamming(a, a') + Hamming(b, b')
  {
    var n := |b|;
    if n == 0 {
      assert a + b == a && a' + b' == a';
    } else {
      HammingConcat(a, b[..n - 1], a', b'[..n - 1]);
      assert (a + b)[..|a| + n - 1] == a + b[..n - 1];
      assert (a' + b')[..|a| + n - 1] == a' + b'[..n - 1];
    }
  }

  lemma {:induction false} HammingZero(a: seq<bool>, b: seq<bool>)
    requires |a| == |b|
    ensures Hamming(a, b) == 0 <==> a == b
  {
    if |a| > 0 {
      HammingZero(a[..|a| - 1], b[..|b| - 1]);
      assert a == a[..|a| - 1] + [a[|a| - 1]] && b == b[..|b| - 1] + [b[|b| - 1]];
    }
  }

  function Bit(b: bool): nat { if b then 1 else 0 }

  lemma HammingFive(a: seq<bool>, b: seq<bool>)
    requires |a| == |b| == 5
    ensures Hamming(a, b) == Bit(a[0] != b[0]) + Bit(a[1] != b[1]) + Bit(a[2] != b[2]) + Bit(a[3] != b[3]) + Bit(a[4] != b[4])
  {
    var h := (k: nat) requires k <= 5 => Hamming(a[..k], b[..k]);
    assert h(0) == 0;
    forall k | 0 <= k < 5 ensures h(k + 1) == h(k) + Bit(a[k] != b[k]) {
      assert a[..k + 1][..k] == a[..k] && b[..k + 1][..k] == b[..k];
    }
    assert h(1) == Bit(a[0] != b[0]);
    assert a[..5] == a && b[..5] == b;
  }

  lemma RowDistance(n: Nibble, m: Nibble)
    requires n != m
    ensures Hamming(RowBits(n), RowBits(m)) >= 2
  {
    HammingFive(RowBits(n), RowBits(m));
  }

  lemma TrailerDistance(ns: seq<Nibble>, ms: seq<Nibble>)
    requires Columns(ns) != Columns(ms)
    ensures Hamming(Trailer(ns), Trailer(ms)) >= 1
  {
    HammingFive(Trailer(ns), Trailer(ms));
  }

  /** Number of rows in which two identities differ. */
  function RowsDiffering(ns: seq<Nibble>, ms: seq<Nibble>): nat
    requires |ns| == |ms|
  {
    if |ns| == 0 then 0
    else RowsDiffering(ns[..|ns| - 1], ms[..|ms| - 1]) + Bit(ns[|ns| - 1] != ms[|ms| - 1])
  }

  lemma {:induction false} RowsDistance(ns: seq<Nibble>, ms: seq<Nibble>)
    requires |ns| == |ms|
    ensures Hamming(Rows(ns), Rows(ms)) >= 2 * RowsDiffering(ns, ms)
  {
    var k := |ns|;
    if k > 0 {
      RowsDistance(ns[..k - 1], ms[..k - 1]);
      HammingConcat(Rows(ns[..k - 1]), RowBits(ns[k - 1]), Rows(ms[..k - 1]), RowBits(ms[k - 1]));
      if ns[k - 1] != ms[k - 1] { RowDistance(ns[k - 1], ms[k - 1]); }
    }
  }

  lemma {:induction false} ColumnsNotice(ns: seq<Nibble>, ms: seq<Nibble>)
    requires |ns| == |ms|
    ensures RowsDiffering(ns, ms) == 0 ==> ns == ms
    ensures RowsDiffering(ns, ms) == 1 ==> Columns(ns) != Columns(ms)
  {
    var k := |ns|;
    if k > 0 {
      ColumnsNotice(ns[..k - 1], ms[..k - 1]);
      assert ns == ns[..k - 1] + [ns[k - 1]] && ms == ms[..k - 1] + [ms[k - 1]];
      if ns[k - 1] != ms[k - 1] {
        XorCancels(Columns(ns[..k - 1]), ns[k - 1], ms[k - 1]);
      } else if Columns(ns[..k - 1]) != Columns(ms[..k - 1]) {
        XorCancels(ns[k - 1], Columns(ns[..k - 1]), Columns(ms[..k - 1]));
      }
    }
  }

  lemma XorCancels(n: Nibble, a: Nibble, b: Nibble)
    requires a != b
    ensures NibbleXor(n, a) != NibbleXor(n, b) && NibbleXor(a, n) != NibbleXor(b, n)
  {
  }

  /** Frames of different identities differ in at least three bits. */
  lemma FrameDistance(a: Identity, b: Identity)
    requires a != b
    ensures Hamming(Frame(a), Frame(b)) >= 3
  {
    RowsDistance(a, b);
    ColumnsNotice(a, b);
    HammingConcat(Ones(PREAMBLE), Rows(a), Ones(PREAMBLE), Rows(b));
    HammingConcat(Ones(PREAMBLE) + Rows(a), Trailer(a), Ones(PREAMBLE) + Rows(b), Trailer(b));
    if RowsDiffering(a, b) == 1 { TrailerDistance(a, b); }
  }

  lemma {:induction false} ReportNeedsFrame(h: seq<bool>)
    requires |h| <= FRAME
    ensures Run(START, h).out != [] ==> exists id: Identity :: Frame(id) == h
  {
    if |h| > 0 {
      var g, bit := h[..|h| - 1], h[|h| - 1];
      assert g + [bit] == h;
      ReportNeedsFrame(g);
      Soundness(g, bit);
      var out := Step(Run(START, g).state, bit).out;
      if |out| > 0 { assert out[0] in out; }
    }
  }

  /** EM4100 error detection: a fresh decoder reports nothing for a frame with one or two flipped bits. */
  lemma ErrorDetection(id: Identity, received: seq<bool>)
    requires |received| == FRAME
    requires 1 <= Hamming(received, Frame(id)) <= 2
    ensures Run(START, received).out == []
  {
    forall other: Identity ensures Frame(other) != received {
      if other == id { HammingZero(Frame(id), Frame(id)); } else { FrameDistance(other, id); }
    }
    ReportNeedsFrame(received);
  }

  /** The identity with the last bit of the last row flipped. */
  function LastFlipped(id: Identity): (other: Identity)
    ensures other != id
  {
    var n := id[ROWS - 1];
    var other := id[..ROWS - 1] + [n.(b3 := !n.b3)];
    assert other[ROWS - 1] != id[ROWS - 1];
    other
  }

  lemma LastFlippedDistance(id: Identity)
    ensures Hamming(Frame(LastFlipped(id)), Frame(id)) == 3
  {
    var n, other := id[ROWS - 1], LastFlipped(id);
    var m := other[ROWS - 1];
    assert other[..ROWS - 1] == id[..ROWS - 1];
    HammingConcat(Rows(id[..ROWS - 1]), RowBits(m), Rows(id[..ROWS - 1]), RowBits(n));
    HammingConcat(Ones(PREAMBLE), Rows(other), Ones(PREAMBLE), Rows(id));
    HammingConcat(Ones(PREAMBLE) + Rows(other), Trailer(other), Ones(PREAMBLE) + Rows(id), Trailer(id));
    HammingZero(Rows(id[..ROWS - 1]), Rows(id[..ROWS - 1]));
    HammingZero(Ones(PREAMBLE), Ones(PREAMBLE));
    HammingFive(RowBits(m), RowBits(n));
    HammingFive(Trailer(other), Trailer(id));
  }

  /** Three flipped bits can go unnoticed: a flipped data bit with both its parities. */
  lemma ThreeFlipsCanPass(id: Identity)
    ensures exists other: Identity :: other != id && Hamming(Frame(other), Frame(id)) == 3 &&
                                      Run(START, Frame(other)) == Result(START, [other])
  {
    var other := LastFlipped(id);
    Completeness(other);
    LastFlippedDistance(id);
  }
}
