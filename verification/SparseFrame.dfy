/** A frame with too few long pulses: at two of the three data rates the search for the rate never gets to it. */
module SparseFrame {
  import opened Sequences
  import opened CarrierEvents
  import opened Samples
  import opened Em4100Frame
  import opened Em4100Decoder
  import opened ReadPipeline
  import opened ReadEndToEnd
  import opened CarrierMachine
  import opened CarrierLock
  import opened CarrierSearch
  import Manchester = ManchesterMachine

  /** Customer id 0, token 0. */
  const SPARSE: Identity := Replicate(ZERO_NIBBLE, ROWS)

  const PERIOD: nat := 126

  lemma SparseIsZero()
    ensures IdentityOf(Token(0, 0)) == SPARSE
  {
    var id := IdentityOf(Token(0, 0));
    assert forall i :: 0 <= i < ROWS ==> id[i] == ZERO_NIBBLE;
  }

  // ---- Its pulses ----

  lemma {:induction false} ZeroRows(n: nat)
    ensures Rows(Replicate(ZERO_NIBBLE, n)) == Replicate(false, 5 * n) && Columns(Replicate(ZERO_NIBBLE, n)) == ZERO_NIBBLE
  {
    if n > 0 {
      ZeroRows(n - 1);
      assert Replicate(ZERO_NIBBLE, n)[..n - 1] == Replicate(ZERO_NIBBLE, n - 1);
      assert RowBits(ZERO_NIBBLE) == Replicate(false, 5);
    }
  }

  lemma SparseBits()
    ensures Frame(SPARSE) == Replicate(true, 9) + Replicate(false, 55)
  {
    ZeroRows(ROWS);
    assert Trailer(SPARSE) == Replicate(false, 5);
  }

  lemma {:induction false} EqualBitsAreShort(v: bool, n: nat)
    ensures |Manchester.Pulses(v, Replicate(v, n))| == 2 * n && Manchester.AllShort(Manchester.Pulses(v, Replicate(v, n)))
  {
    if n > 0 {
      EqualBitsAreShort(v, n - 1);
      assert Replicate(v, n)[1..] == Replicate(v, n - 1);
    }
  }

  lemma ChangedBits(v: bool, n: nat)
    requires n > 0
    ensures var ps := Manchester.Pulses(v, Replicate(!v, n));
            |ps| == 2 * n - 1 && forall k :: 0 <= k < |ps| ==> ps[k].isLong == (k == 0)
  {
    EqualBitsAreShort(!v, n - 1);
    assert Replicate(!v, n)[1..] == Replicate(!v, n - 1);
  }

  lemma SparseTrain()
    ensures |ManchesterTrain(SPARSE)| == PERIOD
    ensures forall k :: 0 <= k < PERIOD ==> ManchesterTrain(SPARSE)[k].NewPulse? &&
                                            ManchesterTrain(SPARSE)[k].isLong == (k == 0 || k == 17)
  {
    SparseBits();
    Manchester.PulsesConcat(false, Replicate(true, 9), Replicate(false, 55));
    ChangedBits(false, 9);
    ChangedBits(true, 55);
  }

  // ---- Few of them are long ----

  /** How many of the `n` numbers from `p` on leave remainder `r`. */
  function Hits(r: nat, p: nat, n: nat): nat {
    if n == 0 then 0 else Hits(r, p, n - 1) + if (p + n - 1) % PERIOD == r then 1 else 0
  }

  lemma RemaindersDiffer(k: nat, l: nat)
    requires k < l < k + PERIOD
    ensures k % PERIOD != l % PERIOD
  {
  }

  lemma {:induction false} HitsOnce(r: nat, p: nat, n: nat)
    requires n <= PERIOD
    ensures Hits(r, p, n) <= 1
    ensures Hits(r, p, n) == 1 ==> exists k :: p <= k < p + n && k % PERIOD == r
  {
    if n > 0 {
      HitsOnce(r, p, n - 1);
      var l := p + n - 1;
      if l % PERIOD == r && Hits(r, p, n - 1) == 1 {
        var k :| p <= k < p + n - 1 && k % PERIOD == r;
        RemaindersDiffer(k, l);
      }
    }
  }

  /** Pulses of exactly one or two half bits. */
  predicate Nominal(d: nat, x: Sample) {
    x.lengthUs == PulseLength(d) || x.lengthUs == 2 * PulseLength(d)
  }

  /** Samples of nominal length that follow the repeated frame from pulse `start` on, the first one cut anyhow. */
  predicate SparseSamples(d: nat, m: nat, j: nat, start: nat, xs: seq<Sample>) {
    && j < |ManchesterTrain(SPARSE)|
    && Follows(Classified(d, xs), ManchesterTrain(SPARSE), m, j, start)
    && forall i :: 1 <= i < |xs| ==> Nominal(d, xs[i])
  }

  lemma NominalFits(d: nat, e: nat, x: Sample)
    requires (d == 32 && e == 16) || (d == 64 && e == 32)
    requires Nominal(d, x)
    ensures InRange(d, x) && InRange(e, x) == !IsLong(d, x)
  {
  }

  lemma SparseSampleAt(d: nat, m: nat, j: nat, start: nat, xs: seq<Sample>, i: nat)
    requires SparseSamples(d, m, j, start, xs) && 1 <= i < |xs|
    ensures IsLong(d, xs[i]) <==> (start + i) % PERIOD == 0 || (start + i) % PERIOD == 17
  {
    SparseTrain();
    JoinedAt(ManchesterTrain(SPARSE), m, j, start + i);
    assert Classified(d, xs)[i] == Classify(d, xs[i]);
  }

  lemma BadSlice(e: nat, xs: seq<Sample>, a: nat, b: nat)
    requires a < b <= |xs|
    ensures Bad(e, xs[a..b]) == Bad(e, xs[a..b - 1]) + if InRange(e, xs[b - 1]) then 0 else 1
  {
    assert xs[a..b][..b - 1 - a] == xs[a..b - 1];
  }

  lemma HitsNext(p: nat, n: nat)
    requires n > 0
    ensures Hits(0, p, n) + Hits(17, p, n) ==
            Hits(0, p, n - 1) + Hits(17, p, n - 1) + if (p + n - 1) % PERIOD == 0 || (p + n - 1) % PERIOD == 17 then 1 else 0
  {
  }

  /** At rate `e` exactly the two long pulses of each period are out of range. */
  predicate Misfits(e: nat, start: nat, xs: seq<Sample>) {
    forall i :: 1 <= i < |xs| ==> (InRange(e, xs[i]) <==> (start + i) % PERIOD != 0 && (start + i) % PERIOD != 17)
  }

  lemma SparseMisfits(d: nat, e: nat, m: nat, j: nat, start: nat, xs: seq<Sample>)
    requires (d == 32 && e == 16) || (d == 64 && e == 32)
    requires SparseSamples(d, m, j, start, xs)
    ensures Misfits(e, start, xs)
  {
    forall i | 1 <= i < |xs|
      ensures InRange(e, xs[i]) <==> (start + i) % PERIOD != 0 && (start + i) % PERIOD != 17
    {
      SparseSampleAt(d, m, j, start, xs, i);
      NominalFits(d, e, xs[i]);
    }
  }

  lemma {:induction false} FewBad(e: nat, start: nat, xs: seq<Sample>, a: nat, b: nat)
    requires Misfits(e, start, xs) && a <= b <= |xs|
    ensures Bad(e, xs[a..b]) <= Hits(0, start + a, b - a) + Hits(17, start + a, b - a) + if a == 0 then 1 else 0
    decreases b - a
  {
    if a < b {
      FewBad(e, start, xs, a, b - 1);
      BadSlice(e, xs, a, b);
      HitsNext(start + a, b - a);
      assert a < b - 1 || xs[a..b - 1] == [];
    }
  }

  lemma FewBadInWindow(e: nat, start: nat, xs: seq<Sample>, a: nat, b: nat)
    requires Misfits(e, start, xs) && a <= b <= |xs| && b <= a + 50
    ensures Bad(e, xs[a..b]) < ERROR_THRESHOLD
  {
    FewBad(e, start, xs, a, b);
    HitsOnce(0, start + a, b - a);
    HitsOnce(17, start + a, b - a);
  }

  /** So the rate below the right one is never left. */
  lemma SparseStays(e: nat, start: nat, xs: seq<Sample>, at: nat)
    requires Misfits(e, start, xs) && at <= |xs|
    ensures Stays(e, xs[at..])
  {
    forall n | 0 <= n < |xs| - at ensures Bad(e, xs[at..][WindowStart(n)..n]) < ERROR_THRESHOLD {
      assert xs[at..][WindowStart(n)..n] == xs[at + WindowStart(n)..at + n];
      FewBadInWindow(e, start, xs, at + WindowStart(n), at + n);
    }
  }

  /** Customer id 0 with token 0 is never read at RF/32 and RF/64, however long the capture and wherever it begins. */
  lemma SparseNeverRead(d: nat, m: nat, j: nat, start: nat, xs: seq<Sample>)
    requires d == 32 || d == 64
    requires SparseSamples(d, m, j, start, xs)
    ensures Clean(d, xs) && Reached(d, xs) == |xs| + 1
    ensures ManchesterIds(xs) == [] && BiphaseIds(xs) == []
  {
    forall i | 1 <= i < |xs| ensures InRange(d, xs[i]) { NominalFits(d, d / 2, xs[i]); }
    if d == 32 {
      SparseMisfits(d, 16, m, j, start, xs);
      SparseStays(16, start, xs, 0);
      assert xs[0..] == xs;
      LeavesIsStays(16, xs);
    } else {
      var first := Leaves(16, xs) + 1;
      if first <= |xs| {
        SparseMisfits(d, 32, m, j, start, xs);
        SparseStays(32, start, xs, first);
        LeavesIsStays(32, xs[first..]);
      }
    }
    LocksIff(d, xs);
    NotLockedNotRead(d, xs);
  }
}
