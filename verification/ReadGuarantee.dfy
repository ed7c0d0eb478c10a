/** How many reports a capture is sure to bring. */
module ReadGuarantee {
  import opened CaptureAndRead
  import opened CapturedPulses
  import opened CarrierEvents
  import opened CarrierLock
  import opened CarrierMachine
  import opened CodeDuality
  import opened Em4100Frame
  import opened OtherChain
  import opened ReadEndToEnd
  import opened ReadPipeline
  import opened Samples
  import opened Sequences
  import opened TransferHistory
  import Biphase = BiphaseMachine
  import Resync = Em4100Resync

  // ---- The time a frame takes ----

  /** Half bits covered by pulses of these shapes. */
  function Halves(shapes: seq<bool>): nat {
    if |shapes| == 0 then 0 else Halves(shapes[..|shapes| - 1]) + if shapes[|shapes| - 1] then 2 else 1
  }

  lemma {:induction false} HalvesConcat(a: seq<bool>, b: seq<bool>)
    ensures Halves(a + b) == Halves(a) + Halves(b)
  {
    if |b| == 0 {
      assert a + b == a;
    } else {
      HalvesConcat(a, b[..|b| - 1]);
      assert (a + b)[..|a + b| - 1] == a + b[..|b| - 1];
    }
  }

  lemma HalvesOfHop(bit: bool)
    ensures Halves(Biphase.Hop(bit)) == 2
  {
    assert Biphase.Hop(false)[..1] == [false] && [false][..0] == [] && [true][..0] == [];
    assert Halves([false]) == 1;
  }

  /** Every bit takes two half bits. */
  lemma {:induction false} HalvesOfShapes(bits: seq<bool>)
    ensures Halves(Biphase.Shapes(bits)) == 2 * |bits|
  {
    if |bits| > 0 {
      HalvesOfShapes(bits[1..]);
      HalvesOfHop(bits[0]);
      HalvesConcat(Biphase.Hop(bits[0]), Biphase.Shapes(bits[1..]));
    }
  }

  lemma SpanAdds(halves: nat, isLong: bool, h: nat)
    ensures halves * h + (if isLong then 2 * h else h) == (halves + if isLong then 2 else 1) * h
  {
  }

  lemma {:induction false} OffsetIsHalves(d: nat, ps: seq<Event>, k: nat)
    requires IsDivider(d) && AllPulses(ps) && k <= |ps|
    ensures Offset(d, ps, k) == Halves(Biphase.ShapesOf(ps)[..k]) * HalfBit(d)
  {
    if k > 0 {
      OffsetIsHalves(d, ps, k - 1);
      var shapes := Biphase.ShapesOf(ps);
      assert shapes[..k][..k - 1] == shapes[..k - 1];
      SpanAdds(Halves(shapes[..k - 1]), shapes[k - 1], HalfBit(d));
    }
  }

  /** Conversions in the time of a frame. */
  function FrameSpan(d: nat): nat
    requires IsDivider(d)
  {
    2 * FRAME * HalfBit(d)
  }

  /** Pulses of any levels with the shapes of a repeated word of 64 bits. */
  predicate FieldOf(word: seq<bool>, n: nat, ps: seq<Event>) {
    |word| == FRAME && AllPulses(ps) && Biphase.ShapesOf(ps) == Biphase.Shapes(Repeat(word, n))
  }

  lemma {:induction false} RepeatPrefix<T>(part: seq<T>, n: nat, k: nat)
    requires k <= n
    ensures k * |part| <= n * |part| && Repeat(part, n)[..k * |part|] == Repeat(part, k)
  {
    if k == n {
      assert Repeat(part, n)[..n * |part|] == Repeat(part, n);
    } else {
      RepeatPrefix(part, n - 1, k);
      assert Repeat(part, n)[..k * |part|] == Repeat(part, n - 1)[..k * |part|];
    }
  }

  /** Frame `k` begins `k` frame times behind the beginning. */
  lemma FrameOffset(d: nat, word: seq<bool>, n: nat, ps: seq<Event>, k: nat)
    requires IsDivider(d) && FieldOf(word, n, ps) && k <= n
    ensures var p := |Biphase.Shapes(word)|;
            k * p <= n * p == |ps| && Offset(d, ps, k * p) == k * FrameSpan(d)
  {
    var p := |Biphase.Shapes(word)|;
    ShapesRepeat(word, n);
    ShapesRepeat(word, k);
    RepeatPrefix(Biphase.Shapes(word), n, k);
    HalvesOfShapes(Repeat(word, k));
    OffsetIsHalves(d, ps, k * p);
    Regroup(k, HalfBit(d));
  }

  lemma Regroup(k: nat, h: nat)
    ensures 2 * (k * FRAME) * h == k * (2 * FRAME * h)
  {
  }

  lemma {:induction false} OffsetGrowsSlowly(d: nat, ps: seq<Event>, k: nat, m: nat)
    requires IsDivider(d) && AllPulses(ps) && k + m <= |ps|
    ensures Offset(d, ps, k) <= Offset(d, ps, k + m) <= Offset(d, ps, k) + 2 * HalfBit(d) * m
  {
    if m > 0 {
      OffsetGrowsSlowly(d, ps, k, m - 1);
      assert Span(d, ps[k + m - 1]) <= 2 * HalfBit(d);
      assert 2 * HalfBit(d) * m == 2 * HalfBit(d) * (m - 1) + 2 * HalfBit(d);
    }
  }

  lemma {:induction false} OffsetGrows(d: nat, ps: seq<Event>, k: nat, l: nat)
    requires IsDivider(d) && AllPulses(ps) && k <= l <= |ps|
    ensures Offset(d, ps, k) <= Offset(d, ps, l)
  {
    if k < l { OffsetGrows(d, ps, k, l - 1); }
  }

  // ---- The frames between the lock and the end ----

  /** The end of a frame that is not yet over lies behind the last conversion. */
  lemma EndsBehind(d: nat, word: seq<bool>, n: nat, ps: seq<Event>, e: nat, m: nat)
    requires IsDivider(d) && FieldOf(word, n, ps) && e < Offset(d, ps, |ps|) && m <= n
    requires PulseAt(d, ps, e) < m * |Biphase.Shapes(word)|
    ensures e < m * FrameSpan(d)
  {
    FrameOffset(d, word, n, ps, m);
    OffsetGrows(d, ps, PulseAt(d, ps, e) + 1, m * |Biphase.Shapes(word)|);
  }

  /** A frame that has begun at pulse `a` has begun at its time. */
  lemma BeginsBefore(d: nat, word: seq<bool>, n: nat, ps: seq<Event>, a: nat, q: nat)
    requires IsDivider(d) && FieldOf(word, n, ps) && q * |Biphase.Shapes(word)| <= a <= |ps| && q <= n
    ensures q * FrameSpan(d) <= Offset(d, ps, a)
  {
    FrameOffset(d, word, n, ps, q);
    OffsetGrows(d, ps, q * |Biphase.Shapes(word)|, a);
  }

  /** Pulse `first + lock` begins no later than `lock` long pulses behind conversion `c`. */
  lemma LockIsEarly(d: nat, ps: seq<Event>, c: nat, lock: nat)
    requires IsDivider(d) && AllPulses(ps) && c < Offset(d, ps, |ps|) && PulseAt(d, ps, c) + lock <= |ps|
    ensures Offset(d, ps, PulseAt(d, ps, c) + lock) <= c + 2 * HalfBit(d) * lock
  {
    OffsetGrowsSlowly(d, ps, PulseAt(d, ps, c), lock);
  }

  lemma FewerFrames(last: nat, p: nat, n: nat)
    requires p > 0 && last < n * p
    ensures last / p + 1 <= n && last < (last / p + 1) * p
  {
    var m := last / p;
    DivMod(last, p);
    if m >= n { MoreThan(m + 1, n, p); }
  }

  lemma MoreThan(m: nat, n: nat, p: nat)
    requires m > n
    ensures (m - 1) * p >= n * p
  {
    var q := m - 1 - n;
    assert (m - 1) * p == n * p + q * p;
  }

  /** The frame before the one that begins at pulse `a` or later. */
  lemma FrameBefore(a: nat, p: nat, n: nat)
    requires p > 0 && a <= n * p
    ensures var q := (a + p - 1) / p;
            q <= n && (q > 0 ==> (q - 1) * p <= a)
  {
    var q := (a + p - 1) / p;
    DivMod(a + p - 1, p);
    if q > n { MoreThan(q, n, p); }
    if q > 0 { assert (q - 1) * p == q * p - p; }
  }

  /** Reports a capture of 1536 conversions is sure to bring. */
  function Guaranteed(d: nat): nat { if d == 16 then 10 else if d == 32 then 3 else 0 }

  lemma CountFrames(d: nat, m: nat, q: nat, c: nat, e: nat, lock: nat)
    requires IsDivider(d) && e + 1 == c + RX_SAMPLES && lock <= (if d == 16 then 49 else if d == 32 then 99 else 111)
    requires e < (m + 1) * FrameSpan(d) && (q > 0 ==> (q - 1) * FrameSpan(d) <= c + 2 * HalfBit(d) * lock)
    ensures m >= q + Guaranteed(d) || (Guaranteed(d) == 0)
  {
    if d == 16 {
      assert HalfBit(d) == 1 && FrameSpan(d) == 128;
    } else if d == 32 {
      assert HalfBit(d) == 2 && FrameSpan(d) == 256;
    }
  }

  lemma FramesAtEnd(d: nat, word: seq<bool>, n: nat, ps: seq<Event>, p: nat, e: nat, last: nat, m: nat)
    requires IsDivider(d) && FieldOf(word, n, ps) && e < Offset(d, ps, |ps|) && p == |Biphase.Shapes(word)| > 0
    requires last == PulseAt(d, ps, e) && m == last / p
    ensures e < (m + 1) * FrameSpan(d)
  {
    FrameOffset(d, word, n, ps, n);
    FewerFrames(last, p, n);
    EndsBehind(d, word, n, ps, e, m + 1);
  }

  lemma FramesAtLock(d: nat, word: seq<bool>, n: nat, ps: seq<Event>, p: nat, c: nat, lock: nat, a: nat, q: nat)
    requires IsDivider(d) && FieldOf(word, n, ps) && c < Offset(d, ps, |ps|) && p == |Biphase.Shapes(word)| > 0
    requires a == PulseAt(d, ps, c) + lock <= |ps| && q == (a + p - 1) / p
    ensures q > 0 ==> (q - 1) * FrameSpan(d) <= c + 2 * HalfBit(d) * lock
  {
    FrameOffset(d, word, n, ps, n);
    FrameBefore(a, p, n);
    LockIsEarly(d, ps, c, lock);
    if q > 0 { BeginsBefore(d, word, n, ps, a, q - 1); }
  }

  lemma EnoughWhole(p: nat, m: nat, a: nat, q: nat, g: nat)
    requires p > 0 && q == (a + p - 1) / p && (m >= q + g || g == 0)
    ensures WholeFrames(p, m, a) >= g
  {
  }

  lemma FramesBetween(d: nat, word: seq<bool>, n: nat, ps: seq<Event>, p: nat, c: nat, e: nat, lock: nat, a: nat, m: nat, q: nat)
    requires IsDivider(d) && FieldOf(word, n, ps) && c <= e < Offset(d, ps, |ps|) && e + 1 == c + RX_SAMPLES
    requires p == |Biphase.Shapes(word)| > 0 && a == PulseAt(d, ps, c) + lock <= |ps|
    requires m == PulseAt(d, ps, e) / p && q == (a + p - 1) / p
    requires lock <= (if d == 16 then 49 else if d == 32 then 99 else 111)
    ensures m >= q + Guaranteed(d) || Guaranteed(d) == 0
  {
    FramesAtEnd(d, word, n, ps, p, e, PulseAt(d, ps, e), m);
    FramesAtLock(d, word, n, ps, p, c, lock, a, q);
    CountFrames(d, m, q, c, e, lock);
  }

  lemma StartedIsNat(a: nat, p: nat) returns (q: nat)
    requires p > 0
    ensures q == (a + p - 1) / p
  {
    q := (a + p - 1) / p;
  }

  /** Whole frames between the lock and the end of the capture. */
  lemma EnoughFrames(d: nat, word: seq<bool>, n: nat, ps: seq<Event>, p: nat, c: nat, e: nat, lock: nat, a: nat, m: nat)
    requires IsDivider(d) && FieldOf(word, n, ps) && c <= e < Offset(d, ps, |ps|) && e + 1 == c + RX_SAMPLES
    requires p == |Biphase.Shapes(word)| > 0 && a == PulseAt(d, ps, c) + lock <= |ps| && m == PulseAt(d, ps, e) / p
    requires lock <= (if d == 16 then 49 else if d == 32 then 99 else 111)
    ensures WholeFrames(p, m, a) >= Guaranteed(d)
  {
    var q := StartedIsNat(a, p);
    FramesBetween(d, word, n, ps, p, c, e, lock, a, m, q);
    EnoughWhole(p, m, a, q, Guaranteed(d));
  }

  // ---- A dense capture ----

  lemma SpansNeeded(d: nat, k: nat)
    requires IsDivider(d) && RX_SAMPLES <= 2 * HalfBit(d) * k
    ensures k >= 112
  {
    if d == 16 { assert HalfBit(d) == 1; } else if d == 32 { assert HalfBit(d) == 2; } else { assert HalfBit(d) == 4; }
  }

  lemma SpansCover(d: nat, ps: seq<Event>, c: nat, e: nat, first: nat, last: nat)
    requires IsDivider(d) && AllPulses(ps) && c <= e < Offset(d, ps, |ps|) && e + 1 == c + RX_SAMPLES
    requires first == PulseAt(d, ps, c) && last == PulseAt(d, ps, e)
    ensures first <= last && RX_SAMPLES <= 2 * HalfBit(d) * (last + 1 - first)
  {
    if last < first { OffsetGrows(d, ps, last + 1, first); }
    OffsetGrowsSlowly(d, ps, first, last + 1 - first);
  }

  /** There are enough samples for the lock. */
  lemma EnoughSamples(d: nat, ps: seq<Event>, c: nat, e: nat, first: nat, last: nat)
    requires IsDivider(d) && AllPulses(ps) && c <= e < Offset(d, ps, |ps|) && e + 1 == c + RX_SAMPLES
    requires first == PulseAt(d, ps, c) && last == PulseAt(d, ps, e)
    ensures first + 111 <= last
  {
    SpansCover(d, ps, c, e, first, last);
    SpansNeeded(d, last + 1 - first);
  }

  /** On a dense stream the lock is in time. */
  lemma LockInTime(d: nat, ps: seq<Event>, first: nat, last: nat, samples: seq<Sample>, lock: nat)
    requires IsDivider(d) && CleanPulses(d, ps, first, last, samples) && first + 111 <= last
    requires FirstLock(samples, lock) && Dense(d, samples)
    ensures lock <= (if d == 16 then 49 else if d == 32 then 99 else 111) && first + lock <= |ps|
  {
    FirstLockInTime(d, samples, lock);
  }

  lemma FieldLock(d: nat, ps: seq<Event>, c: nat, e: nat, samples: seq<Sample>, lock: nat, first: nat, last: nat)
    requires IsDivider(d) && AllPulses(ps) && c <= e < Offset(d, ps, |ps|) && e + 1 == c + RX_SAMPLES
    requires first == PulseAt(d, ps, c) && last == PulseAt(d, ps, e)
    requires CleanPulses(d, ps, first, last, samples) && FirstLock(samples, lock) && Dense(d, samples)
    ensures lock <= (if d == 16 then 49 else if d == 32 then 99 else 111) && first + lock <= |ps|
  {
    EnoughSamples(d, ps, c, e, first, last);
    LockInTime(d, ps, first, last, samples, lock);
  }

  lemma FieldEnough(d: nat, word: seq<bool>, n: nat, ps: seq<Event>, p: nat, c: nat, e: nat, lock: nat, first: nat, last: nat)
    requires IsDivider(d) && FieldOf(word, n, ps) && c <= e < Offset(d, ps, |ps|) && e + 1 == c + RX_SAMPLES
    requires p == |Biphase.Shapes(word)| > 0 && first == PulseAt(d, ps, c) && last == PulseAt(d, ps, e)
    requires lock <= (if d == 16 then 49 else if d == 32 then 99 else 111) && first + lock <= |ps|
    ensures EnoughTo(p, first + lock, last, Guaranteed(d))
  {
    var m := QuotientIsNat(last, p);
    EnoughFrames(d, word, n, ps, p, c, e, lock, first + lock, m);
  }

  lemma QuotientIsNat(last: nat, p: nat) returns (m: nat)
    requires p > 0
    ensures m == last / p
  {
    m := last / p;
  }

  /** At least `g` whole frames of `p` pulses lie between the pulses `a` and `last`. */
  predicate EnoughTo(p: nat, a: nat, last: nat, g: nat)
    requires p > 0
  {
    WholeFrames(p, last / p, a) >= g
  }

  lemma ManchesterWord(id: Identity, n: nat)
    ensures FieldOf(CyclicDifferences(id), n, ManchesterField(id, n))
    ensures |Biphase.Shapes(CyclicDifferences(id))| == ManchesterPulses(id)
  {
    ManchesterFieldShapes(id, n);
    ShapesOfManchester(false, Frame(id));
    assert |Biphase.ShapesOf(ManchesterTrain(id))| == |ManchesterTrain(id)|;
  }

  lemma BiphaseWord(id: Identity, n: nat, ps: seq<Event>)
    requires BiphaseField(id, n, ps)
    ensures FieldOf(Frame(id), n, ps) && |Biphase.Shapes(Frame(id))| == BiphasePulses(id)
  {
    ShapesRepeat(Frame(id), n);
  }

  lemma ManchesterFieldEnough(d: nat, id: Identity, n: nat, ps: seq<Event>, c: nat, e: nat, samples: seq<Sample>, lock: nat,
                              first: nat, last: nat)
    requires IsDivider(d) && ps == ManchesterField(id, n) && AllPulses(ps) && c <= e < Offset(d, ps, |ps|)
    requires e + 1 == c + RX_SAMPLES && first == PulseAt(d, ps, c) && last == PulseAt(d, ps, e)
    requires CleanPulses(d, ps, first, last, samples) && FirstLock(samples, lock) && Dense(d, samples)
    ensures EnoughTo(ManchesterPulses(id), first + lock, last, Guaranteed(d))
  {
    ManchesterWord(id, n);
    FieldLock(d, ps, c, e, samples, lock, first, last);
    FieldEnough(d, CyclicDifferences(id), n, ps, ManchesterPulses(id), c, e, lock, first, last);
  }

  /** A dense capture of a Manchester field of any token. */
  lemma ManchesterEnough(d: nat, id: Identity, n: nat, ps: seq<Event>, c: nat, e: nat, samples: seq<Sample>, lock: nat,
                         first: nat, last: nat)
    requires IsDivider(d) && ps == ManchesterField(id, n) && AllPulses(ps) && c <= e < Offset(d, ps, |ps|)
    requires e + 1 == c + RX_SAMPLES && first == PulseAt(d, ps, c) && last == PulseAt(d, ps, e)
    requires CleanPulses(d, ps, first, last, samples) && FirstLock(samples, lock) && Dense(d, samples)
    ensures ManchesterCount(id, first, last, lock) >= Guaranteed(d)
  {
    ManchesterFieldEnough(d, id, n, ps, c, e, samples, lock, first, last);
  }

  lemma BiphaseFieldEnough(d: nat, id: Identity, n: nat, ps: seq<Event>, c: nat, e: nat, samples: seq<Sample>, lock: nat,
                           first: nat, last: nat)
    requires IsDivider(d) && BiphaseField(id, n, ps) && c <= e < Offset(d, ps, |ps|)
    requires e + 1 == c + RX_SAMPLES && first == PulseAt(d, ps, c) && last == PulseAt(d, ps, e)
    requires CleanPulses(d, ps, first, last, samples) && FirstLock(samples, lock) && Dense(d, samples)
    ensures EnoughTo(BiphasePulses(id), first + lock, last, Guaranteed(d))
  {
    BiphaseWord(id, n, ps);
    FieldLock(d, ps, c, e, samples, lock, first, last);
    FieldEnough(d, Frame(id), n, ps, BiphasePulses(id), c, e, lock, first, last);
  }

  lemma NeverTrapped(id: Identity, first: nat, last: nat, lock: nat, g: nat)
    requires EnoughTo(BiphasePulses(id), first + lock, last, g) && !Resync.Trapped(id, 2) && !Resync.Trapped(id, 4)
    ensures BiphaseCount(id, first, last, lock) >= g
  {
    OnlyTwoTraps(id, (first + lock) % BiphasePulses(id));
  }

  lemma OnlyTwoTraps(id: Identity, o: nat)
    ensures Resync.Trapped(id, o) ==> o == 2 || o == 4
  {
  }

  /** Likewise in biphase code, unless the token can be trapped. */
  lemma BiphaseEnough(d: nat, id: Identity, n: nat, ps: seq<Event>, c: nat, e: nat, samples: seq<Sample>, lock: nat,
                      first: nat, last: nat)
    requires IsDivider(d) && BiphaseField(id, n, ps) && c <= e < Offset(d, ps, |ps|)
    requires e + 1 == c + RX_SAMPLES && first == PulseAt(d, ps, c) && last == PulseAt(d, ps, e)
    requires CleanPulses(d, ps, first, last, samples) && FirstLock(samples, lock) && Dense(d, samples)
    requires !Resync.Trapped(id, 2) && !Resync.Trapped(id, 4)
    ensures BiphaseCount(id, first, last, lock) >= Guaranteed(d)
  {
    BiphaseFieldEnough(d, id, n, ps, c, e, samples, lock, first, last);
    NeverTrapped(id, first, last, lock, Guaranteed(d));
  }
}
