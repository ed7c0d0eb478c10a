/** The two codes on one field: a Manchester field of some bits is a biphase field of their differences, and a biphase
    field is a Manchester field of the running exclusive or. */
module CodeDuality {
  import opened CarrierEvents
  import opened Sequences
  import Biphase = BiphaseMachine
  import Manchester = ManchesterMachine

  /** Where each bit differs from the one before it. */
  function Differences(prev: bool, bits: seq<bool>): (ds: seq<bool>)
    ensures |ds| == |bits|
    decreases |bits|
  {
    if |bits| == 0 then [] else [bits[0] != prev] + Differences(bits[0], bits[1..])
  }

  /** The bits that differ from the ones before them exactly where a bit is set. */
  function RunningXor(prev: bool, ds: seq<bool>): (bits: seq<bool>)
    ensures |bits| == |ds|
    decreases |ds|
  {
    if |ds| == 0 then [] else [ds[0] != prev] + RunningXor(ds[0] != prev, ds[1..])
  }

  lemma {:induction false} DifferencesInvert(prev: bool, ds: seq<bool>)
    ensures Differences(prev, RunningXor(prev, ds)) == ds
    decreases |ds|
  {
    if |ds| > 0 {
      DifferencesInvert(ds[0] != prev, ds[1..]);
      assert RunningXor(prev, ds)[1..] == RunningXor(ds[0] != prev, ds[1..]);
      ConsTail(ds);
    }
  }

  lemma {:induction false} RunningXorInverts(prev: bool, bits: seq<bool>)
    ensures RunningXor(prev, Differences(prev, bits)) == bits
    decreases |bits|
  {
    if |bits| > 0 {
      RunningXorInverts(bits[0], bits[1..]);
      assert Differences(prev, bits)[1..] == Differences(bits[0], bits[1..]);
      ConsTail(bits);
    }
  }

  // ---- Pulses ----

  lemma ShapesOfConcat(ps: seq<Event>, qs: seq<Event>)
    requires forall i :: 0 <= i < |ps| ==> ps[i].NewPulse?
    requires forall i :: 0 <= i < |qs| ==> qs[i].NewPulse?
    ensures Biphase.ShapesOf(ps + qs) == Biphase.ShapesOf(ps) + Biphase.ShapesOf(qs)
  {
  }

  /** A Manchester train is long exactly where two bits differ. */
  lemma {:induction false} ShapesOfManchester(prev: bool, bits: seq<bool>)
    ensures Biphase.ShapesOf(Manchester.Pulses(prev, bits)) == Biphase.Shapes(Differences(prev, bits))
    decreases |bits|
  {
    if |bits| > 0 {
      var ds := Differences(prev, bits);
      ShapesOfManchester(bits[0], bits[1..]);
      assert ds[1..] == Differences(bits[0], bits[1..]);
      ShapesOfConcat(Manchester.Hop(prev, bits[0]), Manchester.Pulses(bits[0], bits[1..]));
      assert Biphase.ShapesOf(Manchester.Hop(prev, bits[0])) == Biphase.Hop(ds[0]);
    }
  }

  /** Alternating pulses are determined by their shapes and the first level. */
  lemma {:induction false} SamePulses(ps: seq<Event>, qs: seq<Event>)
    requires forall i :: 0 <= i < |ps| ==> ps[i].NewPulse?
    requires forall i :: 0 <= i < |qs| ==> qs[i].NewPulse?
    requires Manchester.Alternating(ps) && Manchester.Alternating(qs) && Biphase.ShapesOf(ps) == Biphase.ShapesOf(qs)
    requires |ps| > 0 ==> |qs| > 0 && ps[0].isHigh == qs[0].isHigh
    ensures ps == qs
  {
    assert |ps| == |Biphase.ShapesOf(ps)| == |qs|;
    if |ps| > 0 {
      var n := |ps| - 1;
      assert Biphase.ShapesOf(ps)[n] == Biphase.ShapesOf(qs)[n];
      assert Biphase.ShapesOf(ps[..n]) == Biphase.ShapesOf(ps)[..n] == Biphase.ShapesOf(qs[..n]);
      SamePulses(ps[..n], qs[..n]);
      if n > 0 { assert ps[..n][n - 1] == qs[..n][n - 1]; }
      SnocInit(ps);
      SnocInit(qs);
    }
  }

  /** Alternating pulses with the shapes of `ds`, whichever level is first, are the Manchester train of a running
      exclusive or. */
  lemma BiphaseIsManchester(prev: bool, ds: seq<bool>, ps: seq<Event>)
    requires (forall i :: 0 <= i < |ps| ==> ps[i].NewPulse?) && Manchester.Alternating(ps)
    requires Biphase.ShapesOf(ps) == Biphase.Shapes(ds) && (|ps| > 0 ==> ps[0].isHigh == !prev)
    ensures ps == Manchester.Pulses(prev, RunningXor(prev, ds))
  {
    var bits := RunningXor(prev, ds);
    DifferencesInvert(prev, ds);
    ShapesOfManchester(prev, bits);
    Manchester.PulsesAlternate(prev, bits);
    SamePulses(ps, Manchester.Pulses(prev, bits));
  }

  // ---- Repeated words ----

  lemma {:induction false} DifferencesConcat(prev: bool, a: seq<bool>, b: seq<bool>)
    ensures Differences(prev, a + b) == Differences(prev, a) + Differences(Manchester.Last(prev, a), b)
    decreases |a|
  {
    if |a| == 0 {
      assert a + b == b;
    } else {
      DifferencesConcat(a[0], a[1..], b);
      TailConcat(a, b);
      Manchester.LastOfTail(prev, a);
      Assoc([a[0] != prev], Differences(a[0], a[1..]), Differences(Manchester.Last(prev, a), b));
    }
  }

  lemma {:induction false} DifferencesRepeat(prev: bool, word: seq<bool>, n: nat)
    requires Manchester.Last(prev, word) == prev
    ensures Differences(prev, Repeat(word, n)) == Repeat(Differences(prev, word), n)
  {
    if n > 0 {
      DifferencesRepeat(prev, word, n - 1);
      LastOfRepeat(prev, word, n - 1);
      DifferencesConcat(prev, Repeat(word, n - 1), word);
    }
  }

  lemma LastOfRepeat(prev: bool, word: seq<bool>, n: nat)
    requires Manchester.Last(prev, word) == prev
    ensures Manchester.Last(prev, Repeat(word, n)) == prev
  {
  }

  /** A word in which an even number of bits is set leads back to where it began, so its running exclusive or repeats. */
  lemma RunningXorRepeat(prev: bool, word: seq<bool>, n: nat)
    requires Manchester.Last(prev, RunningXor(prev, word)) == prev
    ensures RunningXor(prev, Repeat(word, n)) == Repeat(RunningXor(prev, word), n)
  {
    var bits := RunningXor(prev, word);
    DifferencesInvert(prev, word);
    DifferencesRepeat(prev, bits, n);
    RunningXorInverts(prev, Repeat(bits, n));
  }

  function Turned<T>(word: seq<T>, r: nat): (turned: seq<T>)
    requires r <= |word|
    ensures |turned| == |word|
  {
    word[r..] + word[..r]
  }

  /** Between its rotations a repeated word differs only in where it begins. */
  lemma TurnedRepeat<T>(word: seq<T>, r: nat, n: nat)
    requires r <= |word|
    ensures word[r..] + Repeat(word, n) + word[..r] == Repeat(Turned(word, r), n + 1)
  {
    var x, y := word[..r], word[r..];
    assert x + y == word;
    Rotate(x, y, n);
    Assoc(Repeat(y + x, n), y, x);
  }

  lemma TurnAt(q: nat, p: nat, i: nat)
    requires i < p
    ensures (q + i) % p == if i < p - q % p then q % p + i else q % p + i - p
  {
    var r := q % p;
    if i < p - r {
      DivUnique(q + i, p, q / p, r + i);
    } else {
      assert (q / p + 1) * p == (q / p) * p + p;
      DivUnique(q + i, p, q / p + 1, r + i - p);
    }
  }

  /** Every stretch of a repeated word that is as long as the word is one of its rotations. */
  lemma StretchIsTurned<T>(word: seq<T>, n: nat, q: nat)
    requires |word| > 0 && q + |word| <= n * |word|
    ensures q % |word| < |word| && Repeat(word, n)[q..q + |word|] == Turned(word, q % |word|)
  {
    var p, all := |word|, Repeat(word, n);
    forall i | 0 <= i < p ensures all[q + i] == Turned(word, q % p)[i] {
      RepeatAt(word, n, q + i);
      TurnAt(q, p, i);
    }
  }
}
