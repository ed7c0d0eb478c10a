/** Facts about cutting and joining sequences, stated once for all element types. */
module Sequences {

  lemma Assoc<T>(a: seq<T>, b: seq<T>, c: seq<T>)
    ensures a + b + c == a + (b + c)
  {
  }

  lemma TailConcat<T>(a: seq<T>, b: seq<T>)
    requires |a| > 0
    ensures (a + b)[0] == a[0] && (a + b)[1..] == a[1..] + b
  {
  }

  lemma ConsTail<T>(a: seq<T>)
    requires |a| > 0
    ensures [a[0]] + a[1..] == a
  {
  }

  lemma SnocInit<T>(a: seq<T>)
    requires |a| > 0
    ensures a[..|a| - 1] + [a[|a| - 1]] == a
  {
  }

  lemma SnocEqual<T>(a: seq<T>, x: T, b: seq<T>, y: T)
    requires a + [x] == b + [y]
    ensures a == b && x == y
  {
    assert (a + [x])[..|a|] == a && (b + [y])[..|b|] == b;
    assert (a + [x])[|a|] == x && (b + [y])[|b|] == y;
  }

  lemma SliceSnoc<T>(s: seq<T>, p: nat, q: nat)
    requires p <= q < |s|
    ensures s[p..q + 1] == s[p..q] + [s[q]]
  {
  }

  lemma SplitAt<T>(s: seq<T>, z: nat)
    requires z < |s|
    ensures s == s[..z] + [s[z]] + s[z + 1..]
  {
  }

  lemma EmptyLeft<T>(a: seq<T>)
    ensures [] + a == a
  {
  }

  lemma EmptyRight<T>(a: seq<T>)
    ensures a + [] == a
  {
  }

  lemma TakeOneMore<T>(s: seq<T>, t: seq<T>, i: nat, x: T)
    requires i < |s| == |t| && t[i] == x && forall j :: 0 <= j < i ==> t[j] == s[j]
    ensures t[..i + 1] == s[..i] + [x]
  {
  }

  lemma DropConcat<T>(a: seq<T>, b: seq<T>, c: seq<T>, j: nat)
    requires j <= |a|
    ensures (a + b)[j..] + c == a[j..] + (b + c)
  {
  }

  lemma SliceAcross<T>(s: seq<T>, p: nat, o: nat)
    requires o <= 5 && p + 10 <= |s|
    ensures s[p + o..p + o + 5] == s[p..p + 5][o..] + s[p + 5..p + 10][..o]
  {
  }

  lemma SliceInTwo<T>(s: seq<T>, p: nat, q: nat)
    requires p <= q <= |s|
    ensures s[p..] == s[p..q] + s[q..] && s[|s|..] == []
    ensures q == |s| ==> s[p..q] == s[p..]
  {
  }

  lemma SliceMiddle<T>(s: seq<T>, p: nat, q: nat, r: nat)
    requires p <= q <= r <= |s|
    ensures s[p..r] == s[p..q] + s[q..r]
  {
  }

  lemma SliceOfSlice<T>(s: seq<T>, j: nat, k: nat, q: nat, n: nat)
    requires j <= k <= |s| && q + n <= k - j
    ensures s[j..k][q..q + n] == s[j + q..j + q + n]
  {
    var a, b := s[j..k][q..q + n], s[j + q..j + q + n];
    assert forall i :: 0 <= i < n ==> a[i] == b[i];
  }

  lemma SliceInThree<T>(s: seq<T>, p: nat, q: nat, r: nat)
    requires p <= q <= r <= |s|
    ensures s[p..] == s[p..q] + s[q..r] + s[r..]
  {
  }

  lemma AppendNext<T>(before: seq<T>, s: seq<T>, i: nat)
    requires i < |s|
    ensures before + s[..i] + [s[i]] == before + s[..i + 1]
  {
  }

  lemma AppendedAll<T>(before: seq<T>, s: seq<T>)
    ensures before + s[..0] == before && s[..|s|] == s && s[0..] == s
  {
  }

  function Replicate<T>(x: T, n: nat): (xs: seq<T>)
    ensures |xs| == n && forall i :: 0 <= i < n ==> xs[i] == x
  {
    seq(n, _ => x)
  }

  /** `n` copies of `part` in a row. */
  function Repeat<T>(part: seq<T>, n: nat): (all: seq<T>)
    ensures |all| == n * |part|
  {
    if n == 0 then [] else Repeat(part, n - 1) + part
  }

  lemma {:induction false} Rotate<T>(p: seq<T>, q: seq<T>, m: nat)
    ensures q + Repeat(p + q, m) == Repeat(q + p, m) + q
  {
    if m == 0 {
      assert q + [] == [] + q;
    } else {
      Rotate(p, q, m - 1);
      calc {
        q + Repeat(p + q, m);
        q + Repeat(p + q, m - 1) + (p + q);
        Repeat(q + p, m - 1) + q + (p + q);
        Repeat(q + p, m - 1) + (q + p) + q;
      }
    }
  }

  lemma {:induction false} RepeatCons<T>(part: seq<T>, n: nat)
    requires n > 0
    ensures Repeat(part, n) == part + Repeat(part, n - 1)
  {
    if n == 1 {
      assert Repeat(part, 0) == [];
      assert [] + part == part + [];
    } else {
      RepeatCons(part, n - 1);
      Assoc(part, Repeat(part, n - 2), part);
    }
  }

  lemma RepeatDropPart<T>(part: seq<T>, n: nat, a: nat)
    requires n > 0 && a <= |part|
    ensures Repeat(part, n)[a..] == part[a..] + Repeat(part, n - 1)
  {
    RepeatCons(part, n);
    DropConcat(part, Repeat(part, n - 1), [], a);
    EmptyRight(Repeat(part, n)[a..]);
    EmptyRight(Repeat(part, n - 1));
  }

  lemma RepeatDropWhole<T>(part: seq<T>, n: nat, a: nat)
    requires n > 0 && |part| <= a <= n * |part|
    ensures a - |part| <= (n - 1) * |part|
    ensures Repeat(part, n)[a..] == Repeat(part, n - 1)[a - |part|..]
  {
    RepeatCons(part, n);
  }

  /** Joining a repetition `a` elements in. */
  lemma {:induction false} RepeatDrop<T>(part: seq<T>, n: nat, a: nat)
    requires |part| > 0 && a < n * |part|
    ensures a / |part| < n
    ensures Repeat(part, n)[a..] == part[a % |part|..] + Repeat(part, n - 1 - a / |part|)
  {
    if a < |part| {
      DivUnique(a, |part|, 0, a);
      RepeatDropPart(part, n, a);
    } else {
      DivStep(a, |part|);
      RepeatDropWhole(part, n, a);
      RepeatDrop(part, n - 1, a - |part|);
    }
  }

  /** An element of a repetition. */
  lemma {:induction false} RepeatAt<T>(part: seq<T>, n: nat, k: nat)
    requires k < n * |part|
    ensures Repeat(part, n)[k] == part[k % |part|]
  {
    var p := |part|;
    if k < (n - 1) * p {
      RepeatAt(part, n - 1, k);
    } else {
      DivUnique(k, p, n - 1, k - (n - 1) * p);
    }
  }

  lemma DivStep(a: nat, p: nat)
    requires 0 < p <= a
    ensures a / p == (a - p) / p + 1 && a % p == (a - p) % p
  {
    var q, r := (a - p) / p, (a - p) % p;
    assert a == (q + 1) * p + r;
    DivUnique(a, p, q + 1, r);
  }

  lemma MultipleIsFar(d: int, p: nat)
    ensures d >= 1 ==> d * p >= p
    ensures d <= -1 ==> d * p + p <= 0
  {
    if d >= 1 { assert (d - 1) * p >= 0; }
    if d <= -1 { assert (-1 - d) * p >= 0; }
  }

  lemma DivUnique(a: nat, p: nat, q: nat, r: nat)
    requires r < p && a == q * p + r
    ensures a / p == q && a % p == r
  {
    var d := a / p - q;
    assert a == (a / p) * p + a % p;
    assert d * p == r - a % p;
    MultipleIsFar(d, p);
  }
}
