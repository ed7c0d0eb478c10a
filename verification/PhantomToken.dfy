/** A token that is named although another one is on the field. */
module PhantomToken {
  import opened CodeDuality
  import opened Em4100Decoder
  import opened Em4100Frame
  import opened OtherChain
  import opened ReadEndToEnd
  import Manchester = ManchesterMachine

  // ---- The relation is mutual ----

  lemma {:induction false} DifferenceAt(prev: bool, bits: seq<bool>, i: nat)
    requires i < |bits|
    ensures Differences(prev, bits)[i] == (bits[i] != if i == 0 then prev else bits[i - 1])
    decreases |bits|
  {
    if i > 0 { DifferenceAt(bits[0], bits[1..], i - 1); }
  }

  /** The differences of a rotation are the rotation of the cyclic differences. */
  lemma DifferencesTurn(word: seq<bool>, r: nat)
    requires 0 < r < |word| && !word[|word| - 1]
    ensures Differences(word[r - 1], Turned(word, r)) == Turned(Differences(false, word), r)
  {
    var x, y := word[..r], word[r..];
    assert word == x + y;
    var a, b := Differences(false, x), Differences(word[r - 1], y);
    LastOfParts(word, r);
    DifferencesConcat(false, x, y);
    DifferencesConcat(word[r - 1], y, x);
    PartsOfConcat(a, b);
  }

  lemma LastOfParts(word: seq<bool>, r: nat)
    requires 0 < r < |word| && !word[|word| - 1]
    ensures Manchester.Last(false, word[..r]) == word[r - 1] && !Manchester.Last(word[r - 1], word[r..])
  {
  }

  lemma PartsOfConcat<T>(a: seq<T>, b: seq<T>)
    ensures (a + b)[|a|..] == b && (a + b)[..|a|] == a
  {
  }

  /** If a Manchester tag makes the biphase chain name `u`, then a biphase tag `u` of the right polarity makes the
      Manchester chain name it. */
  lemma EchoIsMutual(id: Identity, u: Identity, r: nat)
    requires 0 < r && Rotates(CyclicDifferences(id), r, u)
    ensures Rotates(RunningXor(Frame(id)[r - 1], Frame(u)), FRAME - r, id)
  {
    var f, prev := Frame(id), Frame(id)[r - 1];
    assert !f[FRAME - 1];
    DifferencesTurn(f, r);
    RunningXorInverts(prev, Turned(f, r));
    assert Turned(Turned(f, r), FRAME - r) == f;
  }

  // ---- An example ----

  /** The Manchester tag 0x72/0x58888889 ... */
  const ON_FIELD := Token(0x72, 0x58888889)

  /** ... is also named as this one, by the biphase chain. */
  const NAMED := Token(0x99, 0x9999bb01)

  function Hex(h: nat): Nibble { Nibble(h / 8 % 2 == 1, h / 4 % 2 == 1, h / 2 % 2 == 1, h % 2 == 1) }

  function OnField(): Identity {
    [Hex(7), Hex(2), Hex(5), Hex(8), Hex(8),
     Hex(8), Hex(8), Hex(8), Hex(8), Hex(9)]
  }

  function Named(): Identity {
    [Hex(9), Hex(9), Hex(9), Hex(9), Hex(9),
     Hex(9), Hex(11), Hex(11), Hex(0), Hex(1)]
  }

  lemma Names()
    ensures IdentityOf(ON_FIELD) == OnField() && IdentityOf(NAMED) == Named()
  {
  }

  lemma TenColumns(ns: seq<Nibble>)
    requires |ns| == ROWS
    ensures Columns(ns) ==
            NibbleXor(NibbleXor(NibbleXor(NibbleXor(NibbleXor(NibbleXor(NibbleXor(NibbleXor(NibbleXor(NibbleXor(
              ZERO_NIBBLE, ns[0]), ns[1]), ns[2]), ns[3]), ns[4]), ns[5]), ns[6]), ns[7]), ns[8]), ns[9])
  {
    assert Columns(ns[..0]) == ZERO_NIBBLE;
    forall k | 0 <= k < ROWS ensures Columns(ns[..k + 1]) == NibbleXor(Columns(ns[..k]), ns[k]) {
      assert ns[..k + 1][..k] == ns[..k];
    }
    assert ns[..10] == ns;
  }

  /** Bit `k` of a frame with column parities `cols`. */
  function BitOf(id: Identity, cols: Nibble, k: nat): bool
    requires k < FRAME
  {
    if k < PREAMBLE then true
    else
      var n := if k < 59 then id[(k - PREAMBLE) / 5] else cols;
      var j := (k - PREAMBLE) % 5;
      if j == 0 then n.b3 else if j == 1 then n.b2 else if j == 2 then n.b1 else if j == 3 then n.b0
      else k < 59 && Parity(n)
  }

  lemma {:induction false} RowsBit(ns: seq<Nibble>, i: nat, j: nat)
    requires i < |ns| && j < 5
    ensures Rows(ns)[5 * i + j] == RowBits(ns[i])[j]
  {
    if i < |ns| - 1 { RowsBit(ns[..|ns| - 1], i, j); }
  }

  lemma BitOfFrame(id: Identity, k: nat)
    requires k < FRAME
    ensures Frame(id)[k] == BitOf(id, Columns(id), k)
  {
    if PREAMBLE <= k < 59 { RowsBit(id, (k - PREAMBLE) / 5, (k - PREAMBLE) % 5); }
  }

  lemma ColumnsOfBoth()
    ensures Columns(OnField()) == Hex(9) && Columns(Named()) == Hex(1)
  {
    TenColumns(OnField());
    TenColumns(Named());
  }

  /** From bit `k` on, the bits of the one frame are the differences in the other, 16 bits later. */
  predicate Agree(k: nat)
    requires k <= FRAME
    decreases FRAME - k
  {
    k == FRAME ||
    (BitOf(Named(), Hex(1), k) ==
     (BitOf(OnField(), Hex(9), (k + 16) % FRAME) != BitOf(OnField(), Hex(9), (k + 15) % FRAME))
     && Agree(k + 1))
  }

  lemma AllAgree()
    ensures Agree(0)
  {
    assert Agree(56);
    assert Agree(48);
    assert Agree(40);
    assert Agree(32);
    assert Agree(24);
    assert Agree(16);
    assert Agree(8);
  }

  lemma {:induction false} AgreeAt(k: nat, i: nat)
    requires k <= i < FRAME && Agree(k)
    ensures BitOf(Named(), Hex(1), i) ==
            (BitOf(OnField(), Hex(9), (i + 16) % FRAME) != BitOf(OnField(), Hex(9), (i + 15) % FRAME))
    decreases i - k
  {
    if k < i { AgreeAt(k + 1, i); }
  }

  lemma AgreesAt(i: nat)
    requires i < FRAME
    ensures BitOf(Named(), Hex(1), i) ==
            (BitOf(OnField(), Hex(9), (i + 16) % FRAME) != BitOf(OnField(), Hex(9), (i + 15) % FRAME))
  {
    AllAgree();
    AgreeAt(0, i);
  }

  lemma FramesAgreeAt(i: nat)
    requires i < FRAME
    ensures Frame(Named())[i] == (Frame(OnField())[(i + 16) % FRAME] != Frame(OnField())[(i + 15) % FRAME])
  {
    AgreesAt(i);
    ColumnsOfBoth();
    BitOfFrame(Named(), i);
    BitOfFrame(OnField(), (i + 16) % FRAME);
    BitOfFrame(OnField(), (i + 15) % FRAME);
  }

  lemma BitBefore(i: nat, r: nat)
    requires 0 < r < FRAME && i < FRAME
    ensures var k := (i + r) % FRAME; (i + r - 1) % FRAME == if k == 0 then FRAME - 1 else k - 1
  {
  }

  lemma TurnedAt(word: seq<bool>, r: nat, i: nat)
    requires |word| == FRAME && r < FRAME && i < FRAME
    ensures Turned(word, r)[i] == word[(i + r) % FRAME]
  {
  }

  lemma TurnedDifference(word: seq<bool>, r: nat, i: nat)
    requires |word| == FRAME && !word[FRAME - 1] && 0 < r < FRAME && i < FRAME
    ensures Turned(Differences(false, word), r)[i] == (word[(i + r) % FRAME] != word[(i + r - 1) % FRAME])
  {
    BitBefore(i, r);
    TurnedAt(Differences(false, word), r, i);
    DifferenceAt(false, word, (i + r) % FRAME);
  }

  lemma ItEchoesAt(i: nat)
    requires i < FRAME
    ensures Turned(CyclicDifferences(OnField()), 16)[i] == Frame(Named())[i]
  {
    FrameEnds(OnField());
    FramesAgreeAt(i);
    TurnedDifference(Frame(OnField()), 16, i);
  }

  lemma SameBits(a: seq<bool>, b: seq<bool>)
    requires |a| == |b| && forall i :: 0 <= i < |a| ==> a[i] == b[i]
    ensures a == b
  {
  }

  lemma ItEchoes()
    ensures Rotates(CyclicDifferences(OnField()), 16, Named())
  {
    var turned, frame := Turned(CyclicDifferences(OnField()), 16), Frame(Named());
    forall i | 0 <= i < FRAME ensures turned[i] == frame[i] { ItEchoesAt(i); }
    SameBits(turned, frame);
  }

  /** So the biphase chain names a token that is not on the field. */
  lemma Phantom()
    ensures ON_FIELD != NAMED && Rotates(CyclicDifferences(IdentityOf(ON_FIELD)), 16, IdentityOf(NAMED))
  {
    Names();
    ItEchoes();
  }
}
