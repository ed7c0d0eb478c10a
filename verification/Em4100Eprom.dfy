/** Generation of the two data words a tag replays as its EM4100 frame. */
module Em4100Eprom {
  import opened DataUtils
  import opened Em4100Frame
  import opened Em4100Decoder
  import opened Sequences
  import Distance = Em4100Distance

  function Reversed(n: Nibble): Nibble { Nibble(n.b0, n.b1, n.b2, n.b3) }

  /** A nibble written by the generator: reversed, so that its most significant bit leaves first, with its parity. */
  function RowWord(nibble: bv8): bv16 {
    (nibble as bv16) | (ParityNibble(nibble) << 4)
  }

  lemma RowWordBits(n: Nibble, nibble: bv8)
    requires nibble < 16 && LowNibble(nibble) == Reversed(n)
    ensures LsbFirst(RowWord(nibble), 5) == RowBits(n)
  {
    ParityNibbleIsParity(nibble);
    var w := RowWord(nibble);
    RowWordLow(nibble);
    assert HalfBit(w, 0) == n.b3 && HalfBit(w, 1) == n.b2 && HalfBit(w, 2) == n.b1 && HalfBit(w, 3) == n.b0;
    assert HalfBit(w, 4) == Parity(n);
  }

  lemma RowWordLow(nibble: bv8)
    requires nibble < 16
    ensures var w := RowWord(nibble); var n := LowNibble(nibble);
            HalfBit(w, 0) == n.b0 && HalfBit(w, 1) == n.b1 && HalfBit(w, 2) == n.b2 && HalfBit(w, 3) == n.b3 &&
            HalfBit(w, 4) == (ParityNibble(nibble) != 0)
  {
    ParityNibbleIsParity(nibble);
  }

  lemma PreambleBits()
    ensures LsbFirst(0x1ff, 9) == Ones(PREAMBLE)
  {
    var w: bv16 := 0x1ff;
    assert HalfBit(w, 0) && HalfBit(w, 1) && HalfBit(w, 2) && HalfBit(w, 3) && HalfBit(w, 4);
    assert HalfBit(w, 5) && HalfBit(w, 6) && HalfBit(w, 7) && HalfBit(w, 8);
  }

  lemma TrailerBits(ns: seq<Nibble>, parity: bv8)
    requires parity < 16 && LowNibble(parity) == Reversed(Columns(ns))
    ensures LsbFirst(parity as bv16, 5) == Trailer(ns)
  {
    var w := parity as bv16;
    var n := LowNibble(parity);
    assert HalfBit(w, 0) == n.b0 && HalfBit(w, 1) == n.b1 && HalfBit(w, 2) == n.b2 && HalfBit(w, 3) == n.b3;
    assert !HalfBit(w, 4);
  }

  function NibbleAt(token: bv32, shift: nat): bv8
    requires shift < 32
  {
    ((token >> shift) & 0x0f) as bv8
  }

  /** The nibble the generator cuts out of the token for row `2 + i`. */
  function TokenNibble(token: bv32, i: nat): bv8
    requires i < 8
  {
    NibbleAt(token, (7 - i) * 4)
  }

  lemma HighCut28(token: bv32)
    ensures LowNibble(NibbleAt(token, 28)) == HighNibble(ByteOf(token, 24))
  {
  }

  lemma HighCut20(token: bv32)
    ensures LowNibble(NibbleAt(token, 20)) == HighNibble(ByteOf(token, 16))
  {
  }

  lemma HighCut12(token: bv32)
    ensures LowNibble(NibbleAt(token, 12)) == HighNibble(ByteOf(token, 8))
  {
  }

  lemma HighCut4(token: bv32)
    ensures LowNibble(NibbleAt(token, 4)) == HighNibble(ByteOf(token, 0))
  {
  }

  lemma HighCuts(token: bv32)
    ensures LowNibble(NibbleAt(token, 28)) == HighNibble(ByteOf(token, 24))
    ensures LowNibble(NibbleAt(token, 20)) == HighNibble(ByteOf(token, 16))
    ensures LowNibble(NibbleAt(token, 12)) == HighNibble(ByteOf(token, 8))
    ensures LowNibble(NibbleAt(token, 4)) == HighNibble(ByteOf(token, 0))
  {
    HighCut28(token);
    HighCut20(token);
    HighCut12(token);
    HighCut4(token);
  }

  lemma LowCuts(token: bv32)
    ensures LowNibble(NibbleAt(token, 24)) == LowNibble(ByteOf(token, 24))
    ensures LowNibble(NibbleAt(token, 16)) == LowNibble(ByteOf(token, 16))
    ensures LowNibble(NibbleAt(token, 8)) == LowNibble(ByteOf(token, 8))
    ensures LowNibble(NibbleAt(token, 0)) == LowNibble(ByteOf(token, 0))
  {
  }

  lemma ShiftAt(token: bv32, i: nat)
    requires i < 8
    ensures TokenNibble(token, i) ==
            if i == 0 then NibbleAt(token, 28) else if i == 1 then NibbleAt(token, 24)
            else if i == 2 then NibbleAt(token, 20) else if i == 3 then NibbleAt(token, 16)
            else if i == 4 then NibbleAt(token, 12) else if i == 5 then NibbleAt(token, 8)
            else if i == 6 then NibbleAt(token, 4) else NibbleAt(token, 0)
  {
  }

  lemma TenAt<T>(s: seq<T>, a: T, b: T, c: T, d: T, e: T, f: T, g: T, h: T, i: T, j: T, k: nat)
    requires s == [a, b, c, d, e, f, g, h, i, j] && k < 10
    ensures s[k] == if k == 0 then a else if k == 1 then b else if k == 2 then c else if k == 3 then d
                    else if k == 4 then e else if k == 5 then f else if k == 6 then g else if k == 7 then h
                    else if k == 8 then i else j
  {
  }

  lemma TokenNibbles(customerId: bv8, token: bv32, i: nat)
    requires i < 8
    ensures LowNibble(TokenNibble(token, i)) == IdentityOf(Token(customerId, token))[2 + i]
  {
    HighCuts(token);
    LowCuts(token);
    var id := IdentityOf(Token(customerId, token));
    TenAt(id, id[0], id[1], id[2], id[3], id[4], id[5], id[6], id[7], id[8], id[9], 2 + i);
    ShiftAt(token, i);
  }

  lemma CustomerNibbles(customerId: bv8)
    ensures customerId >> 4 < 16 && customerId & 0x0f < 16
    ensures LowNibble(customerId >> 4) == HighNibble(customerId)
    ensures LowNibble(customerId & 0x0f) == LowNibble(customerId)
  {
  }

  lemma XorReversed(p: bv8, c: Nibble, nibble: bv8, n: Nibble)
    requires p < 16 && nibble < 16 && LowNibble(p) == Reversed(c) && LowNibble(nibble) == Reversed(n)
    ensures p ^ nibble < 16 && LowNibble(p ^ nibble) == Reversed(NibbleXor(c, n))
  {
  }

  lemma RowsSnoc(id: Identity, k: nat)
    requires k < ROWS
    ensures Rows(id[..k + 1]) == Rows(id[..k]) + RowBits(id[k])
    ensures Columns(id[..k + 1]) == NibbleXor(Columns(id[..k]), id[k])
  {
    assert id[..k + 1][..k] == id[..k];
  }

  /** Writes one row and folds it into the column parity. */
  method AddRow(result: array<bv32>, written: nat, raw: bv8, parity: bv8, ghost id: Identity, ghost k: nat)
    returns (more: nat, newParity: bv8)
    requires result.Length == 2 && raw < 16 && k < ROWS && LowNibble(raw) == id[k]
    requires written == PREAMBLE + 5 * k
    requires parity < 16 && LowNibble(parity) == Reversed(Columns(id[..k]))
    requires BufferBits(result[..])[..written] == Ones(PREAMBLE) + Rows(id[..k])
    modifies result
    ensures more == 5
    ensures newParity < 16 && LowNibble(newParity) == Reversed(Columns(id[..k + 1]))
    ensures BufferBits(result[..])[..written + 5] == Ones(PREAMBLE) + Rows(id[..k + 1])
  {
    ReverseNibbleReverses(raw);
    ReverseInRange(raw);
    var nibble := REVERSED_NIBBLE[raw as int];
    RowWordBits(id[k], nibble);
    RowsSnoc(id, k);
    more := AddBits(result, written, RowWord(nibble), 5);
    XorReversed(parity, Columns(id[..k]), nibble, id[k]);
    newParity := parity ^ nibble;
  }

  lemma ReverseInRange(nibble: bv8)
    requires nibble < 16
    ensures REVERSED_NIBBLE[nibble as int] < 16
  {
  }

  method Generate(result: array<bv32>, customerId: bv8, token: bv32)
    requires result.Length == 2
    modifies result
    ensures BufferBits(result[..]) == Frame(IdentityOf(Token(customerId, token)))
  {
    ghost var id := IdentityOf(Token(customerId, token));
    var written := 0;
    var parity: bv8 := 0;

    PreambleBits();
    var more := AddBits(result, written, 0x1ff, 9);
    written := written + more;
    assert BufferBits(result[..])[..written] == Ones(PREAMBLE) + Rows(id[..0]);

    CustomerNibbles(customerId);
    more, parity := AddRow(result, written, customerId >> 4, parity, id, 0);
    written := written + more;
    more, parity := AddRow(result, written, customerId & 0x0f, parity, id, 1);
    written := written + more;

    for i := 0 to 8
      invariant written == PREAMBLE + 5 * (2 + i)
      invariant parity < 16 && LowNibble(parity) == Reversed(Columns(id[..2 + i]))
      invariant BufferBits(result[..])[..written] == Ones(PREAMBLE) + Rows(id[..2 + i])
    {
      TokenNibbles(customerId, token, i);
      more, parity := AddRow(result, written, TokenNibble(token, i), parity, id, 2 + i);
      written := written + more;
    }
    assert id[..10] == id;
    TrailerBits(id, parity);
    more := AddBits(result, written, parity as bv16, 5);
    assert BufferBits(result[..])[..64] == BufferBits(result[..]);
  }

  lemma SameNibblesSameByte(a: bv8, b: bv8)
    requires HighNibble(a) == HighNibble(b) && LowNibble(a) == LowNibble(b)
    ensures a == b
  {
  }

  lemma SameBytesSameWord(a: bv32, b: bv32)
    requires ByteOf(a, 24) == ByteOf(b, 24) && ByteOf(a, 16) == ByteOf(b, 16)
    requires ByteOf(a, 8) == ByteOf(b, 8) && ByteOf(a, 0) == ByteOf(b, 0)
    ensures a == b
  {
  }

  /** A token is determined by its ten nibbles. */
  lemma NibblesNameToken(s: Token, t: Token)
    requires IdentityOf(s) == IdentityOf(t)
    ensures s == t
  {
    var a, b := IdentityOf(s), IdentityOf(t);
    assert a[0] == b[0] && a[1] == b[1] && a[2] == b[2] && a[3] == b[3] && a[4] == b[4];
    assert a[5] == b[5] && a[6] == b[6] && a[7] == b[7] && a[8] == b[8] && a[9] == b[9];
    SameNibblesSameByte(s.versionOrCustomerId, t.versionOrCustomerId);
    SameNibblesSameByte(ByteOf(s.data, 24), ByteOf(t.data, 24));
    SameNibblesSameByte(ByteOf(s.data, 16), ByteOf(t.data, 16));
    SameNibblesSameByte(ByteOf(s.data, 8), ByteOf(t.data, 8));
    SameNibblesSameByte(ByteOf(s.data, 0), ByteOf(t.data, 0));
    SameBytesSameWord(s.data, t.data);
  }

  /** Different customer ids or tokens have different frames. */
  lemma FrameNamesToken(s: Token, t: Token)
    requires Frame(IdentityOf(s)) == Frame(IdentityOf(t))
    ensures s == t
  {
    if IdentityOf(s) == IdentityOf(t) {
      NibblesNameToken(s, t);
    } else {
      Distance.FrameDistance(IdentityOf(s), IdentityOf(t));
      Distance.HammingZero(Frame(IdentityOf(s)), Frame(IdentityOf(t)));
    }
  }

  /** Tokens with the same identity are the same token. */
  lemma TokensOfIdentity(ts: seq<Token>, t: Token, n: nat)
    requires Identities(ts) == Replicate(IdentityOf(t), n)
    ensures ts == Replicate(t, n)
  {
    assert |ts| == n;
    forall i | 0 <= i < n ensures ts[i] == t {
      assert Identities(ts)[i] == IdentityOf(t);
      NibblesNameToken(ts[i], t);
    }
  }
}
