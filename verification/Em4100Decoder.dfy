/** The EM4100 decoder with the program's own fields: a nibble assembled bit by bit and six packed bytes. */
module Em4100Decoder {
  import opened DataUtils
  import opened Sequences
  import opened Em4100Frame
  import Machine = Em4100Machine

  datatype Token = Token(versionOrCustomerId: bv8, data: bv32)

  datatype DecoderState = PreambleState | DataState

  /** The ten nibbles named by a token. */
  function IdentityOf(t: Token): Identity {
    [HighNibble(t.versionOrCustomerId), LowNibble(t.versionOrCustomerId),
     HighNibble(ByteOf(t.data, 24)), LowNibble(ByteOf(t.data, 24)),
     HighNibble(ByteOf(t.data, 16)), LowNibble(ByteOf(t.data, 16)),
     HighNibble(ByteOf(t.data, 8)), LowNibble(ByteOf(t.data, 8)),
     HighNibble(ByteOf(t.data, 0)), LowNibble(ByteOf(t.data, 0))]
  }

  function ByteOf(w: bv32, shift: nat): bv8
    requires shift < 32
  {
    ((w >> shift) & 0xff) as bv8
  }

  function Identities(ts: seq<Token>): seq<Identity> {
    seq(|ts|, i requires 0 <= i < |ts| => IdentityOf(ts[i]))
  }

  /** The first `n` nibbles packed in `data`, high nibble first. */
  function Unpack(data: seq<bv8>, n: nat): (ns: seq<Nibble>)
    requires n <= 2 * |data|
    ensures |ns| == n
  {
    seq(n, i requires 0 <= i < n => if i % 2 == 0 then HighNibble(data[i / 2]) else LowNibble(data[i / 2]))
  }

  lemma StoreHigh(b: bv8, nibble: bv8)
    requires nibble < 16
    ensures HighNibble(nibble << 4) == LowNibble(nibble)
    ensures b == 0 ==> b | (nibble << 4) == nibble << 4
  {
  }

  lemma StoreLow(b: bv8, nibble: bv8)
    requires nibble < 16 && b & 0x0f == 0
    ensures HighNibble(b | nibble) == HighNibble(b) && LowNibble(b | nibble) == LowNibble(nibble)
  {
  }

  function WithNibbleBit(nibble: bv8, mask: bv8, bit: bool): bv8 {
    if bit then nibble | mask else nibble & !mask
  }

  lemma PutNibbleBits(nibble: bv8, bit: bool)
    requires nibble < 16
    ensures var n := WithNibbleBit(nibble, 8, bit); n < 16 && LowNibble(n) == LowNibble(nibble).(b3 := bit)
    ensures var n := WithNibbleBit(nibble, 4, bit); n < 16 && LowNibble(n) == LowNibble(nibble).(b2 := bit)
    ensures var n := WithNibbleBit(nibble, 2, bit); n < 16 && LowNibble(n) == LowNibble(nibble).(b1 := bit)
    ensures var n := WithNibbleBit(nibble, 1, bit); n < 16 && LowNibble(n) == LowNibble(nibble).(b0 := bit)
  {
  }

  /** Setting or clearing bit `3 - i` of the nibble leaves the bits above it alone. */
  lemma PutNibbleBit(nibble: bv8, mask: bv8, bit: bool, i: nat)
    requires nibble < 16 && i < 4
    requires mask == if i == 0 then 8 else if i == 1 then 4 else if i == 2 then 2 else 1
    ensures var n := WithNibbleBit(nibble, mask, bit);
            n < 16 && NibbleBits(LowNibble(n))[..i + 1] == NibbleBits(LowNibble(nibble))[..i] + [bit]
  {
    PutNibbleBits(nibble, bit);
    var n := WithNibbleBit(nibble, mask, bit);
    TakeOneMore(NibbleBits(LowNibble(nibble)), NibbleBits(LowNibble(n)), i, bit);
  }

  function ShiftIn(word: bv32, byte: bv8): bv32 { (word << 8) | (byte as bv32) }

  class Em4100Decoder {
    var state: DecoderState
    var bitCount: nat
    var nibble: bv8
    var nibbleLen: nat
    var nibbleCount: nat
    const data: array<bv8>

    // tokens handed to the listener, oldest first
    var tokens: seq<Token>

    ghost predicate Valid()
      reads this, data
    {
      && data.Length == 6
      && nibble < 16
      && bitCount < PREAMBLE
      && (state == DataState ==>
          nibbleLen <= 4 && nibbleCount <= 10 && bitCount == 0 &&
          (nibbleCount % 2 == 1 ==> data[nibbleCount / 2] & 0x0f == 0))
    }

    ghost function State(): Machine.State
      reads this, data
      requires Valid()
    {
      if state == PreambleState then Machine.Hunting(bitCount)
      else Machine.Reading(Unpack(data[..], nibbleCount), NibbleBits(LowNibble(nibble))[..nibbleLen])
    }

    constructor ()
      ensures Valid() && fresh(data)
      ensures State() == Machine.START && tokens == []
    {
      state := PreambleState;
      bitCount := 0;
      nibble := 0;
      nibbleLen := 0;
      nibbleCount := 0;
      data := new bv8[6];
      tokens := [];
    }

    method OnBit(isOne: bool)
      requires Valid()
      modifies this, data
      ensures Valid()
      ensures State() == Machine.Step(old(State()), isOne).state
      ensures Identities(tokens) == Identities(old(tokens)) + Machine.Step(old(State()), isOne).out
    {
      if state == PreambleState {
        if isOne {
          bitCount := bitCount + 1;
          if bitCount == 9 {
            state := DataState;
            bitCount := 0;
            nibbleCount := 0;
            nibbleLen := 0;
          }
        } else {
          bitCount := 0;
        }
      } else if nibbleLen == 4 {
        EndOfNibble(isOne);
      } else {
        var mask: bv8 := 1 << (3 - nibbleLen);
        assert mask == if nibbleLen == 0 then 8 else if nibbleLen == 1 then 4 else if nibbleLen == 2 then 2 else 1;
        PutNibbleBit(nibble, mask, isOne, nibbleLen);
        nibble := WithNibbleBit(nibble, mask, isOne);
        nibbleLen := nibbleLen + 1;
      }
    }

    method EndOfNibble(isOne: bool)
      requires Valid() && state == DataState && nibbleLen == 4
      modifies this, data
      ensures Valid()
      ensures State() == Machine.Step(old(State()), isOne).state
      ensures Identities(tokens) == Identities(old(tokens)) + Machine.Step(old(State()), isOne).out
    {
      ParityNibbleIsParity(nibble);
      NibbleOfItsBits(LowNibble(nibble));
      var parityOk := if nibbleCount == 10 then !isOne else (ParityNibble(nibble) == 1) == isOne;
      if parityOk {
        StoreNibble();
        if nibbleCount == 11 {
          assert Unpack(data[..], 11)[..10] == Unpack(data[..], 10);
          ReportIfColumnsMatch();
          state := PreambleState;
        }
      } else {
        state := PreambleState;
      }
    }

    /** A high nibble replaces the byte, a low one is added to it. */
    function Merged(byte: bv8): bv8
      reads this
    {
      if nibbleCount % 2 == 0 then nibble << 4 else byte | nibble
    }

    method MergeNibble()
      requires data.Length == 6 && nibbleCount <= 10 && nibble < 16
      modifies data
      ensures data[..] == old(data[..])[nibbleCount / 2 := Merged(old(data[nibbleCount / 2]))]
    {
      var byteNo := nibbleCount / 2;
      var byteHi := nibbleCount % 2;
      if byteHi == 0 {
        data[byteNo] := 0;
      }
      StoreHigh(data[byteNo], nibble);
      data[byteNo] := data[byteNo] | if byteHi != 0 then nibble else nibble << 4;
    }

    method StoreNibble()
      requires Valid() && state == DataState && nibbleLen == 4
      modifies this`nibbleLen, this`nibbleCount, data
      ensures nibbleLen == 0 && nibbleCount == old(nibbleCount) + 1
      ensures Unpack(data[..], nibbleCount) == old(Unpack(data[..], nibbleCount)) + [LowNibble(nibble)]
      ensures if old(nibbleCount) % 2 == 0 then data[old(nibbleCount) / 2] == nibble << 4
              else HighNibble(data[old(nibbleCount) / 2]) == HighNibble(old(data[nibbleCount / 2]))
    {
      ghost var before, n := data[..], nibbleCount;
      MergeNibble();
      UnpackMerged(before, data[..], nibble, n);
      assert data[..][n / 2] == data[n / 2];
      nibbleLen := 0;
      nibbleCount := nibbleCount + 1;
    }

    method ReportIfColumnsMatch()
      requires nibble < 16 && data.Length == 6 && data[5] == nibble << 4
      modifies this`tokens
      ensures var rows := Unpack(data[..], 10);
              Identities(tokens) == Identities(old(tokens)) + if LowNibble(nibble) == Columns(rows) then [rows] else []
    {
      var colsParity := ColumnParity(data);
      CompareColumns(colsParity, data[5], nibble);
      if colsParity == data[5] {
        var word := data[1] as bv32;
        word := ShiftIn(word, data[2]);
        word := ShiftIn(word, data[3]);
        word := ShiftIn(word, data[4]);
        WordOfBytes(data[..], word);
        tokens := tokens + [Token(data[0], word)];
      }
    }
  }

  lemma NibbleOfItsBits(n: Nibble)
    ensures NibbleOfBits(NibbleBits(n)) == n && NibbleBits(n)[..4] == NibbleBits(n) && NibbleBits(n)[..0] == []
  {
  }

  lemma UnpackSnoc(data: seq<bv8>, data': seq<bv8>, nibble: bv8, n: nat)
    requires |data| == |data'| == 6 && n < 11
    requires forall i :: 0 <= i < n / 2 ==> data[i] == data'[i]
    requires if n % 2 == 0 then HighNibble(data'[n / 2]) == LowNibble(nibble)
             else HighNibble(data'[n / 2]) == HighNibble(data[n / 2]) && LowNibble(data'[n / 2]) == LowNibble(nibble)
    ensures Unpack(data', n + 1) == Unpack(data, n) + [LowNibble(nibble)]
  {
  }

  lemma UnpackMerged(before: seq<bv8>, after: seq<bv8>, nibble: bv8, n: nat)
    requires |before| == 6 && n < 11 && nibble < 16
    requires n % 2 == 1 ==> before[n / 2] & 0x0f == 0
    requires after == before[n / 2 := if n % 2 == 0 then nibble << 4 else before[n / 2] | nibble]
    ensures Unpack(after, n + 1) == Unpack(before, n) + [LowNibble(nibble)]
    ensures n % 2 == 1 ==> HighNibble(after[n / 2]) == HighNibble(before[n / 2])
  {
    StoreHigh(0, nibble);
    if n % 2 == 1 { StoreLow(before[n / 2], nibble); }
    UnpackSnoc(before, after, nibble, n);
  }

  method ColumnParity(data: array<bv8>) returns (colsParity: bv8)
    requires data.Length == 6
    ensures HighNibble(colsParity) == Columns(Unpack(data[..], 10))
    ensures colsParity & 0x0f == 0
  {
    colsParity := 0;
    for i := 0 to 5
      invariant HighNibble(colsParity) == Columns(Unpack(data[..], 2 * i))
      invariant colsParity & 0x0f == 0
    {
      ColumnStep(data[..], i, colsParity);
      colsParity := colsParity ^ (data[i] & 0xf0);
      colsParity := colsParity ^ (data[i] << 4);
    }
  }

  lemma ColumnStep(data: seq<bv8>, i: nat, p: bv8)
    requires i < |data|
    requires HighNibble(p) == Columns(Unpack(data, 2 * i)) && p & 0x0f == 0
    ensures var q := p ^ (data[i] & 0xf0) ^ (data[i] << 4);
            HighNibble(q) == Columns(Unpack(data, 2 * i + 2)) && q & 0x0f == 0
  {
    var ns := Unpack(data, 2 * i + 2);
    assert ns[..2 * i + 1][..2 * i] == Unpack(data, 2 * i);
    assert ns[2 * i] == HighNibble(data[i]) && ns[2 * i + 1] == LowNibble(data[i]);
    assert Columns(ns) == NibbleXor(NibbleXor(Columns(ns[..2 * i + 1][..2 * i]), ns[2 * i]), ns[2 * i + 1]);
    XorBytes(p, data[i]);
  }

  lemma XorBytes(p: bv8, d: bv8)
    requires p & 0x0f == 0
    ensures var q := p ^ (d & 0xf0) ^ (d << 4);
            q & 0x0f == 0 && HighNibble(q) == NibbleXor(NibbleXor(HighNibble(p), HighNibble(d)), LowNibble(d))
  {
  }

  lemma CompareColumns(p: bv8, d: bv8, nibble: bv8)
    requires p & 0x0f == 0 && nibble < 16 && d == nibble << 4
    ensures p == d <==> HighNibble(p) == LowNibble(nibble)
  {
  }

  /** Four bytes shifted in, most significant first. */
  function WordOf(a: bv8, b: bv8, c: bv8, d: bv8): bv32 {
    ShiftIn(ShiftIn(ShiftIn(a as bv32, b), c), d)
  }

  lemma BytesOfWord(a: bv8, b: bv8, c: bv8, d: bv8)
    ensures ByteOf(WordOf(a, b, c, d), 24) == a && ByteOf(WordOf(a, b, c, d), 16) == b
    ensures ByteOf(WordOf(a, b, c, d), 8) == c && ByteOf(WordOf(a, b, c, d), 0) == d
  {
  }

  lemma WordOfBytes(data: seq<bv8>, word: bv32)
    requires |data| == 6
    requires word == WordOf(data[1], data[2], data[3], data[4])
    ensures IdentityOf(Token(data[0], word)) == Unpack(data, 10)
  {
    UnpackTen(data);
    BytesOfWord(data[1], data[2], data[3], data[4]);
  }

  lemma UnpackTen(data: seq<bv8>)
    requires |data| == 6
    ensures Unpack(data, 10) == [HighNibble(data[0]), LowNibble(data[0]), HighNibble(data[1]), LowNibble(data[1]),
                                 HighNibble(data[2]), LowNibble(data[2]), HighNibble(data[3]), LowNibble(data[3]),
                                 HighNibble(data[4]), LowNibble(data[4])]
  {
  }

}
