/** Bits of machine words and the shared nibble tables. */
module DataUtils {
  import opened Em4100Frame

  function HighNibble(b: bv8): Nibble {
    Nibble(b & 0x80 != 0, b & 0x40 != 0, b & 0x20 != 0, b & 0x10 != 0)
  }

  function LowNibble(b: bv8): Nibble {
    Nibble(b & 0x08 != 0, b & 0x04 != 0, b & 0x02 != 0, b & 0x01 != 0)
  }

  const PARITY: bv16 := 27030

  function ParityNibble(nibble: bv8): bv16 {
    (PARITY >> ((nibble & 0x0f) as int)) & 1
  }

  const REVERSED_NIBBLE: seq<bv8> := [
    0x00, 0x08, 0x04, 0x0c, 0x02, 0x0a, 0x06, 0x0e,
    0x01, 0x09, 0x05, 0x0d, 0x03, 0x0b, 0x07, 0x0f
  ]

  /** The parity table holds the parity of every nibble. */
  lemma ParityNibbleIsParity(nibble: bv8)
    ensures ParityNibble(nibble) == if Parity(LowNibble(nibble)) then 1 else 0
  {
    var n := nibble & 0x0f;
    assert n < 16;
    if n == 0 {} else if n == 1 {} else if n == 2 {} else if n == 3 {}
    else if n == 4 {} else if n == 5 {} else if n == 6 {} else if n == 7 {}
    else if n == 8 {} else if n == 9 {} else if n == 10 {} else if n == 11 {}
    else if n == 12 {} else if n == 13 {} else if n == 14 {} else { assert n == 15; }
  }

  lemma ReverseNibbleReverses(nibble: bv8)
    requires nibble < 16
    ensures var n := LowNibble(nibble); LowNibble(REVERSED_NIBBLE[nibble as int]) == Nibble(n.b0, n.b1, n.b2, n.b3)
  {
    if nibble == 0 {} else if nibble == 1 {} else if nibble == 2 {} else if nibble == 3 {}
    else if nibble == 4 {} else if nibble == 5 {} else if nibble == 6 {} else if nibble == 7 {}
    else if nibble == 8 {} else if nibble == 9 {} else if nibble == 10 {} else if nibble == 11 {}
    else if nibble == 12 {} else if nibble == 13 {} else if nibble == 14 {} else { assert nibble == 15; }
  }

  // ---- Bits of word buffers ----

  predicate WordBit(w: bv32, k: nat)
    requires k < 32
  {
    (w >> k) & 1 == 1
  }

  function WordBits(w: bv32): (bits: seq<bool>)
    ensures |bits| == 32
  {
    seq(32, k requires 0 <= k < 32 => WordBit(w, k))
  }

  /** The bits of a buffer of 32-bit words, least significant first. */
  function BufferBits(words: seq<bv32>): (bits: seq<bool>)
    ensures |bits| == 32 * |words|
  {
    seq(32 * |words|, k requires 0 <= k < 32 * |words| => WordBit(words[k / 32], k % 32))
  }

  function WithBit(w: bv32, k: nat, bit: bool): bv32
    requires k < 32
  {
    if bit then w | (1 << k) else w & !(1 << k)
  }

  // The same with the bit number held in a machine word, where the facts about shifts are decided bit by bit.

  predicate WordBitAt(w: bv32, k: bv6)
    requires k < 32
  {
    (w >> k) & 1 == 1
  }

  function WithBitAt(w: bv32, k: bv6, bit: bool): bv32
    requires k < 32
  {
    if bit then w | (1 << k) else w & !(1 << k)
  }

  lemma SetBitAt(w: bv32, k: bv6, j: bv6)
    requires k < 32 && j < 32
    ensures WordBitAt(w | (1 << k), j) == (j == k || WordBitAt(w, j))
  {
  }

  lemma ClearBitAt(w: bv32, k: bv6, j: bv6)
    requires k < 32 && j < 32
    ensures WordBitAt(w & !(1 << k), j) == (j != k && WordBitAt(w, j))
  {
  }

  lemma WordBitIsAt(w: bv32, k: nat)
    requires k < 32
    ensures (k as bv6) as nat == k && (k as bv6) < 32
    ensures WordBit(w, k) == WordBitAt(w, k as bv6)
  {
  }

  lemma WithBitIsAt(w: bv32, k: nat, bit: bool)
    requires k < 32
    ensures (k as bv6) < 32
    ensures WithBit(w, k, bit) == WithBitAt(w, k as bv6, bit)
  {
  }

  lemma WithBitAtChangesOne(w: bv32, k: bv6, bit: bool, j: bv6)
    requires k < 32 && j < 32
    ensures WordBitAt(WithBitAt(w, k, bit), j) == if j == k then bit else WordBitAt(w, j)
  {
    if bit { SetBitAt(w, k, j); } else { ClearBitAt(w, k, j); }
  }

  lemma WithBitChangesOne(w: bv32, k: nat, bit: bool, j: nat)
    requires k < 32 && j < 32
    ensures WordBit(WithBit(w, k, bit), j) == if j == k then bit else WordBit(w, j)
  {
    WordBitIsAt(w, j);
    WordBitIsAt(WithBit(w, k, bit), j);
    WithBitIsAt(w, k, bit);
    WithBitAtChangesOne(w, k as bv6, bit, j as bv6);
    WordBitIsAt(w, k);
  }

  method PutBit(buffer: array<bv32>, bitOffset: nat, bit: bool) returns (written: nat)
    requires bitOffset < 32 * buffer.Length
    modifies buffer
    ensures written == 1
    ensures BufferBits(buffer[..]) == BufferBits(old(buffer[..]))[bitOffset := bit]
  {
    var idx := bitOffset / 32;
    ghost var before := buffer[..];
    buffer[idx] := WithBit(buffer[idx], bitOffset % 32, bit);
    forall k | 0 <= k < 32 * |before|
      ensures BufferBits(buffer[..])[k] == BufferBits(before)[bitOffset := bit][k]
    {
      WithBitChangesOne(before[idx], bitOffset % 32, bit, k % 32);
    }
    written := 1;
  }

  function HalfBit(w: bv16, k: nat): bool
    requires k < 16
  {
    w & (1 << k) != 0
  }

  /** The `n` low bits of a half word, least significant first. */
  function LsbFirst(w: bv16, n: nat): (bits: seq<bool>)
    requires n <= 16
    ensures |bits| == n
  {
    seq(n, k requires 0 <= k < n => HalfBit(w, k))
  }

  function MsbFirst(w: bv16, n: nat): (bits: seq<bool>)
    requires n <= 16
    ensures |bits| == n
  {
    seq(n, k requires 0 <= k < n => HalfBit(w, n - 1 - k))
  }

  lemma LsbFirstAt(w: bv16, n: nat, i: nat)
    requires i < n <= 16
    ensures LsbFirst(w, n)[i] == HalfBit(w, i)
  {
  }

  lemma MsbFirstAt(w: bv16, n: nat, i: nat)
    requires 0 < i <= n <= 16
    ensures MsbFirst(w, n)[n - i] == HalfBit(w, i - 1)
  {
  }

  /** Overwrites part of a sequence. */
  function Overwrite<T>(s: seq<T>, at: nat, part: seq<T>): (r: seq<T>)
    requires at + |part| <= |s|
    ensures |r| == |s|
  {
    s[..at] + part + s[at + |part|..]
  }

  /** The first `k` elements of `part` are written. */
  predicate Written<T(==)>(now: seq<T>, before: seq<T>, at: nat, part: seq<T>, k: nat) {
    at + |part| <= |before| && k <= |part| && now == Overwrite(before, at, part[..k])
  }

  lemma NothingWritten<T>(before: seq<T>, at: nat, part: seq<T>)
    requires at + |part| <= |before|
    ensures Written(before, before, at, part, 0)
  {
  }

  lemma AllWritten<T>(now: seq<T>, before: seq<T>, at: nat, part: seq<T>)
    requires Written(now, before, at, part, |part|)
    ensures now == Overwrite(before, at, part)
  {
    assert part[..|part|] == part;
  }

  lemma WriteOneMore<T>(now: seq<T>, before: seq<T>, at: nat, part: seq<T>, k: nat)
    requires k < |part| && Written(now, before, at, part, k)
    ensures at + k < |now| && Written(now[at + k := part[k]], before, at, part, k + 1)
  {
  }

  method PutBitsMsb(buffer: array<bv32>, bitOffset: nat, bits: bv16, bitsCount: nat) returns (written: nat)
    requires bitsCount <= 16 && bitOffset + bitsCount <= 32 * buffer.Length
    modifies buffer
    ensures written == bitsCount
    ensures BufferBits(buffer[..]) == Overwrite(BufferBits(old(buffer[..])), bitOffset, MsbFirst(bits, bitsCount))
  {
    ghost var before, part := BufferBits(buffer[..]), MsbFirst(bits, bitsCount);
    NothingWritten(before, bitOffset, part);
    var i := bitsCount;
    ghost var k := 0;
    while i > 0
      invariant 0 <= i <= bitsCount && k == bitsCount - i
      invariant Written(BufferBits(buffer[..]), before, bitOffset, part, k)
    {
      MsbFirstAt(bits, bitsCount, i);
      WriteOneMore(BufferBits(buffer[..]), before, bitOffset, part, k);
      var _ := PutBit(buffer, bitOffset + bitsCount - i, HalfBit(bits, i - 1));
      i, k := i - 1, k + 1;
    }
    AllWritten(BufferBits(buffer[..]), before, bitOffset, part);
    written := bitsCount;
  }

  /** The twin of `PutBitsMsb` that the EEPROM generator uses. */
  method AddBits(buffer: array<bv32>, bitOffset: nat, bits: bv16, bitsCount: nat) returns (written: nat)
    requires bitsCount <= 16 && bitOffset + bitsCount <= 32 * buffer.Length
    modifies buffer
    ensures written == bitsCount
    ensures BufferBits(buffer[..]) == Overwrite(BufferBits(old(buffer[..])), bitOffset, LsbFirst(bits, bitsCount))
  {
    ghost var before, part := BufferBits(buffer[..]), LsbFirst(bits, bitsCount);
    NothingWritten(before, bitOffset, part);
    written := 0;
    for i := 0 to bitsCount
      invariant written == i && Written(BufferBits(buffer[..]), before, bitOffset, part, i)
    {
      LsbFirstAt(bits, bitsCount, i);
      WriteOneMore(BufferBits(buffer[..]), before, bitOffset, part, i);
      var one := PutBit(buffer, bitOffset + written, HalfBit(bits, i));
      written := written + one;
    }
    AllWritten(BufferBits(buffer[..]), before, bitOffset, part);
  }
}
