/** The 64-bit EM4100 frame as a bit sequence: nine ones, ten rows of four data bits and an even
    parity bit, four even column parity bits, and a zero stop bit. */
module Em4100Frame {

  datatype Nibble = Nibble(b3: bool, b2: bool, b1: bool, b0: bool)

  function Xor(a: bool, b: bool): bool { a != b }

  function Parity(n: Nibble): bool { Xor(Xor(n.b3, n.b2), Xor(n.b1, n.b0)) }

  function NibbleXor(m: Nibble, n: Nibble): Nibble {
    Nibble(Xor(m.b3, n.b3), Xor(m.b2, n.b2), Xor(m.b1, n.b1), Xor(m.b0, n.b0))
  }

  const ZERO_NIBBLE := Nibble(false, false, false, false)

  function NibbleBits(n: Nibble): seq<bool> { [n.b3, n.b2, n.b1, n.b0] }

  function NibbleOfBits(bits: seq<bool>): Nibble
    requires |bits| == 4
  {
    Nibble(bits[0], bits[1], bits[2], bits[3])
  }

  function RowBits(n: Nibble): seq<bool> { [n.b3, n.b2, n.b1, n.b0, Parity(n)] }

  function Rows(ns: seq<Nibble>): (bits: seq<bool>)
    ensures |bits| == 5 * |ns|
  {
    if |ns| == 0 then [] else Rows(ns[..|ns| - 1]) + RowBits(ns[|ns| - 1])
  }

  /** Column parity of any number of rows. */
  function Columns(ns: seq<Nibble>): Nibble {
    if |ns| == 0 then ZERO_NIBBLE else NibbleXor(Columns(ns[..|ns| - 1]), ns[|ns| - 1])
  }

  function Ones(n: nat): (bits: seq<bool>)
    ensures |bits| == n && forall i :: 0 <= i < n ==> bits[i]
  {
    seq(n, _ => true)
  }

  function Trailer(ns: seq<Nibble>): (bits: seq<bool>)
    ensures |bits| == 5
  {
    NibbleBits(Columns(ns)) + [false]
  }

  const PREAMBLE: nat := 9
  const ROWS: nat := 10
  const FRAME: nat := 64

  /** Two nibbles of customer id followed by eight nibbles of token, most significant first. */
  type Identity = ns: seq<Nibble> | |ns| == ROWS witness seq(ROWS, _ => ZERO_NIBBLE)

  function Frame(id: Identity): (bits: seq<bool>)
    ensures |bits| == FRAME
  {
    Ones(PREAMBLE) + Rows(id) + Trailer(id)
  }
}
