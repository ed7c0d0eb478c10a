/** The firmware's sample buffer, read as bits (captured levels) or as nibbles (pulses to send). */
module IoBuffer {
  import opened UsbLine

  const SAMPLE_BUFFER_SIZE: nat := 192
  const PULSE_VECTOR_SIZE: nat := 7

  // ---- Captured bits ----

  /** Least significant bit first. */
  function IoBits(buffer: seq<bv8>): (bits: seq<bool>)
    ensures |bits| == 8 * |buffer|
  {
    seq(8 * |buffer|, k requires 0 <= k < 8 * |buffer| => Bit(buffer[k / 8], k % 8))
  }

  function WithBit(b: bv8, k: nat, bit: bool): bv8
    requires k < 8
  {
    if bit then b | BitMask(k) else b & !BitMask(k)
  }

  lemma WithBitSets(b: bv8, k: nat, j: nat)
    requires k < 8 && j < 8
    ensures Bit(WithBit(b, k, true), j) == (j == k || Bit(b, j))
  {
  }

  lemma WithBitClears(b: bv8, k: nat, j: nat)
    requires k < 8 && j < 8
    ensures Bit(WithBit(b, k, false), j) == (j != k && Bit(b, j))
  {
  }

  lemma WithBitInBuffer(buffer: seq<bv8>, k: nat, bit: bool)
    requires k < 8 * |buffer|
    ensures IoBits(buffer[k / 8 := WithBit(buffer[k / 8], k % 8, bit)]) == IoBits(buffer)[k := bit]
  {
    var after := buffer[k / 8 := WithBit(buffer[k / 8], k % 8, bit)];
    forall j | 0 <= j < 8 * |buffer| ensures IoBits(after)[j] == IoBits(buffer)[k := bit][j] {
      if j / 8 == k / 8 {
        if bit { WithBitSets(buffer[k / 8], k % 8, j % 8); } else { WithBitClears(buffer[k / 8], k % 8, j % 8); }
      }
    }
  }

  /** The sampler's write: one bit, nothing else. */
  method StoreBit(buffer: array<bv8>, k: nat, bit: bool)
    requires k < 8 * buffer.Length
    modifies buffer
    ensures IoBits(buffer[..]) == IoBits(old(buffer[..]))[k := bit]
  {
    WithBitInBuffer(buffer[..], k, bit);
    ghost var before := buffer[..];
    buffer[k / 8] := WithBit(buffer[k / 8], k % 8, bit);
    assert buffer[..] == before[k / 8 := WithBit(before[k / 8], k % 8, bit)];
  }

  // ---- Pulses to send ----

  /** Nibble `k`: the low one of a byte comes first. */
  function PulseCode(buffer: seq<bv8>, k: nat): bv8
    requires k < 2 * |buffer|
  {
    if k % 2 == 1 then buffer[k / 2] >> 4 else buffer[k / 2] & 0x0f
  }

  /** Index into the vector of pulse lengths. */
  function LengthIndex(code: bv8): (index: nat)
    ensures index <= 7
  {
    (code & 0x07) as nat
  }

  predicate HighLevel(code: bv8) { code & 0x08 != 0 }

  const STOP: nat := 7

  /** One level of the waveform and its duration in timer periods. */
  datatype Pulse = Pulse(high: bool, length: nat)

  /** A byte of 0 makes the compare register wrap to 255. */
  function TimerPeriods(length: bv8): nat { if length == 0 then 256 else length as nat }

  function PulseOf(vector: seq<bv8>, code: bv8): Pulse
    requires LengthIndex(code) < |vector|
  {
    Pulse(HighLevel(code), TimerPeriods(vector[LengthIndex(code)]))
  }

  /** No stop code among the first `n` nibbles. */
  predicate Playable(buffer: seq<bv8>, n: nat) {
    n <= 2 * |buffer| && forall k :: 0 <= k < n ==> LengthIndex(PulseCode(buffer, k)) != STOP
  }

  /** The waveform of the first `n` nibbles. */
  function Played(buffer: seq<bv8>, vector: seq<bv8>, n: nat): (wave: seq<Pulse>)
    requires |vector| == PULSE_VECTOR_SIZE && Playable(buffer, n)
    ensures |wave| == n
  {
    seq(n, k requires 0 <= k < n => PulseOf(vector, PulseCode(buffer, k)))
  }

  /** Replay ends behind nibble `n`: at a stop code, or at the end of the buffer. */
  predicate EndsAt(buffer: seq<bv8>, n: nat) {
    && Playable(buffer, n)
    && (n == 2 * |buffer| || LengthIndex(PulseCode(buffer, n)) == STOP)
  }

  lemma EndsOnce(buffer: seq<bv8>, m: nat, n: nat)
    requires EndsAt(buffer, m) && EndsAt(buffer, n)
    ensures m == n
  {
  }
}
