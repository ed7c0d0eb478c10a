/** What a transfer has done: the signal decided by each conversion, the wait for an edge, the signals captured and the
    pulses sent. Each step of the firmware extends such a history. */
module TransferHistory {
  import opened IoBuffer
  import opened Readings

  // flags of TRANSFER_START
  const FIRST_ON_START: nat := 0x8000
  const START_ON_EDGE: nat := 0x4000
  const FALLING_EDGE: nat := 0x2000
  const TX_MODE: nat := 0x1000

  predicate Flag(wIndex: nat, mask: nat)
    requires mask > 0
  {
    wIndex / mask % 2 == 1
  }

  const RX_SAMPLES: nat := 8 * SAMPLE_BUFFER_SIZE
  const TX_SAMPLES: nat := 2 * SAMPLE_BUFFER_SIZE

  /** Length of a timer period in periods of the carrier, which clocks the timer. */
  function Periods(value: nat): (n: nat)
    ensures n > 0
  {
    if value == 0 then 256 else value
  }

  /** Where the timer begins to count. */
  function FirstCount(value: nat, compareMatchOnStart: bool): (n: nat)
    ensures n < Periods(value)
  {
    if compareMatchOnStart && value > 2 then value - 2 else 0
  }

  /** What has happened since the transfer was started. */
  datatype History = History(
    uploaded: bool,         // the host has written to a buffer
    initial: seq<bv8>,      // the sample buffer at the start
    allowed: nat,           // the timeout
    falling: bool,
    tx: bool,
    lead: nat,              // length of the first timer period behind the edge
    spacing: nat,           // length of the timer periods of a reception behind that
    readings: seq<nat>,     // of all conversions
    trace: seq<int>,        // the signal after each conversion
    waits: nat,             // conversions waited for the edge, the one with the edge included
    waited: nat,            // periods of the carrier from the start of the wait to the last of them
    ticks: nat,             // timer interrupts
    wave: seq<Pulse>,       // pulses asked for by the nibbles replayed
    shown: seq<Pulse>)      // what the coil was and how long, for each timer period behind the edge that has ended

  /** The signals are those that the readings decide. */
  predicate Follows(h: History) {
    |h.trace| == |h.readings| && forall k :: 0 <= k < |h.trace| ==> h.trace[k] == Decided(h.readings)[k]
  }

  lemma FollowsIs(h: History)
    ensures Follows(h) <==> h.trace == Decided(h.readings)
  {
  }

  /** One more conversion. */
  lemma FollowsNext(h: History, reading: nat, level: int)
    requires Follows(h) && level == Decide(SignalBefore(h.trace, |h.trace|), reading)
    ensures h.trace + [level] == Decided(h.readings + [reading])
  {
    FollowsIs(h);
    DecidedNext(h.readings, reading);
  }

  function Started(io: seq<bv8>, timeout: nat, value: nat, first: bool, falling: bool, tx: bool): History {
    var lead := Periods(value) - FirstCount(value, first);
    History(false, io, timeout, falling, tx, lead, Periods(value), [], [], 0, 0, 0, [], [])
  }

  function Fresh(io: seq<bv8>, timeout: nat, wIndex: nat): History {
    Started(io, timeout, wIndex % 256, Flag(wIndex, FIRST_ON_START), Flag(wIndex, FALLING_EDGE), Flag(wIndex, TX_MODE))
  }

  /** What the words of the request mean, bit by bit. */
  predicate AsRequested(h: History, timeout: nat, wIndex: nat) {
    var value := wIndex % 256;
    && h.allowed == timeout && h.tx == (wIndex / 0x1000 % 2 == 1) && h.falling == (wIndex / 0x2000 % 2 == 1)
    && h.spacing == (if value == 0 then 256 else value)
    && h.lead == (if wIndex / 0x8000 % 2 == 1 && value > 2 then 2 else h.spacing)
  }

  lemma RequestMeans(io: seq<bv8>, timeout: nat, wIndex: nat)
    ensures AsRequested(Fresh(io, timeout, wIndex), timeout, wIndex)
  {
  }

  lemma StartedWaits(io: seq<bv8>, timeout: nat, value: nat, first: bool, falling: bool, tx: bool)
    requires |io| == SAMPLE_BUFFER_SIZE
    ensures Waiting(Started(io, timeout, value, first, falling, tx), io, timeout)
  {
  }

  /** Later in the same transfer. */
  predicate Continues(g: History, h: History) {
    && h.uploaded == g.uploaded && h.initial == g.initial && h.allowed == g.allowed && h.falling == g.falling && h.tx == g.tx
    && h.lead == g.lead && h.spacing == g.spacing && g.shown <= h.shown
    && g.readings <= h.readings && g.trace <= h.trace && g.wave <= h.wave
    && g.waits <= h.waits && g.waited <= h.waited && g.ticks <= h.ticks
  }

  lemma ContinuesOn(f: History, g: History, h: History)
    requires Continues(f, g) && Continues(g, h)
    ensures Continues(f, h)
  {
  }

  /** The coil during a reception: off, with conversions at equal distances but for the first. */
  function Sampled(lead: nat, spacing: nat, n: nat): (shown: seq<Pulse>)
    ensures |shown| == n
  {
    seq(n, k => Pulse(true, if k == 0 then lead else spacing))
  }

  /** The coil during a transmission: off, then the waveform. */
  function Replay(lead: nat, wave: seq<Pulse>): seq<Pulse> { [Pulse(true, lead)] + wave }

  lemma ReplayNext(lead: nat, wave: seq<Pulse>, pulse: Pulse)
    ensures Replay(lead, wave) + [pulse] == Replay(lead, wave + [pulse])
  {
  }

  /** The sample buffer, as bits, after `offset` captured signals: those in order, the rest as it was. */
  function Recorded(h: History, offset: nat): (bits: seq<bool>)
    requires |h.initial| == SAMPLE_BUFFER_SIZE && |h.trace| >= h.waits + offset && offset <= RX_SAMPLES
    ensures |bits| == RX_SAMPLES
  {
    seq(RX_SAMPLES, k requires 0 <= k < RX_SAMPLES =>
      if k < offset then h.trace[h.waits + k] != 0 else IoBits(h.initial)[k])
  }

  predicate Captured(h: History, io: seq<bv8>, offset: nat) {
    && |io| == |h.initial| == SAMPLE_BUFFER_SIZE && Signals(h.trace)
    && |h.trace| == h.waits + offset && offset <= RX_SAMPLES
    && IoBits(io) == Recorded(h, offset)
  }

  /** What was sent is the beginning of the uploaded waveform. */
  predicate Replayed(h: History, io: seq<bv8>, vector: seq<bv8>, offset: nat) {
    && |vector| == PULSE_VECTOR_SIZE && io == h.initial
    && Playable(io, offset) && h.wave == Played(io, vector, offset)
  }

  /** While waiting there is a conversion every four periods of the carrier. */
  predicate Paced(h: History) { h.waited == 4 * h.waits }

  /** The first edge came at conversion `waits - 1`, no later than the timeout allows. */
  predicate Triggered(h: History) {
    && 1 <= h.waits <= |h.trace| && h.waits <= h.allowed + 1 && Paced(h)
    && EdgeAt(h.falling, h.trace, h.waits - 1) && NoEdge(h.falling, h.trace, h.waits - 1)
  }

  /** Still waiting: no edge yet, nothing captured or sent. */
  predicate Waiting(h: History, io: seq<bv8>, timeout: nat) {
    && h.wave == [] && h.shown == [] && h.ticks == 0 && io == h.initial && |io| == SAMPLE_BUFFER_SIZE && Paced(h)
    && |h.trace| == h.waits && h.waits + timeout == h.allowed && Signals(h.trace) && NoEdge(h.falling, h.trace, h.waits)
  }

  /** None of the conversions allowed was an edge. */
  predicate NoEdgeInTime(h: History) {
    |h.trace| == h.waits == h.allowed + 1 && NoEdge(h.falling, h.trace, h.waits)
  }

  predicate TimedOut(h: History, io: seq<bv8>) {
    && h.wave == [] && h.shown == [] && h.ticks == 0 && NoEdgeInTime(h) && Paced(h)
    && (!h.uploaded ==> io == h.initial)
  }

  predicate Receiving(h: History, io: seq<bv8>, offset: nat) {
    !h.tx && h.wave == [] && h.ticks == 0 && Triggered(h) && Captured(h, io, offset)
  }

  lemma TriggeredInTime(h: History)
    requires Triggered(h)
    ensures !NoEdgeInTime(h)
  {
    assert EdgeAt(h.falling, h.trace, h.waits - 1);
  }

  predicate Sending(h: History, io: seq<bv8>, vector: seq<bv8>, offset: nat) {
    && h.tx && |h.trace| == h.waits && h.ticks == offset && |io| == SAMPLE_BUFFER_SIZE
    && Triggered(h) && Replayed(h, io, vector, offset)
  }

  /** All 1536 signals are there. */
  predicate Received(h: History, io: seq<bv8>) {
    && !h.tx && h.wave == [] && h.ticks == 0 && Triggered(h) && |h.trace| == h.waits + RX_SAMPLES
    && h.shown == Sampled(h.lead, h.spacing, RX_SAMPLES)
    && (!h.uploaded ==> Captured(h, io, RX_SAMPLES))
  }

  /** The coil has shown the whole waveform, and nothing behind it. */
  predicate Sent(h: History, io: seq<bv8>, vector: seq<bv8>, offset: nat) {
    && h.tx && Triggered(h) && |h.trace| == h.waits && h.ticks == offset + 1 && h.shown == Replay(h.lead, h.wave)
    && (!h.uploaded ==> |io| == SAMPLE_BUFFER_SIZE && Replayed(h, io, vector, offset) && EndsAt(io, offset))
  }

  /** One more signal stored behind those captured. */
  lemma RecordOne(h: History, offset: nat, level: int)
    requires |h.initial| == SAMPLE_BUFFER_SIZE && |h.trace| == h.waits + offset && offset < RX_SAMPLES
    ensures var g := h.(trace := h.trace + [level]); Recorded(g, offset + 1) == Recorded(h, offset)[offset := level != 0]
  {
    var g := h.(trace := h.trace + [level]);
    var a, b := Recorded(g, offset + 1), Recorded(h, offset)[offset := level != 0];
    assert forall k :: 0 <= k < |a| ==> a[k] == b[k];
  }

  /** What a further conversion does not change. */
  lemma EdgesKept(falling: bool, trace: seq<int>, level: int, k: nat)
    requires k < |trace|
    ensures EdgeAt(falling, trace + [level], k) <==> EdgeAt(falling, trace, k)
  {
  }

  lemma NoEdgeKept(falling: bool, trace: seq<int>, level: int, n: nat)
    requires n <= |trace|
    ensures NoEdge(falling, trace + [level], n) <==> NoEdge(falling, trace, n)
  {
    forall k | 0 <= k < n ensures EdgeAt(falling, trace + [level], k) <==> EdgeAt(falling, trace, k) {
      EdgesKept(falling, trace, level, k);
    }
  }

  lemma NoEdgeNext(falling: bool, trace: seq<int>, n: nat)
    requires n < |trace|
    ensures NoEdge(falling, trace, n + 1) <==> NoEdge(falling, trace, n) && !EdgeAt(falling, trace, n)
  {
  }

  lemma EdgeAtLast(falling: bool, trace: seq<int>, level: int)
    ensures EdgeAt(falling, trace + [level], |trace|) == Edge(falling, SignalBefore(trace, |trace|), level)
  {
  }

  lemma TriggeredKept(h: History, level: int)
    requires Triggered(h)
    ensures Triggered(h.(trace := h.trace + [level]))
  {
    EdgesKept(h.falling, h.trace, level, h.waits - 1);
    NoEdgeKept(h.falling, h.trace, level, h.waits - 1);
  }

  function StoredOne(h: History, reading: nat, level: int, shown: Pulse): History {
    h.(readings := h.readings + [reading], trace := h.trace + [level], shown := h.shown + [shown])
  }

  /** A conversion in the receiving state. */
  lemma ReceiveOne(h: History, io: seq<bv8>, offset: nat, reading: nat, level: int, shown: Pulse, after: seq<bv8>)
    requires Receiving(h, io, offset) && offset < RX_SAMPLES && -1 <= level <= 1
    requires IoBits(after) == IoBits(io)[offset := level != 0]
    requires h.shown + [shown] == Sampled(h.lead, h.spacing, offset + 1)
    ensures var g := StoredOne(h, reading, level, shown);
            Receiving(g, after, offset + 1) && (offset + 1 == RX_SAMPLES ==> Received(g, after))
  {
    RecordOne(h, offset, level);
    TriggeredKept(h, level);
    assert |IoBits(after)| == 8 * |after|;
  }

  lemma SampledNext(lead: nat, spacing: nat, n: nat)
    requires n > 0
    ensures Sampled(lead, spacing, n) + [Pulse(true, spacing)] == Sampled(lead, spacing, n + 1)
    ensures [] + [Pulse(true, lead)] == Sampled(lead, spacing, 1)
  {
  }

  /** A conversion in the waiting state, `passed` periods of the carrier after the one before. */
  function WaitedOne(h: History, reading: nat, level: int, passed: nat): History {
    h.(readings := h.readings + [reading], trace := h.trace + [level], waits := h.waits + 1, waited := h.waited + passed)
  }

  /** It starts the operation exactly if it is an edge, and else it is one of the conversions allowed. */
  lemma WaitOne(h: History, io: seq<bv8>, vector: seq<bv8>, timeout: nat, reading: nat, level: int)
    requires Waiting(h, io, timeout) && |vector| == PULSE_VECTOR_SIZE && -1 <= level <= 1
    ensures var g := WaitedOne(h, reading, level, 4);
            if Edge(h.falling, SignalBefore(h.trace, h.waits), level) then
              if h.tx then Sending(g, io, vector, 0) else Receiving(g, io, 0)
            else if timeout > 0 then Waiting(g, io, timeout - 1) else TimedOut(g, io)
  {
    var g := WaitedOne(h, reading, level, 4);
    assert g.trace[g.waits - 1] == level;
    assert SignalBefore(g.trace, g.waits - 1) == SignalBefore(h.trace, h.waits);
    NoEdgeKept(h.falling, h.trace, level, h.waits);
    NoEdgeNext(h.falling, g.trace, h.waits);
    assert IoBits(io) == Recorded(g, 0);
  }

  /** A timer interrupt that begins a pulse. */
  lemma SendOne(h: History, io: seq<bv8>, vector: seq<bv8>, offset: nat, shown: Pulse)
    requires Sending(h, io, vector, offset) && offset < TX_SAMPLES && LengthIndex(PulseCode(io, offset)) != STOP
    ensures Sending(Begun(h, PulseOf(vector, PulseCode(io, offset)), shown), io, vector, offset + 1)
  {
    assert Played(io, vector, offset + 1) == Played(io, vector, offset) + [PulseOf(vector, PulseCode(io, offset))];
  }

  function Begun(h: History, pulse: Pulse, shown: Pulse): History {
    h.(wave := h.wave + [pulse], ticks := h.ticks + 1, shown := h.shown + [shown])
  }

  function Over(h: History, shown: Pulse): History { h.(ticks := h.ticks + 1, shown := h.shown + [shown]) }

  /** A timer interrupt that ends the transmission. */
  lemma SendLast(h: History, io: seq<bv8>, vector: seq<bv8>, offset: nat, shown: Pulse)
    requires Sending(h, io, vector, offset) && offset <= TX_SAMPLES
    requires offset < TX_SAMPLES ==> LengthIndex(PulseCode(io, offset)) == STOP
    requires h.shown + [shown] == Replay(h.lead, h.wave)
    ensures Sent(Over(h, shown), io, vector, offset)
  {
  }

  predicate Ended(h: History, timedOut: bool, io: seq<bv8>, vector: seq<bv8>, offset: nat) {
    if timedOut then TimedOut(h, io) && offset == 0
    else if h.tx then Sent(h, io, vector, offset)
    else Received(h, io) && offset == RX_SAMPLES
  }

  /** A transfer that has ended timed out exactly if none of the conversions allowed was an edge. */
  lemma TimedOutIff(h: History, timedOut: bool, io: seq<bv8>, vector: seq<bv8>, offset: nat)
    requires Ended(h, timedOut, io, vector, offset)
    ensures timedOut <==> NoEdgeInTime(h)
    ensures !timedOut ==> Triggered(h)
  {
    if !timedOut { TriggeredInTime(h); }
  }

  lemma EndedBounds(h: History, timedOut: bool, io: seq<bv8>, vector: seq<bv8>, offset: nat)
    requires Ended(h, timedOut, io, vector, offset) && !h.uploaded
    ensures h.waits <= h.allowed + 1 && |h.trace| <= h.waits + RX_SAMPLES && h.ticks <= TX_SAMPLES + 1
  {
  }

  /** Bit `k` is set exactly if behind conversion `waits + k` the last reading that decides was a low one. */
  ghost predicate BitsRead(h: History, bits: seq<bool>) {
    && |bits| == 1536 && |h.readings| == h.waits + 1536
    && forall k :: 0 <= k < 1536 ==> (bits[k] <==> SaysLow(h.readings[..h.waits + k + 1]))
  }

  lemma SignalRead(h: History, k: nat)
    requires Triggered(h) && Follows(h) && h.waits + k < |h.readings|
    ensures h.trace[h.waits + k] != 0 <==> SaysLow(h.readings[..h.waits + k + 1])
  {
    FollowsIs(h);
    SignalAt(h.readings, h.waits + k);
    EdgeDecides(h);
    if AllUnclear(h.readings[..h.waits + k + 1]) {
      assert h.readings[..h.waits] == h.readings[..h.waits + k + 1][..h.waits];
    }
    SignalsInRange(h.readings);
  }

  /** Behind an edge the signal is known. */
  lemma EdgeDecides(h: History)
    requires Triggered(h) && Follows(h)
    ensures !AllUnclear(h.readings[..h.waits])
  {
    FollowsIs(h);
    EdgeIff(h.falling, h.readings, h.waits - 1);
    assert h.readings[..h.waits][h.waits - 1] == h.readings[h.waits - 1];
  }

  /** What a finished reception means: behind the first edge, which came in time, every bit of the buffer is what the
      readings up to its conversion say, in order; and the conversions were made at equal distances. */
  lemma ReceivedSignals(h: History, io: seq<bv8>)
    requires Received(h, io) && !h.uploaded && Follows(h)
    ensures |io| == 192 && Triggered(h) && BitsRead(h, IoBits(io))
    ensures forall k :: 1 <= k < 1536 ==> h.shown[k] == Pulse(true, h.spacing)
  {
    forall k | 0 <= k < 1536 ensures IoBits(io)[k] <==> SaysLow(h.readings[..h.waits + k + 1]) { SignalRead(h, k); }
  }

  /** The first edge came with reading `waits - 1`, in time. */
  ghost predicate FirstEdgeRead(h: History) {
    && 1 <= h.waits <= |h.readings| && h.waits <= h.allowed + 1
    && EdgeRead(h.falling, h.readings, h.waits - 1)
    && forall k :: 0 <= k < h.waits - 1 ==> !EdgeRead(h.falling, h.readings, k)
  }

  lemma TriggeredAt(h: History)
    requires Triggered(h) && Follows(h)
    ensures FirstEdgeRead(h)
  {
    FollowsIs(h);
    EdgeIff(h.falling, h.readings, h.waits - 1);
    forall k | 0 <= k < h.waits - 1 ensures !EdgeRead(h.falling, h.readings, k) { EdgeIff(h.falling, h.readings, k); }
  }

  /** Or there was none in the readings allowed. */
  ghost predicate NoEdgeAllowed(h: History) {
    |h.readings| == h.allowed + 1 && NoEdgeRead(h.falling, h.readings)
  }

  lemma NoEdgeAllowedIff(h: History)
    requires Follows(h) && |h.trace| == h.waits == h.allowed + 1
    ensures NoEdgeInTime(h) <==> NoEdgeAllowed(h)
  {
    FollowsIs(h);
    NoEdgeIff(h.falling, h.readings);
  }

  /** What a status says in readings. */
  lemma OverInReadings(h: History)
    requires Follows(h)
    ensures Triggered(h) ==> FirstEdgeRead(h)
    ensures NoEdgeInTime(h) ==> NoEdgeAllowed(h)
  {
    if Triggered(h) { TriggeredAt(h); }
    if NoEdgeInTime(h) { NoEdgeAllowedIff(h); }
  }

  // ---- Transfers for given readings ----

  /** The first `n` readings that a converter gives. */
  function FirstReadings(adch: nat -> nat, n: nat): (readings: seq<nat>)
    ensures |readings| == n
  {
    seq(n, k requires 0 <= k => adch(k))
  }

  /** The transfer timed out exactly if none of the first `allowed + 1` readings is an edge. */
  lemma TimedOutByReadings(h: History, adch: nat -> nat, n: nat)
    requires Follows(h) && h.readings == FirstReadings(adch, n)
    requires NoEdgeInTime(h) || Triggered(h)
    ensures NoEdgeInTime(h) <==> NoEdgeRead(h.falling, FirstReadings(adch, h.allowed + 1))
  {
    var all := FirstReadings(adch, h.allowed + 1);
    FollowsIs(h);
    if NoEdgeInTime(h) {
      NoEdgeIff(h.falling, all);
    } else {
      TriggeredAt(h);
      assert all[..h.waits - 1] == h.readings[..h.waits - 1];
      assert EdgeRead(h.falling, all, h.waits - 1);
    }
  }

  /** A transfer over, in terms of what the converter gives: it timed out exactly if none of the readings allowed is an
      edge, and else began behind the first one. */
  ghost predicate EndedByReadings(h: History, timedOut: bool, adch: nat -> nat) {
    && (timedOut <==> NoEdgeRead(h.falling, FirstReadings(adch, h.allowed + 1)))
    && (!timedOut ==> FirstEdgeRead(h))
  }

  lemma EndsByReadings(h: History, timedOut: bool, io: seq<bv8>, vector: seq<bv8>, offset: nat, adch: nat -> nat, n: nat)
    requires Ended(h, timedOut, io, vector, offset) && Follows(h) && h.readings == FirstReadings(adch, n)
    ensures EndedByReadings(h, timedOut, adch)
  {
    TimedOutIff(h, timedOut, io, vector, offset);
    TimedOutByReadings(h, adch, n);
    if !timedOut { TriggeredAt(h); }
  }
}
