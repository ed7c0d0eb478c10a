/** The firmware's transfer protocol: main loop, converter interrupt, timer interrupt and setup requests as
    atomic steps on shared state. */
module FirmwareTransfer {
  import opened DataUtils
  import opened IoBuffer
  import opened Readings
  import opened TransferHistory

  datatype State = IDLE | STARTING | WAIT_CONDITION | RX | TX | FINISHED

  datatype Status = UNKNOWN | OK | TIMEOUT | IN_PROGRESS

  datatype Request = PulseVector | SampleVector

  const PRESCALER_MINIMAL_VALUE: nat := 4

  /** Where a conversion leads that is made while waiting, with `left` more allowed. */
  function AfterWait(edge: bool, tx: bool, left: nat): State {
    if edge then if tx then TX else RX else if left == 0 then FINISHED else WAIT_CONDITION
  }

  class Firmware {
    var state: State
    var timeout: nat
    var timedOut: bool
    var fallingEdge: bool
    var compOnStart: bool
    var edgeStart: bool
    var tx: bool
    var prescalerValue: nat
    var id: nat

    var opLength: nat
    var opOffset: nat
    const ioBuffer: array<bv8>
    const sampleVector: array<bv8>
    var command: Request
    var ioBufferOffset: nat
    var adcLastSignal: int

    // hardware
    var interrupts: bool        // global interrupt flag
    var adcInterrupt: bool      // ADIE, with auto trigger by the timer
    var timerRunning: bool
    var timerInterrupt: bool    // OCIE0A
    var period: nat             // OCR0A + 1
    var counter: nat            // TCNT0 when it began to count, 0 behind a compare match
    var coilOutput: bool        // the coil pin drives low

    ghost var started: bool     // a transfer has been started
    ghost var h: History

    ghost predicate Quiet()
      reads this
    {
      !timerRunning && !timerInterrupt
    }

    /** Both buffers are there, and the history is that of the transfer described by the fields; its signals are what
        its readings decide. */
    ghost predicate Shape()
      reads this
    {
      && ioBuffer.Length == SAMPLE_BUFFER_SIZE && sampleVector.Length == PULSE_VECTOR_SIZE && ioBuffer != sampleVector
      && id < 256 && opOffset <= opLength && counter < period
      && (started ==> h.tx == tx && h.falling == fallingEdge && Timing() && Follows(h))
    }

    /** The history names the timer periods that the fields ask for. */
    ghost predicate Timing()
      reads this
    {
      h.spacing == Periods(prescalerValue) && h.lead == Periods(prescalerValue) - FirstCount(prescalerValue, compOnStart)
    }

    /** What the coil pin is during the timer period under way, and how long. */
    ghost function Shown(): Pulse
      requires counter < period
      reads this
    {
      Pulse(!coilOutput, period - counter)
    }

    ghost predicate Valid()
      reads this, ioBuffer, sampleVector
    {
      && Shape() && (state != TX ==> !coilOutput)
      && match state
         case IDLE =>
           Quiet() && !adcInterrupt && (started ==> Ended(h, timedOut, ioBuffer[..], sampleVector[..], opOffset))
         case STARTING =>
           && Quiet() && !adcInterrupt && started && edgeStart && !timedOut && !h.uploaded
           && Waiting(h, ioBuffer[..], timeout) && h.waits == 0
         case WAIT_CONDITION =>
           && Sampling() && opOffset == 0 && opLength == (if tx then TX_SAMPLES else RX_SAMPLES)
           && period == 4 && counter == 0 && Waiting(h, ioBuffer[..], timeout)
         case RX =>
           && Sampling() && opLength == RX_SAMPLES && opOffset < opLength && Receiving(h, ioBuffer[..], opOffset)
           && h.shown + [Shown()] == Sampled(h.lead, h.spacing, opOffset + 1) && period == h.spacing
         case TX =>
           && timerRunning && interrupts && !adcInterrupt && timerInterrupt && started && !timedOut && !h.uploaded
           && opLength == TX_SAMPLES && Sending(h, ioBuffer[..], sampleVector[..], opOffset)
           && h.shown + [Shown()] == Replay(h.lead, h.wave)
         case FINISHED =>
           Quiet() && interrupts && started && !h.uploaded && Ended(h, timedOut, ioBuffer[..], sampleVector[..], opOffset)
    }

    /** The timer triggers conversions, each of which interrupts; the timer itself does not. */
    ghost predicate Sampling()
      reads this
    {
      && timerRunning && !timerInterrupt && interrupts && adcInterrupt && started && !timedOut && !h.uploaded
      && adcLastSignal == SignalBefore(h.trace, |h.trace|)
    }

    /** A bound on the number of steps before the device is idle again. */
    ghost function Budget(): nat
      requires Shape()
      reads this
    {
      match state
      case IDLE => 0
      case FINISHED => 1
      case RX => 1 + opLength - opOffset
      case TX => 2 + opLength - opOffset
      case WAIT_CONDITION => (if tx then 2 + TX_SAMPLES else 1 + RX_SAMPLES) + timeout + 1
      case STARTING => (if tx then 2 + TX_SAMPLES else 1 + RX_SAMPLES) + timeout + 2
    }

    constructor ()
      ensures Valid() && state == IDLE && !started && fresh(ioBuffer) && fresh(sampleVector)
    {
      state, timeout, timedOut := IDLE, 0, false;
      fallingEdge, compOnStart, edgeStart, tx := false, false, false, false;
      prescalerValue, id := PRESCALER_MINIMAL_VALUE, 0;
      opLength, opOffset, ioBufferOffset, adcLastSignal := 0, 0, 0, 0;
      command := PulseVector;
      interrupts, adcInterrupt, timerRunning, timerInterrupt, coilOutput := false, false, false, false, false;
      period, counter := 1, 0;
      ioBuffer := new bv8[SAMPLE_BUFFER_SIZE](_ => 0);
      sampleVector := new bv8[PULSE_VECTOR_SIZE](_ => 0);
      started := false;
    }

    // ---- Setup requests ----

    /** The fields of a request to start. */
    method Prepare(wait: nat, value: nat, first: bool, falling: bool, sending: bool, onEdge: bool)
      modifies this`prescalerValue, this`compOnStart, this`fallingEdge, this`tx, this`edgeStart
      modifies this`state, this`timeout, this`timedOut, this`id
      ensures prescalerValue == value && compOnStart == first && fallingEdge == falling && tx == sending
      ensures edgeStart == onEdge && state == STARTING && timeout == wait && !timedOut && id == (old(id) + 1) % 256
    {
      prescalerValue := value;
      compOnStart := first;
      fallingEdge := falling;
      tx := sending;
      edgeStart := onEdge;
      state := STARTING;
      timeout, timedOut := wait, false;
      id := (id + 1) % 256;
    }

    /** The history of a transfer requested just now. */
    ghost method NewHistory()
      requires ioBuffer.Length == SAMPLE_BUFFER_SIZE && sampleVector.Length == PULSE_VECTOR_SIZE && ioBuffer != sampleVector
      requires id < 256 && opOffset <= opLength && counter < period && !coilOutput
      requires state == STARTING && Quiet() && !adcInterrupt && edgeStart && !timedOut
      modifies this`started, this`h
      ensures Valid() && started
      ensures h == Started(ioBuffer[..], timeout, prescalerValue, compOnStart, fallingEdge, tx)
    {
      started, h := true, Started(ioBuffer[..], timeout, prescalerValue, compOnStart, fallingEdge, tx);
      StartedWaits(ioBuffer[..], timeout, prescalerValue, compOnStart, fallingEdge, tx);
    }

    /** TRANSFER_START, sent only while idle and with the edge flag set. */
    method TransferStart(wValue: nat, wIndex: nat) returns (transfer: nat)
      requires Valid() && state == IDLE && wValue < 0x10000 && wIndex < 0x10000 && Flag(wIndex, START_ON_EDGE)
      modifies this
      ensures Valid() && state == STARTING && transfer == id == (old(id) + 1) % 256
      ensures h == Fresh(ioBuffer[..], wValue, wIndex) && AsRequested(h, wValue, wIndex) && started
    {
      var value, first, falling, sending :=
        wIndex % 256, Flag(wIndex, FIRST_ON_START), Flag(wIndex, FALLING_EDGE), Flag(wIndex, TX_MODE);
      Prepare(wValue, value, first, falling, sending, Flag(wIndex, START_ON_EDGE));
      transfer := id;
      NewHistory();
      RequestMeans(ioBuffer[..], wValue, wIndex);
    }

    // ---- Timer and converter ----

    method PrescalerStart(interrupt: bool, value: nat, compareMatchOnStart: bool)
      modifies this`period, this`counter, this`timerRunning, this`timerInterrupt
      ensures timerRunning && timerInterrupt == (interrupt || old(timerInterrupt))
      ensures period == Periods(value) && counter == FirstCount(value, compareMatchOnStart)
    {
      period := if value == 0 then 256 else value;
      counter := if compareMatchOnStart && value > 2 then value - 2 else 0;
      if interrupt { timerInterrupt := true; }
      timerRunning := true;
    }

    method PrescalerStop()
      modifies this`timerRunning, this`timerInterrupt
      ensures Quiet()
    {
      timerRunning, timerInterrupt := false, false;
    }

    method AdcStop()
      modifies this`adcInterrupt
      ensures !adcInterrupt
    {
      adcInterrupt := false;
    }

    // ---- Converter interrupt ----

    /** The comparison of the new signal with the previous one, a byte in which -1 reads as 255. */
    method SynchronizationEdge(oldSignal: nat) returns (found: bool)
      ensures found == if fallingEdge then oldSignal != 0 && adcLastSignal == 0 else oldSignal == 0 && adcLastSignal != 0
    {
      found := false;
      if fallingEdge {
        if oldSignal != 0 && adcLastSignal == 0 { found := true; }
      } else {
        if oldSignal == 0 && adcLastSignal != 0 { found := true; }
      }
    }

    /** A new signal, not yet recorded, while waiting. */
    ghost predicate Awaiting(before: int, adch: nat)
      reads this, ioBuffer
    {
      && Shape() && state == WAIT_CONDITION && timerRunning && !timerInterrupt && interrupts && adcInterrupt
      && started && !timedOut && !h.uploaded && opOffset == 0 && opLength == (if tx then TX_SAMPLES else RX_SAMPLES)
      && Waiting(h, ioBuffer[..], timeout) && before == SignalBefore(h.trace, |h.trace|) && !coilOutput
      && -1 <= adcLastSignal <= 1 && adcLastSignal == Decide(before, adch) && period == 4 && counter == 0
    }

    /** A new signal, not yet stored, at the end of a timer period in which the coil was `shown`. */
    ghost predicate Collecting(shown: Pulse, adch: nat)
      reads this, ioBuffer
    {
      && Shape() && state == RX && timerRunning && !timerInterrupt && interrupts && adcInterrupt
      && started && !timedOut && !h.uploaded && opLength == RX_SAMPLES && opOffset < opLength
      && Receiving(h, ioBuffer[..], opOffset) && -1 <= adcLastSignal <= 1
      && adcLastSignal == Decide(SignalBefore(h.trace, |h.trace|), adch)
      && h.shown + [shown] == Sampled(h.lead, h.spacing, opOffset + 1)
      && period == h.spacing && counter == 0 && !coilOutput
    }

    /** No edge: one conversion less is allowed, or there have been enough. */
    method WaitOn()
      requires Shape() && state == WAIT_CONDITION && timerRunning && !timerInterrupt && interrupts && adcInterrupt
      requires started && !timedOut && !h.uploaded && opOffset == 0 && opLength == (if tx then TX_SAMPLES else RX_SAMPLES)
      requires adcLastSignal == SignalBefore(h.trace, |h.trace|) && !coilOutput && period == 4 && counter == 0
      requires if timeout > 0 then Waiting(h, ioBuffer[..], timeout - 1) else TimedOut(h, ioBuffer[..])
      modifies this
      ensures Valid() && h == old(h) && adcLastSignal == old(adcLastSignal)
      ensures state == if old(timeout) == 0 then FINISHED else WAIT_CONDITION
      ensures Budget() < old(Budget()) && started && id == old(id)
    {
      if timeout > 0 {
        timeout := timeout - 1;
      } else {
        state := FINISHED;
        timedOut := true;
        PrescalerStop();
      }
    }

    /** The conversion is recorded; what has to follow depends on whether it was the edge. */
    ghost predicate Due(edge: bool)
      reads this, ioBuffer, sampleVector
    {
      && Shape() && state == WAIT_CONDITION && timerRunning && !timerInterrupt && interrupts && adcInterrupt
      && started && !timedOut && !h.uploaded && opOffset == 0 && opLength == (if tx then TX_SAMPLES else RX_SAMPLES)
      && adcLastSignal == SignalBefore(h.trace, |h.trace|) && !coilOutput && period == 4 && counter == 0 && h.shown == []
      && if edge then if tx then Sending(h, ioBuffer[..], sampleVector[..], 0) else Receiving(h, ioBuffer[..], 0)
         else if timeout > 0 then Waiting(h, ioBuffer[..], timeout - 1) else TimedOut(h, ioBuffer[..])
    }

    ghost method RecordWait(before: int, adch: nat)
      requires Awaiting(before, adch)
      modifies this`h
      ensures h == WaitedOne(old(h), adch, adcLastSignal, period) && Due(Edge(fallingEdge, before, adcLastSignal))
    {
      WaitOne(h, ioBuffer[..], sampleVector[..], timeout, adch, adcLastSignal);
      FollowsNext(h, adch, adcLastSignal);
      h := WaitedOne(h, adch, adcLastSignal, period);
    }

    /** The edge starts the operation; without it the wait goes on or is over. */
    method Proceed(found: bool)
      requires Due(found)
      modifies this
      ensures Valid() && h == old(h) && adcLastSignal == old(adcLastSignal) && started && id == old(id)
      ensures state == AfterWait(found, tx, old(timeout)) && tx == old(tx) && Budget() < old(Budget())
    {
      if found {
        state := if tx then TX else RX;
      }
      if state == WAIT_CONDITION {
        WaitOn();
      } else {
        StartOperation();
      }
    }

    /** A conversion while waiting for the edge, one timer period after the one before: it starts the operation exactly
        if it is an edge. */
    method WaitConversion(oldSignal: nat, ghost before: int, ghost adch: nat)
      requires Awaiting(before, adch) && oldSignal == before % 256
      modifies this
      ensures Valid() && h == WaitedOne(old(h), adch, adcLastSignal, old(period)) && adcLastSignal == old(adcLastSignal)
      ensures state == AfterWait(Edge(h.falling, before, adcLastSignal), h.tx, old(timeout))
      ensures Budget() < old(Budget()) && started && id == old(id)
    {
      RecordWait(before, adch);
      var found := SynchronizationEdge(oldSignal);
      Proceed(found);
    }

    /** Behind the edge: the timer gets its own period, and for sending takes over from the converter. */
    method StartOperation()
      requires Shape() && (state == RX || state == TX) && !timerInterrupt && interrupts && adcInterrupt && !coilOutput
      requires started && !timedOut && !h.uploaded && opOffset == 0 && adcLastSignal == SignalBefore(h.trace, |h.trace|)
      requires state == RX ==> opLength == RX_SAMPLES && Receiving(h, ioBuffer[..], 0)
      requires state == TX ==> opLength == TX_SAMPLES && Sending(h, ioBuffer[..], sampleVector[..], 0)
      requires h.shown == []
      modifies this
      ensures Valid() && state == old(state) && opOffset == 0 && opLength == old(opLength)
      ensures h == old(h) && id == old(id) && started && adcLastSignal == old(adcLastSignal)
    {
      PrescalerStop();
      if state == TX {
        AdcStop();
        PrescalerStart(true, prescalerValue, compOnStart);
      } else {
        PrescalerStart(false, prescalerValue, compOnStart);
        SampledNext(h.lead, h.spacing, 1);
      }
    }

    /** The signal goes to the next bit. */
    method StoreSignal(ghost shown: Pulse, ghost adch: nat)
      requires Collecting(shown, adch)
      modifies this`h, this`opOffset, ioBuffer
      ensures h == StoredOne(old(h), adch, adcLastSignal, shown) && opOffset == old(opOffset) + 1
      ensures Receiving(h, ioBuffer[..], opOffset) && (opOffset == RX_SAMPLES ==> Received(h, ioBuffer[..]))
      ensures h.shown + [Pulse(true, h.spacing)] == Sampled(h.lead, h.spacing, opOffset + 1)
      ensures Follows(h)
    {
      ghost var io := ioBuffer[..];
      StoreBit(ioBuffer, opOffset, adcLastSignal != 0);
      ReceiveOne(h, io, opOffset, adch, adcLastSignal, shown, ioBuffer[..]);
      FollowsNext(h, adch, adcLastSignal);
      h := StoredOne(h, adch, adcLastSignal, shown);
      opOffset := opOffset + 1;
      SampledNext(h.lead, h.spacing, opOffset);
    }

    /** A conversion while receiving. */
    method StoreConversion(ghost shown: Pulse, ghost adch: nat)
      requires Collecting(shown, adch)
      modifies this, ioBuffer
      ensures Valid() && h == StoredOne(old(h), adch, adcLastSignal, shown) && adcLastSignal == old(adcLastSignal)
      ensures state == if opOffset == RX_SAMPLES then FINISHED else RX
      ensures Budget() < old(Budget()) && started && id == old(id) && opOffset == old(opOffset) + 1
    {
      StoreSignal(shown, adch);
      if opOffset == opLength {
        PrescalerStop();
        state := FINISHED;
      }
    }

    /** The new signal; the timer, whose compare match triggered the conversion, counts from 0 again. */
    method DecideSignal(adch: nat)
      requires Valid() && (state == WAIT_CONDITION || state == RX)
      modifies this`adcLastSignal, this`counter
      ensures adcLastSignal == Decide(old(adcLastSignal), adch)
      ensures if state == WAIT_CONDITION then Awaiting(old(adcLastSignal), adch) else Collecting(old(Shown()), adch)
      ensures old(adcLastSignal) == SignalBefore(h.trace, |h.trace|)
    {
      counter := 0;
      if adch >= ADC_HI {
        adcLastSignal := 0;
      } else if adch <= ADC_LO {
        adcLastSignal := 1;
      }
    }

    /** The conversion has ended with value `adch`. */
    method AdcIsr(adch: nat)
      requires Valid() && interrupts && adcInterrupt && timerRunning
      modifies this, ioBuffer
      ensures Valid() && Budget() < old(Budget()) && started && id == old(id)
      ensures Continues(old(h), h)
      ensures h.readings == old(h).readings + [adch] && Follows(h)
      ensures old(state) == WAIT_CONDITION ==>
                && state == AfterWait(EdgeRead(h.falling, h.readings, |old(h).readings|), h.tx, old(timeout))
                && h.waits == old(h).waits + 1 && h.waited == old(h).waited + 4
      ensures old(state) == RX ==>
                && state == (if opOffset == RX_SAMPLES then FINISHED else RX)
                && h.waits == old(h).waits && h.shown == old(h).shown + [old(Shown())]
    {
      var oldSignal := adcLastSignal % 256;
      ghost var before, shown := adcLastSignal, Shown();
      DecideSignal(adch);
      if state == WAIT_CONDITION {
        WaitConversion(oldSignal, before, adch);
        EdgeAtLast(h.falling, old(h).trace, adcLastSignal);
        FollowsIs(h);
        EdgeIff(h.falling, h.readings, |old(h).readings|);
      } else {
        StoreConversion(shown, adch);
      }
    }

    // ---- Timer interrupt ----

    method StopTx()
      modifies this`timerRunning, this`timerInterrupt, this`coilOutput, this`state
      ensures Quiet() && state == FINISHED && !coilOutput
    {
      PrescalerStop();
      coilOutput := false;
      state := FINISHED;
    }

    /** Nothing is left to send. */
    ghost predicate AtEnd()
      requires opOffset <= TX_SAMPLES && ioBuffer.Length == SAMPLE_BUFFER_SIZE
      reads this, ioBuffer
    {
      opOffset == TX_SAMPLES || LengthIndex(PulseCode(ioBuffer[..], opOffset)) == STOP
    }

    /** The timer has run through a period: the coil shows the next pulse from now on, or is off and the transfer over. */
    method Timer0Isr()
      requires Valid() && interrupts && timerInterrupt && timerRunning
      modifies this
      ensures Valid() && Budget() < old(Budget()) && started && id == old(id) && h.ticks == old(h).ticks + 1
      ensures Continues(old(h), h) && h.shown == old(h).shown + [old(Shown())]
      ensures h.trace == old(h).trace && h.readings == old(h).readings
      ensures if old(AtEnd()) then state == FINISHED && !coilOutput && h.wave == old(h).wave
              else state == TX && h.wave == old(h).wave + [Shown()]
    {
      ghost var shown := Shown();
      counter := 0;
      if opOffset == opLength {
        Stopped(shown);
        return;
      }
      var code := NextCode();
      if LengthIndex(code) == STOP {
        Stopped(shown);
      } else {
        NextPulse(code, shown);
      }
    }

    method NextCode() returns (code: bv8)
      requires ioBuffer.Length == SAMPLE_BUFFER_SIZE && opOffset < TX_SAMPLES
      ensures code == PulseCode(ioBuffer[..], opOffset)
    {
      code := ioBuffer[opOffset / 2];
      if opOffset % 2 == 1 {
        code := code >> 4;
      } else {
        code := code & 0x0f;
      }
    }

    /** At the end of a timer period in which the coil was `shown`. */
    ghost predicate Expired(shown: Pulse)
      reads this, ioBuffer, sampleVector
    {
      && Shape() && state == TX && timerRunning && interrupts && !adcInterrupt && timerInterrupt
      && started && !timedOut && !h.uploaded && counter == 0
      && opLength == TX_SAMPLES && Sending(h, ioBuffer[..], sampleVector[..], opOffset)
      && h.shown + [shown] == Replay(h.lead, h.wave)
    }

    method Stopped(ghost shown: Pulse)
      requires Expired(shown) && AtEnd()
      modifies this
      ensures Valid() && state == FINISHED && Budget() < old(Budget()) && started && id == old(id)
      ensures h == Over(old(h), shown) && !coilOutput
    {
      SendLast(h, ioBuffer[..], sampleVector[..], opOffset, shown);
      h := Over(h, shown);
      StopTx();
    }

    method ShowPulse(code: bv8)
      requires sampleVector.Length == PULSE_VECTOR_SIZE && LengthIndex(code) != STOP && counter == 0
      modifies this`period, this`coilOutput
      ensures counter < period && Shown() == PulseOf(sampleVector[..], code)
    {
      period := TimerPeriods(sampleVector[LengthIndex(code)]);
      coilOutput := !HighLevel(code);
    }

    method CountPulse(ghost pulse: Pulse, ghost shown: Pulse)
      requires Expired(shown) && !AtEnd() && pulse == PulseOf(sampleVector[..], PulseCode(ioBuffer[..], opOffset))
      modifies this`h, this`opOffset
      ensures h == Begun(old(h), pulse, shown) && opOffset == old(opOffset) + 1
      ensures Sending(h, ioBuffer[..], sampleVector[..], opOffset) && h.shown + [pulse] == Replay(h.lead, h.wave)
    {
      SendOne(h, ioBuffer[..], sampleVector[..], opOffset, shown);
      ReplayNext(h.lead, h.wave, pulse);
      h := Begun(h, pulse, shown);
      opOffset := opOffset + 1;
    }

    method NextPulse(code: bv8, ghost shown: Pulse)
      requires Expired(shown) && !AtEnd() && code == PulseCode(ioBuffer[..], opOffset)
      modifies this
      ensures Valid() && state == TX && Budget() < old(Budget()) && started && id == old(id)
      ensures PulseOf(sampleVector[..], code) == Shown() && h == Begun(old(h), Shown(), shown)
    {
      CountPulse(PulseOf(sampleVector[..], code), shown);
      ShowPulse(code);
    }

    // ---- Main loop ----

    /** Offset, length and last signal as at the start of every transfer. */
    method ResetOperation()
      modifies this`opOffset, this`opLength, this`adcLastSignal
      ensures opOffset == 0 && opLength == (if tx then TX_SAMPLES else RX_SAMPLES) && adcLastSignal == -1
    {
      opOffset := 0;
      opLength := if tx then SAMPLE_BUFFER_SIZE * 2 else SAMPLE_BUFFER_SIZE * 8;
      adcLastSignal := -1;
    }

    /** Where a transfer begins, and with which timer. */
    method Enter()
      modifies this`state, this`interrupts, this`adcInterrupt
      modifies this`period, this`counter, this`timerRunning, this`timerInterrupt
      ensures state == (if edgeStart then WAIT_CONDITION else if tx then TX else RX)
      ensures interrupts && adcInterrupt && timerRunning && counter < period
      ensures state == WAIT_CONDITION ==> period == 4 && counter == 0
      ensures timerInterrupt == (old(timerInterrupt) || (!edgeStart && tx))
    {
      if edgeStart {
        state := WAIT_CONDITION;
      } else if tx {
        state := TX;
      } else {
        state := RX;
      }
      interrupts := true;
      adcInterrupt := true;
      if state == WAIT_CONDITION {
        PrescalerStart(false, PRESCALER_MINIMAL_VALUE, false);
      } else {
        PrescalerStart(tx, prescalerValue, true);
      }
    }

    method Begin()
      requires Valid() && state == STARTING
      modifies this
      ensures Valid() && state == WAIT_CONDITION && Unchanged(old(timeout), old(h), old(started), old(id))
    {
      ResetOperation();
      Enter();
    }

    ghost predicate Unchanged(timeout0: nat, h0: History, started0: bool, id0: nat)
      reads this
    {
      timeout == timeout0 && h == h0 && started == started0 && id == id0
    }

    method Finish()
      requires Valid() && state == FINISHED
      modifies this
      ensures Valid() && state == IDLE && Unchanged(old(timeout), old(h), old(started), old(id)) && timedOut == old(timedOut)
    {
      interrupts := false;
      PrescalerStop();
      adcInterrupt := false;
      state := IDLE;
    }

    /** The state switch of the main loop. */
    method MainTick()
      requires Valid()
      modifies this
      ensures Valid() && Unchanged(old(timeout), old(h), old(started), old(id))
      ensures state == match old(state) case STARTING => WAIT_CONDITION case FINISHED => IDLE case other => other
    {
      match state {
        case STARTING => Begin();
        case FINISHED => Finish();
        case _ =>
      }
    }

    // ---- Requests of the host ----

    /** TRANSFER_STATUS: what the answer says about the transfer last started. */
    method TransferStatus(wIndex: nat) returns (status: Status, offset: nat)
      requires Valid()
      ensures status == UNKNOWN <==> wIndex != id
      ensures wIndex == id ==> (status == IN_PROGRESS <==> state != IDLE)
      ensures started && (status == TIMEOUT || status == OK) ==>
                (status == TIMEOUT <==> NoEdgeInTime(h)) && (status == OK <==> Triggered(h))
      ensures started && status == OK ==> FirstEdgeRead(h)
      ensures started && status == TIMEOUT ==> NoEdgeAllowed(h)
      ensures status == TIMEOUT && started ==> TimedOut(h, ioBuffer[..]) && offset == 0
      ensures status == OK && started && !h.tx ==> Received(h, ioBuffer[..]) && offset == RX_SAMPLES
      ensures status == OK && started && h.tx ==> Sent(h, ioBuffer[..], sampleVector[..], offset)
    {
      if wIndex != id {
        return UNKNOWN, 0;
      }
      offset := opOffset;
      if state == IDLE {
        if started {
          TimedOutIff(h, timedOut, ioBuffer[..], sampleVector[..], opOffset);
          OverInReadings(h);
        }
        status := if timedOut then TIMEOUT else OK;
      } else {
        status := IN_PROGRESS;
      }
    }

    /** The buffer a read or write request is about. */
    function Target(): array<bv8>
      reads this
    {
      if command == PulseVector then ioBuffer else sampleVector
    }

    method SetupTransfer(c: Request)
      requires Valid()
      modifies this`command, this`ioBufferOffset
      ensures Valid() && command == c && ioBufferOffset == 0
    {
      command, ioBufferOffset := c, 0;
    }

    /** A chunk of an upload, sent only while idle: stored behind what came before it, as far as there is room. */
    method FunctionWrite(data: seq<bv8>) returns (n: nat)
      requires Valid() && state == IDLE && ioBufferOffset <= Target().Length
      modifies this`ioBufferOffset, this`h, Target()
      ensures Valid() && n == Least(|data|, Target().Length - old(ioBufferOffset))
      ensures ioBufferOffset == old(ioBufferOffset) + n
      ensures Target()[..] == Overwrite(old(Target()[..]), old(ioBufferOffset), data[..n])
      ensures h == old(h).(uploaded := true)
    {
      n := CopyInto(Target(), ioBufferOffset, data);
      ioBufferOffset := ioBufferOffset + n;
      h := h.(uploaded := true);
    }
  }

  function Least(a: nat, b: nat): nat { if a < b then a else b }

  lemma CopyOne(before: seq<bv8>, offset: nat, data: seq<bv8>, n: nat)
    requires n < |data| && offset + n < |before|
    ensures Overwrite(before, offset, data[..n])[offset + n := data[n]] == Overwrite(before, offset, data[..n + 1])
  {
    assert data[..n + 1] == data[..n] + [data[n]];
  }

  method CopyInto(dst: array<bv8>, offset: nat, data: seq<bv8>) returns (n: nat)
    requires offset <= dst.Length
    modifies dst
    ensures n == Least(|data|, dst.Length - offset)
    ensures dst[..] == Overwrite(old(dst[..]), offset, data[..n])
  {
    n := 0;
    ghost var before := dst[..];
    assert Overwrite(before, offset, data[..0]) == before;
    while n < |data|
      invariant n <= |data| && offset + n <= dst.Length
      invariant dst[..] == Overwrite(before, offset, data[..n])
    {
      if offset + n == dst.Length { break; }
      CopyOne(before, offset, data, n);
      dst[offset + n] := data[n];
      n := n + 1;
    }
  }

  /** One atomic step that may happen at any time; it does nothing unless it is enabled. */
  datatype Step = MainLoop | Conversion(adch: nat) | TimerTick

  predicate Enabled(f: Firmware, s: Step)
    reads f
  {
    match s
    case MainLoop => f.state == STARTING || f.state == FINISHED
    case Conversion(_) => f.interrupts && f.adcInterrupt && f.timerRunning
    case TimerTick => f.interrupts && f.timerInterrupt && f.timerRunning
  }

  method Perform(f: Firmware, s: Step)
    requires f.Valid() && Enabled(f, s)
    modifies f, f.ioBuffer
    ensures f.Valid() && f.Budget() < old(f.Budget()) && f.started && f.id == old(f.id)
    ensures Continues(old(f.h), f.h)
  {
    match s
    case MainLoop => f.MainTick();
    case Conversion(adch) => f.AdcIsr(adch);
    case TimerTick => f.Timer0Isr();
  }

  /** What the invariant says about every reachable state: the timer interrupts and the coil is switched only while
      sending, the offset stays within the length, and both interrupts stay within the sample buffer. */
  lemma Safety(f: Firmware)
    requires f.Valid()
    ensures (f.timerInterrupt || f.coilOutput ==> f.state == TX) && f.opOffset <= f.opLength
    ensures f.state == TX && f.h.wave != [] ==> f.h.wave[|f.h.wave| - 1] == Pulse(!f.coilOutput, f.period - f.counter)
    ensures f.state == RX ==> f.period == Periods(f.prescalerValue)
    ensures f.state == RX ==> f.opOffset / 8 < f.ioBuffer.Length
    ensures f.state == TX && f.opOffset < f.opLength ==> f.opOffset / 2 < f.ioBuffer.Length
  {
    if f.state == TX && f.h.wave != [] {
      assert (f.h.shown + [f.Shown()])[|f.h.wave|] == f.h.wave[|f.h.wave| - 1];
    }
  }

  method PerformIfEnabled(f: Firmware, s: Step) returns (taken: nat)
    requires f.Valid()
    modifies f, f.ioBuffer
    ensures f.Valid() && f.id == old(f.id) && Continues(old(f.h), f.h) && (old(f.started) ==> f.started)
    ensures taken + f.Budget() <= old(f.Budget())
  {
    taken := 0;
    if Enabled(f, s) {
      Perform(f, s);
      taken := 1;
    }
  }

  /** Every interleaving of the steps keeps the device's invariant, and no more of them than the budget have an effect. */
  method Interleave(f: Firmware, steps: seq<Step>) returns (effective: nat)
    requires f.Valid()
    modifies f, f.ioBuffer
    ensures f.Valid() && f.id == old(f.id) && Continues(old(f.h), f.h) && (old(f.started) ==> f.started)
    ensures effective + f.Budget() <= old(f.Budget())
  {
    effective := 0;
    for i := 0 to |steps|
      invariant f.Valid() && f.id == old(f.id) && Continues(old(f.h), f.h) && (old(f.started) ==> f.started)
      invariant effective + f.Budget() <= old(f.Budget())
    {
      ghost var before := f.h;
      var taken := PerformIfEnabled(f, steps[i]);
      ContinuesOn(old(f.h), before, f.h);
      effective := effective + taken;
    }
  }

  lemma ReadOn(start: seq<nat>, before: seq<nat>, after: seq<nat>, adch: nat -> nat, n: nat, converted: bool)
    requires before == start + FirstReadings(adch, n) && after == if converted then before + [adch(n)] else before
    ensures after == start + FirstReadings(adch, if converted then n + 1 else n)
  {
    assert FirstReadings(adch, n + 1) == FirstReadings(adch, n) + [adch(n)];
  }

  /** Until the device is idle some step is enabled, so it becomes idle, whatever is converted. */
  method RunToIdle(f: Firmware, adch: nat -> nat) returns (steps: nat, conversions: nat)
    requires f.Valid() && f.state != IDLE
    modifies f, f.ioBuffer
    ensures f.Valid() && f.state == IDLE && steps <= old(f.Budget())
    ensures f.started && f.id == old(f.id) && Continues(old(f.h), f.h) && !f.h.uploaded
    ensures f.h.waits <= f.h.allowed + 1 && |f.h.trace| <= f.h.waits + RX_SAMPLES && f.h.ticks <= TX_SAMPLES + 1
    ensures f.h.readings == old(f.h).readings + FirstReadings(adch, conversions)
  {
    steps, conversions := 0, 0;
    while f.state != IDLE
      invariant f.Valid() && f.started && f.id == old(f.id) && Continues(old(f.h), f.h) && !f.h.uploaded
      invariant steps + f.Budget() <= old(f.Budget())
      invariant f.h.readings == old(f.h).readings + FirstReadings(adch, conversions)
      decreases f.Budget()
    {
      ghost var before := f.h;
      var converted := Advance(f, adch(conversions));
      ContinuesOn(old(f.h), before, f.h);
      ReadOn(old(f.h).readings, before.readings, f.h.readings, adch, conversions, converted);
      conversions := if converted then conversions + 1 else conversions;
      steps := steps + 1;
    }
    EndedBounds(f.h, f.timedOut, f.ioBuffer[..], f.sampleVector[..], f.opOffset);
  }

  /** The step that is enabled; a conversion has the value `adch`. */
  method Advance(f: Firmware, adch: nat) returns (converted: bool)
    requires f.Valid() && f.state != IDLE
    modifies f, f.ioBuffer
    ensures f.Valid() && f.Budget() < old(f.Budget()) && f.started && f.id == old(f.id)
    ensures Continues(old(f.h), f.h)
    ensures f.h.readings == if converted then old(f.h).readings + [adch] else old(f.h).readings
  {
    converted := f.state == WAIT_CONDITION || f.state == RX;
    if f.state == STARTING || f.state == FINISHED {
      f.MainTick();
    } else if f.state == TX {
      f.Timer0Isr();
    } else {
      f.AdcIsr(adch);
    }
  }

  /** A whole transfer, for every sequence of readings: it times out exactly if none of the readings allowed is an edge,
      and else begins behind the first one. */
  method RunTransfer(f: Firmware, adch: nat -> nat) returns (conversions: nat)
    requires f.Valid() && f.state == STARTING
    modifies f, f.ioBuffer
    ensures f.Valid() && f.state == IDLE && f.started && Continues(old(f.h), f.h) && !f.h.uploaded
    ensures Ended(f.h, f.timedOut, f.ioBuffer[..], f.sampleVector[..], f.opOffset)
    ensures f.h.readings == FirstReadings(adch, conversions) && EndedByReadings(f.h, f.timedOut, adch)
  {
    var steps;
    steps, conversions := RunToIdle(f, adch);
    EndsByReadings(f.h, f.timedOut, f.ioBuffer[..], f.sampleVector[..], f.opOffset, adch, conversions);
  }

  /** The guard against an unknown last signal at work: a first conversion above the high threshold starts a transfer
      that waits for a falling edge, although no signal has been decided before it. */
  method TriggersAtOnce(f: Firmware, adch: nat)
    requires f.Valid() && f.state == WAIT_CONDITION && f.h.readings == [] && f.h.falling && adch >= 249
    modifies f, f.ioBuffer
    ensures f.Valid() && f.state == (if f.h.tx then TX else RX) && f.h.readings == [adch] && f.h.waits == 1
    ensures !Change(f.h.trace, 0)
  {
    FirstReadingTriggers(adch);
    EdgeIff(true, [adch], 0);
    f.AdcIsr(adch);
  }
}
