/** From conversions on the device to samples on the host. */
module CaptureEndToEnd {
  import opened FirmwareTransfer
  import opened IoBuffer
  import opened SampleCapture
  import opened Samples
  import opened TransferHistory
  import opened UsbControl

  const RX_FLAGS: nat := FIRST_ON_START + START_ON_EDGE + FALLING_EDGE + PRESCALER
  const RX_TIMEOUT: nat := 60000

  /** The whole buffer, read in one control transfer. */
  method ReadBuffer(d: Driver, buffer: seq<bv8>) returns (data: seq<bv8>)
    requires d.Valid() && d.usbRxLen == 0 && |buffer| == SAMPLE_BUFFER_SIZE
    modifies d, d.usbTxBuf
    ensures d.Valid() && data == buffer
  {
    var answered;
    answered, data := ReadAll(d, Setup(UserRead(buffer), |buffer|));
  }

  /** The transfer that `getSamples` asks for. */
  predicate AsCapture(h: History) {
    !h.uploaded && !h.tx && h.falling && h.allowed == 60000 && h.lead == 2 && h.spacing == 8 && Follows(h)
  }

  /** On the bus: the request for such a transfer. */
  lemma CaptureRequest(io: seq<bv8>)
    ensures RX_FLAGS == 0xe008 && RX_TIMEOUT == 60000 && AsCapture(Fresh(io, 60000, 0xe008)) && Flag(0xe008, START_ON_EDGE)
  {
  }

  lemma StaysCapture(g: History, h: History)
    requires AsCapture(g) && Continues(g, h) && Follows(h)
    ensures AsCapture(h) && h.initial == g.initial
  {
  }

  /** The transfer on the device, which takes any `steps` while the host sleeps; what the status then says. */
  method CaptureBuffer(f: Firmware, steps: seq<Step>) returns (status: Status)
    requires f.Valid() && f.state == IDLE
    modifies f, f.ioBuffer
    ensures f.Valid() && status != UNKNOWN
    ensures AsCapture(f.h)
    ensures status == IN_PROGRESS <==> f.state != IDLE
    ensures status == TIMEOUT <==> f.state == IDLE && NoEdgeInTime(f.h)
    ensures status == TIMEOUT ==>
              |f.h.readings| == 60001 && NoEdgeAllowed(f.h) && f.h.waited == 240004 && f.ioBuffer[..] == old(f.ioBuffer[..])
    ensures status == OK ==> Received(f.h, f.ioBuffer[..])
  {
    CaptureRequest(f.ioBuffer[..]);
    var transfer := f.TransferStart(RX_TIMEOUT, RX_FLAGS);
    ghost var start := f.h;
    var effective := FirmwareTransfer.Interleave(f, steps);
    StaysCapture(start, f.h);
    var offset;
    status, offset := f.TransferStatus(transfer);
  }

  method ReadSamples(d: Driver, buffer: seq<bv8>) returns (samples: seq<Sample>)
    requires d.Valid() && d.usbRxLen == 0 && |buffer| == SAMPLE_BUFFER_SIZE
    modifies d, d.usbTxBuf
    ensures d.Valid() && SamplesOf(IoBits(buffer), samples) && samples == RunSamples(IoBits(buffer))
  {
    var data := ReadBuffer(d, buffer);
    samples := GetSamples(data);
  }

  /** Behind the first falling edge, which came in time, 1536 conversions, made every eight periods of the carrier: bit
      `k` is set exactly if, of all readings up to the one of conversion `k`, the last outside the thresholds was low. */
  ghost predicate CapturedInTime(h: History, bits: seq<bool>) {
    && AsCapture(h) && FirstEdgeRead(h) && BitsRead(h, bits)
    && |h.shown| == 1536 && h.shown[0] == Pulse(true, 2) && forall k :: 1 <= k < 1536 ==> h.shown[k] == Pulse(true, 8)
  }

  lemma GoodStatusMeans(h: History, io: seq<bv8>)
    requires Received(h, io) && AsCapture(h)
    ensures |io| == SAMPLE_BUFFER_SIZE && CapturedInTime(h, IoBits(io))
  {
    TriggeredAt(h);
    ReceivedSignals(h, io);
  }

  /** `getSamples`: whatever happens while the host sleeps, a good status means that the samples are the runs of the
      signals of exactly 1536 conversions, beginning behind the first falling edge; and the status is good exactly if the
      device is done and there was one within the timeout. */
  method Capture(f: Firmware, d: Driver, steps: seq<Step>)
    returns (ok: bool, samples: seq<Sample>, ghost bits: seq<bool>)
    requires f.Valid() && f.state == IDLE
    requires d.Valid() && d.usbRxLen == 0
    modifies f, f.ioBuffer, d, d.usbTxBuf
    ensures f.Valid() && d.Valid() && AsCapture(f.h)
    ensures ok <==> f.state == IDLE && !NoEdgeInTime(f.h)
    ensures ok ==> CapturedInTime(f.h, bits)
    ensures ok ==> SamplesOf(bits, samples) && samples == RunSamples(bits)
  {
    samples, bits := [], IoBits(f.ioBuffer[..]);
    var status := CaptureBuffer(f, steps);
    ok := status == OK;
    if ok {
      bits := IoBits(f.ioBuffer[..]);
      GoodStatusMeans(f.h, f.ioBuffer[..]);
      samples := ReadSamples(d, f.ioBuffer[..]);
    }
  }
}
