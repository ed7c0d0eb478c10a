/** Control-IN transfers: how the driver cuts a reply into packets, and when it hands them to the host. */
module UsbControl {
  import opened UsbCrc
  import opened UsbCrcLoops
  import opened UsbLine
  import UsbReceive
  import opened UsbRoundTrip

  const DATA0: bv8 := 0xc3
  const DATA1: bv8 := 0x4b
  const NAK: nat := 0x5a
  const NO_MSG: nat := 255
  const PACKET: nat := 8

  /** Bit 4 tells a handshake in `usbTxLen` from the length of a packet. */
  predicate IsHandshake(n: nat) { n % 32 >= 16 }

  function Min(a: nat, b: nat): nat { if a < b then a else b }

  // ---- The packets of a reply ----

  function PacketCount(reply: seq<bv8>): nat { |reply| / PACKET + 1 }

  function Block(reply: seq<bv8>, k: nat): (block: seq<bv8>)
    requires k < PacketCount(reply)
    ensures |block| <= PACKET
    ensures |block| == PACKET <==> k + 1 < PacketCount(reply)
  {
    reply[PACKET * k..Min(PACKET * k + PACKET, |reply|)]
  }

  /** Packet identifiers alternate, beginning with DATA1. */
  function Pid(k: nat): bv8 { if k % 2 == 0 then DATA1 else DATA0 }

  /** An identifier on the wire: the four bits of its kind, lowest first, and their complements (section 8.3.1 of USB 2.0). */
  predicate IsPid(pid: bv8, kind: seq<bool>)
    requires |kind| == 4
  {
    ByteBits(pid) == kind + [!kind[0], !kind[1], !kind[2], !kind[3]]
  }

  /** DATA1 is 1011 and DATA0 is 0011, written highest bit first. */
  function DataKind(k: nat): (kind: seq<bool>)
    ensures |kind| == 4
  {
    if k % 2 == 0 then [true, true, false, true] else [true, true, false, false]
  }

  lemma PidIsData(k: nat)
    ensures IsPid(Pid(k), DataKind(k))
  {
  }

  lemma PidEverySecond(k: nat)
    ensures Pid(k + 2) == Pid(k)
  {
  }

  /** NAK is 1010. */
  lemma NakIsNak()
    ensures NAK == 0x5a && IsPid(0x5a, [false, true, false, true])
  {
  }

  function Packet(reply: seq<bv8>, k: nat): (packet: seq<bv8>)
    requires k < PacketCount(reply)
    ensures 3 <= |packet| <= 11
  {
    [Pid(k)] + Checked(Block(reply, k))
  }

  /** The first `n` packets. */
  function Packets(reply: seq<bv8>, n: nat): (packets: seq<seq<bv8>>)
    requires n <= PacketCount(reply)
    ensures |packets| == n
  {
    seq(n, k requires 0 <= k < n => Packet(reply, k))
  }

  function Payload(packet: seq<bv8>): seq<bv8>
    requires |packet| >= 3
  {
    packet[1..|packet| - 2]
  }

  function Payloads(packets: seq<seq<bv8>>): seq<bv8>
    requires forall k :: 0 <= k < |packets| ==> |packets[k]| >= 3
  {
    if |packets| == 0 then [] else Payloads(packets[..|packets| - 1]) + Payload(packets[|packets| - 1])
  }

  lemma PayloadOfPacket(reply: seq<bv8>, k: nat)
    requires k < PacketCount(reply)
    ensures Payload(Packet(reply, k)) == Block(reply, k)
  {
  }

  lemma OneMorePacket(reply: seq<bv8>, n: nat)
    requires n < PacketCount(reply)
    ensures Payloads(Packets(reply, n + 1)) == Payloads(Packets(reply, n)) + Block(reply, n)
  {
    PayloadOfPacket(reply, n);
    assert Packets(reply, n + 1)[..n] == Packets(reply, n);
  }

  lemma TakeBlock(reply: seq<bv8>, n: nat)
    requires n < PacketCount(reply)
    ensures reply[..PACKET * n] + Block(reply, n) == reply[..Min(PACKET * n + PACKET, |reply|)]
  {
  }

  /** The packets delivered so far hold the beginning of the reply, and all of them hold all of it. */
  lemma {:induction false} PayloadsArePrefix(reply: seq<bv8>, n: nat)
    requires n <= PacketCount(reply)
    ensures Payloads(Packets(reply, n)) == reply[..Min(PACKET * n, |reply|)]
    ensures n == PacketCount(reply) ==> Payloads(Packets(reply, n)) == reply
  {
    if n > 0 {
      PayloadsArePrefix(reply, n - 1);
      OneMorePacket(reply, n - 1);
      TakeBlock(reply, n - 1);
    }
  }

  lemma PidsAreValid(k: nat)
    ensures ValidPid(Pid(k)) && Pid(k) ^ (DATA0 ^ DATA1) == Pid(k + 1)
  {
  }

  // ---- The driver ----

  /** Where a reply comes from: bytes at `usbMsgPtr`, or the user's read function over a buffer. */
  datatype Source = Memory(bytes: seq<bv8>) | UserRead(buffer: seq<bv8>)

  /** The length left in `usbMsgLen` after a setup request asking for `wLength` bytes. */
  function MessageLength(source: Source, wLength: nat): (len: nat)
    requires wLength < 0x10000 && (source.Memory? ==> |source.bytes| < NO_MSG)
    ensures len <= NO_MSG
  {
    if source.UserRead? then wLength % 256
    else if wLength / 256 == 0 && |source.bytes| > wLength % 256 then wLength % 256
    else |source.bytes|
  }

  function Contents(source: Source): seq<bv8> {
    match source case Memory(bytes) => bytes case UserRead(buffer) => buffer
  }

  /** What the host should get. */
  function Reply(source: Source, wLength: nat): seq<bv8> {
    Contents(source)[..Min(|Contents(source)|, wLength)]
  }

  /** What will be packed: all the device can give, up to the message length. */
  function Packed(source: Source, len: nat): seq<bv8> {
    Contents(source)[..Min(|Contents(source)|, len)]
  }

  /** Replies from memory are always cut to what was asked for. Replies of the read function are if the host
      asks for less than 256 bytes, or if the buffer is no longer than the low byte of what is asked for. */
  lemma PackedIsReply(source: Source, wLength: nat)
    requires wLength < 0x10000 && (source.Memory? ==> |source.bytes| < NO_MSG)
    ensures Packed(source, MessageLength(source, wLength)) == Reply(source, wLength) <==>
            source.Memory? || wLength < 256 || |source.buffer| <= wLength % 256
  {
    if source.UserRead? && wLength >= 256 && |source.buffer| > wLength % 256 {
      assert |Packed(source, MessageLength(source, wLength))| == wLength % 256 < |Reply(source, wLength)|;
    }
  }

  /** `built` packets have been read from the source, and `len` more bytes are wanted. */
  predicate Pending(source: Source, reply: seq<bv8>, built: nat, position: nat, len: nat) {
    && built < PacketCount(reply)
    && position == PACKET * built
    && reply == Packed(source, position + len)
    && position <= |Contents(source)|
    && (source.Memory? ==> position + len <= |source.bytes|)
  }

  /** Message length and read position agree with the number of packets built. */
  predicate Positioned(source: Source, reply: seq<bv8>, built: nat, position: nat, msgLen: nat) {
    && built <= PacketCount(reply)
    && msgLen <= NO_MSG
    && (msgLen != NO_MSG ==> Pending(source, reply, built, position, msgLen))
    && (msgLen == NO_MSG ==> built == 0 || built == PacketCount(reply))
  }

  /** What is read next is the next block of the reply; it is a short one exactly if it is the last. */
  lemma NextBlock(source: Source, reply: seq<bv8>, built: nat, position: nat, len: nat)
    requires Pending(source, reply, built, position, len)
    ensures var n := Min(Min(len, PACKET), |Contents(source)| - position);
            && Contents(source)[position..position + n] == Block(reply, built)
            && (n < PACKET <==> built + 1 == PacketCount(reply))
            && (n == PACKET ==> Pending(source, reply, built + 1, position + n, len - n))
  {
    var n := Min(Min(len, PACKET), |Contents(source)| - position);
    assert |reply| == Min(|Contents(source)|, position + len);
    assert Contents(source)[position..position + n] == reply[position..position + n];
  }

  /** The transmit buffer begins with packet `k`, and `txLen` is its length, sync byte included. */
  predicate InBuffer(buffer: seq<bv8>, reply: seq<bv8>, k: nat, txLen: nat) {
    && k < PacketCount(reply)
    && txLen == |Packet(reply, k)| + 1 <= |buffer| + 1
    && buffer[..txLen - 1] == Packet(reply, k)
  }

  lemma PacketStored(buffer: seq<bv8>, reply: seq<bv8>, k: nat)
    requires |buffer| == 11 && k < PacketCount(reply) && buffer[0] == Pid(k)
    requires buffer[1..1 + |Block(reply, k)| + 2] == Checked(Block(reply, k))
    ensures InBuffer(buffer, reply, k, |Block(reply, k)| + 4)
  {
    var n := |Block(reply, k)|;
    assert buffer[..n + 3] == [buffer[0]] + buffer[1..1 + n + 2];
  }

  predicate Delivered(reply: seq<bv8>, delivered: seq<seq<bv8>>) {
    |delivered| <= PacketCount(reply) && delivered == Packets(reply, |delivered|)
  }

  /** All packets built are delivered, except perhaps the last, which then is in the buffer. */
  predicate Transmitting(buffer: seq<bv8>, reply: seq<bv8>, built: nat, delivered: seq<seq<bv8>>, txLen: nat) {
    && |buffer| == 11 && buffer[0] == Pid(built + 1)
    && (if IsHandshake(txLen) then txLen == NAK && |delivered| == built
        else built > 0 && |delivered| == built - 1 && InBuffer(buffer, reply, built - 1, txLen))
    && Delivered(reply, delivered)
  }

  lemma PacketBuilt(before: seq<bv8>, after: seq<bv8>, reply: seq<bv8>, built: nat, delivered: seq<seq<bv8>>,
                    txLen: nat, len: nat)
    requires Transmitting(before, reply, built, delivered, txLen) && IsHandshake(txLen)
    requires |after| == 11 && after[0] == Pid(built + 2) && 4 <= len <= 12 && InBuffer(after, reply, built, len)
    ensures Transmitting(after, reply, built + 1, delivered, len) && !IsHandshake(len)
  {
  }

  datatype Answer = Handshake(pid: nat) | Data(packet: seq<bv8>)

  datatype Request = Setup(source: Source, wLength: nat)

  predicate ValidRequest(r: Request) {
    r.wLength < 0x10000 && (r.source.Memory? ==> |r.source.bytes| < NO_MSG)
  }

  /** The bytes the device is going to send. */
  function Promised(r: Request): seq<bv8>
    requires ValidRequest(r)
  {
    Packed(r.source, MessageLength(r.source, r.wLength))
  }

  /** A message length of 255 means that there is no message. */
  predicate Answered(r: Request)
    requires ValidRequest(r)
  {
    MessageLength(r.source, r.wLength) != NO_MSG
  }

  /** Only the read function's length can be that, and it is if the low byte of what the host asks for is. */
  lemma AnsweredUnless255(r: Request)
    requires ValidRequest(r)
    ensures Answered(r) <==> !(r.source.UserRead? && r.wLength % 256 == 255)
  {
  }

  class Driver {
    var usbRxLen: nat
    var request: Request           // the receive buffer
    var usbTxLen: nat
    const usbTxBuf: array<bv8>
    var usbMsgLen: nat
    var source: Source
    var position: nat              // usbMsgPtr, or the offset of the read function

    ghost var reply: seq<bv8>
    ghost var built: nat           // packets built for this reply
    ghost var delivered: seq<seq<bv8>>

    ghost predicate Valid()
      reads this, usbTxBuf
    {
      && usbTxBuf.Length == 11
      && (usbRxLen == 0 || usbRxLen == 11) && ValidRequest(request)
      && Positioned(source, reply, built, position, usbMsgLen)
      && Transmitting(usbTxBuf[..], reply, built, delivered, usbTxLen)
    }

    constructor (junk: Request)
      requires ValidRequest(junk)
      ensures Valid() && fresh(usbTxBuf) && usbMsgLen == NO_MSG && usbRxLen == 0 && delivered == []
    {
      usbRxLen, request := 0, junk;
      usbTxLen, usbMsgLen := NAK, NO_MSG;
      source, position := junk.source, 0;
      usbTxBuf := new bv8[11](_ => DATA0);
      reply, built, delivered := [], 0, [];
    }

    /** A setup packet arrives. It is refused while another one waits to be processed. */
    method HandleSetup(r: Request) returns (accepted: bool)
      requires Valid() && ValidRequest(r)
      modifies this`usbRxLen, this`request
      ensures Valid() && accepted == (old(usbRxLen) == 0)
      ensures if accepted then usbRxLen > 0 && request == r else usbRxLen == old(usbRxLen) && request == old(request)
    {
      accepted := usbRxLen == 0;
      if accepted {
        usbRxLen := 11;
        request := r;
      }
    }

    /** An IN token arrives. */
    method HandleIn() returns (a: Answer)
      requires Valid()
      modifies this`usbTxLen, this`delivered
      ensures Valid()
      ensures a.Handshake? ==> a.pid == 0x5a && IsPid(0x5a, [false, true, false, true])
      ensures a.Handshake? ==> delivered == old(delivered) && usbTxLen == old(usbTxLen)
      ensures a.Data? ==> delivered == old(delivered) + [a.packet] && a.packet == Packet(reply, |old(delivered)|)
      ensures a.Data? <==> old(usbRxLen) == 0 && !IsHandshake(old(usbTxLen))
    {
      NakIsNak();
      if usbRxLen >= 1 {
        return Handshake(NAK);
      }
      if IsHandshake(usbTxLen) {
        return Handshake(usbTxLen);
      }
      a := Data(usbTxBuf[..usbTxLen - 1]);
      usbTxLen := NAK;
      delivered := delivered + [a.packet];
    }

    /** `usbDeviceRead`: copies what there is to the transmit buffer, behind the packet identifier. */
    method DeviceRead(len: nat) returns (n: nat)
      requires usbTxBuf.Length == 11 && len <= PACKET && position <= |Contents(source)|
      requires source.Memory? ==> position + len <= |source.bytes|
      modifies this`position, usbTxBuf
      ensures n == Min(len, |Contents(source)| - old(position)) && position == old(position) + n
      ensures usbTxBuf[0] == old(usbTxBuf[0]) && usbTxBuf[1..1 + n] == Contents(source)[old(position)..position]
    {
      n := 0;
      var src := Contents(source);
      while n < len
        invariant n <= len && position == old(position) + n <= |src|
        invariant usbTxBuf[0] == old(usbTxBuf[0]) && usbTxBuf[1..1 + n] == src[old(position)..position]
      {
        if source.UserRead? && position == |src| { break; }
        usbTxBuf[1 + n] := src[position];
        assert usbTxBuf[1..1 + n] == src[old(position)..position];
        n, position := n + 1, position + 1;
        assert usbTxBuf[1..1 + n] == src[old(position)..position];
      }
    }

    method ToggleToken()
      requires usbTxBuf.Length == 11 && usbTxBuf[0] == Pid(built + 1)
      modifies usbTxBuf
      ensures usbTxBuf[0] == Pid(built)
    {
      PidsAreValid(built + 1);
      assert Pid(built + 2) == Pid(built);
      usbTxBuf[0] := usbTxBuf[0] ^ (DATA0 ^ DATA1);
    }

    method ReadAndCheck(wantLen: nat) returns (len: nat)
      requires usbTxBuf.Length == 11 && wantLen <= PACKET && position <= |Contents(source)|
      requires source.Memory? ==> position + wantLen <= |source.bytes|
      modifies this`position, usbTxBuf
      ensures len == Min(wantLen, |Contents(source)| - old(position)) && position == old(position) + len
      ensures usbTxBuf[0] == old(usbTxBuf[0])
      ensures usbTxBuf[1..1 + len + 2] == Checked(Contents(source)[old(position)..position])
    {
      len := DeviceRead(wantLen);
      UsbCrc16Append(usbTxBuf, 1, len);
      assert usbTxBuf[0] == usbTxBuf[..1][0];
    }

    /** Identifier, data and checksum of the next packet. */
    method FillBuffer(wantLen: nat) returns (len: nat)
      requires usbTxBuf.Length == 11 && usbTxBuf[0] == Pid(built + 1) && built < PacketCount(reply)
      requires wantLen <= PACKET && position <= |Contents(source)|
      requires source.Memory? ==> position + wantLen <= |source.bytes|
      requires var n := Min(wantLen, |Contents(source)| - position);
               Contents(source)[position..position + n] == Block(reply, built)
      modifies this`position, usbTxBuf
      ensures len == |Block(reply, built)| && position == old(position) + len
      ensures InBuffer(usbTxBuf[..], reply, built, len + 4) && usbTxBuf[0] == Pid(built + 2)
    {
      ToggleToken();
      len := ReadAndCheck(wantLen);
      assert usbTxBuf[..][1..1 + len + 2] == usbTxBuf[1..1 + len + 2];
      PacketStored(usbTxBuf[..], reply, built);
    }

    method PackBlock(wantLen: nat, ghost msgLen: nat) returns (len: nat)
      requires usbTxBuf.Length == 11 && usbTxBuf[0] == Pid(built + 1)
      requires Pending(source, reply, built, position, msgLen) && wantLen == Min(msgLen, PACKET) && msgLen < NO_MSG
      modifies this`position, usbTxBuf
      ensures len <= PACKET && InBuffer(usbTxBuf[..], reply, built, len + 4) && usbTxBuf[0] == Pid(built + 2)
      ensures len < PACKET <==> built + 1 == PacketCount(reply)
      ensures Positioned(source, reply, built + 1, position, if len == PACKET then msgLen - PACKET else NO_MSG)
    {
      NextBlock(source, reply, built, position, msgLen);
      len := FillBuffer(wantLen);
    }

    /** `usbBuildTxBlock` */
    method BuildTxBlock()
      requires Valid() && IsHandshake(usbTxLen) && usbMsgLen != NO_MSG
      modifies this, usbTxBuf
      ensures Valid() && !IsHandshake(usbTxLen)
      ensures reply == old(reply) && built == old(built) + 1 && delivered == old(delivered)
      ensures usbRxLen == old(usbRxLen) && request == old(request) && source == old(source)
      ensures usbMsgLen == NO_MSG <==> built == PacketCount(reply)
      ensures usbTxBuf[0] == Pid(old(built)) && IsPid(Pid(old(built)), DataKind(old(built)))
    {
      ghost var msgLen := usbMsgLen;
      var wantLen := Min(usbMsgLen, PACKET);
      usbMsgLen := usbMsgLen - wantLen;
      ghost var before := usbTxBuf[..];
      var len := PackBlock(wantLen, msgLen);
      PacketBuilt(before, usbTxBuf[..], reply, built, delivered, usbTxLen, len + 4);
      usbTxLen := len + 4;
      if usbTxLen < 12 {
        usbMsgLen := NO_MSG;
      }
      assert usbMsgLen == if len == PACKET then msgLen - PACKET else NO_MSG;
      built := built + 1;
      PidIsData(old(built));
      PidEverySecond(old(built));
    }

    /** `usbProcessRx` for a setup packet: the pending transmission is aborted, and the toggling starts over. */
    method ProcessSetup()
      requires Valid()
      modifies this, usbTxBuf
      ensures Valid() && usbTxLen == NAK && usbRxLen == 0
      ensures Requested(old(request)) && built == 0 && delivered == []
    {
      usbTxBuf[0] := DATA0;
      usbTxLen := NAK;
      source, position := request.source, 0;
      usbMsgLen := MessageLength(source, request.wLength);
      reply, built, delivered := Packed(source, usbMsgLen), 0, [];
      usbRxLen := 0;
    }

    /** The transfer under way answers request `r`. */
    ghost predicate Requested(r: Request)
      requires ValidRequest(r)
      reads this
    {
      && reply == Promised(r)
      && if Answered(r) then usbMsgLen == NO_MSG <==> built == PacketCount(reply) else usbMsgLen == NO_MSG && built == 0
    }

    /** The main loop's share: it processes what was received, and builds a packet when the buffer is free. */
    method Poll()
      requires Valid()
      modifies this, usbTxBuf
      ensures Valid() && usbRxLen == 0
      ensures old(usbRxLen) == 0 ==> reply == old(reply) && delivered == old(delivered)
      ensures old(usbRxLen) == 0 && old(usbMsgLen) == NO_MSG ==> usbMsgLen == NO_MSG && built == old(built)
      ensures old(usbRxLen) == 0 && old(usbMsgLen) != NO_MSG ==> (usbMsgLen == NO_MSG <==> built == PacketCount(reply))
      ensures old(usbRxLen) > 0 ==> Requested(old(request)) && delivered == []
      ensures IsHandshake(usbTxLen) ==> usbMsgLen == NO_MSG
    {
      if usbRxLen >= 3 {
        ProcessSetup();
      }
      if IsHandshake(usbTxLen) {
        if usbMsgLen != NO_MSG {
          BuildTxBlock();
        }
      }
    }
  }

  // ---- What the host sees ----

  /** Whatever has been delivered of a reply: the packets hold its beginning in order, eight bytes each until
      a last shorter one, their identifiers alternate from DATA1 on, and their checksums are right. */
  lemma DeliveredPackets(reply: seq<bv8>, delivered: seq<seq<bv8>>)
    requires Delivered(reply, delivered)
    ensures forall k :: 0 <= k < |delivered| ==>
              && IsPid(delivered[k][0], if k % 2 == 0 then [true, true, false, true] else [true, true, false, false])
              && |Payload(delivered[k])| == (if 8 * (k + 1) <= |reply| then 8 else |reply| % 8)
              && Accepts(delivered[k][1..])
    ensures Payloads(delivered) <= reply && |delivered| <= |reply| / 8 + 1
    ensures |delivered| == |reply| / 8 + 1 ==> Payloads(delivered) == reply
  {
    PayloadsArePrefix(reply, |delivered|);
    forall k | 0 <= k < |delivered|
      ensures IsPid(delivered[k][0], DataKind(k)) && Accepts(delivered[k][1..])
      ensures |Payload(delivered[k])| == if 8 * (k + 1) <= |reply| then 8 else |reply| % 8
    {
      PayloadOfPacket(reply, k);
      PidIsData(k);
      var block := Block(reply, k);
      assert delivered[k][1..] == Checked(block);
      CheckedIsAccepted(block);
    }
  }

  datatype Event = InToken | MainLoop | SetupToken(request: Request)

  predicate ValidEvent(e: Event) {
    e.SetupToken? ==> ValidRequest(e.request)
  }

  /** What follows from the events alone: the request accepted last, whether the main loop has yet to see it, whether
      it has had a turn since the last IN token, and how many times it has had one before an IN token since then. */
  datatype Book = Book(request: Request, pending: bool, turn: bool, rounds: nat)

  function Enter(b: Book, e: Event): Book {
    match e
    case SetupToken(r) => if b.pending then b else Book(r, true, false, 0)
    case MainLoop => b.(pending := false, turn := true)
    case InToken => if b.turn then b.(turn := false, rounds := b.rounds + 1) else b
  }

  function EnterAll(b: Book, events: seq<Event>): Book {
    if |events| == 0 then b else Enter(EnterAll(b, events[..|events| - 1]), events[|events| - 1])
  }

  /** The packets `got` since the last accepted request: none while it waits, then the packets of its reply in order,
      at least one for each round until there are no more; and none ever if the request is one that is not answered. */
  predicate HostHas(b: Book, got: seq<seq<bv8>>) {
    && ValidRequest(b.request)
    && if b.pending || !Answered(b.request) then got == []
       else Delivered(Promised(b.request), got) && |got| >= Min(b.rounds, PacketCount(Promised(b.request)))
  }

  /** The driver has done what the book says. */
  ghost predicate Keeps(d: Driver, b: Book, got: seq<seq<bv8>>)
    reads d, d.usbTxBuf
  {
    && d.Valid() && HostHas(b, got)
    && (b.pending <==> d.usbRxLen > 0)
    && if b.pending then d.request == b.request && !b.turn && b.rounds == 0
       else d.Requested(b.request) && d.delivered == got && (b.turn && IsHandshake(d.usbTxLen) ==> d.usbMsgLen == NO_MSG)
  }

  method OnSetup(d: Driver, r: Request, ghost b: Book, got: seq<seq<bv8>>) returns (now: seq<seq<bv8>>)
    requires Keeps(d, b, got) && ValidRequest(r)
    modifies d`usbRxLen, d`request
    ensures Keeps(d, Enter(b, SetupToken(r)), now)
  {
    var accepted := d.HandleSetup(r);
    now := if accepted then [] else got;
  }

  method OnMainLoop(d: Driver, ghost b: Book, got: seq<seq<bv8>>)
    requires Keeps(d, b, got)
    modifies d, d.usbTxBuf
    ensures Keeps(d, Enter(b, MainLoop), got)
  {
    d.Poll();
  }

  method OnInToken(d: Driver, ghost b: Book, got: seq<seq<bv8>>) returns (now: seq<seq<bv8>>)
    requires Keeps(d, b, got)
    modifies d`usbTxLen, d`delivered
    ensures Keeps(d, Enter(b, InToken), now)
  {
    var a := d.HandleIn();
    now := if a.Data? then got + [a.packet] else got;
  }

  /** Every interleaving of SETUP and IN tokens and turns of the main loop, after a request has been accepted. */
  method Interleave(d: Driver, r: Request, events: seq<Event>) returns (got: seq<seq<bv8>>)
    requires d.Valid() && d.usbRxLen == 0 && ValidRequest(r)
    requires forall i :: 0 <= i < |events| ==> ValidEvent(events[i])
    modifies d, d.usbTxBuf
    ensures d.Valid() && HostHas(EnterAll(Book(r, true, false, 0), events), got)
  {
    got := [];
    ghost var start := Book(r, true, false, 0);
    ghost var b := start;
    var _ := d.HandleSetup(r);
    for i := 0 to |events|
      invariant b == EnterAll(start, events[..i]) && Keeps(d, b, got)
    {
      assert events[..i + 1][..i] == events[..i];
      match events[i] {
        case SetupToken(s) => got := OnSetup(d, s, b, got);
        case MainLoop => OnMainLoop(d, b, got);
        case InToken => got := OnInToken(d, b, got);
      }
      b := Enter(b, events[i]);
    }
    assert events[..|events|] == events;
  }

  /** Fair schedules: once there have been as many rounds as packets, the host has the whole reply. */
  lemma EnoughRounds(b: Book, got: seq<seq<bv8>>)
    requires HostHas(b, got) && !b.pending && Answered(b.request) && b.rounds >= PacketCount(Promised(b.request))
    ensures (forall k :: 0 <= k < |got| ==> |got[k]| >= 3) && Payloads(got) == Promised(b.request)
  {
    PayloadsArePrefix(Promised(b.request), |got|);
  }

  /** An IN token that finds a packet, and the turn of the main loop after it. */
  method NextPayload(d: Driver) returns (payload: seq<bv8>)
    requires d.Valid() && d.usbRxLen == 0 && !IsHandshake(d.usbTxLen)
    modifies d, d.usbTxBuf
    ensures d.Valid() && d.usbRxLen == 0 && d.reply == old(d.reply) && |d.delivered| == |old(d.delivered)| + 1
    ensures |old(d.delivered)| < PacketCount(d.reply) && payload == Block(d.reply, |old(d.delivered)|)
    ensures |payload| == PACKET ==> !IsHandshake(d.usbTxLen)
  {
    PayloadOfPacket(d.reply, |d.delivered|);
    var a := d.HandleIn();
    payload := Payload(a.packet);
    d.Poll();
  }

  /** A setup packet, and the turn of the main loop that makes the first packet ready, if there is to be one. */
  method SendRequest(d: Driver, r: Request)
    requires d.Valid() && d.usbRxLen == 0 && ValidRequest(r)
    modifies d, d.usbTxBuf
    ensures d.Valid() && d.usbRxLen == 0 && d.delivered == [] && d.reply == Promised(r)
    ensures IsHandshake(d.usbTxLen) <==> !Answered(r)
  {
    var _ := d.HandleSetup(r);
    d.Poll();
  }

  lemma BlockThenRest(reply: seq<bv8>, n: nat)
    requires n < PacketCount(reply)
    ensures PACKET * n <= |reply|
    ensures |Block(reply, n)| == PACKET ==>
              PACKET * (n + 1) <= |reply| && reply[PACKET * n..] == Block(reply, n) + reply[PACKET * (n + 1)..]
    ensures |Block(reply, n)| < PACKET ==> reply[PACKET * n..] == Block(reply, n)
  {
  }

  /** The host asks on until it gets a packet that is not full. */
  method ReadRest(d: Driver) returns (data: seq<bv8>)
    requires d.Valid() && d.usbRxLen == 0 && !IsHandshake(d.usbTxLen) && |d.delivered| < PacketCount(d.reply)
    modifies d, d.usbTxBuf
    ensures d.Valid() && d.reply == old(d.reply) && data == d.reply[PACKET * |old(d.delivered)|..]
    decreases PacketCount(d.reply) - |d.delivered|
  {
    ghost var n := |d.delivered|;
    BlockThenRest(d.reply, n);
    data := NextPayload(d);
    if |data| == PACKET {
      var rest := ReadRest(d);
      data := data + rest;
    }
  }

  /** A whole transfer: the host then has the reply. A length whose low byte is 255 is not answered at all in the
      read function's case; then the first IN token is refused already. */
  method ReadAll(d: Driver, r: Request) returns (answered: bool, data: seq<bv8>)
    requires d.Valid() && d.usbRxLen == 0 && ValidRequest(r)
    modifies d, d.usbTxBuf
    ensures d.Valid() && (answered <==> !(r.source.UserRead? && r.wLength % 256 == 255))
    ensures data == if answered then Promised(r) else []
  {
    SendRequest(d, r);
    AnsweredUnless255(r);
    answered, data := !IsHandshake(d.usbTxLen), [];
    if answered {
      data := ReadRest(d);
    }
  }

  /** A packet of a reply with a byte 0xff among its data keeps the line at one level for seven bit times; the first
      packet of the reply 0xff is one. */
  lemma OnesInReplyReachSeven(reply: seq<bv8>, k: nat, i: nat)
    requires k < PacketCount(reply) && i < |Block(reply, k)| && Block(reply, k)[i] == 0xff
    ensures ReachesSeven(PacketLevels(Packet(reply, k))) && ReachesSeven(PacketLevels(Packet([0xff], 0)))
  {
    ByteOfOnesReachesSeven(Packet(reply, k), i + 1);
    ByteOfOnesReachesSeven(Packet([0xff], 0), 1);
  }

  /** A packet of a reply survives the line: it is short enough for the transmit loop, and its identifier valid. */
  method PacketOverLine(reply: seq<bv8>, k: nat, junk: bv8, flag: bool) returns (r: UsbReceive.Received)
    requires k < PacketCount(reply)
    ensures r.Bytes? && |r.regs| == |Packet(reply, k)|
    ensures forall i :: 0 <= i < |r.regs| ==> r.regs[i] == ByteBits(Packet(reply, k)[i])
  {
    PidsAreValid(k);
    ValidPidHasEarlyZero(Pid(k));
    r := SendAndReceive(Packet(reply, k), junk, flag);
  }
}
