# Verification of the RFID reader and programmer

A Dafny model of the host decoders and encoders, the ATtiny85 firmware and the bit layer of its USB driver, with
proofs of what they are for. `dafny verify dfyconfig.toml` checks everything, within the default limits. With
`--resource-limit 2000000 --verification-time-limit 0 --warn-contradictory-assumptions` it stays within that limit, too.

The code that works step by step is modelled step by step: the decoders, the driver, the transmit and receive loops and
the firmware are classes with the fields of the original, and loops are loops. Each is proved against a specification
(a small state machine, a line code, a checksum, a packet list, a history of conversions), and the promises are
theorems about that specification. Streaming machines share one definition of a run, `Machines.Fold`.

Two long pipelines are composed end to end:

* **Read.** `ReadOperation`: readings of the converter -> signals -> sample buffer -> control transfer -> runs of levels -> carrier
  stage -> Manchester and biphase decoder -> two EM4100 decoders -> two lists of tokens. At every data rate and from every
  phase the token on the field is reported exactly once per whole frame behind the lock. `CaptureEndToEnd` is the capture
  half, `ReadEndToEnd` the decoding half; between them stands `CapturedPulses`: of the pulses a capture makes clean
  samples, but for the one it begins in, which is cut short, and the one it ends in, which is lost. `ReadGuarantee` bounds
  the number of reports from below, and `OtherChain` says what the chain of the other code makes of the field.
* **Write.** `WriteEndToEnd`: customer id and token -> EEPROM words -> write commands -> packed nibbles -> upload in any
  chunks -> replay by the timer interrupt -> what the tag reads.

Below them lie the USB line (`UsbLine`, `UsbTransmit`, `UsbReceive`, `UsbRoundTrip`), the three checksum computations
(`UsbCrc`, `UsbCrcLoops`), control-IN transfers (`UsbControl`), the firmware's transfer protocol (`FirmwareTransfer`,
with the histories it extends in `TransferHistory` and what readings decide in `Readings`) and the clock calibration (`Oscillator`).

## What the code does otherwise than one would expect

* **EM4100, joining inside the preamble.** A decoder that joins a repeating frame at bit 2 or 4 of the preamble can be
  trapped: for some identities all shifted rows pass the parity test, and the decoder never reports anything
  (`TrapExists`). `Resynchronisation` gives the exact condition. On the Manchester path no pulse begins there, so the
  end-to-end theorem has no exception; on the biphase path the exception is part of the statement.
* **USB, equal levels.** A level can be held for seven bit times, not six: the level of a zero is held through the six
  ones before the stuffed bit. `NeverEightEqual` is the bound; `PacketReachesSeven` says for which data it is reached.
* **USB, the bit before the packet.** The receiver does not count the one that ends the sync byte towards six ones. That
  makes no difference for any packet whose first byte has a zero among its five low bits, hence for every valid identifier.
* **Control transfers.** With the read function the requested length is cut to its low byte, and 255 there is taken
  for "no message": such a request is accepted and never answered (`AnsweredUnless255`, `Interleave`). `PackedIsReply` has
  the exact condition for the rest.
* **Conversions.** A signal is set at a low level of the field. The comparison of the previous signal with -1, "unknown",
  is made on an unsigned byte and never holds, contrary to its comment. So a transfer that waits for a falling edge is
  started by a first reading above the high threshold (`FirstReadingTriggers`, `TriggersAtOnce`). What starts it is a
  change between two decided signals exactly if it waits for a rising edge or an earlier reading has decided
  (`EdgeIsChangeIff`).
* **Two chains on one field.** Both decoders hear every pulse, and a Manchester field of some bits is a biphase field of
  their differences (`CodeDuality`). If the cyclic differences of a frame are a rotation of another frame, the program
  names that token, too, once per frame: the Manchester tag 0x72/0x58888889 is also named as 0x99/0x9999bb01 (`Phantom`),
  and the other way round (`EchoIsMutual`). `OtherChain` has the exact conditions.
* **Capture.** The first bit is never counted and the last run never reported; the first sample can have length 0.
* **Packing.** An odd number of samples leaves a zero nibble, replayed as one more low pulse of the shortest length.
  Write commands always have an odd number of samples, and end with a gap that this lengthens.
* **Timeouts.** The timeout for writing, 480000, is cut to 16 bits, 21248. The wait is over after one conversion
  more than the timeout, and conversions come every four periods of the carrier, which makes 84996 periods or 0.68 seconds.
* **Calibration.** For a search result of 0 the neighbourhood is not scanned, and for 254 or more the scan never ends,
  because its counter is the 8-bit register itself. `CalibrateSlow` and `CalibrateJumping` are oscillators for which it
  goes wrong.
* **Pulse ranges.** The short pulses of a data rate lie in the long window of the next smaller one, so a stream with few
  long pulses fits the smaller rate well enough to keep the search there. A rate is left exactly when a window of about
  fifty samples holds ten misfits (`StaysIff`); a clean stream is locked onto exactly if all smaller rates are left and
  enough pulses of both lengths follow (`LocksIff`). For streams that are not clean `CarrierSync` says what each sample
  brings. The frame of customer id 0, token 0 has two long Manchester pulses
  and is never read at RF/32 and RF/64 (`SparseNeverRead`, `SparseNeverCaptured`).

## What is assumed

Parameters stand for what the code cannot know: conversion results, uninitialised registers, the chunking of an upload,
the schedule of interrupts and main loop. Interrupts are atomic and fire only while their source is enabled: the
converter's while it is started and the timer runs, the timer's while its interrupt is enabled, both only while
interrupts are enabled globally. The host keeps its own discipline: a transfer is started only on an idle device and
with the edge flag set, and buffers are written only while it is idle.

## Model

| member | source | states |
|---|---|---|
| Em4100Machine.Soundness | rfid-tool/src/rfid/Em4100Decoder.cpp:46-144 | over every bit history from reset, an identity is reported on a bit only if the last 64 bits are exactly its frame |
| Em4100Machine.Completeness | rfid-tool/src/rfid/Em4100Decoder.cpp:52-125 | a decoder that has seen nothing of a preamble reports every frame, once, and is back at the start |
| Em4100Decoder.Em4100Decoder.OnBit | rfid-tool/src/rfid/Em4100Decoder.cpp:46-144 | one bit on the concrete registers (state, bit counter, nibble, byte array) is one step of the machine: same new state, and a token exactly when the machine reports its identity |
| Em4100Decoder.Em4100Decoder.StoreNibble | rfid-tool/src/rfid/Em4100Decoder.cpp:88-98 | storing a nibble into its half of a byte appends it to the rows received so far |
| Em4100Decoder.Em4100Decoder.ReportIfColumnsMatch | rfid-tool/src/rfid/Em4100Decoder.cpp:100-124 | the token is reported exactly if the exclusive or of all rows equals the last row |
| Em4100Decoder.ColumnParity | rfid-tool/src/rfid/Em4100Decoder.cpp:101-106 | the byte loop computes the column parities of the ten received nibbles |
| Em4100Resync.EnterLate | rfid-tool/src/rfid/Em4100Decoder.cpp:53-131 | joining a frame at bit 5 or later reports nothing and ends ready for the next frame |
| Em4100Resync.Resynchronisation | rfid-tool/src/rfid/Em4100Decoder.cpp:53-141 | joining a repeating frame at any bit: each following whole frame is reported once, or, exactly if the identity is trapped at that bit, nothing ever is |
| Em4100Resync.TrappedIff | rfid-tool/src/rfid/Em4100Decoder.cpp:77-131 | the trap (bits 2 and 4 of the preamble only) is that the shifted rows all pass the parity test |
| Em4100Resync.TrapExists | rfid-tool/src/rfid/Em4100Decoder.cpp:53-131 | a concrete frame, of customer id 0xC0 and token 0, and a joining bit for which the decoder never synchronises |
| Em4100Distance.FrameDistance | rfid-tool/src/rfid/Em4100Eprom.cpp:51-72 | frames of different identities differ in at least 3 of 64 bits |
| Em4100Distance.ErrorDetection | rfid-tool/src/rfid/Em4100Decoder.cpp:77-125 | a fresh decoder reports nothing for a frame with one or two flipped bits |
| Em4100Distance.ThreeFlipsCanPass | rfid-tool/src/rfid/Em4100Decoder.cpp:77-125 | the bound is sharp: three flips turn every frame into another valid one, which is reported |
| Em4100Eprom.Generate | rfid-tool/src/rfid/Em4100Eprom.cpp:46-73 | the two words written bit by bit hold exactly the frame of the customer id and token |
| Em4100Eprom.AddRow | rfid-tool/src/rfid/Em4100Eprom.cpp:55-69 | one nibble: its reversed bits and parity are written behind the rows so far, and the running column parity kept |
| Em4100Eprom.FrameNamesToken | rfid-tool/src/rfid/Em4100Eprom.cpp:46-73 | tokens with the same 64-bit frame are the same token |
| Em4100Eprom.TokensOfIdentity | rfid-tool/src/rfid/Em4100Decoder.cpp:109-124 | a list of tokens whose identities are copies of that of one token is that many copies of the token |
| DataUtils.PutBit | rfid-tool/inc/common/DataUtils.hpp:50-61 | exactly one bit of the buffer changes, to the given value |
| DataUtils.PutBitsMsb | rfid-tool/inc/common/DataUtils.hpp:63-69 | the buffer is overwritten at the offset by the bits, highest first, and nowhere else |
| DataUtils.AddBits | rfid-tool/src/rfid/Em4100Eprom.cpp:35-43 | the same, lowest first |
| DataUtils.ParityNibbleIsParity | rfid-tool/inc/common/DataUtils.hpp:34-36 | the table lookup is the parity of the nibble |
| DataUtils.ReverseNibbleReverses | rfid-tool/src/common/DataUtils.cpp:20-23 | the table reverses the four bits of every nibble |
| ManchesterMachine.PulsesAreRuns | rfid-tool/src/rfid/impl/ManchesterDecoder.cpp:40-81 | the pulse train used below is the run-length form of the half-bit levels: it alternates and covers exactly them |
| ManchesterMachine.DecodesInStep | rfid-tool/src/rfid/impl/ManchesterDecoder.cpp:40-81 | in step, the decoder returns the transmitted bits |
| ManchesterMachine.SelfSynchronisation | rfid-tool/src/rfid/impl/ManchesterDecoder.cpp:40-81 | from each of the four states, after one long pulse the decoder emits exactly the remaining bits, and the bit of that pulse unless it takes its level for the one it holds |
| ManchesterMachine.FromReset | rfid-tool/src/rfid/impl/ManchesterDecoder.cpp:32-85 | from reset, joined anywhere: some zeros, then a suffix of the transmitted bits |
| ManchesterDecoder.ManchesterDecoder.OnEvent | rfid-tool/src/rfid/impl/ManchesterDecoder.cpp:40-85 | an event on the fields and the listener is a step of the machine, its bits fed to the token decoder in order |
| BiphaseMachine.DecodesInStep | rfid-tool/src/rfid/impl/BiphaseDecoder.cpp:37-67 | in step, the decoder returns the transmitted bits |
| BiphaseMachine.SelfSynchronisation | rfid-tool/src/rfid/impl/BiphaseDecoder.cpp:37-67 | from either state, a one and all that follows it is decoded |
| BiphaseMachine.FromAnywhere | rfid-tool/src/rfid/impl/BiphaseDecoder.cpp:37-67 | joined anywhere: some zeros, then all bits from the first one on |
| BiphaseDecoder.BiphaseDecoder.OnEvent | rfid-tool/src/rfid/impl/BiphaseDecoder.cpp:37-72 | an event on the field and the listener is a step of the machine |
| Relock.ManchesterForgets | rfid-tool/src/rfid/impl/ManchesterDecoder.cpp:82-83 | behind a change of sync the Manchester decoder reads like a fresh one, whatever it heard before |
| Relock.BiphaseForgets | rfid-tool/src/rfid/impl/BiphaseDecoder.cpp:68-70 | so does the biphase decoder |
| Relock.ReadsBehindLock | rfid-tool/src/rfid/CarrierDecoder.cpp:110-162 | behind every lock, be it the first or one after a loss, and for every stream before it, both decoders read clean samples like fresh ones |
| Relock.TrainBehindLock | rfid-tool/src/rfid/impl/ManchesterDecoder.cpp:32-85 | so a Manchester train followed from any pulse on adds some zeros and then a suffix of its bits |
| CarrierMachine.RunValid | rfid-tool/src/rfid/CarrierDecoder.cpp:66-162 | in every run the pulse count stays below 50 and the error count at most 10 and at most one more than it; the counters stay bytes |
| CarrierMachine.ErrorsAreCounted | rfid-tool/src/rfid/CarrierDecoder.cpp:66-162 | the error count is the number of out-of-range samples of the current window |
| CarrierMachine.GivesUpOnlyAfterTenErrors | rfid-tool/src/rfid/CarrierDecoder.cpp:72-110 | sync is dropped, or the divider changed, only if the window of at most 50 samples held ten out-of-range ones |
| CarrierLock.NoFalseLock | rfid-tool/src/rfid/CarrierDecoder.cpp:66-138 | on a stream clean at one divider, whatever its first sample is, sync is never declared at another |
| CarrierLock.ForwardsAfterLock | rfid-tool/src/rfid/CarrierDecoder.cpp:110-162 | after the lock every sample is forwarded once, in order, correctly classified, and sync is never lost |
| CarrierLock.LocksInTime | rfid-tool/src/rfid/CarrierDecoder.cpp:66-138 | with ten short and ten long pulses in any 49, the lock comes within 49, 99 or 110 samples of reset at divider 16, 32 or 64; one more at 64 if the first one is out of range |
| CarrierSearch.StaysIff | rfid-tool/src/rfid/CarrierDecoder.cpp:72-110 | a divider is kept to the end exactly if no aligned window (49 samples first, then 50 each) holds ten misfits before its end |
| CarrierSearch.StaysAtFirstRate | rfid-tool/src/rfid/CarrierDecoder.cpp:72-110 | for the run from reset: divider 16 is never left exactly if no such window does |
| CarrierSearch.ReachedIs | rfid-tool/src/rfid/CarrierDecoder.cpp:72-110 | where the search gets to a divider: after the tenth misfit of a window at each smaller one, and never if one of these is kept |
| CarrierSearch.LocksIff | rfid-tool/src/rfid/CarrierDecoder.cpp:66-138 | when a clean stream is locked onto at all: exactly if the search reaches its divider and behind that point more than four short and more than four long pulses are counted in bytes |
| CarrierSync.EventIs | rfid-tool/src/rfid/CarrierDecoder.cpp:66-162 | for every stream from reset, clean or not, and every further sample: the events are exactly those of a reference that knows only the samples since the rate was entered, their misfits in the aligned window and the limits in microseconds |
| CarrierSync.SyncIff | rfid-tool/src/rfid/CarrierDecoder.cpp:110-138 | sync is declared on a sample exactly if there is none, the rate is not given up there, more than four short and more than four long pulses have been counted in bytes since it was entered, and the window holds fewer than four misfits |
| CarrierSync.RunIs | rfid-tool/src/rfid/CarrierDecoder.cpp:66-162 | so the events of every run, its rate and its sync are determined by the samples |
| SparseFrame.SparseNeverRead | rfid-tool/src/rfid/CarrierDecoder.cpp:66-171 | pulses of nominal length of customer id 0 with token 0 are never read at RF/32 or RF/64: from every phase, for every length of stream and whatever the first sample, neither chain reports anything |
| SparseCapture.SparseNeverCaptured | rfid-tool/src/main.cpp:234-246 | so whichever stretch of its field is captured at these rates, both lists of tokens stay empty |
| CarrierDecoder.CarrierDecoder.UpdatePulseRange | rfid-tool/src/rfid/CarrierDecoder.cpp:30-41 | the four range limits are those of the divider |
| CarrierDecoder.CarrierDecoder.CheckPulses | rfid-tool/src/rfid/CarrierDecoder.cpp:66-171 | the loop over the samples is a run of the machine: same fields, and both decoder chains have heard exactly its events; from reset those are the events of the reference of CarrierSync |
| CarrierDecoder.CarrierDecoder.OnSample | rfid-tool/src/rfid/CarrierDecoder.cpp:67-163 | one sample is one step, with its event notified; EventIs says which event that is |
| CarrierListeners.Notifier.Notify | rfid-tool/src/main.cpp:239-246 | an event reaches the Manchester and the biphase chain, each once |
| ReadPipeline.JoinedStream | rfid-tool/src/rfid/Em4100Decoder.cpp:46-144 | for every bit decoder that reads a train in step and swallows the part joined: each whole frame is reported once |
| ReadEndToEnd.ManchesterReads | rfid-tool/src/rfid/impl/ManchesterDecoder.cpp:32-85 | a repeating frame joined at any pulse is reported once per whole frame, and nothing else |
| ReadEndToEnd.BiphaseReads | rfid-tool/src/rfid/impl/BiphaseDecoder.cpp:32-72 | the same, except that an identity trapped at the joined pulse is never reported |
| ReadEndToEnd.ManchesterEndToEnd | rfid-tool/src/rfid/CarrierDecoder.cpp:66-171 | samples of any clean cyclic Manchester train of a frame, any divider, any phase, the first sample arbitrary, through all three stages: exactly the frames wholly behind the first lock are reported, each once |
| ReadEndToEnd.BiphaseEndToEnd | rfid-tool/src/rfid/CarrierDecoder.cpp:66-171 | the same for biphase, with the trapped identities as exact exception |
| ReadEndToEnd.Read | rfid-tool/src/main.cpp:236-246 | the concrete decoders, freshly made and connected, report the tokens of these runs |
| UsbLine.NeverEightEqual | firmware/src/usbdrv/usbdrvasm165.inc:400-423 | no level is held for eight bit times, whatever is sent |
| UsbLine.SevenIffSixOnes | firmware/src/usbdrv/usbdrvasm165.inc:400-423 | what begins with a zero holds a level for seven bit times exactly if it has six ones in a row |
| UsbLine.PacketReachesSeven | firmware/src/usbdrv/usbdrvasm165.inc:385-425 | a packet does exactly if there are six ones in a row in the bits of its sync byte and data |
| UsbLine.ByteOfOnesReachesSeven | firmware/src/usbdrv/usbdrvasm165.inc:400-423 | every packet with a byte 0xff does |
| UsbControl.OnesInReplyReachSeven | firmware/src/usbdrv/usbdrv.c:563-585 | such as the data packets the device sends of a reply with a byte 0xff, the first of the reply 0xff among them |
| UsbLine.BitsInjective | firmware/src/usbdrv/usbdrvasm165.inc:400-423 | bytes are determined by their bits on the wire |
| UsbTransmit.StuffsAsCoded | firmware/src/usbdrv/usbdrvasm165.inc:405-410 | the test of the history register stuffs exactly after six ones |
| UsbTransmit.TwelveBytes | firmware/src/usbdrv/usbdrvasm165.inc:399-412 | the counter that loses 37 per bit yields eight bits per byte for exactly the first twelve bytes |
| UsbTransmit.Transmitter.SendBit | firmware/src/usbdrv/usbdrvasm165.inc:402-412 | one bit, and the stuffed one behind it, appends its line code |
| UsbTransmit.Transmitter.SendByte | firmware/src/usbdrv/usbdrvasm165.inc:400-422 | a pass of the byte loop sends the eight bits of the shift register, lowest first, and takes 37 per bit from the counter |
| UsbTransmit.Transmit | firmware/src/usbdrv/usbdrvasm165.inc:385-425 | the wire carries the line code of sync and packet, then SE0 |
| UsbReceive.EnterWindow | firmware/src/usbdrv/usbdrvasm165.inc:139-173 | with the destructive masks 0xf9 to 0x3f, the zero test fires exactly at the sixth one in a row, at every bit position |
| UsbReceive.UnstuffAgrees | firmware/src/usbdrv/usbdrvasm165.inc:174-266 | unstuffing with an inverted marker bit keeps the assembled data |
| UsbReceive.Receiver.Enter | firmware/src/usbdrv/usbdrvasm165.inc:282-330 | entering bits 1 to 7 keeps registers and reading of the line in agreement |
| UsbReceive.Receiver.Unstuff | firmware/src/usbdrv/usbdrvasm165.inc:174-266 | the escape branches skip exactly the stuffed level |
| UsbReceive.Receiver.Store | firmware/src/usbdrv/usbdrvasm165.inc:269-272 | the stored byte is the exclusive or of the two registers, the bits read |
| UsbReceive.Receiver.ReceiveBit | firmware/src/usbdrv/usbdrvasm165.inc:282-330 | one position of the loop, with its SE0 and overflow tests |
| UsbReceive.ReceivePacket | firmware/src/usbdrv/usbdrvasm165.inc:103-330 | the loop stores the bytes of the reading of the line, or overflows exactly when that does |
| UsbRoundTrip.ReceivesBits | firmware/src/usbdrv/usbdrvasm165.inc:139-330 | unstuffing inverts stuffing from every common level and count of ones |
| UsbRoundTrip.RoundTrip | firmware/src/usbdrv/usbdrvasm165.inc:139-330 | every packet of at most 11 bytes whose first byte has a zero among its five low bits, as every valid identifier has, is read back from its wire form |
| UsbRoundTrip.ValidPidHasEarlyZero | firmware/src/usbdrv/usbdrvasm165.inc:103-121 | every identifier with a complemented upper half qualifies |
| UsbRoundTrip.SendAndReceive | firmware/src/usbdrv/usbdrvasm165.inc:139-423 | transmit loop and receive loop composed: the receive buffer holds the bytes sent |
| UsbCrc.ReflectedMirrorsGenerator | firmware/src/usbdrv/usbdrvasm.S:231-257 | the right-shifting register with 0xa001 is the generator register of USB 2.0 section 8.3.5.2 read backwards, after every bit sequence |
| UsbCrc.ByteStepEntersBits | firmware/src/usbdrv/usbdrvasm.S:241-252 | adding a byte and shifting eight times is entering its bits one by one, lowest first |
| UsbCrc.CrcMirrorsGenerator | firmware/src/usbdrv/usbdrvasm.S:157-173 | the bytewise checksum of a message mirrors the generator register over its bits on the wire |
| UsbCrcLoops.SlowUsbCrc16 | firmware/src/usbdrv/usbdrvasm.S:231-257 | the loop on the complement, driven by carries, computes the complement of the checksum over exactly the bytes given |
| UsbCrcLoops.ByteLoop | firmware/src/usbdrv/usbdrvasm.S:243-252 | the counter stepping by 224 makes exactly eight shifts |
| UsbCrcLoops.FastUsbCrc16 | firmware/src/usbdrv/usbdrvasm.S:182-215 | the parity and shift form computes the same |
| UsbCrcLoops.FastStep | firmware/src/usbdrv/usbdrvasm.S:189-208 | its register sequence is eight shifts of the register pair |
| UsbCrcLoops.TableEntry | firmware/src/usbdrv/usbdrvasm18-crc.inc:637-705 | all 256 table entries are eight shifts of their index |
| UsbCrcLoops.TableCrc | firmware/src/usbdrv/usbdrvasm18-crc.inc:625-633 | the table form computes the checksum |
| UsbCrcLoops.TableCrcAccepts | firmware/src/usbdrv/usbdrvasm18-crc.inc:98-111 | the receiver's comparison with 0xb001 is the residue test |
| UsbCrcLoops.UsbCrc16Append | firmware/src/usbdrv/usbdrvasm.S:263-267 | the two bytes behind the data become the complement of the checksum, low byte first; nothing else changes |
| UsbCrcLoops.AcceptsExactlyChecked | firmware/src/usbdrv/usbdrvasm18-crc.inc:106-111 | a packet passes the residue test exactly if its last two bytes are what is appended to the rest |
| UsbCrcLoops.ResidualAfterChecked | firmware/src/usbdrv/usbdrvasm.S:263-267 | after what is appended the standard's register holds its residual 1000000000001101 |
| UsbControl.PayloadsArePrefix | firmware/src/usbdrv/usbdrv.c:563-585 | the payloads of the first packets are the beginning of the reply, those of all packets the reply |
| UsbControl.PackedIsReply | firmware/src/usbdrv/usbdrv.c:486-503 | exactly when the length limitation yields the reply cut to wLength: always from memory, from the read function if wLength is below 256 or the buffer short |
| UsbControl.NextBlock | firmware/src/usbdrv/usbdrv.c:525-555 | what is read next is the next block of the reply, and it is short exactly if it is the last |
| UsbControl.Driver.HandleSetup | firmware/src/usbdrv/asmcommon.inc:122-148 | a setup packet is taken only if the receive buffer is free |
| UsbControl.Driver.HandleIn | firmware/src/usbdrv/asmcommon.inc:150-172 | an IN token gets NAK, 1010 and its complement, and changes nothing, or it gets the next packet of the reply, which is then gone |
| UsbControl.Driver.DeviceRead | firmware/src/main.c:364-372 | as many bytes as wanted and available are copied behind the identifier, in order |
| UsbControl.Driver.ProcessSetup | firmware/src/usbdrv/usbdrv.c:470-505 | a setup request aborts what is pending and starts its own reply from DATA1 on |
| UsbControl.Driver.BuildTxBlock | firmware/src/usbdrv/usbdrv.c:563-585 | the buffer gets the next packet of the reply, identified as DATA1 if its number is even and DATA0 if odd; its length is 4 to 12, never mistaken for a handshake; the message ends exactly behind the last |
| UsbControl.Driver.Poll | firmware/src/main.c:692-706 | a turn of the main loop keeps what was delivered and makes a packet ready whenever one is left |
| UsbControl.DeliveredPackets | firmware/src/usbdrv/usbdrv.c:563-585 | whatever was delivered: a prefix of the reply, packets of eight bytes until a last shorter one, the bits of the identifiers alternately those of DATA1 and DATA0 with their complements, checksums right |
| UsbControl.AnsweredUnless255 | firmware/src/usbdrv/usbdrv.c:486-503 | a request is one that is not answered exactly if the read function serves it and the low byte of wLength is 255 |
| UsbControl.Interleave | firmware/src/usbdrv/asmcommon.inc:122-172 | after an accepted request, under every interleaving of SETUP tokens, IN tokens and main loop turns: the packets since the last accepted request are those of its reply in order, at least one for each IN token behind a turn until there are no more; and none ever if it is not answered |
| UsbControl.EnoughRounds | firmware/src/usbdrv/usbdrv.c:563-585 | so every schedule with as many such rounds as packets delivers the whole reply |
| UsbControl.ReadAll | firmware/src/usbdrv/usbdrv.c:563-585 | a host that asks until a packet is not full gets all the device gives, exactly unless the request is not answered |
| UsbControl.PacketOverLine | firmware/src/usbdrv/usbdrvasm165.inc:385-425 | every packet of a reply fits the transmit loop and is received as built |
| FirmwareTransfer.Firmware.TransferStart | firmware/src/main.c:451-466 | a transfer starts with a new id and a fresh history, which names timeout, direction, kind of edge and both timer periods as the bits of the request ask for them |
| FirmwareTransfer.Firmware.TransferStatus | firmware/src/main.c:468-495 | TIMEOUT exactly if the transfer is over and none of the timeout + 1 conversions, made every four periods of the carrier, was an edge; OK otherwise, behind the first edge, in readings of the converter: all 1536 signals captured, or the whole waveform shown by the coil; any other id is unknown |
| FirmwareTransfer.Firmware.WaitConversion | firmware/src/main.c:196-234 | a conversion while waiting: it starts receiving or sending exactly if it is the edge asked for; else the transfer times out exactly if no more are allowed |
| FirmwareTransfer.Firmware.StartOperation | firmware/src/main.c:222-232 | behind the edge the timer gets the period asked for, in whole and for its first run, and the coil is off |
| FirmwareTransfer.Firmware.StoreConversion | firmware/src/main.c:237-248 | the signal goes to the next bit, nothing else changes, and the 1536th ends the transfer; the timer period that ended was the one asked for |
| FirmwareTransfer.Firmware.AdcIsr | firmware/src/main.c:176-252 | the converter interrupt keeps the invariant, by which the signals are those that the readings decide, records the reading, uses up budget, and leads to exactly the state that the edge in the readings, timeout or count ask for |
| Readings.SignalIs | firmware/src/main.c:176-190 | after every run of readings the signal is 1 exactly if the last one outside 237 to 248 is lower, 0 exactly if it is higher, and unknown exactly if there is none; the limits follow from the voltages of main.c:54-66 |
| Readings.EdgeIff | firmware/src/main.c:199-211 | in readings: a falling edge is one of 249 or more unless the signal was decided to be high, a rising edge one of 236 or less behind a signal decided to be high |
| FirmwareTransfer.Firmware.Timer0Isr | firmware/src/main.c:141-173 | the timer interrupt: exactly at the end of the waveform the coil is off and the transfer over; else the coil output and the timer period are the next pulse |
| FirmwareTransfer.Firmware.NextPulse | firmware/src/main.c:160-171 | period and coil output become length and level of the next nibble |
| FirmwareTransfer.Firmware.MainTick | firmware/src/main.c:635-690 | the main loop only moves STARTING to WAIT_CONDITION and FINISHED to IDLE, and keeps the invariant, with it coil and timer while receiving and sending |
| FirmwareTransfer.Firmware.FunctionWrite | firmware/src/main.c:378-405 | a chunk of an upload lands behind the previous ones, as far as there is room |
| TransferHistory.RecordOne | firmware/src/main.c:237-242 | capturing one more signal extends the record by it |
| TransferHistory.WaitOne | firmware/src/main.c:196-216 | waiting, timing out and triggering after one conversion, each exactly when due |
| TransferHistory.TimedOutIff | firmware/src/main.c:196-216 | a transfer that is over timed out exactly if there was no edge in time |
| Readings.EdgeIsChangeIff | firmware/src/main.c:176-206 | for all readings: what starts the operation is a change between two decided signals exactly if it waits for a rising edge or an earlier reading has decided |
| Readings.FirstReadingTriggers | firmware/src/main.c:176-206 | a first reading of 249 or more is a falling edge, and no change |
| FirmwareTransfer.TriggersAtOnce | firmware/src/main.c:176-234 | so it starts a transfer that waits for a falling edge, at the first conversion |
| TransferHistory.SendOne | firmware/src/main.c:148-171 | a timer interrupt extends what was asked of the coil by the next pulse of the waveform |
| TransferHistory.ReceivedSignals | firmware/src/main.c:237-248 | a complete reception: bit k of the buffer is set exactly if the last reading outside the thresholds, up to conversion k behind the first edge, is at most 236; the conversions are at equal distances |
| FirmwareTransfer.Safety | firmware/src/main.c:132-252 | in every state allowed by the invariant timer interrupt and coil switching are confined to TX, where the coil shows the last pulse begun; the offset stays within the length, the index within the buffer, and the timer of a reception at the period asked for |
| FirmwareTransfer.Interleave | firmware/src/main.c:132-252 | every interleaving of main loop, converter and timer keeps the invariant and the history of the transfer, and takes at most the budgeted number of steps |
| FirmwareTransfer.RunToIdle | firmware/src/main.c:635-690 | from every state some step is enabled until the device is idle: at most timeout + 1 waiting conversions, 1536 stored ones, 385 timer interrupts |
| FirmwareTransfer.RunTransfer | firmware/src/main.c:132-252 | a whole transfer for every sequence of readings: it ends, by a timeout exactly if none of the first timeout + 1 readings is an edge, and else behind the first one that is |
| IoBuffer.StoreBit | firmware/src/main.c:237-242 | setting or clearing bit k of the buffer changes exactly that bit |
| IoBuffer.EndsOnce | firmware/src/main.c:141-160 | the place where replay ends is determined by the buffer |
| SampleCapture.GetSamples | rfid-tool/src/rfid/impl/InterfaceUsbImpl.cpp:349-368 | the samples are the runs of the captured bits: they expand to the bits from index 1 to the start of the last run, with alternating levels |
| SampleCapture.RunReader.OnBit | rfid-tool/src/rfid/impl/InterfaceUsbImpl.cpp:353-364 | one bit with its three variables |
| CaptureEndToEnd.CaptureBuffer | rfid-tool/src/rfid/impl/InterfaceUsbImpl.cpp:312-342 | the device side of a capture, whatever steps it takes while the host sleeps: a timeout exactly if it is done and there was no falling edge in time, that is in 60001 readings or 240004 periods of the carrier |
| CaptureEndToEnd.Capture | rfid-tool/src/rfid/impl/InterfaceUsbImpl.cpp:307-371 | start, any steps of the device, status, control transfer and run reading composed: the status is good exactly if the device is done and a falling edge came in time; then the samples are the runs of 1536 bits, each of them what the readings behind the first edge say at its conversion, eight carrier periods apart |
| CapturedPulses.CaptureIsClean | rfid-tool/src/rfid/impl/InterfaceUsbImpl.cpp:349-368 | a capture of consecutive conversions of any pulse train, at any rate and phase: one sample per pulse but the last, all but the first clean and classified as their pulse |
| ReadOperation.CapturedTokens | rfid-tool/src/main.cpp:234-246 | from signals to tokens, for every token, code, rate and stretch of the field: the list of its own chain is that token, once for each frame wholly between the first lock and the end (biphase: unless it is trapped there), and at least as often as guaranteed; the list of the other chain is what the theorems on the other code say |
| ReadOperation.SensedIsSeen | firmware/src/main.c:185-189 | a field whose low levels read 236 or less and whose high levels 249 or more is captured as these levels |
| ReadOperation.CaptureTokens | rfid-tool/src/main.cpp:234-246 | the read operation: transfer on the device under any steps, control transfer, run reading and both decoder chains; it returns lists exactly if the device is done and a falling edge came in time, and they are as just said, of the signals that the readings decide and so of every field whose readings are clear |
| ReadGuarantee.ManchesterEnough | rfid-tool/src/rfid/CarrierDecoder.cpp:66-171 | how often at least: 1536 conversions of a dense Manchester field bring 10 reports at RF/16 and 3 at RF/32 |
| ReadGuarantee.BiphaseEnough | rfid-tool/src/rfid/CarrierDecoder.cpp:66-171 | the same of a biphase field, unless the identity can be trapped |
| CodeDuality.ShapesOfManchester | rfid-tool/src/rfid/impl/ManchesterDecoder.cpp:40-81 | a Manchester train of some bits has the shapes of the biphase train of their differences |
| CodeDuality.BiphaseIsManchester | rfid-tool/src/rfid/impl/BiphaseDecoder.cpp:37-67 | an alternating biphase train of some bits is the Manchester train of their running exclusive or |
| CodeDuality.DifferencesInvert | rfid-tool/src/rfid/impl/BiphaseDecoder.cpp:37-67 | differences undo the running exclusive or |
| Em4100Reports.ReportsExactly | rfid-tool/src/rfid/Em4100Decoder.cpp:46-144 | for every bit history: a bit reports an identity exactly if it completes its frame and the decoder was as new before that |
| OtherChain.ManchesterFieldInBiphaseChain | rfid-tool/src/rfid/impl/BiphaseDecoder.cpp:37-67 | a Manchester field in the biphase chain: an identity whose frame is a rotation of the cyclic differences of the frame sent is reported as if it were on the field; any other never is |
| OtherChain.BiphaseFieldInManchesterChain | rfid-tool/src/rfid/impl/ManchesterDecoder.cpp:40-81 | a biphase field in the Manchester chain: its reports are those of a fresh decoder on a stretch of the running exclusive or of the frames sent, so only identities whose frame stands there are named |
| OtherChain.EvenFieldInManchesterChain | rfid-tool/src/rfid/impl/ManchesterDecoder.cpp:40-81 | if the frame sent has an even number of ones, exactly those whose frame is a rotation of its running exclusive or are, each as if it were on the field |
| PhantomToken.Phantom | rfid-tool/src/main.cpp:239-246 | the Manchester tag 0x72/0x58888889 has such a companion: the biphase chain names 0x99/0x9999bb01 |
| PhantomToken.EchoIsMutual | rfid-tool/src/main.cpp:239-246 | the companions are mutual: as a biphase tag of the right polarity the second one makes the Manchester chain name the first |
| T5557Encoder.TransferData.AddBit | rfid-tool/src/rfid/T5557Encoder.cpp:54-64 | appends the pulse and gap of one bit |
| T5557Encoder.TransferData.AddBitsLsb | rfid-tool/src/rfid/T5557Encoder.cpp:66-70 | appends the low bits of a word, lowest first |
| T5557Encoder.TransferData.AddBitsMsb | rfid-tool/src/rfid/T5557Encoder.cpp:72-76 | the same, highest first |
| T5557Encoder.EncodeBlock | rfid-tool/src/rfid/T5557Encoder.cpp:89-107 | the samples are start gap, opcode, page, password, lock, data and address of the write command |
| T5557Encoder.ReadsCommand | rfid-tool/src/rfid/T5557Encoder.cpp:54-64 | classifying the high pulses by duration gives back the bits |
| T5557Encoder.CommandTimes | rfid-tool/src/rfid/T5557Encoder.cpp:54-64 | in microseconds: a start gap of 240, then for each bit a pulse of 440 or 184 and a gap of 152 |
| T5557Encoder.ParsesCommand | rfid-tool/src/rfid/T5557Encoder.cpp:89-107 | parsing these gives back page, password, lock, data and address |
| T5557Encoder.ConfigurationWord | rfid-tool/src/rfid/T5557Encoder.cpp:110-174 | the word assembled field by field selects in the tag, by literal bits, the rate in carrier periods per bit, the modulation, the subcarrier and every flag |
| T5557Encoder.ParametersAreSelected | rfid-tool/src/rfid/T5557Encoder.cpp:121-172 | for all parameters: bits 11 to 13 as a number select 8, 16, 32, 40, 50, 64, 100 or 128 periods per bit, bits 15 to 19 are the pattern of the modulation, bits 20 and 21 select the subcarrier, and the rest are the flags and counts |
| T5557Encoder.ConfigurationIsUnambiguous | rfid-tool/src/rfid/T5557Encoder.cpp:110-174 | the word determines every parameter (four bits of the key, three of the highest block) |
| T5557Encoder.EncodeParameters | rfid-tool/src/rfid/T5557Encoder.cpp:110-177 | such a configuration is sent as block 0 of page 0 |
| SampleUpload.CollectLengths | rfid-tool/src/rfid/impl/InterfaceUsbImpl.cpp:376-380 | the ordered set holds exactly the different lengths |
| SampleUpload.PackOne | rfid-tool/src/rfid/impl/InterfaceUsbImpl.cpp:412-419 | assigning even nibbles and adding odd ones packs the codes in order, with a zero nibble behind an odd number |
| SampleUpload.ReplaysSamples | firmware/src/main.c:141-173 | replaying the packed nibbles gives the samples, then exactly one low pulse of the shortest length if their number is odd, then stops |
| SampleUpload.PutSamples | rfid-tool/src/rfid/impl/InterfaceUsbImpl.cpp:375-423 | refused exactly if there are more than seven lengths; otherwise vector and nibbles replay as just said |
| WriteEndToEnd.UploadAll | firmware/src/main.c:378-405 | any chunking of an upload leaves exactly the data in its buffer, and the other buffer alone |
| WriteEndToEnd.CommandFits | rfid-tool/src/rfid/T5557Encoder.cpp:89-107 | 77 or 141 samples of at most four lengths, the shortest being the write gap |
| WriteEndToEnd.WaveformOfCommand | rfid-tool/src/rfid/impl/InterfaceUsbImpl.cpp:412-419 | the waveform of the packed nibbles is the command and exactly one more low level of the write gap |
| WriteEndToEnd.TagReadsCommand | rfid-tool/src/rfid/T5557Encoder.cpp:89-107 | the tag reads every field of the command from that waveform |
| WriteEndToEnd.UploadSamples | rfid-tool/src/rfid/impl/InterfaceUsbImpl.cpp:375-423 | samples of more than seven lengths are refused before anything is sent; otherwise what the device will replay is their waveform |
| WriteEndToEnd.Attempt | rfid-tool/src/rfid/impl/InterfaceUsbImpl.cpp:425-455 | the device side: a good status means that the waveform at the start was sent, a timeout that none of the 21249 readings allowed was a falling edge |
| WriteEndToEnd.Transfer | rfid-tool/src/rfid/impl/InterfaceUsbImpl.cpp:425-455 | transfer and status, whatever steps the device takes meanwhile: OK means that behind the first falling edge the coil has shown exactly the uploaded waveform; TIMEOUT holds exactly if the device is done and there was no such edge in time |
| WriteEndToEnd.Transmit | rfid-tool/src/rfid/impl/InterfaceUsbImpl.cpp:375-455 | upload, transfer and status: refused, with the device untouched, exactly if there are more than seven lengths; else OK and TIMEOUT mean the same for the waveform of the samples |
| WriteEndToEnd.WriteBlock | rfid-tool/src/rfid/T5557Encoder.cpp:89-107 | encoder, packing, upload in any chunks and replay composed: it succeeds exactly if the device is done and a falling edge came in time, and the tag then reads from the coil exactly what was to be written |
| WriteEndToEnd.WriteTag | rfid-tool/src/main.cpp:276-290 | programming a tag: it has read from the coil, in page 0 and without password, in block 0 a configuration that selects the parameters, locked only if they say so, and in blocks 1 and 2, never locked, the two halves of the frame of the customer id and token |
| WriteEndToEnd.OnlyProgramBits | rfid-tool/src/main.cpp:255-277 | for each of the six choices of rate and code exactly one configuration selects it with the default parameters and two data blocks, and these are its 32 bits |
| WriteEndToEnd.WriteToken | rfid-tool/src/main.cpp:248-293 | the write branch for each of the six choices: the tag has read those bits and the frame, nothing locked |
| Oscillator.BinarySearch | firmware/src/main.c:547-555 | for every response: the setting found is below the target, unless it is 0, and the next one is not, unless it is 255 |
| Oscillator.ScanVisits | firmware/src/main.c:562 | the scan, whose counter is the 8-bit register, visits nothing for 0, the neighbours for 1 to 253, and never ends for 254 and 255 |
| Oscillator.Scan | firmware/src/main.c:559-574 | the best of the visited settings is kept |
| Oscillator.CalibrateOscillator | firmware/src/main.c:539-575 | for every nondecreasing response near the target: it ends exactly if setting 254 reaches the target; then it is optimal over all 256 settings if setting 1 is below the target, and otherwise exactly if setting 0 is as near as setting 1 |
| Oscillator.CalibrateSlow | firmware/src/main.c:546-575 | a concrete oscillator, slower than the target at every setting, for which the scan never ends |
| Oscillator.CalibrateJumping | firmware/src/main.c:546-575 | a concrete oscillator for which it ends with setting 0 although setting 1 is nearer |

## Left out

* Device discovery, string descriptors, timeouts and exceptions of the USB library: foreign calls.
* Option parsing, logging, the interface factory and the generic notifier: plumbing. The listener chain is modelled as
  direct calls, `Notifier` standing for the two listeners the program connects.
* Standard requests and descriptor tables of the driver: a reply is any byte sequence in memory.
* STALL replies: no read function of this firmware returns more than it was asked for.
* Control-OUT packets as such: an upload is modelled from the write function on, in chunks of any sizes.
* Cycle counts, oscillator phase tracking and SE0 detection by bus lines: the line is a sequence of J, K and SE0 samples.
* Address, endpoint and token packets: only the paths for the device's own endpoint 0.
* The engines for other clock rates; of the 18 MHz one only the checksum table and residue test are modelled.
* The `command` byte's reset request, the watchdog, port set-up and coil enable.
* PSK and FSK modulation of the tag: the encoder only stores their selector values.
- Oscillator.CalibrateOscillator: the measurement is a function of the register value alone, so noise between measurements is not captured, and a scan that never ends is returned as a result.
- SampleUpload.PutSamples: more samples than nibbles are excluded, because the original does not check and would write behind its buffer.
- CaptureEndToEnd.Capture: the buffer is read while the device is idle, so its contents are a value during the control transfer.
- CapturedPulses.CaptureIsClean: a half bit is a whole number of conversions and the level of each is decided; jitter, noise and pulses that are no multiple of the conversion time are outside the theorem, which begins where the converter has decided.
- ReadOperation.CaptureTokens: the field lasts at least as long as the capture, and is that of one tag.
- ReadGuarantee.ManchesterEnough: nothing is guaranteed at RF/64, where a lock may take the time of almost two frames and the capture lasts three.
- FirmwareTransfer.Firmware.AdcIsr: that the timer starts over at its compare match, which triggers the conversion, is part of the step; the time a conversion takes is not modelled, and the first conversion of a wait, which enabling the converter starts at once, is counted like the others.
- WriteEndToEnd.UploadSamples: more than 384 samples are excluded, as in PutSamples.
- WriteEndToEnd.Transmit: likewise more than 384 samples.
- UsbControl.Driver.Poll: OUT packets, which the same turn hands to the write function, are not processed here; the write function is modelled by FunctionWrite.
- UsbControl.Interleave: the tokens are those of the device's own control endpoint; OUT and foreign tokens are not among the events.
- FirmwareTransfer.Firmware.TransferStart: a start while a transfer runs, or without the edge flag, is excluded, because the host program never sends one and the interrupts would then go on in a half-changed state.
- FirmwareTransfer.Firmware.FunctionWrite: a chunk arriving while a transfer runs is excluded, because the host program uploads before it starts one.
