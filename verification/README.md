# MCTP over serial: a model and its proofs

This project models the user-space MCTP serial library in Dafny and proves what it promises.

* **Frame check** (`CrcRegister.dfy`, `FrameCheck.dfy`, `Distance.dfy`, `Bursts.dfy`): the one-bit CRC register,
  the framer's table and loop, the errors the check sequence detects, the distance it keeps between frames, and
  what it misses.
* **Framing** (`Wire.dfy`, `Receiver.dfy`, `RoundTrip.dfy`, `Language.dfy`, `Recovery.dfy`, `Slipping.dfy`): the
  sender's bytes, the eight-state receiver, what it accepts, how it recovers, and when it does not.
* **The framer object** (`Sending.dfy`, `Framer.dfy`): writes under any schedule, the fields and methods of
  the framer, the queue of received packets.
* **The bridge** (`Bridge.dfy`, `Routing.dfy`): one turn of the dispatch loop on two framers, and whole runs in
  which bytes arrive on both sides between turns.
* **Netlink attributes** (`NetlinkLayout.dfy`, `NetlinkMessage.dfy`, `NetlinkReader.dfy`): the builder that
  writes a buffer in place, trees of attributes, the record walk, and the search for a network id.
  `NetlinkMessage.RunSteps` stands for any caller of the three builder steps.
* **USB forwarding** (`UsbTty.dfy`): a device that comes and goes behind a pseudo-terminal.

Classes and methods stand for the objects and loops of the program; functions say what a method does to the
state, and the lemmas are about those functions. Outcomes of system calls (room for bytes, signals, readiness,
connections) are arguments, so every statement holds for every sequence of outcomes.

Facts about the program that the proofs bring out:

* A message of 0 bytes, or of more than 255, is never received, and unless the high octet of its check
  sequence happens to be 0x7E it also costs the frame that follows (`Recovery.AfterUnframeable`). The loss does
  not end there: if neither octet of that sequence is 0x7E, the receiver takes opening flags for version octets
  and closing flags for opening ones from then on. It loses any number of later frames in a row, as long as each
  carries 5 to 255 bytes, not 126, and no 0x7E in its check sequence (`Slipping.AllLost`,
  `Slipping.EmptyMessageLosesAll`); which frames bring it back is known exactly (`Slipping.MetInHeader`,
  `Slipping.SlippingEnds`). The bridge sends an empty message when the kernel side is reported ready with nothing
  queued, and a 256-byte one when a broadcast client says 256 bytes or more.
* A single flag cannot serve as the end of one frame and the start of the next (`Recovery.SharedFlag`), and the
  frames after it can all be lost in the same way (`Slipping.SharedFlagLosesAll`), as after a frame cut behind
  its opening flag (`Slipping.LoneFlagLosesAll`).
* The length comparison and the test for fewer than five bytes never reject a frame
  (`Receiver.RedundantChecks`).
* The network-id reader does not mask the nest flag that the library's own builder sets. In anything the
  builder encodes it finds the ids in leaves of type `IFLA_AF_SPEC` and nothing in any nest
  (`NetlinkReader.BuiltIds`), so it finds none in the library's own request (`NetlinkReader.OwnRequestUnread`);
  in the same trees encoded without the flag it finds what a depth-first search finds
  (`NetlinkReader.PlainIds`).
* In the unescaped bytes between the flags, for every size the protocol allows, the check sequence finds every
  error of up to three bits, the sequence itself included (`Distance.ValidDistance`), and no frame is safe from
  four (`Bursts.FourErrorsValidate`).
* A burst of 16 bits is always found in the covered bytes (`Recovery.BurstRejected`), but not when it runs into
  the check sequence, whose high octet is sent first: exactly twelve differences in the last two covered bytes
  escape (`Bursts.SealedBurst`).

Where documentation and code differ the code is followed: the bridge's documentation speaks of a datagram
socket whose replies go back to each sender, while the code keeps one sequenced-packet client at a time.

## Model

| member | source | states |
|---|---|---|
| FrameCheck.CalcFcs | linux-mctp/libsermctp/src/MctpFramer.cpp:312-317 | the table loop returns, for every buffer and start value, the bit-at-a-time reflected CRC-16 with polynomial 0x8408 (Appendix C of RFC 1662) |
| FrameCheck.TableEntry | linux-mctp/libsermctp/include/sermctp/detail/MctpFramer_impl.hpp:44-77 | all 256 table entries: entry x is x shifted eight places through the one-bit register |
| FrameCheck.StepIsShift | linux-mctp/libsermctp/src/MctpFramer.cpp:314-315 | one table step equals eight bit steps of the register with the octet added in |
| FrameCheck.TableRefinesBits | linux-mctp/libsermctp/src/MctpFramer.cpp:312-317 | table form and bit form agree on every buffer and start value |
| CrcRegister.FcsLinear | linux-mctp/libsermctp/src/MctpFramer.cpp:312-317 | the sequence is linear over exclusive or, in start value and data together |
| CrcRegister.FcsBitsInjective | linux-mctp/libsermctp/src/MctpFramer.cpp:312-317 | under the same data, different register states never meet |
| CrcRegister.BurstDetected | linux-mctp/libsermctp/src/MctpFramer.cpp:312-317 | bit strings that differ only within a window of 16 bits, anywhere, have different sequences |
| CrcRegister.FcsParity | linux-mctp/libsermctp/src/MctpFramer.cpp:312-317 | the parity of the register is that of the start value plus that of the data |
| CrcRegister.OddErrorsDetected | linux-mctp/libsermctp/src/MctpFramer.cpp:312-317 | any odd number of flipped bits changes the sequence |
| FrameCheck.AdjacentOctetsDetected | linux-mctp/libsermctp/src/MctpFramer.cpp:312-317 | equal-length buffers that differ only within two adjacent bytes have different sequences for every start value |
| FrameCheck.JoinSplit | linux-mctp/libsermctp/src/MctpFramer.cpp:504-507 | the two received octets read back as the sequence if and only if they are the high and low octet that were sent |
| FrameCheck.SealedIsEven | linux-mctp/libsermctp/src/MctpFramer.cpp:436-438 | a covered buffer followed by its two sequence octets has an even number of ones |
| Distance.NeverBack | linux-mctp/libsermctp/src/MctpFramer.cpp:312-317 | a single bit in the register does not return to its place within 2079 shifts |
| Distance.TwoErrorsDetected | linux-mctp/libsermctp/src/MctpFramer.cpp:312-317 | any two flipped bits, anywhere in up to 2080 bits, change the sequence, for every start value |
| Distance.FourErrorsMissed | linux-mctp/libsermctp/src/MctpFramer.cpp:312-317 | the four bits of the generator polynomial, flipped at any place in any string, leave the sequence unchanged |
| Distance.SealedDistance | linux-mctp/libsermctp/src/MctpFramer.cpp:436-438 | covered parts of one size up to 257 octets, each followed by its two sequence octets, are equal or differ in at least four bits |
| Distance.ValidDistance | linux-mctp/libsermctp/src/MctpFramer.cpp:499-508 | two buffers of one size up to 261 that both validate agree between the flags or differ there in at least four bits |
| Bursts.FourErrorsValidate | linux-mctp/libsermctp/src/MctpFramer.cpp:499-508 | every buffer that validates has another of the same size and length octet that validates and differs from it between the flags in exactly four bits |
| Bursts.SealedBurst | linux-mctp/libsermctp/src/MctpFramer.cpp:436-438 | two different covered parts of one size, each followed by its sequence octets, agree outside some 16 consecutive bits if and only if they agree but for the last two covered octets and those differ in one of twelve ways |
| Bursts.ValidBurst | linux-mctp/libsermctp/src/MctpFramer.cpp:499-508 | the same for two buffers that validate: the exact bursts of 16 bits, check sequence included, that are missed |
| Bursts.LastOctetError | linux-mctp/libsermctp/src/MctpFramer.cpp:504-507 | an error in the last covered octet leaves the low octet of the sequence alone, and so changes only two neighbouring octets, if and only if it is 0x91 |
| Wire.EscapeFull | linux-mctp/libsermctp/src/MctpFramer.cpp:445-455 | the escaping loop leaves the first and last three bytes alone and escapes every 0x7E and 0x7D between, for buffers of every size |
| Wire.InteriorOfFull | linux-mctp/libsermctp/src/MctpFramer.cpp:429-456 | escaping the assembled message gives flag, version, length, escaped payload, sequence, flag |
| Wire.BuildWire | linux-mctp/libsermctp/src/MctpFramer.cpp:428-457 | the wire bytes of a message of any length, length octet cut to 8 bits, and the reported sequence |
| Wire.StuffOctets | linux-mctp/libsermctp/src/MctpFramer.cpp:445-455 | 0x7E is sent as 0x7D 0x5E, 0x7D as 0x7D 0x5D, every other byte as it is |
| Receiver.RunShape | linux-mctp/libsermctp/src/MctpFramer.cpp:524-628 | in every reachable state the count, the buffer size and the length byte are tied: in body and escape count + size - 3 is the length byte, in the last three states the size is 3, 4 and 6 plus it and it is not zero |
| Receiver.RedundantChecks | linux-mctp/libsermctp/src/MctpFramer.cpp:499-509 | where the closing flag is awaited, the length comparison and the size-below-5 test never decide: length at least 5 and a matching sequence do |
| Receiver.BufferBound | linux-mctp/libsermctp/src/MctpFramer.cpp:524-628 | while the length byte is not zero the frame in progress holds at most 261 bytes |
| RoundTrip.PayloadRun | linux-mctp/libsermctp/src/MctpFramer.cpp:543-561 | escaped bytes refill the buffer with the payload while it is expected, and for ever once the count has passed zero |
| RoundTrip.FrameRun | linux-mctp/libsermctp/src/MctpFramer.cpp:524-606 | a frame of any version with 1 to 255 payload bytes, met where flags start frames, yields its payload once if it has 5 or more bytes, which then is what the buffer holds, else nothing |
| RoundTrip.SendReceive | linux-mctp/libsermctp/src/MctpFramer.cpp:428-457 | a message of any length whatever is received exactly once if it has 5 to 255 bytes, and not at all otherwise |
| RoundTrip.StreamRoundTrip | linux-mctp/libsermctp/src/MctpFramer.cpp:517-630 | any list of such messages with noise free of 0x7E between frames is received as exactly that list, in order |
| RoundTrip.PrefixFree | linux-mctp/libsermctp/src/MctpFramer.cpp:428-457 | for messages of every length: no wire form is a proper prefix of another, and equal wire forms come from equal messages |
| Language.RunExplained | linux-mctp/libsermctp/src/MctpFramer.cpp:524-628 | every frame in progress is, byte for byte, what was read since an opening flag met where flags start frames |
| Language.ReadyIsRestartable | linux-mctp/libsermctp/src/MctpFramer.cpp:524-628 | a definition on bytes alone says after which streams a flag starts a frame; it holds exactly when the receiver is waiting, in a body or in an escape |
| Language.Soundness | linux-mctp/libsermctp/src/MctpFramer.cpp:571-599 | each packet handed on has 5 to 255 bytes and the stream so far ends with its frame, sequence right for version, length and payload |
| Language.Accepted | linux-mctp/libsermctp/src/MctpFramer.cpp:499-509 | the last byte of a stream hands on packet p if and only if p has 5 to 255 bytes and the stream ends with a frame of p begun where flags start frames; both sides for every stream |
| Language.GetsThrough | linux-mctp/libsermctp/src/MctpFramer.cpp:524-628 | after any history, a message of 5 to 255 bytes gets through if and only if the receiver was waiting, in a body or in an escape |
| Language.DeliveredSizes | linux-mctp/libsermctp/src/MctpFramer.cpp:571-599 | over every stream all packets handed on have 5 to 255 bytes |
| Recovery.QuietBytes | linux-mctp/libsermctp/src/MctpFramer.cpp:524-628 | each byte that is neither flag nor escape hands on nothing and lowers a rank over all eight states |
| Recovery.Resynchronises | linux-mctp/libsermctp/src/MctpFramer.cpp:524-628 | after any history 260 such bytes leave nothing in progress, and every good stream that follows comes out whole |
| Recovery.ResynchronisationIsTight | linux-mctp/libsermctp/src/MctpFramer.cpp:524-628 | 259 such bytes are not enough: a history and bytes after which the next frame is lost |
| Recovery.CutFrame | linux-mctp/libsermctp/src/MctpFramer.cpp:543-627 | which prefixes of a frame leave the receiver where a flag starts a frame |
| Recovery.AfterCutFrame | linux-mctp/libsermctp/src/MctpFramer.cpp:543-627 | a frame cut after k bytes lets the next one through if and only if k is 0 or the cut is after the header and before the payload ends, mid-escape included; then exactly the next message is added |
| Recovery.SharedFlag | linux-mctp/libsermctp/src/MctpFramer.cpp:532-536 | one flag cannot close a frame and open the next: the second message is lost |
| Recovery.AfterUnframeable | linux-mctp/libsermctp/src/MctpFramer.cpp:434-437 | after a message of 0 or more than 255 bytes the next frame gets through if and only if the high octet of the first sequence is 0x7E |
| Recovery.EmptyMessageLosesNext | linux-mctp/libsermctp/src/MctpFramer.cpp:467-476 | an empty message costs the message sent after it |
| Recovery.EmptyFrameOctets | linux-mctp/libsermctp/src/MctpFramer.cpp:428-457 | the six bytes sent for an empty message, check sequence and its order included |
| Slipping.MetInHeader | linux-mctp/libsermctp/src/MctpFramer.cpp:532-542 | a frame met where a version octet is expected: exactly which messages of 5 to 255 bytes let the next frame through, those of 126 bytes included; the others hand on nothing, and exactly the slipping ones leave the receiver where it was |
| Slipping.AllLost | linux-mctp/libsermctp/src/MctpFramer.cpp:532-542 | there, any number of slipping messages in a row is lost to the last one |
| Slipping.SlippingEnds | linux-mctp/libsermctp/src/MctpFramer.cpp:532-542 | slipping ends exactly with a message that comes back: after it every message gets through |
| Slipping.UnframeableLosesAll | linux-mctp/libsermctp/src/MctpFramer.cpp:434-437 | after any history, a message of 0 or more than 255 bytes with no flag in its check sequence costs every slipping message after it |
| Slipping.EmptyMessageLosesAll | linux-mctp/libsermctp/src/MctpFramer.cpp:467-476 | from the start, an empty message and any list of slipping messages hand on nothing at all |
| Slipping.SharedFlagLosesAll | linux-mctp/libsermctp/src/MctpFramer.cpp:532-536 | a flag shared by two frames costs a slipping second message and every slipping message after it |
| Slipping.LoneFlagLosesAll | linux-mctp/libsermctp/src/MctpFramer.cpp:532-542 | after any history, a frame cut behind its opening flag costs every slipping message after it |
| Recovery.BurstRejected | linux-mctp/libsermctp/src/MctpFramer.cpp:499-508 | two buffers with the same sequence octets that differ within 16 bits of the covered part never both validate |
| Recovery.OddErrorsRejected | linux-mctp/libsermctp/src/MctpFramer.cpp:499-508 | two buffers of one size that differ in an odd number of bits between the flags, sequence included, never both validate |
| Sending.WriteAll | linux-mctp/libsermctp/src/MctpFramer.cpp:332-348 | under every schedule, what is written is a prefix of the buffer; it has at least n bytes exactly when some of the first calls - bytes taken, signals, full buffers that drain in time - have room for n; the loop succeeds exactly when there is room for everything, and gives up exactly when there is not and a first call is an error, a full buffer that does not drain, or takes nothing |
| Sending.RetriesUnseen | linux-mctp/libsermctp/src/MctpFramer.cpp:336-345 | a signal or a full buffer that drains in time, anywhere in a schedule, changes nothing of what is written |
| Sending.StopsThere | linux-mctp/libsermctp/src/MctpFramer.cpp:336-348 | behind an error, a full buffer that does not drain in time, or a call that takes nothing, nothing more is written |
| Sending.SessionDelivers | linux-mctp/libsermctp/src/MctpFramer.cpp:358-385 | a session of sends, each under its own schedule and with failed writes cut harmlessly, is received as exactly the completely written messages |
| Framer.MctpFramer.constructor | linux-mctp/libsermctp/src/MctpFramer.cpp:45-50 | a new framer waits for a flag with nothing queued |
| Framer.MctpFramer.ValidateRx | linux-mctp/libsermctp/src/MctpFramer.cpp:499-509 | size, length and sequence decide; the byte count is read back from the frame when it is long enough |
| Framer.MctpFramer.UpdateRxFsm | linux-mctp/libsermctp/src/MctpFramer.cpp:517-630 | the method on the fields and the step function agree on the whole new state and on the queue |
| Framer.MctpFramer.CompleteFrame | linux-mctp/libsermctp/src/MctpFramer.cpp:577-606 | the closing flag: payload cut out of the buffer, queued if there is room, receiver waiting |
| Framer.MctpFramer.Receive | linux-mctp/libsermctp/src/MctpFramer.cpp:640-651 | returns the first queued packet, cut to 4096 bytes, and removes it; nothing when the queue is empty |
| Framer.MctpFramer.Send | linux-mctp/libsermctp/src/MctpFramer.cpp:467-476 | for every message and write schedule the line gains exactly the written prefix of the message's wire bytes |
| Framer.MctpFramer.TransmitFrame | linux-mctp/libsermctp/src/MctpFramer.cpp:358-385 | escapes a full message and writes it |
| Framer.QueueConserves | linux-mctp/libsermctp/src/MctpFramer.cpp:591-598 | in every interleaving of bytes and fetches: packets fetched, then those queued, are the packets the queue took, whole and in order; a subsequence of those validated, all of them if there was always room |
| Bridge.MctpBridge.ServeClient | linux-mctp/libsermctp/src/MctpBridge.cpp:341-349 | a client message goes to the serial line if and only if it is not empty and its destination is 0x00 or 0xFF; for a message of one byte the destination is whatever lies behind it; a hang-up disconnects |
| Bridge.MctpBridge.ServeKernel | linux-mctp/libsermctp/src/MctpBridge.cpp:351-356 | whatever is fetched from the kernel side goes to the serial line |
| Bridge.MctpBridge.ServeTty | linux-mctp/libsermctp/src/MctpBridge.cpp:358-370 | a packet goes to the client, if there is one, when its destination is 0x00 or 0xFF, and to the kernel otherwise |
| Bridge.MctpBridge.RunOnce | linux-mctp/libsermctp/src/MctpBridge.cpp:289-372 | one turn: accept, client, kernel, serial line; the whole new state and all three outputs |
| Routing.FromSerial | linux-mctp/libsermctp/src/MctpBridge.cpp:358-370 | over every run the kernel gets the unicast packets fetched, all and in order; the client gets exactly the broadcasts fetched in turns in which a client was connected or accepted, had not hung up and took what it was sent |
| Routing.NoBroadcastLost | linux-mctp/libsermctp/src/MctpBridge.cpp:362-366 | the client gets a subsequence of the broadcasts fetched, and all of them if and only if each was fetched with a client there to take it |
| Routing.StayingAttends | linux-mctp/libsermctp/src/MctpBridge.cpp:291-293 | a connected client that does not hang up and takes what it is sent is there throughout, whether or not others wait to be accepted |
| Routing.ConnectedAfter | linux-mctp/libsermctp/src/MctpBridge.cpp:291-293 | after any run a client is connected if and only if one was connected before and none hung up, or one was accepted in some turn and none hung up in that turn or later |
| Routing.OutputsTurnByTurn | linux-mctp/libsermctp/src/MctpBridge.cpp:341-370 | every output of every run, turn by turn: the client gets the first waiting packet if its destination is 0x00 or 0xFF, a client is then connected and takes it; the kernel gets it for any other destination; the serial line gets the client's message, cut to 256 bytes, if its destination is 0x00 or 0xFF, and then the first waiting kernel packet, or an empty message if none waits |
| Routing.ToSerial | linux-mctp/libsermctp/src/MctpBridge.cpp:341-356 | over every run the messages sent to the serial line are, source by source, all kernel packets fetched, in order, and all client broadcasts, in order; empty messages aside |
| Routing.ClientMessageReceived | linux-mctp/libsermctp/src/BcastMessenger.cpp:135-157 | what a client says is received at the far end exactly when it has 5 to 255 bytes; longer messages are cut to 256 and lost |
| Routing.KernelGetsUnicasts | linux-mctp/libsermctp/src/MctpBridge.cpp:358-370 | without overflow, messages sent to the kernel plus unicast packets still queued are exactly the unicast packets decoded from the serial bytes |
| Routing.Transparent | linux-mctp/libsermctp/src/LinuxMctpSerial.cpp:319-322 | once drained and with complete writes, the kernel side has been sent exactly the frames of the unicast packets, and a receiver there decodes exactly those |
| Routing.ByteTransparent | linux-mctp/libsermctp/src/MctpBridge.cpp:358-370 | a serial stream of version-1 unicast frames reaches the kernel side byte for byte |
| Routing.SerialTransparent | linux-mctp/libsermctp/src/MctpBridge.cpp:341-356 | with complete writes, nothing empty sent and client broadcasts of 5 to 255 bytes, a receiver at the far end of the serial line decodes an interleaving of the kernel packets with the client broadcasts, each in order; the kernel packets and those still queued are those decoded from the kernel side |
| NetlinkLayout.StoredLength | linux-mctp/libsermctp/src/MctpNetlink.cpp:182-184 | the end computed from the stored 16-bit length is the record's own end if and only if the length fits 16 bits |
| NetlinkLayout.PutBuilds | linux-mctp/libsermctp/src/MctpNetlink.cpp:177-185 | appending an attribute to the layout of a tree under construction gives the layout with that leaf added |
| NetlinkLayout.StartBuilds | linux-mctp/libsermctp/src/MctpNetlink.cpp:199-208 | opening a nest gives the layout with an open, so far empty, nest |
| NetlinkLayout.EndBuilds | linux-mctp/libsermctp/src/MctpNetlink.cpp:220-226 | patching the length at the start offset gives the layout with the nest closed over its children |
| NetlinkLayout.ExecuteBuilds | linux-mctp/libsermctp/src/MctpNetlink.cpp:177-226 | after every bracketed sequence of steps, complete or not, the bytes are the layout of the tree the steps describe, at every depth |
| NetlinkMessage.NlMessage.NlaPut | linux-mctp/libsermctp/src/MctpNetlink.cpp:177-185 | in place: header and data written at the aligned end and no other byte changed, the length field and the new end cut to 16 bits; when the length fits, and the buffer is zero beyond the message, the message is the old one with the padded record appended |
| NetlinkMessage.NlMessage.NlaNestStart | linux-mctp/libsermctp/src/MctpNetlink.cpp:199-208 | in place: an empty flagged header written at the aligned end and no other byte changed, the old end returned |
| NetlinkMessage.NlMessage.NlaNestEnd | linux-mctp/libsermctp/src/MctpNetlink.cpp:220-226 | in place: only the two length bytes at the start change, to the distance from start to end cut to 16 bits; the message length stays if it is aligned and that distance fits |
| NetlinkMessage.RunSteps | linux-mctp/libsermctp/src/MctpNetlink.cpp:177-226 | any bracketed sequence of steps on a message, finished or not, leaves the layout of the tree the steps describe, given only that the final message fits the buffer and the final lengths their fields |
| NetlinkMessage.NetIdRequest | linux-mctp/libsermctp/src/MctpNetlink.cpp:434-446 | the request that sets a network id is the header followed by the encoding of the two nests and the id |
| NetlinkMessage.RequestOctets | linux-mctp/libsermctp/src/MctpNetlink.cpp:434-446 | the sixteen attribute bytes of the request, for every id |
| NetlinkReader.WalkEncoded | linux-mctp/libsermctp/src/MctpNetlink.cpp:354-354 | walking the encoding of a list of trees meets exactly their records, in order, types as written |
| NetlinkReader.WalkUnpadded | linux-mctp/libsermctp/src/MctpNetlink.cpp:354-354 | a last record without its padding is met as well |
| NetlinkReader.WalkStops | linux-mctp/libsermctp/src/MctpNetlink.cpp:354-354 | the walk stops exactly where there is no room for a header, or a length is below 4 or runs past the end |
| NetlinkReader.ParseEncoded | linux-mctp/libsermctp/src/MctpNetlink.cpp:177-226 | reading back the encoding of any list of trees gives the trees, to every depth |
| NetlinkReader.BuildParse | linux-mctp/libsermctp/src/MctpNetlink.cpp:177-226 | reading back what any complete bracketed sequence of builder steps wrote gives the tree the steps describe |
| NetlinkReader.FindInFamily | linux-mctp/libsermctp/src/MctpNetlink.cpp:362-380 | the innermost loop terminates and returns the first id of at least 4 bytes or of exactly 1 |
| NetlinkReader.FindInLink | linux-mctp/libsermctp/src/MctpNetlink.cpp:357-381 | the middle loop terminates and returns the first id of the MCTP family blocks |
| NetlinkReader.GetNetId | linux-mctp/libsermctp/src/MctpNetlink.cpp:351-383 | the outer loop terminates and returns the first id in what follows the first 32 bytes, failing exactly when there is none or the message is shorter |
| NetlinkReader.FirstNetId | linux-mctp/libsermctp/src/MctpNetlink.cpp:354-380 | the id returned lies on a path AF_SPEC, AF_MCTP, NET, and no record on such a path before it, depth first, holds an id |
| NetlinkReader.NoNetId | linux-mctp/libsermctp/src/MctpNetlink.cpp:354-387 | the reader fails if and only if no record on such a path holds an id |
| NetlinkReader.BuiltIds | linux-mctp/libsermctp/src/MctpNetlink.cpp:354-372 | from any list of trees the builder encodes the reader gets exactly the ids in the payloads of its leaves of type IFLA_AF_SPEC, and none from any nest; it fails if and only if no such leaf holds one |
| NetlinkReader.OwnRequestUnread | linux-mctp/libsermctp/src/MctpNetlink.cpp:434-446 | the library's own request to set a network id, read with the library's own reader, holds none: for every header and id |
| NetlinkReader.PlainIds | linux-mctp/libsermctp/src/MctpNetlink.cpp:354-380 | from any attribute trees encoded without the nest flag the reader's ids are those of a depth-first search of the trees |
| NetlinkReader.ReadLinkMessage | linux-mctp/libsermctp/src/MctpNetlink.cpp:351-383 | behind any 32 bytes of headers, flag-free encodings of any trees give the first id of their depth-first search, and failure if and only if there is none |
| NetlinkReader.IdSizes | linux-mctp/libsermctp/src/MctpNetlink.cpp:365-379 | which payloads hold an id: four bytes or more their first four, low byte first, one byte its value, any other number none; and only under type 1 |
| NetlinkReader.WideIdOctets | linux-mctp/libsermctp/src/MctpNetlink.cpp:354-372 | the sixteen bytes from which a 32-bit id is read back, for every id |
| NetlinkReader.SmallIdOctets | linux-mctp/libsermctp/src/MctpNetlink.cpp:373-379 | the sixteen bytes from which a one-byte id is read |
| NetlinkReader.ReadsUnflagged | linux-mctp/libsermctp/src/MctpNetlink.cpp:355-372 | from the tree of the library's own request, encoded without the nest flag, every 32-bit id is read back |
| NetlinkReader.SkipsBuiltNests | linux-mctp/libsermctp/src/MctpNetlink.cpp:203-203 | in any list of nests the builder made the reader finds nothing |
| UsbTty.WriteChunk | linux-mctp/libsermctp/src/ManagedUsbTty.cpp:379-391 | the write loop passes on a prefix of the chunk; it has at least n bytes exactly when some of the first calls, none of which breaks the connection, have room for n; it succeeds exactly when the chunk is whole |
| UsbTty.RetriesUnseen | linux-mctp/libsermctp/src/ManagedUsbTty.cpp:381-383 | a transient error, anywhere in a schedule, changes nothing of what is passed on |
| UsbTty.BreaksThere | linux-mctp/libsermctp/src/ManagedUsbTty.cpp:383-388 | nothing is passed on behind an error that breaks the connection |
| UsbTty.ManagedUsbTty.HandleAdd | linux-mctp/libsermctp/src/ManagedUsbTty.cpp:353-366 | a usable device starts a new session, even if one was attached |
| UsbTty.ManagedUsbTty.HandleRemove | linux-mctp/libsermctp/src/ManagedUsbTty.cpp:346-352 | removal detaches |
| UsbTty.ManagedUsbTty.HandlePty | linux-mctp/libsermctp/src/ManagedUsbTty.cpp:374-394 | a chunk goes to the attached device or is dropped; a write error detaches |
| UsbTty.ManagedUsbTty.HandleDevice | linux-mctp/libsermctp/src/ManagedUsbTty.cpp:396-426 | a chunk from the device goes to the pseudo-terminal; write error, end of file and read error detach |
| UsbTty.StepConsistent | linux-mctp/libsermctp/src/ManagedUsbTty.cpp:346-426 | every event keeps each session's bytes equal to its chunks, in order, whole but for a last one in a stream that is cut; and a stream becomes cut by an event exactly when that event is a write of its own, in the session in use, that a write error broke |
| UsbTty.UsbConserves | linux-mctp/libsermctp/src/ManagedUsbTty.cpp:324-427 | over every run the chunks of all sessions, one session after the other, are the chunks read while a device was attached, in both directions, and the bytes sent to the devices and to the pseudo-terminal are exactly the parts of those chunks that their writes passed on |
| UsbTty.GrowsLast | linux-mctp/libsermctp/src/ManagedUsbTty.cpp:374-426 | until the next device arrives, the last session takes exactly the chunks read while it is attached and the parts of them passed on, and is cut exactly when a write error breaks a write to it |
| UsbTty.KeepsOlder | linux-mctp/libsermctp/src/ManagedUsbTty.cpp:346-426 | no event changes a session that is over, and sessions are counted by arrivals |
| UsbTty.SessionPlace | linux-mctp/libsermctp/src/ManagedUsbTty.cpp:353-366 | every session of every run starts at an arrival and lives until the next one or the end |
| UsbTty.SessionConserves | linux-mctp/libsermctp/src/ManagedUsbTty.cpp:324-427 | in every run, the session of each arrival holds exactly the chunks read between that arrival and the next while the device was attached, in both directions, and the bytes of them passed on; it is cut if and only if a write error broke a write in that time, and otherwise its bytes are its chunks whole and in order |
| UsbTty.AttachedAfter | linux-mctp/libsermctp/src/ManagedUsbTty.cpp:346-426 | after any run a device is attached if and only if one was attached before, or a usable one was added in it, and no removal, end of file, read error or broken write came after |
| UsbTty.SessionIsLife | linux-mctp/libsermctp/src/ManagedUsbTty.cpp:346-426 | a session is made of the events up to the first removal, end of file, read error or broken write: all chunks among them, what their writes passed on, and whether one was broken |
| UsbTty.EndsSession | linux-mctp/libsermctp/src/ManagedUsbTty.cpp:346-352 | after a removal, an end of file or a read error nothing that is read belongs to the session |
| UsbTty.PassesUnseen | linux-mctp/libsermctp/src/ManagedUsbTty.cpp:419-424 | a transient read error, an unusable device and an empty read change nothing of a session |

## Left out

- Opening, configuring and closing descriptors, pipes, epoll sets, pseudo-terminals and threads: system-call plumbing.
- Threads: the receiver thread and the dispatch thread are interleaved event by event; a byte, a fetch and a turn of the dispatch loop are each one event.
- Framer.MctpFramer.UpdateRxFsm: takes a byte already read; a read that yields no byte leaves the object alone and has no counterpart. The byte count is an unbounded integer, so the overflow of `int` after 2^31 bytes inside a frame of length zero is not modelled.
- Framer.MctpFramer.Send: diagnostics and the value of `errno` are not modelled.
- Sending.WriteAll: the calls given may run out while the loop is still writing; that it ends at all depends on the environment.
- Bridge.MctpBridge.RunOnce: the code reads the second byte of every client message without looking at the size; what a message of one byte makes it read is a parameter. A failing accept, which throws, is not modelled.
- NetlinkMessage.NlMessage.NlaPut: the caller provides the room, padding included, as the builder's comment asks; a length given without data is not modelled; the message length is a field of the object instead of the first bytes of the buffer; numbers are little-endian where the program uses the byte order of the machine.
- NetlinkMessage.NlMessage.NlaNestEnd: a start offset other than one an earlier step returned, beyond the end of the message, is not modelled.
- NetlinkReader.GetNetId: the three nested loops are three methods, one loop each; the socket, the outer loop over messages and the error messages of the kernel are left out.
- UsbTty.WriteChunk: the calls given take the loop to one of its ends; the loop itself retries for as long as it takes.
- UsbTty.ManagedUsbTty.HandleAdd: matching of devices by udev properties and serial settings are reduced to whether the device is usable; that a replaced device's descriptor stays open is not modelled.
- The other netlink requests (names, addresses, routes, flags): calls of the same builder steps with fixed types.
- Interface set-up, the command line, examples, tests and scripts: user interface or configuration.
