# Protocol core of the HeadsUp pods: a Dafny model

This project models and proves the parts of HeadsUp's vendored libraries where the hard logic is:
the DTLS and TLS 1.2 code of BoringSSL's `ssl/` directory, the nanopb encoder and decoder, and
BoringSSL's reference counts. `dafny verify dfyconfig.toml` checks the whole project.

Code that works by changing an object step by step is an object here: a class with the source's
fields, whose methods follow the source's branches and loops and are proved equal to a pure
*specification* (`ensures View() == Spec(old(View()), ...)`). What the source promises is then proved
of the specification, for every input and for whole runs.

## The components

**DTLS handshake transport** (RFC 6347, sections 4.1.2.6 and 4.2.2 to 4.2.4).
`DtlsFragment` is the fragment header, `DtlsRecord` what the network carries, `DtlsWindow` the replay
window, `DtlsReassembly` the per-byte bitmap, `DtlsReceiver` and `DtlsReader` the ring of seven
messages being rebuilt, `DtlsSender` and `DtlsWriter` the flight with its two live write epochs,
`DtlsFlight` what every packet and flight keeps, and `DtlsRun` a sender and a receiver joined by a
network that loses, duplicates and reorders records. A record that is an error ends reading for good, and
so do alerts. `DtlsDelivery` says what a receiver that has not failed has got, and exactly which
records make it fail; `DtlsRetransmission` shows that one retransmission that is read whole and in order
is enough, and `DtlsLimits` when its records are too long. `DtlsEpochs` shows that no message mixes records of
two epochs, `DtlsSignals` what alerts and ChangeCipherSpec records do over whole runs and how long a flight is
kept, and `DtlsOutcome` when adding to a flight and sending it succeed.
An event of a run is one call into the library; `Flush` and `Resend` choose a new MTU and the number
of packets that the transport takes. AEAD protection is an authentic channel whose records have
bounded lengths: a record carries its epoch, sequence number and content, and the network delivers
only records that were sent.

**nanopb** (Protocol Buffers encoding). `PbWire` has varints, zig-zag, narrowing and little-endian
numbers, `PbSchema` message descriptions and values, `PbFormat` the format as functions on bytes,
`PbIter`, `PbEncoder` and `PbDecoder` the imperative iterator, printer and parser, and `PbRoundTrip`
and `PbMerge` the laws. `PbLimits` says what a struct has room for: what is decoded always fits, and a message
can be encoded exactly when it does not exceed its bounds. `PbCompatibility` is about what other writers
send. `Digits` defines words by their binary digits.

**TLS write path and handshake stream** (RFC 5246, section 6.2.1). `TlsBuffer` is `SSLBuffer`, `TlsWriter` the
specification of the write side of a connection and `TlsConnection` the object; `TlsWriterLaws` shows that
no operation loses a byte, `TlsWriterRun` what whole runs keep, `TlsWriterNumbers` under which number each
record is sealed, `TlsWriterOutcome` when writes succeed, and `TlsWriterAlerts` that one alert at most is sent.
`TlsStream` is the reader's side, `TlsEpochs` its changes of keys, and `TlsEndToEnd` joins writer and reader. The
transport is a script of results chosen freely.

**TLS 1.2 handshake** (RFC 5246, sections 7.3 and 7.4.9). `Handshake` states the flow that two
peers follow (full or resumed, with every optional message), `HandshakeClient` and `HandshakeServer` are
the two state machines and their driver, with the flight that is put together, flushed in parts and
sent. Each method of a state machine shows that it keeps to the moves of `Handshake.MayPlay` as long as
the other side does, that the checks before its last states are made whatever the other side
sends, and that a state is only left when its operation neither failed nor is still to be finished: a certificate or
signature that is not accepted holds the machine there (`HeldBack`), and a machine that is done has
carried out every operation on its path once. `HandshakeRun` is about two peers that make such moves over FIFO channels in any order, and
`HandshakeExchange` runs the two state machines against each other: a turn of either chooses how many
items arrive first, how much of a flight the transport takes, and which operations are retried or
fail. Whatever the machines do in their turns is a run of the two peers, so what holds of those holds of
the machines.
`CipherChoice` is the server's choice of a cipher.

**Reference counts.** `RefCount` runs any number of threads through the compare-and-swap loops, with
spurious failures, and shows that they refine the version with a lock.

## What the code does that its documentation does not say

- A fragment whose message number is exactly seven past the next one expected is an error that ends
  the connection, although the code below it means to drop what is too far ahead: the test is
  `seq > handshake_read_seq + 7` (`d1_both.cc:370-382`), and the slot lookup then insists on
  less than 7 (`d1_both.cc:267-268`). `DtlsReceiver.FatalFragment` says exactly when a fragment ends the
  connection, and `DtlsReceiver.SevenAhead` is such an input.
- `SSLBuffer` keeps its offset in 16 bits (`ssl/internal.h`), while a block may reach past it by the
  alignment. `TlsBuffer.ConsumeExact` says exactly when taking bytes from the front works,
  `SslBuffer.Consume` what it leaves in either case, and `TlsBuffer.WrapBuffer` gets from an empty buffer
  to five wrong bytes. The connection is proved to do what its specification says until that happens
  (`buffer.wrapped`). `TlsConnection.Connection.FlushWriteBuffer` says for which results of the transport
  it does; a write only lays out a block in which it can happen for a record and a flight
  of nearly 65536 bytes together.
- A record that is an error makes every later read fail (`ssl_lib.cc:209-258`), so a message that the
  receiver will not take keeps it from the ones behind it, however often they are sent.
  `DtlsLimits.LongMessageInput` is such a run, and `DtlsDelivery.FailsExactly` says when it comes to that.
- The sender cuts a message by the room in the packet alone, and the MTU may be set to more than the 16384
  bytes that a receiver takes in a record (`ssl_lib.cc:1652-1658`, `dtls_record.cc:253`).
  `DtlsLimits.OverlongExactly` says exactly when a retransmission has a record that is too long,
  `DtlsLimits.SafeIsShort` when the flight and the MTU rule it out, and `DtlsLimits.LongRecordInput` is a run in
  which it happens.
- The last cipher group of a server's preferences must be closed. `CipherChoice.ChosenExactly` says
  exactly when there is a choice without that assumption, and `CipherChoice.UnclosedGroup` is a list that has an
  acceptable cipher and no choice; with it, `CipherChoice.ChosenExists` gives the rule of `internal.h`.
- `pb_decode_noinit` shifts a 32-bit mask by 32 when a message has exactly 32 required fields
  (`pb_decode.c:947`), which C leaves undefined. `WellFormed` descriptions exclude it;
  `PbIter.ThirtyTwoRequired` gives one that is otherwise well formed, and the two outcomes it can have.

## Model

Paths are relative to the repository's root.

| member | source | states |
|---|---|---|
| `DtlsRun.MessagesInOrder` | HeadsUp/Pods/BoringSSL/ssl/d1_both.cc:297-438 | in every run over a network that drops, duplicates and reorders, with any MTU at each (re)transmission, the messages taken are a byte-exact prefix of those the sender added, in order and each once, while message numbers do not wrap |
| `DtlsDelivery.RunDelivers` | HeadsUp/Pods/BoringSSL/ssl/d1_both.cc:768-831 | from every reachable state of the two sides: if each record that a retransmission sends for a message is let through once, in any order, among any other records sent and with messages taken in between, the receiver then has that whole message or has taken it, unless reading has failed |
| `DtlsRetransmission.OneRetransmission` | HeadsUp/Pods/BoringSSL/ssl/d1_both.cc:822-831 | in any run, whatever was lost, repeated and reordered before: a retransmission that is read whole and in order, with messages taken at any time, leaves the receiver with every message of the flight that is under its epoch and one of its seven next, or with it taken, unless reading fails on the way, while no counter wraps |
| `DtlsRetransmission.OneRetransmissionTaken` | HeadsUp/Pods/BoringSSL/ssl/d1_both.cc:408-438 | and what the receiver takes, while it reads and after, is exactly the next messages of the flight, in order |
| `DtlsRetransmission.InOrderArrive` | HeadsUp/Pods/BoringSSL/ssl/dtls_record.cc:177-272 | records in order, above all that the window saw, are each let through that are of the receiver's epoch, if reading does not fail, and reading then goes on |
| `DtlsRetransmission.RetransmissionFailsExactly` | HeadsUp/Pods/BoringSSL/ssl/d1_both.cc:297-406 | a retransmission read in one go makes reading fail exactly when it has a record of the receiver's epoch that is longer than is taken, or whose message is too long, not the next one under new keys, or seven past the next one, or a ChangeCipherSpec under encryption |
| `DtlsRetransmission.HarmlessNeverFail` | HeadsUp/Pods/BoringSSL/ssl/d1_both.cc:297-406 | under another epoch than the first new one, records of messages that are short enough and less than seven past the next one never make reading fail, in any order and with messages taken at any time |
| `DtlsLimits.OverlongExactly` | HeadsUp/Pods/BoringSSL/ssl/d1_both.cc:630-720 | a retransmission has a record longer than a receiver takes exactly when at some place of a packet more was left of a message than a record may hold and the rest of the MTU had room for it |
| `DtlsLimits.OverlongByFirst` | HeadsUp/Pods/BoringSSL/ssl/d1_both.cc:630-720 | when only the first body of the flight may be unsafe, it has one exactly when that body is longer than 16372 bytes and the MTU has room for 16373 of them with the overhead |
| `DtlsLimits.SafeIsShort` | HeadsUp/Pods/BoringSSL/ssl/dtls_record.cc:195-257 | a flight each of whose bodies is at most 16372 bytes or kept by the MTU from a longer record has no record that is too long, before or after it is opened, for ciphers that add no more than a receiver allows for |
| `DtlsLimits.SealedLength` | HeadsUp/Pods/BoringSSL/ssl/d1_both.cc:630-720 | exactly when a record that is sealed is longer than a receiver takes, by what is left of its message and the room it has |
| `DtlsLimits.LongMessageInput` | HeadsUp/Pods/BoringSSL/ssl/d1_both.cc:360-370 | a run with a message of 200 bytes, of which 100 are taken, and one of a single byte in the same datagram: reading fails, and neither is ever held or taken, whatever follows |
| `DtlsLimits.LongRecordInput` | HeadsUp/Pods/BoringSSL/ssl/dtls_record.cc:253-257 | a run with a body of 16373 bytes and an MTU of 20000: the record holds 16385 bytes, reading fails, and the message is never held or taken, whatever follows |
| `DtlsLimits.RunAfterFailure` | HeadsUp/Pods/BoringSSL/ssl/ssl_lib.cc:209-258 | after a failure no continuation of a run lets the receiver accept, hold or take anything |
| `DtlsDelivery.FlightDelivered` | HeadsUp/Pods/BoringSSL/ssl/d1_both.cc:297-406 | the same for any sender and receiver that agree with the messages added |
| `DtlsRetransmission.TakesAll` | HeadsUp/Pods/BoringSSL/ssl/d1_both.cc:408-438 | when the next messages are complete and reading has not ended, repeated get and next take exactly these, in order |
| `DtlsDelivery.ServeFills` | HeadsUp/Pods/BoringSSL/ssl/d1_both.cc:297-406 | after any genuine records and takings, unless reading has failed, a message that there was room for is taken or filled with exactly the ranges that were let through |
| `DtlsDelivery.ServeKeeps` | HeadsUp/Pods/BoringSSL/ssl/d1_both.cc:408-438 | the messages taken between any records are the sender's from the receiver's number on, in order |
| `DtlsDelivery.FailsExactly` | HeadsUp/Pods/BoringSSL/ssl/ssl_lib.cc:209-258 | reading has failed exactly when some record that was opened was an error when its turn came |
| `DtlsDelivery.GenuineFatal` | HeadsUp/Pods/BoringSSL/ssl/d1_both.cc:297-386 | a genuine record is an error exactly when it is opened and holds more than 16384 bytes, or a message that is too long, not the next one under new keys or seven past the next one, a ChangeCipherSpec under encryption, application data in the clear, or a fatal, malformed or fifth warning alert |
| `DtlsRun.NumbersUsedOnce` | HeadsUp/Pods/BoringSSL/ssl/dtls_record.cc:294-351 | over a run with retransmissions and epoch changes, the records sent under each epoch have growing numbers, so that no two records ever sent have the same epoch and sequence number, while the counters do not wrap |
| `DtlsRun.RetransmissionsAbove` | HeadsUp/Pods/BoringSSL/ssl/d1_both.cc:822-831 | each record of a retransmission has a larger number than every record sent before it under its epoch: nothing is sent again as it was |
| `DtlsRun.AcceptedWasSent` | HeadsUp/Pods/BoringSSL/ssl/dtls_record.cc:177-272 | each record that the receiver let through in a run is one that was sent |
| `DtlsRun.NumbersAcceptedOnce` | HeadsUp/Pods/BoringSSL/ssl/dtls_record.cc:177-272 | the receiver lets each pair of epoch and sequence number through at most once over a whole run, across its epoch changes |
| `DtlsRun.StepKeeps` | HeadsUp/Pods/BoringSSL/ssl/d1_both.cc:541-831 | every event of either side and of the network keeps the invariant of the run |
| `DtlsFragment.ParseSerialize` | HeadsUp/Pods/BoringSSL/ssl/d1_both.cc:459-473 | parsing a header and body that were written gives the fragment back and leaves what follows it |
| `DtlsFragment.HeaderLayout` | HeadsUp/Pods/BoringSSL/ssl/d1_both.cc:459-473 | the bytes at which type, length, number, offset and fragment length stand, the most significant first |
| `DtlsFragment.FinishedMessage` | HeadsUp/Pods/BoringSSL/ssl/d1_both.cc:511-537 | a message opened and closed is the fragment that covers its whole body: the length is patched into both length fields |
| `DtlsRecord.NumbersDiffer` | HeadsUp/Pods/BoringSSL/ssl/dtls_record.cc:128-136 | the eight bytes of a record number are equal exactly when epoch and sequence number are |
| `DtlsWindow.RecordRepresents` | HeadsUp/Pods/BoringSSL/ssl/dtls_record.cc:155-175 | bit i of the window is set exactly when max - i was recorded, kept for a number of any size in any order |
| `DtlsWindow.DiscardExact` | HeadsUp/Pods/BoringSSL/ssl/dtls_record.cc:140-150 | a number is discarded exactly when it was recorded or lies 64 or more below the largest |
| `DtlsWindow.RecordBound` | HeadsUp/Pods/BoringSSL/ssl/dtls_record.cc:155-175 | the window stays within 64 bits |
| `DtlsReader.Bitmap.IsDiscarded` | HeadsUp/Pods/BoringSSL/ssl/dtls_record.cc:140-150 | tests what the window's specification tests, on the 64-bit word |
| `DtlsReader.Bitmap.Record` | HeadsUp/Pods/BoringSSL/ssl/dtls_record.cc:155-175 | the word and maximum become those of the specification, for shifts of 64 and more too |
| `DtlsReassembly.BitRangeBits` | HeadsUp/Pods/BoringSSL/ssl/d1_both.cc:203-205 | bit i of `bit_range(start, end)` is set exactly for start <= i < end, also for the 8-bit edges |
| `DtlsReassembly.SetBits` | HeadsUp/Pods/BoringSSL/ssl/d1_both.cc:219-236 | exactly the bits of [start, end) are added, over the first, middle and last byte |
| `DtlsReassembly.IsFull` | HeadsUp/Pods/BoringSSL/ssl/d1_both.cc:238-250 | the test for completion holds exactly when every bit below the message length is set |
| `DtlsReassembly.HmFragment.constructor` | HeadsUp/Pods/BoringSSL/ssl/d1_both.cc:152-199 | a new message has received nothing; one without a body is complete |
| `DtlsReassembly.HmFragment.Mark` | HeadsUp/Pods/BoringSSL/ssl/d1_both.cc:211-251 | the received positions grow by exactly the range; bits past the length are never set; a full bitmap is dropped |
| `DtlsReassembly.HmFragment.Store` | HeadsUp/Pods/BoringSSL/ssl/d1_both.cc:387-403 | copying a fragment and marking it is the abstract `Fill`, which leaves a complete message alone |
| `DtlsReassembly.HmFragment.CompleteIsNull` | HeadsUp/Pods/BoringSSL/ssl/d1_both.cc:238-250 | a message is complete exactly when its bitmap was dropped |
| `DtlsReassembly.FillAllReceives` | HeadsUp/Pods/BoringSSL/ssl/d1_both.cc:387-403 | after any ranges, overlapping and in any order, the received positions of an incomplete message are exactly those covered |
| `DtlsReassembly.CompleteWhenCovered` | HeadsUp/Pods/BoringSSL/ssl/d1_both.cc:211-251 | a message is complete exactly when the ranges cover every position below its length |
| `DtlsReassembly.CompleteIsFinal` | HeadsUp/Pods/BoringSSL/ssl/d1_both.cc:387-403 | once a message is complete no later fragment changes its data |
| `DtlsReceiver.FatalFragment` | HeadsUp/Pods/BoringSSL/ssl/d1_both.cc:265-295 | a fragment ends the connection exactly when it is out of bounds, has an unexpected number under new keys, is seven past the next number, or disagrees with the header of a message being rebuilt; the state is then unchanged |
| `DtlsReceiver.SevenAhead` | HeadsUp/Pods/BoringSSL/ssl/d1_both.cc:370-382 | at the start, an empty fragment of message 7 ends the connection and one of message 8 is ignored |
| `DtlsReceiver.OpenGenuine` | HeadsUp/Pods/BoringSSL/ssl/d1_both.cc:297-406 | whatever genuine record arrives, every message in the ring keeps agreeing with what the sender added under its number |
| `DtlsReceiver.TakenIsGenuine` | HeadsUp/Pods/BoringSSL/ssl/d1_both.cc:408-424 | a complete current message is the sender's message of that number, byte for byte |
| `DtlsReceiver.OpenKeepsRing` | HeadsUp/Pods/BoringSSL/ssl/d1_both.cc:297-406 | every message in the ring stays in the slot of its number, within seven of the next one |
| `DtlsReceiver.NextKeepsRing` | HeadsUp/Pods/BoringSSL/ssl/d1_both.cc:426-438 | taking a message frees its slot and keeps the rest of the ring in place |
| `DtlsReader.Reader.GetIncoming` | HeadsUp/Pods/BoringSSL/ssl/d1_both.cc:265-295 | finds or starts the message of a fragment, or fails, and changes only that slot |
| `DtlsReader.Reader.ProcessOne` | HeadsUp/Pods/BoringSSL/ssl/d1_both.cc:355-403 | one turn of the loop over fragments: the checks, the drop of what is too far or old, and the fill |
| `DtlsReader.Reader.OpenHandshakeRecord` | HeadsUp/Pods/BoringSSL/ssl/d1_both.cc:297-406 | opening a record for the handshake is the specification's step, fragment by fragment, with every error |
| `DtlsReader.Reader.OpenChangeCipherSpecRecord` | HeadsUp/Pods/BoringSSL/ssl/d1_both.cc:475-490 | a ChangeCipherSpec is taken only if none is pending, else a record is opened in search of one |
| `DtlsReader.Reader.Open` | HeadsUp/Pods/BoringSSL/ssl/dtls_record.cc:177-272 | close_notify, length of the protected record, epoch, replay, length of its contents, recording of the number, and alerts, in that order |
| `DtlsReader.Reader.TakeAlert` | HeadsUp/Pods/BoringSSL/ssl/tls_record.cc:560-610 | close_notify ends reading, up to four warnings in a row are ignored, and any other alert is an error |
| `DtlsReader.Reader.ReadHandshakeRecord` | HeadsUp/Pods/BoringSSL/ssl/ssl_lib.cc:229-242 | a record is opened unless reading has failed, and an error makes it fail for good |
| `DtlsReader.Reader.ReadForChangeCipherSpec` | HeadsUp/Pods/BoringSSL/ssl/ssl_lib.cc:244-258 | the same while a ChangeCipherSpec is awaited |
| `DtlsReader.Reader.Get` | HeadsUp/Pods/BoringSSL/ssl/d1_both.cc:408-424 | returns the complete current message, with its raw bytes the whole fragment of that message |
| `DtlsReader.Reader.Next` | HeadsUp/Pods/BoringSSL/ssl/d1_both.cc:426-438 | frees the slot and moves to the next message number |
| `DtlsReader.Reader.HasUnprocessedData` | HeadsUp/Pods/BoringSSL/ssl/d1_both.cc:440-457 | looks at every slot of the ring: nothing is unprocessed exactly when no ChangeCipherSpec waits and no slot but that of the message being looked at is taken |
| `DtlsReader.Reader.SetRead` | HeadsUp/Pods/BoringSSL/ssl/dtls_method.cc:81-95 | changes the keys exactly then, moving to the next epoch with an empty window, and otherwise changes nothing |
| `DtlsReceiver.KeysChangeExactly` | HeadsUp/Pods/BoringSSL/ssl/dtls_method.cc:81-95 | new read keys are accepted exactly when no ChangeCipherSpec waits and every message in the ring is the one being looked at |
| `DtlsEpochs.TakenUnderOneEpoch` | HeadsUp/Pods/BoringSSL/ssl/dtls_method.cc:81-95 | in every run, each message taken is what certain accepted records make up, all of them of one epoch: none mixes bytes that came before a change of keys with bytes that came after |
| `DtlsSignals.WarningsCounted` | HeadsUp/Pods/BoringSSL/ssl/tls_record.cc:577-598 | in every run in which reading has not failed, the count of warning alerts is the number of those accepted since the last record that was no alert, and at most four |
| `DtlsSignals.ChangeFoundExactly` | HeadsUp/Pods/BoringSSL/ssl/d1_both.cc:475-490 | a call for a ChangeCipherSpec finds one exactly when one was let through in the clear before or is now, and finds it once |
| `DtlsSignals.NothingAfterEnd` | HeadsUp/Pods/BoringSSL/ssl/dtls_record.cc:177-194 | once the peer closed the connection or reading failed, nothing is let through or taken, whatever follows |
| `DtlsFlight.SealNextOk` | HeadsUp/Pods/BoringSSL/ssl/d1_both.cc:630-720 | whatever is sealed is the next piece of the message at the position, under the epoch of the message and the next number of the keys of that epoch |
| `DtlsFlight.PacketTiles` | HeadsUp/Pods/BoringSSL/ssl/d1_both.cc:725-766 | the records of a packet tile the messages from the old position to the new one; a packet that is too small moves nothing |
| `DtlsFlight.TilesConserve` | HeadsUp/Pods/BoringSSL/ssl/d1_both.cc:725-813 | the fragments of a tiling and what is left after it are what was left before it: no gap and no overlap |
| `DtlsFlight.PacketFits` | HeadsUp/Pods/BoringSSL/ssl/d1_both.cc:725-766 | a packet is never larger than the MTU |
| `DtlsFlight.PacketForward` | HeadsUp/Pods/BoringSSL/ssl/d1_both.cc:768-813 | every packet moves the position forward lexicographically, which is why sending ends |
| `DtlsFlight.TooSmallExactly` | HeadsUp/Pods/BoringSSL/ssl/d1_both.cc:630-766 | the MTU is reported as too small exactly when the next message could be sealed but not even one byte of it fits |
| `DtlsFlight.SendTiles` | HeadsUp/Pods/BoringSSL/ssl/d1_both.cc:768-813 | the packets that the transport took tile the flight and fit the MTU even when failed writes roll back |
| `DtlsFlight.SentFlight` | HeadsUp/Pods/BoringSSL/ssl/d1_both.cc:822-831 | a retransmission that succeeds sends exactly the bodies of the whole flight |
| `DtlsOutcome.RetransmissionSucceeds` | HeadsUp/Pods/BoringSSL/ssl/d1_both.cc:768-831 | a retransmission sends the whole flight when the transport takes enough packets, the MTU has room for a byte of each message, the keys of each are the present or previous ones, and the numbers do not run out |
| `DtlsOutcome.PacketFull` | HeadsUp/Pods/BoringSSL/ssl/d1_both.cc:725-766 | a packet ends with the flight, or has no room for another piece of the message that comes next |
| `DtlsOutcome.AddsUpToSeven` | HeadsUp/Pods/BoringSSL/ssl/d1_both.cc:511-580 | a message is added exactly when its length has 24 bits and the flight, once a complete one made way, has fewer than seven; it then comes last, whole, under the present epoch and its own number |
| `DtlsOutcome.AddsChangeCipherSpec` | HeadsUp/Pods/BoringSSL/ssl/d1_both.cc:541-588 | the same for a ChangeCipherSpec, which uses no number |
| `DtlsOutcome.OtherSent` | HeadsUp/Pods/BoringSSL/ssl/dtls_record.cc:294-351 | an alert or application data that fits is sent as one record under the present epoch and the next number |
| `DtlsSignals.FlightKept` | HeadsUp/Pods/BoringSSL/ssl/d1_both.cc:541-546 | in every run a flight is kept until it was flushed and then a new one begins, or a reply to it was processed and the handshake is over |
| `DtlsFlight.LoggedNumbered` | HeadsUp/Pods/BoringSSL/ssl/dtls_record.cc:294-351 | using the next number of either write epoch keeps the numbers used under each epoch growing |
| `DtlsFlight.SendKeeps` | HeadsUp/Pods/BoringSSL/ssl/d1_both.cc:768-813 | sending a flight in whatever packets keeps everything sealed genuine and numbered in order, and what was sent a part of it in its order |
| `DtlsWriter.Writing.Add` | HeadsUp/Pods/BoringSSL/ssl/d1_both.cc:541-580 | appends to the flight, after clearing one that is complete, under the current epoch |
| `DtlsWriter.Writing.AddHandshake` | HeadsUp/Pods/BoringSSL/ssl/d1_both.cc:511-584 | numbers and appends a handshake message, or fails leaving the sender as specified |
| `DtlsWriter.Writing.Seal` | HeadsUp/Pods/BoringSSL/ssl/dtls_record.cc:294-351 | seals with the keys of this or the previous epoch and advances their sequence number |
| `DtlsWriter.Writing.SealNext` | HeadsUp/Pods/BoringSSL/ssl/d1_both.cc:630-720 | the next piece that fits of a message, from the right epoch, or which way it fails |
| `DtlsWriter.Writing.SealPacket` | HeadsUp/Pods/BoringSSL/ssl/d1_both.cc:725-766 | fills a packet as specified and leaves the position after it |
| `DtlsWriter.Writing.SendFlight` | HeadsUp/Pods/BoringSSL/ssl/d1_both.cc:768-813 | ends, by the lexicographic position; a packet that was not taken leaves the position where it was |
| `DtlsWriter.Writing.Flush` | HeadsUp/Pods/BoringSSL/ssl/d1_both.cc:815-820 | marks the flight complete and sends it from the position |
| `DtlsWriter.Writing.RetransmitOutgoing` | HeadsUp/Pods/BoringSSL/ssl/d1_both.cc:822-831 | sends the flight from its start |
| `DtlsWriter.Writing.SetWrite` | HeadsUp/Pods/BoringSSL/ssl/dtls_method.cc:97-107 | the current keys become those of the previous epoch, and the sequence starts at zero |
| `DtlsWriter.Writing.HandshakeDone` | HeadsUp/Pods/BoringSSL/ssl/dtls_method.cc:71-79 | the last flight is dropped exactly when a reply to it was processed |
| `PbRoundTrip.MessageRoundTrip` | HeadsUp/Pods/nanopb/pb_decode.c:852-967 | decoding what `pb_encode` wrote gives back the message, for every callback-free description and every typed message below 4 GiB with terminated strings; an absent optional reads back as its default and a string up to its terminator |
| `PbLimits.DecodedFits` | HeadsUp/Pods/nanopb/pb_decode.c:1262-1379 | whatever the bytes, a decoded message fits its struct: every string with its terminator, every byte string within its capacity and every array within its maximum, at any depth, if the defaults do |
| `PbLimits.EncodesExactly` | HeadsUp/Pods/nanopb/pb_encode.c:116-127 | a message can be encoded exactly when every array written has at most its maximum of elements and every byte string at most its capacity of bytes, at any depth |
| `PbLimits.DecodedEncodes` | HeadsUp/Pods/nanopb/pb_encode.c:451-473 | whatever could be decoded can be encoded again, and reads back as the same message in its normal form |
| `PbLimits.OverFits` | HeadsUp/Pods/nanopb/pb_decode.c:852-953 | decoding into a struct whose values fit leaves one whose values fit |
| `PbLimits.BlobAccepted` | HeadsUp/Pods/nanopb/pb_decode.c:1262-1379 | the contents that a length prefix announces are taken exactly when they fit, unchanged, and an empty fixed-length byte string as zeros |
| `PbLimits.PackedAccepted` | HeadsUp/Pods/nanopb/pb_decode.c:369-396 | the elements of a packed array are taken, after those already there, exactly when there is room for all of them |
| `PbRoundTrip.DecodeIsMerge` | HeadsUp/Pods/nanopb/pb_decode.c:852-953 | when `a` ends between fields, decoding `a ++ b` is decoding `a` and then `b` into the same struct, and fails only where that does or where the two together miss a required field |
| `PbMerge.RepeatedAppends` | HeadsUp/Pods/nanopb/pb_decode.c:369-413 | what a repeated field holds after decoding is what it held before, followed by what the same bytes give when it starts empty; no other field is affected |
| `PbMerge.SubmessageMerges` | HeadsUp/Pods/nanopb/pb_decode.c:1334-1356 | a plain submessage field decodes the bytes of its prefix over the submessage that the struct holds, and becomes present with the result |
| `PbMerge.OccurrencesMerge` | HeadsUp/Pods/nanopb/pb_decode.c:1334-1356 | two occurrences of a submessage field with payloads `a` and `b` decode as one with `a ++ b`, wherever `a` ends between fields |
| `PbMerge.UnmentionedKept` | HeadsUp/Pods/nanopb/pb_decode.c:852-917 | decoding keeps every field that the bytes do not mention, unless they mention another member of its union |
| `PbMerge.OneofReplaces` | HeadsUp/Pods/nanopb/pb_decode.c:415-424 | a member of a union is decoded from its defaults, whatever the struct held, and the other members are unset |
| `PbRoundTrip.UnknownFieldsIgnored` | HeadsUp/Pods/nanopb/pb_decode.c:863-917 | any number of well-formed fields with unknown tags, inserted at any boundaries between fields, do not change the result |
| `PbCompatibility.OlderReader` | HeadsUp/Pods/nanopb/pb_decode.c:863-917 | a reader whose description has any part of the fields gets exactly those from what was written with all of them |
| `PbCompatibility.SkipsValue` | HeadsUp/Pods/nanopb/pb_decode.c:231-287 | skipping an encoded value of any type, by its wire type, leaves exactly what follows it |
| `PbCompatibility.OnlyFourWireTypes` | HeadsUp/Pods/nanopb/pb_decode.c:277-287 | a field of any other wire type cannot be skipped |
| `PbCompatibility.ZeroFieldNumber` | HeadsUp/Pods/nanopb/pb_decode.c:863-917 | a tag with field number zero is skipped like an unknown field, but is an error with an empty description |
| `PbCompatibility.CutInsideTag` | HeadsUp/Pods/nanopb/pb_decode.c:251-275 | input that stops inside a tag decodes as the message before it; so do five continuation bytes at the very end, while with more decoding fails |
| `PbCompatibility.ZeroEndsMessage` | HeadsUp/Pods/nanopb/pb_decode.c:251-275 | a tag that reads as zero, in any form, ends the message whatever follows it |
| `PbCompatibility.SucceedsExactly` | HeadsUp/Pods/nanopb/pb_decode.c:908-950 | decoding succeeds exactly when every field in the bytes can be read and every required field is among them |
| `PbCompatibility.AnyVarint` | HeadsUp/Pods/nanopb/pb_decode.c:173-229 | any groups of seven bits, minimal or not, are read as the number they are the digits of, cut to the width: up to five for 32 bits and up to ten for 64, and more are an error |
| `PbRoundTrip.NestedStaysInside` | HeadsUp/Pods/nanopb/pb_decode.c:1334-1356 | a nested message sees exactly the bytes of its length prefix, whatever follows them, and leaves the stream after them |
| `PbRoundTrip.SeenAdds` | HeadsUp/Pods/nanopb/pb_decode.c:908-950 | the required fields seen before never change what is decoded, they only add up |
| `PbRoundTrip.ValueRoundTrip` | HeadsUp/Pods/nanopb/pb_encode.c:652-776 | every scalar, string, byte array and nested message is read back from what was written, with anything after it |
| `PbRoundTrip.PackedRoundTrip` | HeadsUp/Pods/nanopb/pb_encode.c:128-174 | the elements of a packed array are read back in order |
| `PbRoundTrip.ItemsRoundTrip` | HeadsUp/Pods/nanopb/pb_encode.c:175-198 | the elements of an unpacked array, each under its own tag, are appended in order |
| `PbRoundTrip.SlotRoundTrip` | HeadsUp/Pods/nanopb/pb_encode.c:271-349 | reading what one field wrote changes exactly that field of the struct, for each kind of field |
| `PbRoundTrip.TagRoundTrip` | HeadsUp/Pods/nanopb/pb_encode.c:553-557 | a tag is read back as its number and wire type |
| `PbWire.Varint64RoundTrip` | HeadsUp/Pods/nanopb/pb_decode.c:209-229 | a 64-bit varint is read back |
| `PbWire.Varint32RoundTrip` | HeadsUp/Pods/nanopb/pb_decode.c:173-207 | a 32-bit varint is read back by the 32-bit reader |
| `PbWire.ZigZagRoundTrip` | HeadsUp/Pods/nanopb/pb_encode.c:516-525 | zig-zag is inverted on every 64-bit number, and maps to 2i or -2i - 1 |
| `PbWire.NarrowRoundTrip` | HeadsUp/Pods/nanopb/pb_decode.c:1165-1248 | narrow integers of 1, 2, 4 and 8 bytes survive widening and the range check, signed, unsigned and zig-zag |
| `PbWire.NarrowExact` | HeadsUp/Pods/nanopb/pb_decode.c:1165-1248 | a varint is taken as the one number in range that agrees with it modulo 2^64, or 2^32 for narrower signed fields, unsigned as itself, zig-zag as the number that maps to it; otherwise it is refused |
| `PbWire.LittleEndianRoundTrip` | HeadsUp/Pods/nanopb/pb_decode.c:1132-1163 | fixed-width numbers are read back |
| `PbWire.LaterByteWeighsMore` | HeadsUp/Pods/nanopb/pb_decode.c:1132-1163 | a byte that comes later in a fixed-width number weighs 256 times more for each one before it |
| `PbIter.FieldIter.Next` | HeadsUp/Pods/nanopb/pb_common.c:20-76 | moves one field on and wraps at the end; the required index stays the number of required fields before the position |
| `PbIter.FieldIter.FindTag` | HeadsUp/Pods/nanopb/pb_common.c:78-95 | from any position, finds the field with the tag exactly when there is one, and otherwise comes back to where it was |
| `PbIter.MarkSeen` | HeadsUp/Pods/nanopb/pb_decode.c:908-913 | sets exactly one bit of the two words |
| `PbIter.AllMarked` | HeadsUp/Pods/nanopb/pb_decode.c:919-950 | the final mask test passes exactly when the bits of all required fields are set, for counts below 64 other than 32 |
| `PbIter.ThirtyTwoRequired` | HeadsUp/Pods/nanopb/pb_decode.c:941-949 | a description with 32 required fields that is otherwise well formed, all of them seen: the final test shifts by the width of the word, and passes or fails with what that gives |
| `PbDecoder.MaskComplete` | HeadsUp/Pods/nanopb/pb_decode.c:919-950 | those bits are all set exactly when every required field was seen |
| `PbDecoder.AllRequiredMarked` | HeadsUp/Pods/nanopb/pb_decode.c:919-950 | the end of the decode loop succeeds exactly when every required field was seen |
| `PbDecoder.IStream.Read` | HeadsUp/Pods/nanopb/pb_decode.c:91-123 | takes exactly the bytes asked for, or fails at the end |
| `PbDecoder.IStream.DecodeVarint` | HeadsUp/Pods/nanopb/pb_decode.c:173-229 | the shifting loops read what the format says, with the overflow of each width and the bits cut off |
| `PbDecoder.IStream.MakeSubstream` | HeadsUp/Pods/nanopb/pb_decode.c:322-335 | a substream ends where its length prefix says, inside its parent |
| `PbDecoder.DecodeTag` | HeadsUp/Pods/nanopb/pb_decode.c:251-275 | splits a tag, and tells a clean end of the stream from an error |
| `PbDecoder.SkipField` | HeadsUp/Pods/nanopb/pb_decode.c:231-287 | skips exactly one field of any wire type, or fails where the format does |
| `PbDecoder.DecodeValue` | HeadsUp/Pods/nanopb/pb_decode.c:1165-1379 | each reader reads what the format says into the value, including its errors; what these let through fits (`PbLimits.BlobAccepted`) |
| `PbDecoder.DecodeFieldInto` | HeadsUp/Pods/nanopb/pb_decode.c:356-429 | the cases of a static field (required, optional, packed and unpacked array, oneof) do what the format says and never read past the stream |
| `PbDecoder.DecodeFields` | HeadsUp/Pods/nanopb/pb_decode.c:852-917 | the decode loop ends on every input, keeps the mask of required fields in step, and computes the format's loop |
| `PbDecoder.DecodeMessage` | HeadsUp/Pods/nanopb/pb_decode.c:955-967 | succeeds exactly when the format decodes, with the same struct, whose values fit if the defaults do |
| `PbEncoder.OStream.Write` | HeadsUp/Pods/nanopb/pb_encode.c:91-109 | writes at the position and counts, or only counts when sizing, or fails exactly when the bytes do not fit |
| `PbEncoder.EncodeVarint` | HeadsUp/Pods/nanopb/pb_encode.c:494-514 | writes the varint, whose last group has its continuation bit cleared in the local buffer |
| `PbEncoder.GroupsAndVarint` | HeadsUp/Pods/nanopb/pb_encode.c:494-514 | ten groups with continuation bits, the last one cleared, are the varint |
| `PbEncoder.EncodeArray` | HeadsUp/Pods/nanopb/pb_encode.c:116-201 | writes the array as the format has it, packed or not; `PbLimits.EncodesExactly` says when there is such an encoding |
| `PbEncoder.EncodePackedArray` | HeadsUp/Pods/nanopb/pb_encode.c:128-174 | the length counted first is the length written, in both ways of counting |
| `PbEncoder.PackedSize` | HeadsUp/Pods/nanopb/pb_encode.c:136-150 | counts the bytes of a packed array without writing them, by width or by a sizing stream |
| `PbEncoder.EncodeBasicField` | HeadsUp/Pods/nanopb/pb_encode.c:271-349 | writes exactly what the format has for the field, and succeeds exactly when the format encodes and it fits |
| `PbEncoder.EncodeMessage` | HeadsUp/Pods/nanopb/pb_encode.c:451-473 | sizing or writing, at any depth, writes the format's bytes and succeeds exactly when they exist and fit |
| `PbEncoder.EncodeSubmessage` | HeadsUp/Pods/nanopb/pb_encode.c:600-648 | the sizing pass and the writing pass agree, so the check for a changed size never fails |
| `PbEncoder.GetEncodedSize` | HeadsUp/Pods/nanopb/pb_encode.c:480-489 | there is a size exactly when no bound of an array or byte string is exceeded, and it is the length of the encoding |
| `PbEncoder.EncodeToBuffer` | HeadsUp/Pods/nanopb/pb_encode.c:74-89 | encoding into a buffer succeeds exactly when no bound of an array or byte string is exceeded and the encoding is no longer than the buffer, and fills its front |
| `TlsWriterRun.BytesConserved` | HeadsUp/Pods/BoringSSL/ssl/s3_pkt.cc:129-289 | in every reachable state, bytes given to the transport, write buffer and the rest of the flight are together all sealed records in the order sealed |
| `TlsWriterRun.ApplicationDataOnce` | HeadsUp/Pods/BoringSSL/ssl/s3_pkt.cc:129-200 | across short writes and retries that follow the rule, the application bytes sealed are the caller's, once and in order: those reported and those still held |
| `TlsWriterNumbers.SealedInOrder` | HeadsUp/Pods/BoringSSL/ssl/tls_record.cc:154-163 | in every run, the `k`th record sealed since the keys were set is sealed under number `k`, with the cipher of the call that seals it, whatever its type; numbering starts again only after 2^64 - 1 records |
| `TlsWriterNumbers.RunNumbered` | HeadsUp/Pods/BoringSSL/ssl/tls_record.cc:427-433 | in every reachable state the next number is the count of records sealed since the keys were set |
| `TlsWriterAlerts.AlertSentOnce` | HeadsUp/Pods/BoringSSL/ssl/s3_pkt.cc:395-441 | in every run no more than the alert asked for first is sealed, and all of it once it is no longer waiting |
| `TlsWriterAlerts.NothingAfterAlert` | HeadsUp/Pods/BoringSSL/ssl/s3_pkt.cc:395-421 | once an alert was asked for, no application data is sealed any more, whatever happens |
| `TlsWriterOutcome.WriteCompletes` | HeadsUp/Pods/BoringSSL/ssl/s3_pkt.cc:129-200 | a write over a transport that takes what it is offered reports all of its data, if no shutdown, number wrap or lack of room is in the way and a retry repeats the call as the rule for retries asks |
| `TlsWriterOutcome.ReportedMeansSent` | HeadsUp/Pods/BoringSSL/ssl/s3_pkt.cc:129-219 | when a write reports anything as written, the buffer is empty: the transport took every record sealed by then that is not in the flight |
| `TlsWriterOutcome.WriteCutsFull` | HeadsUp/Pods/BoringSSL/ssl/s3_pkt.cc:160-200 | the records that a write seals are as long as a fragment may be, but for the last |
| `TlsWriterOutcome.BadRetry` | HeadsUp/Pods/BoringSSL/ssl/s3_pkt.cc:202-219 | a retry of another type, a smaller length or, unless the buffer may move, another address is refused and changes nothing |
| `TlsWriterOutcome.ShortRetryForgets` | HeadsUp/Pods/BoringSSL/ssl/s3_pkt.cc:129-160 | a call that offers less than was written fails, and the next one starts from the front of its data |
| `TlsWriterOutcome.RecordWithinLimits` | HeadsUp/Pods/BoringSSL/ssl/s3_pkt.cc:221-289 | a record sealed for the buffer has 1 to 16384 bytes of plaintext, and the buffer holds it and the flight before it |
| `TlsWriterOutcome.MessageCompletes` | HeadsUp/Pods/BoringSSL/ssl/s3_both.cc:184-205 | adding a handshake message fails only when the number wraps |
| `TlsWriterOutcome.FlushCompletes` | HeadsUp/Pods/BoringSSL/ssl/s3_both.cc:231-279 | flushing over a willing transport sends what was buffered and then what was left of the flight, and drops it |
| `TlsWriterOutcome.FlushedMeansSent` | HeadsUp/Pods/BoringSSL/ssl/s3_both.cc:231-279 | a flight is reported as flushed only when the transport took the buffer and all that was left of the flight, and was flushed itself; then the flight is dropped |
| `TlsWriterOutcome.FlushRefused` | HeadsUp/Pods/BoringSSL/ssl/s3_both.cc:231-245 | after a shutdown, and when it is too long, nothing of a flight is sent |
| `TlsWriterOutcome.MessageCutsFull` | HeadsUp/Pods/BoringSSL/ssl/s3_both.cc:184-205 | the records of a handshake message are as long as a fragment may be, but for the last |
| `TlsWriterRun.HandshakeBytes` | HeadsUp/Pods/BoringSSL/ssl/s3_both.cc:184-205 | the handshake records carry exactly the messages added, in order, however they are cut |
| `TlsWriterRun.DoWriteEffect` | HeadsUp/Pods/BoringSSL/ssl/s3_pkt.cc:202-289 | a write either seals its whole record or finishes the pending one, and never both |
| `TlsWriterRun.WriteAppDataOnce` | HeadsUp/Pods/BoringSSL/ssl/s3_pkt.cc:129-200 | a call that is retried goes on after what was sealed; what it returns is what was sealed for it |
| `TlsWriterLaws.DoWriteConserves` | HeadsUp/Pods/BoringSSL/ssl/s3_pkt.cc:221-289 | sealing into the buffer, after the flight was merged into it, conserves all bytes |
| `TlsWriterLaws.FlushFlightConserves` | HeadsUp/Pods/BoringSSL/ssl/s3_both.cc:231-279 | writing buffer and flight to the transport with any short writes conserves all bytes |
| `TlsWriterLaws.AddRecordConserves` | HeadsUp/Pods/BoringSSL/ssl/s3_both.cc:135-165 | sealing onto the flight conserves all bytes |
| `TlsWriterLaws.FlushMoves` | HeadsUp/Pods/BoringSSL/ssl/ssl_buffer.cc:239-252 | flushing the buffer only moves bytes to the transport |
| `TlsConnection.Connection.WriteApplicationData` | HeadsUp/Pods/BoringSSL/ssl/s3_pkt.cc:129-200 | the loop over fragments, with `wnum` and pending writes, is the specification, unless the offset of the buffer wrapped, which takes a block laid out for nearly 65536 bytes |
| `TlsConnection.Connection.DoWriteRecord` | HeadsUp/Pods/BoringSSL/ssl/s3_pkt.cc:202-289 | pending write, flush, merge and seal, in that order, with each early return, as specified until the offset wraps; `TlsWriterNumbers.SealedInOrder` says under which number |
| `TlsConnection.Connection.AddHandshakeMessage` | HeadsUp/Pods/BoringSSL/ssl/s3_both.cc:184-205 | cuts a message into records on the flight |
| `TlsConnection.Connection.FlushPendingFlight` | HeadsUp/Pods/BoringSSL/ssl/s3_both.cc:231-279 | flushes the buffer, writes the flight and drops it once written, as specified unless that flush of the buffer wraps its offset |
| `TlsConnection.Connection.FlushWriteBuffer` | HeadsUp/Pods/BoringSSL/ssl/ssl_buffer.cc:239-252 | writes until the buffer is empty or the transport stops, and says exactly for which results of the transport the offset wraps with bytes left; otherwise the transport got the front of the buffer |
| `TlsConnection.FlushInReach` | HeadsUp/Pods/BoringSSL/ssl/ssl_buffer.cc:239-252 | a flush never wraps the offset, whatever the transport does, if the buffer ends where 16 bits reach |
| `TlsConnection.Connection.DispatchPendingAlert` | HeadsUp/Pods/BoringSSL/ssl/s3_pkt.cc:423-441 | writes the pending alert and forgets it only when it was written, as specified, unless the offset of the buffer wrapped, which takes a block laid out for nearly 65536 bytes |
| `TlsConnection.Connection.SendAlertNow` | HeadsUp/Pods/BoringSSL/ssl/s3_pkt.cc:395-421 | records the alert and the shutdown, and writes it unless something is pending, as specified, unless the offset of the buffer wrapped, which takes a block laid out for nearly 65536 bytes |
| `TlsBuffer.SslBuffer.EnsureCap` | HeadsUp/Pods/BoringSSL/ssl/ssl_buffer.cc:47-81 | keeps the contents in a block with room for the capacity asked for |
| `TlsBuffer.SslBuffer.Append` | HeadsUp/Pods/BoringSSL/ssl/ssl_buffer.cc:83-88 | appends to the contents |
| `TlsBuffer.SslBuffer.Consume` | HeadsUp/Pods/BoringSSL/ssl/ssl_buffer.cc:90-97 | leaves what the wrapped 16-bit offset selects of the block, which is the contents less their front unless it did wrap |
| `TlsBuffer.ConsumeExact` | HeadsUp/Pods/BoringSSL/ssl/ssl_buffer.cc:90-97 | what Consume leaves is the contents less their front, whatever these are, exactly when the offset does not wrap or nothing is left |
| `TlsBuffer.WrapBuffer` | HeadsUp/Pods/BoringSSL/ssl/ssl_buffer.cc:47-97 | from an empty buffer, a block of the largest capacity that is filled and from which all but five bytes are taken is left with other bytes than those written |
| `TlsStream.ParseStream` | HeadsUp/Pods/BoringSSL/ssl/s3_both.cc:399-425 | from any part of a stream of messages, parsing gives the first message exactly when all of it has come |
| `TlsStream.StreamRoundTrip` | HeadsUp/Pods/BoringSSL/ssl/s3_both.cc:427-439 | for any messages and any cutting of their bytes, the messages taken are a prefix of them, and the unread buffer is the unread part of what came |
| `TlsStream.StreamComplete` | HeadsUp/Pods/BoringSSL/ssl/s3_both.cc:427-439 | once all bytes came and nothing more can be taken, every message was taken and nothing is left |
| `TlsStream.Stream.Next` | HeadsUp/Pods/BoringSSL/ssl/s3_both.cc:562-583 | drops exactly the current message from the buffer |
| `TlsStream.Stream.CanAccept` | HeadsUp/Pods/BoringSSL/ssl/s3_both.cc:441-459 | more data is accepted exactly when a message is incomplete and not too long |
| `TlsStream.Stream.HasUnprocessed` | HeadsUp/Pods/BoringSSL/ssl/s3_both.cc:461-472 | tells exactly whether bytes past the current message are buffered |
| `TlsStream.Stream.SetRead` | HeadsUp/Pods/BoringSSL/ssl/tls_method.cc:84-96 | the keys may change exactly when nothing but the message being looked at is buffered |
| `TlsEpochs.TakenUnderOneEpoch` | HeadsUp/Pods/BoringSSL/ssl/tls_method.cc:84-96 | whatever is read, looked at and taken between changes of keys, each message taken came under the same keys from its first byte to its last |
| `TlsStream.EncodedLayout` | HeadsUp/Pods/BoringSSL/ssl/s3_both.cc:167-182 | the type, then three bytes of length, the most significant first, then the body |
| `TlsEndToEnd.MessagesArriveInOrder` | HeadsUp/Pods/BoringSSL/ssl/s3_both.cc:184-205 | the messages that a reader takes are a prefix of those a writer added, through any records and any delivery |
| `TlsEndToEnd.AllMessagesArrive` | HeadsUp/Pods/BoringSSL/ssl/s3_both.cc:399-439 | once all bytes of those records came and nothing more can be taken, the reader took all the messages and nothing is left |
| `HandshakeExchange.ConverseToTheEnd` | HeadsUp/Pods/BoringSSL/ssl/handshake.cc:482-614 | a client and a server machine over two FIFO channels: after any turns that put things off but let nothing fail, a kind environment brings both to the end, and their transcripts are then the same and hold each message of the flow once, in order |
| `HandshakeExchange.Converse` | HeadsUp/Pods/BoringSSL/ssl/handshake.cc:482-614 | with any arrivals, partial flushes, retries and failures: if both machines come to the end, their transcripts are the same and hold each message of the flow once, in order |
| `HandshakeExchange.Exchange.TurnClient` | HeadsUp/Pods/BoringSSL/ssl/handshake.cc:482-614 | a turn of the client is a run of the system's client, and passes no operation that fails or is not finished: what is on the channel, in the flight and read stays together the same as the system has it; without a failing operation the turn does not fail; with what it waits for at hand it gets nearer to the end |
| `HandshakeExchange.Exchange.TurnServer` | HeadsUp/Pods/BoringSSL/ssl/handshake.cc:482-614 | the same for a turn of the server |
| `HandshakeExchange.Exchange.SomeoneGoes` | HeadsUp/Pods/BoringSSL/ssl/handshake.cc:482-614 | no deadlock: unless both are done, some machine is not done and what it waits for is on its way, counting flights that were not flushed as not on their way |
| `HandshakeExchange.Exchange.Finish` | HeadsUp/Pods/BoringSSL/ssl/handshake.cc:482-614 | from every state that turns without failures lead to, both machines can finish, by a measure that each turn of one that can go decreases |
| `HandshakeExchange.Exchange.SameTranscripts` | HeadsUp/Pods/BoringSSL/ssl/handshake.cc:212-219 | when both machines are done their transcripts are the same and are of the kinds of the flow's messages |
| `HandshakeExchange.Exchange.FinishedMatches` | HeadsUp/Pods/BoringSSL/ssl/handshake.cc:371-467 | a Finished that a machine has next to read was made by the other over the very transcript it is checked against, so the check succeeds |
| `HandshakeExchange.Exchange.ChecksMade` | HeadsUp/Pods/BoringSSL/ssl/handshake_client.cc:877-895 | neither machine is done unless it carried out every operation on its path that is not left out, once, in a turn in which it neither failed nor was put off: the client verified the server's certificate and took its signed key exchange, the server verified the client's certificate and signature if it sent one |
| `HandshakeExchange.Exchange.StatesLeftOnce` | HeadsUp/Pods/BoringSSL/ssl/handshake_client.cc:1701-1783 | over all its turns, each machine leaves a state at most once |
| `HandshakeRun.FinishedOverSameTranscript` | HeadsUp/Pods/BoringSSL/ssl/handshake.cc:371-467 | in every run of two peers that make the moves of the flow in any order, when a Finished is next to be read, the transcript used to check it is one that the other side used to make it, and the check succeeds |
| `HandshakeRun.SameTranscriptAtTheEnd` | HeadsUp/Pods/BoringSSL/ssl/handshake.cc:212-219 | when two such peers are done their transcripts are equal and hold every message of the flow exactly once, in order |
| `HandshakeRun.EachStepOnce` | HeadsUp/Pods/BoringSSL/ssl/handshake_client.cc:572-1666 | no step occurs twice in the flow, full or resumed |
| `HandshakeRun.NothingUnexpected` | HeadsUp/Pods/BoringSSL/ssl/handshake_client.cc:572-1666 | all that is on its way to such a peer is what it can read, one item after the other; by way of `HandshakeExchange` neither machine fails on a kind of message |
| `HandshakeClient.StartIsFlow` | HeadsUp/Pods/BoringSSL/ssl/handshake_client.cc:1701-1783 | the 19 states of a TLS 1.2 client, from the first on, go through exactly the flow, resumed or not |
| `HandshakeServer.StartIsFlow` | HeadsUp/Pods/BoringSSL/ssl/handshake_server.cc:1527-1609 | the same for the 20 states of a TLS 1.2 server |
| `HandshakeClient.Connector.StepOnce` | HeadsUp/Pods/BoringSSL/ssl/handshake_client.cc:1701-1783 | every step either stays in its state and waits or moves to the next one, which has a smaller rank; it only moves on if its operation is left out or neither failed nor is still to be finished, and keeps the checks made; nothing is left in the flight where it waits to read or is done; while the server follows the flow, so does the client, and then a step that the environment does not delay or fail moves on unless it waits for a message |
| `HandshakeClient.Connector.Drive` | HeadsUp/Pods/BoringSSL/ssl/handshake_client.cc:1701-1783 | the loop ends; the states it visits each repeat the one before or have a smaller rank; a state whose operation fails or is not finished is not passed; what is carried out is so once and in order; it reports success only when done, after a ChangeCipherSpec record and then a matching Finished |
| `HandshakeClient.Connector.Resume` | HeadsUp/Pods/BoringSSL/ssl/handshake.cc:482-614 | one turn of the driver, for any asynchronous retries: what leaves the flight is its front and leaves only while it is being flushed; the states visited descend in rank, and none whose operation fails or is not finished is passed; success means a False Start or the end of the handshake with both checks made; on course it stays so and plays the flow, and a kind environment gets it nearer to the end |
| `HandshakeClient.Connector.Resolve` | HeadsUp/Pods/BoringSSL/ssl/handshake.cc:482-575 | the state machine runs again exactly when what it waits for is resolved: a flight wholly sent and flushed, or a record of the type that is awaited; one of the other type is an error, and so is every read after it |
| `HandshakeClient.Connector.FlushFlight` | HeadsUp/Pods/BoringSSL/ssl/s3_both.cc:231-279 | what is sent and what is left are the flight, and flushing succeeds exactly when the transport takes it all |
| `HandshakeClient.BadCertificateStops` | HeadsUp/Pods/BoringSSL/ssl/handshake_client.cc:877-895 | in a full handshake with a certificate, a verification that fails or is not finished keeps the client from every later state |
| `HandshakeServer.BadClientStops` | HeadsUp/Pods/BoringSSL/ssl/handshake_server.cc:1030-1044 | a client certificate or signature that is not accepted keeps the server from every later state |
| `HandshakeServer.Acceptor.DoReadClientCertificate` | HeadsUp/Pods/BoringSSL/ssl/handshake_server.cc:937-1028 | the server has a key of the client exactly when the certificate message that it read holds a certificate |
| `HandshakeClient.Connector.DoReadServerFinished` | HeadsUp/Pods/BoringSSL/ssl/handshake_client.cc:1652-1666 | goes on only past a Finished over the transcript before it, and that message is then the last of the transcript |
| `HandshakeClient.Connector.DoSendClientFinished` | HeadsUp/Pods/BoringSSL/ssl/handshake_client.cc:1463-1518 | adds to the flight exactly ChangeCipherSpec, NextProto and ChannelID if negotiated, and a Finished over the transcript with those, in this order, whatever the server sent |
| `HandshakeClient.Connector.DoReadCertificateStatus` | HeadsUp/Pods/BoringSSL/ssl/handshake_client.cc:827-875 | the message is taken exactly when it was announced and is next |
| `HandshakeClient.Connector.DoReadSessionTicket` | HeadsUp/Pods/BoringSSL/ssl/handshake_client.cc:1560-1641 | a ticket is read exactly when one was announced, and then the ChangeCipherSpec is awaited |
| `HandshakeServer.Acceptor.StepOnce` | HeadsUp/Pods/BoringSSL/ssl/handshake_server.cc:1527-1609 | every step either stays in its state and waits or moves to the next one, which has a smaller rank; it only moves on if its operation is left out or neither failed nor is still to be finished, and keeps the checks made; nothing is left in the flight where it waits to read or is done; while the client follows the flow, so does the server, and then a step that the environment does not delay or fail moves on unless it waits for a message |
| `HandshakeServer.Acceptor.Drive` | HeadsUp/Pods/BoringSSL/ssl/handshake_server.cc:1527-1609 | the loop ends; the states it visits each repeat the one before or have a smaller rank; a state whose operation fails or is not finished is not passed; what is carried out is so once and in order; it reports success only when done, after a ChangeCipherSpec record and then a matching Finished |
| `HandshakeServer.Acceptor.Resume` | HeadsUp/Pods/BoringSSL/ssl/handshake.cc:482-614 | one turn of the driver, for any asynchronous retries: what leaves the flight is its front and leaves only while it is being flushed; the states visited descend in rank, and none whose operation fails or is not finished is passed; success means the end of the handshake with both checks made; on course it stays so and plays the flow, and a kind environment gets it nearer to the end |
| `HandshakeServer.Acceptor.DoReadClientFinished` | HeadsUp/Pods/BoringSSL/ssl/handshake_server.cc:1427-1449 | goes on only past a Finished over the transcript before it, and that message is then the last of the transcript |
| `HandshakeServer.Acceptor.DoSendServerFinished` | HeadsUp/Pods/BoringSSL/ssl/handshake_server.cc:1451-1497 | adds to the flight exactly an optional ticket, ChangeCipherSpec and a Finished over the transcript with the ticket, in this order, whatever the client sent |
| `Handshake.NeverBack` | HeadsUp/Pods/BoringSSL/ssl/handshake_client.cc:1701-1783 | along any run whose states descend in rank, a state that was left is never entered again |
| `Handshake.LeftOnce` | HeadsUp/Pods/BoringSSL/ssl/handshake_client.cc:1701-1783 | so each state is left at most once, and retries only repeat it |
| `Handshake.DescendsJoin` | HeadsUp/Pods/BoringSSL/ssl/handshake.cc:482-614 | the states of one call of the driver after another, where retries lie between them, descend like those of one call |
| `CipherChoice.Choose` | HeadsUp/Pods/BoringSSL/ssl/handshake_server.cc:357-424 | the loop over the server's groups chooses what the rule says, with or without server preference, and nothing exactly when the rule has no choice; what it chooses both sides list and can use, and with a closed last group it chooses whenever there is such a cipher |
| `CipherChoice.ChosenUnique` | HeadsUp/Pods/BoringSSL/ssl/internal.h:1864-1893 | the rule (first group with an acceptable shared cipher, in it the one the client lists first) names one cipher |
| `CipherChoice.ChosenExactly` | HeadsUp/Pods/BoringSSL/ssl/handshake_server.cc:357-424 | there is a choice exactly when some cipher is acceptable and the first such group is closed |
| `CipherChoice.UnclosedGroup` | HeadsUp/Pods/BoringSSL/ssl/handshake_server.cc:357-424 | one acceptable cipher in a group that is not closed gives no choice |
| `CipherChoice.ChosenExists` | HeadsUp/Pods/BoringSSL/ssl/internal.h:1864-1893 | when the last group is closed, there is a choice exactly when some shared cipher is acceptable |
| `CipherChoice.ChosenIsShared` | HeadsUp/Pods/BoringSSL/ssl/handshake_server.cc:357-424 | what the rule names is listed by both sides, for the version negotiated, with a usable key exchange and authentication |
| `CipherChoice.SharedIsChosen` | HeadsUp/Pods/BoringSSL/ssl/internal.h:1864-1893 | when the last group is closed, something is chosen exactly when there is such a cipher |
| `RefCount.LockFreeRefinesLocked` | HeadsUp/Pods/BoringSSL/crypto/refcount_c11.c:29-65 | for any threads, schedule and spurious failures, the count and all results are those of the locked version, one operation at a time |
| `RefCount.FailureMeansProgress` | HeadsUp/Pods/BoringSSL/crypto/refcount_c11.c:29-65 | a compare-and-swap that fails without a spurious failure means that another thread completed |
| `RefCount.CountsReferences` | HeadsUp/Pods/BoringSSL/crypto/refcount_lock.c:24-51 | without saturation the count is the initial one plus increments less decrements |
| `RefCount.OnlyLastReportsZero` | HeadsUp/Pods/BoringSSL/crypto/refcount_lock.c:37-51 | a decrement reports zero exactly when it found one |
| `RefCount.SaturatedForever` | HeadsUp/Pods/BoringSSL/crypto/refcount_lock.c:24-51 | once saturated, the count never moves |
| `RefCount.LockedCount.DecrementAndTestZero` | HeadsUp/Pods/BoringSSL/crypto/refcount_lock.c:37-51 | decrements and tests, leaves a saturated count alone, and aborts at zero |

## Left out

- AEAD, certificates and signatures: sealing is a length-bounded function and the network delivers only what was sealed; the Finished MAC is a function of the transcript; other checks have arbitrary results.
- Bytes that do not decrypt, truncated headers and the version check: a DTLS record is its epoch, number, content and length, so these drops do not occur. With a record that is too long to be opened the source drops the rest of its packet, which here the network may do.
- `dtls1_open_app_data`, which reads the same records once the handshake is over.
- DTLS timers and MTU queries: when to resend, and with what MTU, is any choice of a run.
- HelloVerifyRequest and the switches to TLS 1.3 among the 21 states of each side, which this model of TLS 1.2 without DTLS cookies does not enter.
- A handshake step that fails changes nothing in the model, while the source may have hashed or queued part of what it was about to send; neither goes on after it.
- DtlsReader.Reader.Open: malformed record headers, wrong versions and records that do not decrypt are not part of a record here; the source drops them among the checks that are modelled.
- DtlsWriter.Writing.SendFlight: the test for a shut-down write side and a `BIO_flush` that fails are left out; with either the source reports failure, before the first packet or after the last.
- DtlsRetransmission.OneRetransmission: speaks of retransmissions none of whose records is longer with its protection than the 16704 bytes for which a receiver opens it; `DtlsLimits.SafeIsShort` says which flights and MTUs give these.
- TLS 1.3, early data, SSL 3.0, V2ClientHello, record splitting, renegotiation: they add cases without adding claims. Tests of whether a message is there, made at several places of one step, are one choice of that step.
- Negotiation of extensions: both sides are given agreeing flags; that they agree is part of the parameters.
- nanopb callbacks, extensions, pointer fields and proto3 singular fields, and struct offsets: a message is a sequence of slots. Tags are below 2^29 and sizes are unbounded, so the checks against the largest `size_t` are not reached.
- What a struct holds after a failed decode: the decoder's methods promise the struct only on success.
- Allocation failure, error queues, callbacks for information, sockets and locks of the platform.
- DtlsRun.MessagesInOrder: speaks of runs in which fewer than 65536 messages are added, because the message number has 16 bits and wraps.
- DtlsRun.NumbersUsedOnce: speaks of runs in which neither the 48-bit sequence number nor the 16-bit epoch wraps.
- DtlsRun.NumbersAcceptedOnce: speaks of receivers that change keys fewer than 65536 times.
- DtlsWriter.Writing.SealNext: after an error of sealing the position may stay ahead of what was sent; the source then ends the connection.
- TlsConnection.Connection.WriteApplicationData: equals its specification until the 16-bit offset of the buffer wraps; what is sent after that is not followed.
- TlsWriterRun.BytesConserved: is about the specification, whose buffer is a sequence of bytes; a connection whose buffer wrapped has left it.
- TlsWriterRun.ApplicationDataOnce: a retry that offers less than the failed write is outside the caller's rule; `TlsWriterOutcome.ShortRetryForgets` says what it does.
- RefCount.LockedCount.DecrementAndTestZero: an abort of the process is an outcome, and the thread then takes no more steps.
