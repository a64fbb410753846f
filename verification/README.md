# Verified models of the EavesDrum firmware logic

This project models the stateful parts of the EavesDrum drum-trigger firmware and the libraries it
ships, and proves what they keep over whole runs. Each part has a specification on plain values
(functions over sequences and records) and the firmware's own form beside it: classes with the
source's fields, arrays, linked lists and pools, changed in place by methods that are proved equal to
the specification. The hard results are lemmas about the specification, so they hold of the code.

Sizes that are constants in the firmware (MTU, ring and pool sizes, the 32 pending notes, the 200
history slots, the 275-byte options area) are parameters. 16- and 32-bit wrap-around is written out
wherever it matters; the clocks are true time beside the time modulo 2^32 that the code reads.

## The parts

**BLE-MIDI packet codec** (`Rings`, `BleMidi`, `BleMidiEncoding`, `BleMidiEncoder`, `BleMidiDecoding`,
`BleMidiFragments`, `BleMidiDecoder`, `BleMidiSegments`, `BleMidiCutShort`, `BleMidiRoundTrip`, `BleMidiLoss`,
`BleMidiTimes`, `BleMidiCallParts`, `BleMidiHazards`, `BleMidiMisreads`, `BleMidiResync`, `BleMidiCodec`).
`push_midi` is an incremental encoder of a MIDI byte stream (running status, real-time bytes inside other
messages, system exclusive data in fragments of three bytes, elided timestamps), `decode_push` is the decoder;
both talk through byte rings. A packet is modelled as a list of segments and, in the classes, as the bytes the
firmware writes. Every stream of bytes at all keeps the encoder safe.

The round trip is an equivalence: after any run of grammatical calls that loses no packet, all packets decode
completely and yield the messages of an independent reference parser if and only if the encoder met no *hazard*.
A hazard is a branch the encoder takes, visible before a message is written (`Hazard`): a packet overflow with a
message whose status byte was to be left out (the overflow branch keeps the old index of the first byte), a
packet overflow inside a system exclusive message, payload of a system exclusive message behind real-time
messages that opened the packet, or a two-byte channel message without status and time byte, on which the
decoder loop never ends. `BleMidiHazards` has a run for each of them. Calls whose doubled length is below the
MTU and that hold no two-byte channel messages never meet one. After a stream error the encoder keeps the
running status of the packet it dropped; `Resynchronises` is the equivalence for all that follows. A full packet
ring drops packets and changes nothing else (`DropsOnly`), so that what is heard is then part of what was said;
a full message ring keeps the first messages of a packet (`DecodePush`). `SendAndHear` runs the classes of both
sides, and its contract is the round trip.

Times: the decoder adds 1 to the high bits where 128 is due, so the times decoded of a packet are those of a
clock that adds 128 if and only if the low time byte never decreases in it. Against the times at which the
messages began, a packet is decoded exactly if and only if it is *faithful* (`Faithful`): every stamped message
has the high bits of the first and hides the number of decreases so far in its low bits, and every message
without time byte has the time of the one before it. Calls that begin between two messages always are;
`BleMidiMisreads` has runs of three kinds that are not, and one in which the start of a system exclusive message
is sent with a stale time. Its end always has the time of its start (`EndTime`).

`BleMidiCallParts` says which bytes are stream errors and what is left after one: a data byte right behind an
0xF7 is none, but goes out in the place of a status byte (`StraySent`). `BleMidiCutShort` says what the decoder
makes of packets that were cut short or continue as no encoder writes them; several of them keep it in its loop
for ever.

**HID report descriptors** (`HidSpec`, `HidMeaning`, `HidLayout`, `HidPools`, `HidTables`, `HidParser`,
`HidValues`). The descriptor interpreter with its global-state stack, usage list, report list, collection chain
and four object pools, and the extraction of field values. The parser on linked pool nodes refines the
interpreter on sequences; failed parses leave the pools as they were, successful ones hold one result node and
one node for each item kept. A pool runs out if and only if the interpreter, after some item, has more reports,
open collections or items than there were free nodes (`Suffices`). `HidMeaning` tells the meaning of a
descriptor from its items alone, looking back from each field for the attributes in force and the usage of its
place, and the parse stores exactly the fields so described. Every field is laid out in the report whose ID it
carries if and only if no field item meets a global state with another ID than the current report's, and the
first REPORT ID item, unless its ID is 0, comes before all fields (`OwnedIffAligned`); then the items of one ID
occupy disjoint bit ranges. Two descriptors, one for each condition, have two items with one ID at the same bits
(`PushedIdOverlaps`, `RenamedIdOverlaps`).

**Rock Band controller** (`RockBand`, `RockBandRuns`). Hits are held for 20 ms in a report that cannot express
every set of pads and cymbals. The conflict resolver keeps the hits to no cymbals, no pads, or one of each, and
these are exactly the sets that the Wii report determines: `Determined` and `Ambiguous` are the two halves of
that equivalence. Over whole runs with a game pad sharing the report, every Wii report sent says what is down; a
generic one does if and only if there was a drum hit or the game pad presses no button with a pad's colour. The
search for the oldest hit starts from the clock's last reading, so hits of that millisecond are never found;
`ResolutionEnds` says exactly when the loop of removals then ends. A hit in a report is always traced back to
one note-on of the run, at most 20 ms old, whose velocity it shows.

**Trigger sensing** (`Sensing`, `SensingPad`). The peak, scan, mask and decay machine of piezo pads and of piezo
pads with switches, on a clock that wraps around. Every event of a run is traced back to the call that started
its scan, and velocities, the zone hit and the levels of a decay are stated by inequalities between samples and
thresholds, without the rounding steps of the code.

**Note queue** (`NoteQueue`, `NoteQueueArray`, `NoteQueueRuns`). Note-offs sent after the gate time, from an
array queue; the gate time may change at any moment. The messages of every note alternate if and only if no note
is played without a gate time while it waits for its note-off, and gate times are met whenever passes over the
queue are less than the clock's period, less the gate time, apart. `NoteQueueRuns` tells from the calls alone
which note-ons are sent and which hit a note-off belongs to.

**Monitor history** (`History`, `HistoryRing`, `HistoryRuns`). A circular buffer with a protected trigger
window, and the gaps inserted when samples are missing; every sample is recorded at its time.

**Wii remote memory** (`WiiMemory`, `Wiimote`). Memory reads answered in 16-byte responses through a linked
queue, with the extension's cipher, and what a host learns from a whole session of reads. The comment in the
source says that addresses above 0x16FF cannot be read; the code refuses every read that reaches the byte at
0x16FF itself, and the model follows the code.

**DHCP server** (`Dhcp`, `DhcpServer`, `DhcpAnswers`). Options written and scanned, the lease table, and what a
client gets for the options it sends. Where RFC 2131 section 4.3.2 asks for a DHCPNAK the server sends nothing,
and a refused request still costs the client its old lease; the model follows the code.

## Model

| member | source | states |
|---|---|---|
| `Rings.RingBuffer.Push` | lib/ring_buffer_lib/ring_buffer_lib.c:55-67 | takes exactly the bytes that fit, in order, behind those buffered, across the wrap |
| `Rings.RingBuffer.Pop` | lib/ring_buffer_lib/ring_buffer_lib.c:154-165 | removes the oldest bytes in order, no more than asked and buffered |
| `Rings.FramesAppend` | lib/pico-w-ble-midi-lib/ble_midi_pkt_codec.c:57-66 | a record behind whole records is one more whole record, at the end |
| `Rings.RoomForRecord` | lib/pico-w-ble-midi-lib/ble_midi_pkt_codec.c:57-66 | in a buffer of a whole number of records, either a whole record fits or the buffer is full |
| `Rings.PushRecord` | lib/pico-w-ble-midi-lib/ble_midi_pkt_codec.c:407-417 | a record is stored whole or not at all |
| `Rings.PopRecord` | lib/pico-w-ble-midi-lib/ble_midi_pkt_codec.c:633-650 | the oldest record comes back intact, and whole records remain |
| `BleMidi.UnpackPackedMessage` | lib/pico-w-ble-midi-lib/ble_midi_pkt_codec.c:407-417 | a message survives its packed form in the ring |
| `BleMidi.UnpackPackedPacket` | lib/pico-w-ble-midi-lib/ble_midi_pkt_codec.c:395-399 | a packet survives its packed form in the ring |
| `BleMidi.MessageLengths` | lib/pico-w-ble-midi-lib/ble_midi_pkt_codec.c:306-342 | the lengths of the messages are those of MIDI 1.0, and real-time messages are 0xF8 to 0xFF |
| `BleMidiEncoding.SegFits` | lib/pico-w-ble-midi-lib/ble_midi_pkt_codec.c:182-191 | whatever branch is taken, what is written leaves the packet below the MTU |
| `BleMidiEncoding.StepSafe` | lib/pico-w-ble-midi-lib/ble_midi_pkt_codec.c:239-393 | every byte keeps the encoder safe: packet below the MTU, message and real-time indices in range, in system exclusive data the fragment index equal to the stored count |
| `BleMidiEncoding.Push` | lib/pico-w-ble-midi-lib/ble_midi_pkt_codec.c:233-405 | every stream is taken whole unless the error path is taken, and leaves the encoder safe with every queued packet within the MTU |
| `BleMidiEncoder.PacketWriter.WriteMessage` | lib/pico-w-ble-midi-lib/ble_midi_pkt_codec.c:158-207 | the bytes written for a message are those of the specification's segment, packets pushed in between included |
| `BleMidiEncoder.PacketWriter.WritePending` | lib/pico-w-ble-midi-lib/ble_midi_pkt_codec.c:137-156 | pending real-time messages are written in order, each with its time byte |
| `BleMidiEncoder.Encoder.DiscardStream` | lib/pico-w-ble-midi-lib/ble_midi_pkt_codec.c:217-231 | the packet and everything pending are dropped |
| `BleMidiEncoder.Encoder.RealTimeStatus` | lib/pico-w-ble-midi-lib/ble_midi_pkt_codec.c:287-305 | a real-time byte cuts a fragment of system exclusive data, is written at once, and never ends the message around it |
| `BleMidiEncoder.Encoder.EndOfSysex` | lib/pico-w-ble-midi-lib/ble_midi_pkt_codec.c:265-286 | 0xF7 writes the last fragment and itself, or is a stream error outside of system exclusive data |
| `BleMidiEncoder.Encoder.CommonStatus` | lib/pico-w-ble-midi-lib/ble_midi_pkt_codec.c:306-326 | a system common status starts a message of its length and ends running status |
| `BleMidiEncoder.Encoder.SysexByte` | lib/pico-w-ble-midi-lib/ble_midi_pkt_codec.c:345-356 | payload is collected in fragments of three bytes |
| `BleMidiEncoder.Encoder.RunningByte` | lib/pico-w-ble-midi-lib/ble_midi_pkt_codec.c:357-372 | data under running status, from an earlier call too |
| `BleMidiEncoder.Encoder.MessageByte` | lib/pico-w-ble-midi-lib/ble_midi_pkt_codec.c:373-391 | data of an announced message, or a stream error |
| `BleMidiEncoder.Encoder.PushByte` | lib/pico-w-ble-midi-lib/ble_midi_pkt_codec.c:240-392 | one turn of the loop refines the specification's step |
| `BleMidiEncoder.Encoder.PushMidi` | lib/pico-w-ble-midi-lib/ble_midi_pkt_codec.c:233-405 | a call refines the specification, consumes the stream unless there is an error, and reports a packet exactly if there is one |
| `BleMidiEncoder.Encoder.PopPacket` | lib/pico-w-ble-midi-lib/ble_midi_pkt_codec.c:642-645 | packets leave in the order they were sealed |
| `BleMidiCallParts.SealedFull` | lib/pico-w-ble-midi-lib/ble_midi_pkt_codec.c:179-191 | a packet is sealed to make room exactly if what is to be written would bring it to the MTU |
| `BleMidiCallParts.SealedForClock` | lib/pico-w-ble-midi-lib/ble_midi_pkt_codec.c:137-156 | so is it for a real-time message |
| `BleMidiCallParts.StepFails` | lib/pico-w-ble-midi-lib/ble_midi_pkt_codec.c:265-391 | a byte is a stream error exactly if it is an 0xF7 outside of a system exclusive message, or data without a status byte, the first byte behind an 0xF7 apart; nothing is under way afterwards, and packets made ready stay |
| `BleMidiCallParts.CallFails` | lib/pico-w-ble-midi-lib/ble_midi_pkt_codec.c:217-231 | after any run, a call fails at its first error with the bytes before it taken |
| `BleMidiCallParts.StraySent` | lib/pico-w-ble-midi-lib/ble_midi_pkt_codec.c:279-286 | a data byte right behind an 0xF7 is no error: it is sent in the place of a status byte |
| `BleMidiDecoder.Decoder.SysexPayload` | lib/pico-w-ble-midi-lib/ble_midi_pkt_codec.c:419-443 | the fragments stored carry exactly the payload bytes consumed |
| `BleMidiDecoder.Decoder.SysexRealTime` | lib/pico-w-ble-midi-lib/ble_midi_pkt_codec.c:538-579 | a real-time byte inside system exclusive data is a message of its own, and the payload goes on |
| `BleMidiDecoder.Decoder.SystemMessage` | lib/pico-w-ble-midi-lib/ble_midi_pkt_codec.c:476-507 | a real-time or system common message with its time |
| `BleMidiDecoder.Decoder.ChannelMessage` | lib/pico-w-ble-midi-lib/ble_midi_pkt_codec.c:508-529 | a channel message with status byte and time |
| `BleMidiDecoder.Decoder.RunningStamped` | lib/pico-w-ble-midi-lib/ble_midi_pkt_codec.c:592-610 | a channel message under running status with a time byte |
| `BleMidiDecoder.Decoder.RunningPlain` | lib/pico-w-ble-midi-lib/ble_midi_pkt_codec.c:611-627 | a channel message under running status without a time byte |
| `BleMidiDecoder.Decoder.DecodePush` | lib/pico-w-ble-midi-lib/ble_midi_pkt_codec.c:445-631 | the ring gets exactly the first messages that the specification decodes, as many as there is room for; if all fit, as many bytes are left and the loop never ends in the same cases |
| `BleMidiFragments.CutTight` | lib/pico-w-ble-midi-lib/ble_midi_pkt_codec.c:419-443 | the messages stored are as many as their events take: payload in fragments of three bytes, everything else one by one |
| `BleMidiFragments.FirstIs` | lib/pico-w-ble-midi-lib/ble_midi_pkt_codec.c:407-417 | what a full ring keeps is the longest beginning that takes no more messages than there is room for |
| `BleMidiSegments.DecodeGoodPacket` | lib/pico-w-ble-midi-lib/ble_midi_pkt_codec.c:469-631 | a packet without a hazard is decoded to its end as exactly what its segments say |
| `BleMidiSegments.DoomedIncomplete` | lib/pico-w-ble-midi-lib/ble_midi_pkt_codec.c:592-627 | a packet with a hazard is never decoded to its end |
| `BleMidiCutShort.CutShort` | lib/pico-w-ble-midi-lib/ble_midi_pkt_codec.c:469-631 | a good packet cut short anywhere: all messages before the cut are decoded; a time byte alone or the first of two data bytes keeps the decoder in its loop, a channel status byte alone is passed over, an incomplete system common message is left over |
| `BleMidiCutShort.GoesOnBadly` | lib/pico-w-ble-midi-lib/ble_midi_pkt_codec.c:538-631 | what no encoder writes behind good segments: a status byte inside a system exclusive message or a data byte before a status byte keeps the decoder in its loop, data without a status byte is left over |
| `BleMidiCutShort.NotAPacket` | lib/pico-w-ble-midi-lib/ble_midi_pkt_codec.c:445-454 | anything without a header and a byte behind it is left alone |
| `BleMidiRoundTrip.StepInv` | lib/pico-w-ble-midi-lib/ble_midi_pkt_codec.c:239-393 | each grammatical byte keeps: packets and pending bytes together carry the reference parser's events, good packets while there was no hazard, a doomed one afterwards |
| `BleMidiRoundTrip.RoundTrip` | lib/pico-w-ble-midi-lib/ble_midi_pkt_codec.c:158-207 | over any run of grammatical calls that loses no packet, however many packets are taken in between: every packet is decoded completely and all together yield exactly the stream's messages if and only if no hazard occurred |
| `BleMidiLoss.DropsOnly` | lib/pico-w-ble-midi-lib/ble_midi_pkt_codec.c:394-403 | after any calls at all, a full ring has changed nothing but the packets it dropped: the rest are those of a codec with room for as many more, in the same order |
| `BleMidiLoss.LossyRoundTrip` | lib/pico-w-ble-midi-lib/ble_midi_pkt_codec.c:158-207 | the round trip for rings that drop packets: with those dropped it is complete if and only if there was no hazard, and what is heard without them is part of what was said, in its order, and nothing else |
| `BleMidiTimes.TimesExactIffSteady` | lib/pico-w-ble-midi-lib/ble_midi_pkt_codec.c:70-78 | in any good packet the decoded times are those of a clock that adds 128 when the low byte decreases, if and only if it never decreases |
| `BleMidiTimes.PacketTimesExact` | lib/pico-w-ble-midi-lib/ble_midi_pkt_codec.c:469-631 | a good packet stamped with given times is decoded with them if and only if each stamped one has the high bits of the first and hides the decreases so far, and each unstamped one equals the one before |
| `BleMidiTimes.TimesRoundTrip` | lib/pico-w-ble-midi-lib/ble_midi_pkt_codec.c:130-135 | after any run, a call without system exclusive data, beginning anywhere in a message: without hazards each packet is decoded with the times at which its messages began if and only if it is faithful to them |
| `BleMidiTimes.CallTimesExact` | lib/pico-w-ble-midi-lib/ble_midi_pkt_codec.c:233-236 | a call that begins between messages, or in the same millisecond as the message under way: every decoded time is the time of the call |
| `BleMidiTimes.PayloadTime` | lib/pico-w-ble-midi-lib/ble_midi_pkt_codec.c:538-579 | payload of a system exclusive message is decoded with the time of the 0xF0 before it in its packet, 0 if that is in an earlier one, whatever real-time messages come in between |
| `BleMidiCallParts.EndTime` | lib/pico-w-ble-midi-lib/ble_midi_pkt_codec.c:279-284 | after any run and any part of a call, the time byte of 0xF7 is the low part of the time of the last status byte before it, real-time messages apart |
| `BleMidiCallParts.FragmentTime` | lib/pico-w-ble-midi-lib/ble_midi_pkt_codec.c:345-356 | a fragment that its third byte completes, and a packet that it opens, have the time at which the message began if a whole fragment of it came before, and else the time of what came before the message |
| `BleMidiMisreads.WrapMisread` | lib/pico-w-ble-midi-lib/ble_midi_pkt_codec.c:70-78 | a reachable packet whose low byte decreases: 130 ms decoded as 3 ms |
| `BleMidiMisreads.InterruptedMisread` | lib/pico-w-ble-midi-lib/ble_midi_pkt_codec.c:287-305 | a clock before the rest of a note in the next call: 127 ms decoded as 255 ms, with increasing low bytes |
| `BleMidiMisreads.RepeatedStatusMisread` | lib/pico-w-ble-midi-lib/ble_midi_pkt_codec.c:173-178 | a status byte repeated while its note is under way: 20 ms decoded as 10 ms, without a time byte |
| `BleMidiMisreads.SysexTimeStale` | lib/pico-w-ble-midi-lib/ble_midi_pkt_codec.c:257-264 | the start of a system exclusive message is sent with the time of what came before it, on a new codec 8191 ms whenever the call is |
| `BleMidiHazards.ShortRunsRoundTrip` | lib/pico-w-ble-midi-lib/ble_midi_pkt_codec.c:182-191 | calls of whole messages whose doubled length fits the MTU, without two-byte channel messages, always make the round trip, less only the packets that a full ring dropped |
| `BleMidiHazards.ProgramChangesHang` | lib/pico-w-ble-midi-lib/ble_midi_pkt_codec.c:611-627 | two program changes under one status byte are encoded into one packet on which the decoder never ends |
| `BleMidiHazards.OverflowLosesNote` | lib/pico-w-ble-midi-lib/ble_midi_pkt_codec.c:182-191 | a full packet between two notes of one status byte: the second note goes out without it and is not decoded |
| `BleMidiHazards.OverflowCutsSysex` | lib/pico-w-ble-midi-lib/ble_midi_pkt_codec.c:182-191 | a full packet inside a system exclusive message: the next fragment goes out behind a time byte and is not decoded |
| `BleMidiHazards.ClockCutsSysex` | lib/pico-w-ble-midi-lib/ble_midi_pkt_codec.c:287-305 | a clock opening the packet before the rest of a system exclusive message: the rest is not decoded |
| `BleMidiResync.Resynchronises` | lib/pico-w-ble-midi-lib/ble_midi_pkt_codec.c:217-231 | after a stream error at any moment, all following grammatical calls make the round trip if and only if there is no hazard and no message is written without its status byte into a packet that never said it |
| `BleMidiResync.StaleNoteMisread` | lib/pico-w-ble-midi-lib/ble_midi_pkt_codec.c:217-231 | a note, a stray 0xF7, and the same note: it is decoded as two bytes of system exclusive data |
| `BleMidiCodec.Transmit` | lib/pico-w-ble-midi-lib/ble_midi_pkt_codec.c:233-405 | a new encoder fed with any calls, good or bad, and drained in between sends exactly the bytes of the specification's run |
| `BleMidiCodec.Deliver` | lib/pico-w-ble-midi-lib/ble_midi_pkt_codec.c:445-631 | a decoder fed with any packets, and emptied after each, hands on the first messages of each, as many as its ring holds; if all fit, it says whether all was read |
| `BleMidiCodec.MessagesWithin` | lib/pico-w-ble-midi-lib/ble_midi_pkt_codec.c:445-631 | a packet has no more messages than bytes, so a ring of that many is always large enough |
| `BleMidiCodec.SendAndHear` | lib/pico-w-ble-midi-lib/ble_midi_pkt_codec.c:233-631 | encoder and decoder together: without a hazard nothing is heard but what was said, in its order; if no packet was lost or left waiting, what is heard is what was said if and only if no hazard occurred |
| `HidPools.Pool.Acquire` | lib/hidparser/hidparser.c:46-58 | a node that was free, or none exactly if all are taken |
| `HidPools.Pool.Release` | lib/hidparser/hidparser.c:59-62 | frees that node and no other |
| `HidPools.FreeList` | lib/hidparser/hidparser.c:542-556 | walking a list and releasing every node leaves the pool as it was before the list |
| `HidTables.SizeTable.Find` | lib/hidparser/hidparser.c:337-349 | the node of a report ID, or the last node if there is none |
| `HidTables.SizeTable.Append` | lib/hidparser/hidparser.c:351-356 | a new report behind the last one |
| `HidTables.SizeTable.Reserve` | lib/hidparser/hidparser.c:475-477 | a field starts where its report ended, and its report grows by its size modulo 2^16 |
| `HidTables.PathTable.Enter` | lib/hidparser/hidparser.c:386-407 | the list is the chain of open collections with the new one innermost, its parent the one before |
| `HidTables.PathTable.Leave` | lib/hidparser/hidparser.c:425-437 | the innermost collection is closed and its node released; an error if none is open |
| `HidTables.ItemTable.Append` | lib/hidparser/hidparser.c:498-510 | a kept item goes behind the last one and is counted modulo 256 |
| `HidTables.HoldsExactly` | lib/hidparser/hidparser.c:531-540 | a result is one node more in its pool and one for each item kept, in a list without a cycle |
| `HidTables.FreeReportInfo` | lib/hidparser/hidparser.c:198-211 | freeing a result leaves both pools as they were before the parse |
| `HidParser.DescriptorParser.Select` | lib/hidparser/hidparser.c:332-362 | REPORT ID finds or begins a report; the first one names the report begun without an ID |
| `HidParser.DescriptorParser.Enter` | lib/hidparser/hidparser.c:385-423 | COLLECTION takes the next usage |
| `HidParser.DescriptorParser.Field` | lib/hidparser/hidparser.c:444-511 | one field: the first usage listed, or the next of the range, or none; offset, report size, largest size, vendor usages, and whether it is kept |
| `HidParser.DescriptorParser.Fields` | lib/hidparser/hidparser.c:439-513 | as many fields as REPORT COUNT says |
| `HidParser.DescriptorParser.TakeUsage` | lib/hidparser/hidparser.c:452-459 | the first of the usages listed is taken, or the next of the range if none is listed |
| `HidMeaning.FieldsAdded` | lib/hidparser/hidparser.c:439-513 | field number k of a main item has usage number k of those listed, then those of the range, which never ends if it goes up to the last 32-bit number, and then none; kind, flags, ID and attributes are those in force, and exactly the wanted fields are stored |
| `HidMeaning.StatesStep` | lib/hidparser/hidparser.c:270-330 | every state of the stack holds, at every moment, for each attribute the data of the last item in force at its depth, looking back over whatever stands between a PUSH and its POP |
| `HidMeaning.LocalsStep` | lib/hidparser/hidparser.c:364-383 | usages, minimum and maximum are those given since the last main item |
| `HidMeaning.PathsStep` | lib/hidparser/hidparser.c:385-437 | the open collections are those of the descriptor, each with its page and first usage |
| `HidMeaning.ReportsStep` | lib/hidparser/hidparser.c:332-362 | the reports have exactly the IDs named, and are counted modulo 256 |
| `HidMeaning.TokenTold` | lib/hidparser/hidparser.c:236-529 | one item keeps all that, or meets exactly the error that the items before it call for |
| `HidMeaning.ParseTold` | lib/hidparser/hidparser.c:213-558 | a parse of any descriptor, from its items alone: the items stored are the wanted fields that it says, in their order, up to the first error; nothing stored, or 256 items, is an error of its own |
| `HidParser.DescriptorParser.Stack` | lib/hidparser/hidparser.c:272-294 | PUSH and POP of the global state, with overflow and underflow |
| `HidParser.DescriptorParser.SetState` | lib/hidparser/hidparser.c:296-330 | the other global items, at the widths of their fields |
| `HidParser.DescriptorParser.PushUsage` | lib/hidparser/hidparser.c:364-375 | USAGE, with its page if it has four bytes, and overflow |
| `HidParser.DescriptorParser.Turn` | lib/hidparser/hidparser.c:236-529 | one item of the descriptor, local items ending with a main item |
| `HidParser.DescriptorParser.Process` | lib/hidparser/hidparser.c:213-558 | for every well-formed descriptor: a pool runs out if and only if after some item the interpreter has more reports, open collections or items than there were free nodes; else the result and its items are the interpreter's, which are the wanted fields that the descriptor says, each with its usage and the attributes in force, an error is the first that its items call for, failed parses leave all pools unchanged, and successful ones hold exactly the result and its items |
| `HidParser.ParseEach` | lib/hidparser/hidparser.c:198-211 | parsing descriptors one after the other and giving back each result: each ends as the interpreter says, up to the first for which the pools do not suffice, if there is one; without one all four pools are empty again |
| `HidLayout.InterpretInv` | lib/hidparser/hidparser.c:332-362 | over any descriptor report IDs stay unique, report sizes are what their fields took, and the largest size bounds all |
| `HidLayout.FieldsDisjoint` | lib/hidparser/hidparser.c:475-477 | fields of one report and kind do not overlap and lie inside the report |
| `HidLayout.OwnedIffAligned` | lib/hidparser/hidparser.c:332-362 | every field is laid out in the report whose ID it carries if and only if no field item meets a global state with another ID than the current report's and no first REPORT ID names a report that has fields |
| `HidLayout.SameIdPopsAligned` | lib/hidparser/hidparser.c:286-294 | that is so if no POP changes the REPORT ID and the first REPORT ID comes before all fields |
| `HidLayout.ParsedLayout` | lib/hidparser/hidparser.c:439-513 | after any parse without 16-bit overflow: unique IDs, the largest size attained, every item inside it, the item count; and, for a descriptor as in OwnedIffAligned, items of one ID in increasing disjoint ranges within their report |
| `HidLayout.SharedBitMisplaced` | lib/hidparser/hidparser.c:439-513 | in any descriptor, aligned or not, two items of one ID share a bit only if they were laid out in two different reports, one of them with another ID |
| `HidLayout.PushedIdOverlaps` | lib/hidparser/hidparser.c:286-294 | the parse of 16 bytes with a REPORT ID between PUSH and POP has two items with one ID at the same bits |
| `HidLayout.RenamedIdOverlaps` | lib/hidparser/hidparser.c:357-361 | so has the parse of 14 bytes in which a field comes before REPORT ID 1 and REPORT ID 0 follows |
| `HidValues.ReportItem.Extract` | lib/hidparser/hidparser.c:560-590 | the bit loop returns floor(N / 2^offset) mod 2^min(size, 32) for the report's little-endian number N, and keeps the previous value |
| `HidValues.WindowOfNumber` | lib/hidparser/hidparser.c:580-587 | the bits of a range are the digits of that quotient and remainder |
| `HidValues.ReadBack` | lib/hidparser/hidparser.c:580-587 | values written to disjoint ranges are read back, modulo 2^32 for wider fields |
| `HidValues.ParsedValuesReadBack` | lib/hidparser/hidparser.c:560-590 | for any descriptor as in ParsedLayout and any in-range values, writing all items of a report and reading each returns the values |
| `RockBand.ConflictHasHit` | src/midi/midi_transport_rockband.cpp:555-557 | a conflict means a hit to remove and removing it leaves fewer, unless only hits at the clock's last reading conflict |
| `RockBand.ResolutionEnds` | src/midi/midi_transport_rockband.cpp:499-513 | the loop of removals ends if and only if the hits at the clock's last reading, the red pad apart, do not conflict with the new one |
| `RockBand.LastReadingHangs` | src/midi/midi_transport_rockband.cpp:499-513 | two pads hit at the last reading: the loop of a cymbal's note-on does not end |
| `RockBand.EarlyRunsEnd` | src/midi/midi_transport_rockband.cpp:546-564 | with earlier clock readings every note-on of every run ends |
| `RockBand.NoteOnArbitrated` | src/midi/midi_transport_rockband.cpp:546-564 | every note-on leaves no cymbals, no pads, or exactly one of each |
| `RockBand.EvictedAreOldest` | src/midi/midi_transport_rockband.cpp:499-513 | whatever is removed has an earlier reading of the clock than everything kept, or the same one and a smaller pad number |
| `RockBand.EvictedTrulyOldest` | src/midi/midi_transport_rockband.cpp:499-513 | it is truly older if and only if the clock did not wrap around from the one kept to the one removed |
| `RockBand.WrapKeepsOlder` | src/midi/midi_transport_rockband.cpp:499-513 | a run of three notes in which the clock wraps around between two pads: the cymbal takes the place of the newer one |
| `RockBand.EvictionNeeded` | src/midi/midi_transport_rockband.cpp:555-557 | with the last removed hit put back there would be a conflict |
| `RockBand.ShowNext` | src/midi/midi_transport_rockband.cpp:384-450 | showing the pads one after the other gives the report's closed form |
| `RockBand.Determined` | src/midi/midi_transport_rockband.cpp:452-489 | buttons and hat determine each of the nine pads, in generic mode always, in Wii mode for arbitrated hits |
| `RockBand.Ambiguous` | src/midi/midi_transport_rockband.cpp:515-544 | any other set of hits has the Wii buttons and hat of a different set, so the conflict rule refuses nothing it could allow |
| `RockBand.VelocityPresent` | src/midi/midi_transport_rockband.cpp:384-391 | every pressed pad's and cymbal's velocity is in its slot, a cymbal's in the red one if its pad is down, except exactly that of a pad hit with velocity 0 under its cymbal |
| `RockBand.CymbalOvershadows` | src/midi/midi_transport_rockband.cpp:384-391 | a run of two notes, a pad with velocity 0 and its cymbal: the report has the cymbal's velocity in the slot of both |
| `RockBand.SlotsDiffer` | src/midi/midi_transport_rockband.cpp:384-391 | two share a slot exactly if they are a pad hit with velocity 0 and its cymbal |
| `RockBand.ReportSays` | src/midi/midi_transport_rockband.cpp:452-489 | after any run of notes, refreshes and game pad input the report sent says what is down: on the Wii always, else if and only if there was a drum hit or the game pad presses no button with a pad's colour |
| `RockBand.GamePadTakenForPad` | src/midi/midi_transport_rockband.cpp:291-294 | a game pad's red button is taken for the red pad on a generic game pad |
| `RockBand.WiiReportsSay` | src/midi/midi_transport_rockband.cpp:452-489 | every report sent over any Wii run says what is down, with the velocities |
| `RockBand.Drive` | src/midi/midi_transport_rockband.cpp:452-564 | a transport driven by any run of calls sends exactly the reports of the run |
| `RockBand.Transport.IsPadHit` | src/midi/midi_transport_rockband.cpp:346-359 | a hit is pressed up to 20 ms on the 32-bit clock, then released once and cleared |
| `RockBand.Transport.OnGamePad` | src/midi/midi_transport_rockband.cpp:265-298 | the report takes over the game pad's hat and seven buttons and keeps the drum's flags and velocities |
| `RockBand.Transport.Update` | src/midi/midi_transport_rockband.cpp:452-489 | when the host is ready, the report becomes that of the hits still held whenever any hit was there, and otherwise keeps buttons and hat |
| `RockBand.Transport.RemoveOldestHit` | src/midi/midi_transport_rockband.cpp:499-513 | clears the first of the oldest hits |
| `RockBand.Transport.HasConflict` | src/midi/midi_transport_rockband.cpp:515-544 | a conflict exactly if the new hit would break the arbitration |
| `RockBand.Transport.SendNoteOn` | src/midi/midi_transport_rockband.cpp:546-564 | ends; a note without a pad or on a held pad leaves all hits as they are, any other becomes the hit of its pad with its velocity and reading of the clock, and other hits stay or are given up as the resolution says |
| `RockBand.Transport.Handle` | src/midi/midi_transport_rockband.cpp:452-564 | every call of a run has the effect of the specification's step |
| `RockBandRuns.DrumMap` | src/midi/midi_transport_rockband.cpp:197-250 | the notes of each pad are those of the instruments of the General MIDI percussion key map |
| `RockBandRuns.StepHit` | src/midi/midi_transport_rockband.cpp:346-564 | what any call does to the hit of a pad: begun by its note-on, unchanged while it is held, cleared by the refresh that finds it more than 20 ms old or by a note-on it conflicts with |
| `RockBandRuns.HeldSince` | src/midi/midi_transport_rockband.cpp:552-563 | over any run a hit that is held carries the velocity and reading of the note-on that began it, in every state since, whatever note-ons came in between |
| `RockBandRuns.ReportsTellNotes` | src/midi/midi_transport_rockband.cpp:452-489 | every report of a Wii run shows a pad or cymbal with the velocity of that note-on, which came at most 20 ms before the report on the 32-bit clock, unless a cymbal overshadows the pad |
| `RockBandRuns.SentBy` | src/midi/midi_transport_rockband.cpp:452-489 | the reports are sent by the ready refreshes, one each, in their order |
| `RockBandRuns.GamePadKept` | src/midi/midi_transport_rockband.cpp:482-485 | hat and buttons stay those of the last game pad input until a report of drum hits is sent |
| `RockBandRuns.DrumsReplaceGamePad` | src/midi/midi_transport_rockband.cpp:458-486 | a report of drum hits has nothing of the game pad's in it, and one without drum hits changes the velocities only |
| `Sensing.Scale` | src/drum/sensing/scale.cpp:20-31 | 0 exactly below the threshold, at most 1023 |
| `Sensing.ScaleMonotone` | src/drum/sensing/scale.cpp:20-31 | a louder peak is never scaled lower |
| `Sensing.ScaleLaw` | src/drum/sensing/scale.cpp:20-31 | between the thresholds the scaled value is one more than the whole part of 1022 times the way, from the upper one on 1023 |
| `Sensing.CurveMonotone` | src/drum/sensing/scale.cpp:33-42 | a larger value never gets a lower velocity |
| `Sensing.CurveLaw` | src/drum/sensing/scale.cpp:38-42 | one velocity for every eight steps, 128 cut to 127 |
| `Sensing.VelocityIs` | src/drum/sensing/scale.cpp:56-66 | the velocity of a peak follows from its thresholds alone: 0 below the lower one, 127 from the upper one on, and between them one step for every eight 1022nds of the way |
| `Sensing.OneVelocity` | src/drum/sensing/scale.cpp:56-66 | there is only one such velocity, and a peak at the lower threshold has velocity 1 |
| `Sensing.PeakIsMaximum` | src/drum/sensing/sensing.cpp:238-246 | the running peak is the maximum of the samples at or above the threshold, 0 if there are none |
| `Sensing.PressesAreCounted` | src/drum/sensing/sensing_piezo_switch.cpp:117-125 | the count of a switch is the number of samples in which it was pressed |
| `Sensing.DecayFalls` | src/drum/sensing/sensing.cpp:223-236 | the trigger level never rises during a decay |
| `Sensing.DecayLevel` | src/drum/sensing/sensing.cpp:223-236 | the level lies between the threshold and the last peak, at the peak when the decay begins |
| `Sensing.DecayLaw` | src/drum/sensing/sensing.cpp:223-236 | the level is the whole part of the point reached on the straight line from the peak to the threshold |
| `SensingPad.DecayTriggers` | src/drum/sensing/sensing.cpp:223-236 | during a decay a scan starts exactly with a choke or a piezo less than 1 below its line |
| `SensingPad.Pad.DecayTimeIs` | src/drum/sensing/sensing.cpp:32-43 | the time of a decay is the true time since the mask time after the last event, modulo 2^32 |
| `Sensing.BetweenIs` | src/drum/sensing/sensing.cpp:26-35 | clock time never exceeds true time, and equals it below 2^32 |
| `SensingPad.FindMaxValueIndex` | src/drum/sensing/sensing.cpp:129-139 | a maximum, the preferred index winning a tie, then the first one |
| `SensingPad.Pad.ReadInputValues` | src/drum/sensing/sensing.cpp:55-70 | pins to zones, two switches sharing a pin included |
| `SensingPad.Pad.DetectPeak` | src/drum/sensing/sensing.cpp:142-166 | a scan starts exactly if a piezo reaches its level or there is a choke, with this sample as its first |
| `SensingPad.Pad.DetermineHitZone` | src/drum/sensing/sensing.cpp:168-184 | the zone with the largest weighted velocity, by LoudestIsHit the loudest, or the switch pressed most often |
| `SensingPad.LoudestIsHit` | src/drum/sensing/sensing.cpp:168-184 | that is the zone whose scaled peak is loudest when that of the head (negative bias) or the rim counts 5 % more for every step of the bias; it wins a tie, then the first zone |
| `SensingPad.ChokedIs` | src/drum/sensing/sensing.cpp:72-92 | the choke sensor is active, told from the pins alone, for all three kinds of it and two switches on one pin |
| `SensingPad.Pad.HandleChoked` | src/drum/sensing/sensing.cpp:112-123 | a choke is reported unless the last event was one |
| `SensingPad.Pad.EndScan` | src/drum/sensing/sensing.cpp:197-219 | a hit exactly if some piezo peak is not 0: one zone flagged, the loudest or by its switch, its peak not 0, and the velocities those that the peaks and thresholds call for; else no zone is flagged and all velocities are 0 |
| `SensingPad.ZoneLoud` | src/drum/sensing/sensing.cpp:209-212 | the zone chosen has a peak exactly if there is one at all, whatever the preference |
| `SensingPad.Pad.Sense` | src/drum/sensing/sensing.cpp:13-44 | the transitions of one call in every state, peaks equal to what the scan has seen, and the events reported with zone and velocities |
| `SensingPad.Pad.SenseAndReport` | src/drum/drum_pad.h:179-181 | what the caller sees of a call, a hit zone or the choke flag, is the event it adds; it ends a scan that began at least the scan time ago, and is a hit exactly if a piezo was struck meanwhile |
| `SensingPad.Pad.DecayLevels` | src/drum/sensing/sensing_piezo_switch.cpp:98-107 | the levels of a decay at a given time |
| `SensingPad.Run` | src/drum/sensing/sensing_piezo_switch.cpp:13-43 | in any run every event is that of a scan which a struck piezo, the choke sensor or a threshold of 0 started at least the scan time before, a hit exactly if a piezo reached its threshold in between; consecutive events are at least the mask and the scan time apart in true time, and between two chokes there is a hit |
| `NoteQueue.AlternatingOf` | src/drum/drum_kit.cpp:199-213 | the messages of a note are On, Off, On and so on |
| `NoteQueue.PlayConsistent` | src/drum/drum_kit.cpp:199-213 | playing a note keeps: alternation per note, the notes playing exactly those queued, each once, in order, within capacity |
| `NoteQueue.ExpireConsistent` | src/drum/drum_kit.cpp:230-241 | so does a pass over the queue |
| `NoteQueue.NotStoppedEarly` | src/drum/drum_kit.cpp:230-241 | no pass stops a note before its gate time |
| `NoteQueue.NotStoppedLate` | src/drum/drum_kit.cpp:230-241 | after a pass every note left is younger than the gate time if and only if the oldest one left is younger than the clock's period |
| `NoteQueue.LatePassMisses` | src/drum/drum_kit.cpp:230-241 | a pass a whole period after a note leaves it playing, whatever its gate time |
| `NoteQueue.DirectConsistent` | src/drum/drum_kit.cpp:192-197 | note-on and note-off sent at once keep that if and only if the note is not waiting in the queue, as it may be after the gate time was switched off |
| `NoteQueue.RunConsistent` | src/drum/drum_kit.cpp:199-241 | over any run, with any changes of the gate time: messages alternate and the notes playing are those queued, if and only if no note was played without a gate time while it waited |
| `NoteQueue.ClashingRun` | src/drum/drum_kit.cpp:192-197 | a run in which the gate time is switched off while a note waits: a second note-on comes before its note-off |
| `NoteQueue.GateTimesMet` | src/drum/drum_kit.cpp:230-241 | over any run whose passes are less than the period minus the gate time apart, a pass stops exactly the notes that have played for the gate time |
| `NoteQueueArray.NoteEventQueue.AddNote` | src/drum/note_event_queue.h:32-37 | appended if there is room |
| `NoteQueueArray.NoteEventQueue.RemoveNote` | src/drum/note_event_queue.h:47-55 | the first entry of a note is removed |
| `NoteQueueArray.NoteEventQueue.RemoveIndex` | src/drum/note_event_queue.h:57-61 | the entries behind move down by one |
| `NoteQueueArray.DrumKit.SendNoteOnOff` | src/drum/drum_kit.cpp:192-197 | without a gate time both messages at once, past the queue |
| `NoteQueueArray.DrumKit.SetGateTime` | src/drum/drum_kit.h:173-180 | the gate time is limited to 30 seconds |
| `NoteQueueArray.DrumKit.SendNoteOn` | src/drum/drum_kit.cpp:215-228 | a note without assignment is ignored, any other is played, with or without a gate time |
| `NoteQueueArray.Perform` | src/drum/drum_kit.cpp:192-241 | a kit that gets any calls sends the messages of the run, and they alternate if and only if nothing clashed |
| `NoteQueueArray.DrumKit.SendNoteOnWithDelayedOff` | src/drum/drum_kit.cpp:199-213 | a note-off only for the same note still playing, or for the oldest if the queue is full |
| `NoteQueueArray.DrumKit.SendPendingNoteOffs` | src/drum/drum_kit.cpp:230-241 | note-offs for exactly the oldest notes that are due |
| `NoteQueueRuns.NoteOnsSent` | src/drum/drum_kit.cpp:192-228 | over any run the note-ons sent are those of the hits with a note, in their order and with their velocities |
| `NoteQueueRuns.PlayTells` | src/drum/drum_kit.cpp:199-213 | a hit stops its own note if it waits, starts it, and stops the oldest other note exactly if the queue is full of others; the rest keeps waiting in order |
| `NoteQueueRuns.WaitingSince` | src/drum/drum_kit.cpp:199-213 | every note that waits was started by a hit at the time kept for it, and has not been hit since with a gate time |
| `NoteQueueRuns.StoppedInTime` | src/drum/drum_kit.cpp:230-241 | with prompt passes, a pass stops a note exactly if that hit is at least the gate time ago |
| `NoteQueueRuns.PassTells` | src/drum/drum_kit.cpp:230-241 | a pass sends the note-offs of the notes it stops, oldest first, and nothing else |
| `NoteQueueRuns.GateIsSet` | src/drum/drum_kit.h:173-180 | the gate time in force is the one set last, at most 30 seconds |
| `History.SampleNoSingles` | src/monitor.cpp:149-171 | a sample keeps that no gap ends a run of exactly one value |
| `History.BetweenGaps` | src/monitor.cpp:158-168 | between two gaps there are no values or at least two |
| `History.SampleTime` | src/monitor.cpp:149-171 | an accepted sample accounts for all the time since the last one if and only if that fits 16 bits |
| `History.RunTime` | src/monitor.cpp:149-171 | the times recorded between two samples add up to the time that passed, while there is room and intervals fit |
| `History.RunKeeps` | src/monitor_history.h:58-94 | over any run the start of a trigger stays in the ring and no gap ends a single value |
| `HistoryRuns.SampleAppends` | src/monitor.cpp:149-171 | a sample at least 200 us after the last one adds its own entry, more than 400 us after it behind a gap of 200 us, or behind the last value once more and a gap, 100 us each, if that value stands alone; the entry has the upper 8 bits of the 10-bit values |
| `HistoryRuns.SampleRecorded` | src/monitor.cpp:149-171 | over any run each sample taken is recorded with its values, and the times of the entries up to its own add up to its time, while there is room and intervals fit |
| `HistoryRing.MonitorHistory.IsFull` | src/monitor_history.h:28-33 | full exactly if the next write would hit the trigger start, that is if its relative position is 0 |
| `HistoryRing.MonitorHistory.AddEntryRaw` | src/monitor_history.cpp:22-41 | the ring holds the last entries, and refuses one when full |
| `HistoryRing.MonitorHistory.CopyTo` | src/monitor_history.cpp:43-52 | the last entries, oldest first, the first one's time 0 |
| `HistoryRing.MonitorHistory.TriggerWindow` | src/monitor_history.h:40-42 | the relative positions are those of the marked entries, start not behind end |
| `HistoryRing.RelativeIs` | src/monitor_history.h:118-122 | a position relative to the next write position |
| `HistoryRing.MonitorHistory.SetTriggerStartPos` | src/monitor_history.h:58-65 | marks the last entry as start and end |
| `HistoryRing.MonitorHistory.SetTriggerEndPos` | src/monitor_history.h:82-86 | marks the last entry as end |
| `HistoryRing.DrumMonitor.AddPadHistoryEntry` | src/monitor.cpp:149-171 | refines the specification's sample, and says whether it was stored |
| `HistoryRing.Record` | src/monitor_history.cpp:43-52 | a monitor that gets any calls shows the last entries of the run's log, no gap ending a single value, and where the marked trigger is among them |
| `WiiMemory.DecryptEncrypt` | lib/wiimote-lib/wm_crypto.c:232-239 | adding the first table after xor with the second undoes the cipher, at any address |
| `WiiMemory.EncryptedIs` | lib/wiimote-lib/wm_crypto.c:232-239 | each byte less the entry of the first table at its address, xor that of the second |
| `WiiMemory.SamePhase` | lib/wiimote-lib/wm_reports.c:88-109 | encrypting from the low address bits on is encrypting at the absolute address |
| `WiiMemory.ReadsBack` | lib/wiimote-lib/wiimote.c:374-388 | the responses to a read carry exactly the range, encrypted as a whole; decrypted, they are the memory; there are ceil(size/16) of them |
| `WiiMemory.ResponseBytes` | lib/wiimote-lib/wm_reports.c:88-109 | a response byte by byte: its address, its size, and the memory enciphered at each absolute address, zeros behind the end |
| `Wiimote.EncryptBytes` | lib/wiimote-lib/wm_crypto.c:232-239 | the loop encrypts every byte at its phase |
| `Wiimote.ReportQueue.Push` | lib/wiimote-lib/wm_reports.c:8-28 | a report behind all others |
| `Wiimote.ReportQueue.Peek` | lib/wiimote-lib/wm_reports.c:30-35 | the oldest report, none if there is none |
| `Wiimote.ReportQueue.Pop` | lib/wiimote-lib/wm_reports.c:37-53 | removes the oldest report |
| `Wiimote.Remote.PushChunks` | lib/wiimote-lib/wiimote.c:280-295 | appends exactly the responses of the specification |
| `Wiimote.Remote.ReadEeprom` | lib/wiimote-lib/wiimote.c:258-298 | answered from memory if and only if offset + size is at most 0x16FF, else one error response |
| `Wiimote.Remote.ReadRegister` | lib/wiimote-lib/wiimote.c:323-388 | the selected memory's bytes, with the keys exactly for register 0xA4 while it is encrypted and in the clear for all others, or the error of an inaccessible motion plus; the fifth poll of an active motion plus sets its state byte first, and nothing else changes any memory |
| `Wiimote.Remote.SelectedIs` | lib/wiimote-lib/wiimote.c:330-372 | the memory of each register number, the motion plus in the place of the extension while it is active |
| `Wiimote.HostRead` | lib/wiimote-lib/wiimote.c:258-388 | a host that reads EEPROM or registers, and deciphers with the keys it has set itself, has the bytes of the memory or the error: EEPROM beyond 0x16FE, an inaccessible motion plus; the fifth poll makes the motion plus ready before it is read |
| `Wiimote.Remote.NextReport` | lib/wiimote-lib/wiimote.c:182-190 | the oldest report is sent and removed |
| `Wiimote.Remote.Drain` | lib/wiimote-lib/wiimote.c:182-190 | reports are sent in the order they were queued |
| `Wiimote.Session` | lib/wiimote-lib/wiimote.c:182-388 | on a new remote, its motion plus in any state, encrypted or not: a host that knows the keys gets from any reads of EEPROM and registers the replies of the run |
| `Wiimote.AfterCounted` | lib/wiimote-lib/wiimote.c:323-345 | whatever is read, no memory changes but the motion plus's state byte, and that exactly when the fifth poll is among the reads |
| `Wiimote.RepliesAre` | lib/wiimote-lib/wiimote.c:258-388 | every reply of a run of reads is what the first memories hold, except that the motion plus shows that it is ready from the fifth poll on |
| `Dhcp.ScanFinds` | lib/networking/dhserver.c:148-160 | scanning any options area finds each option written with exactly its payload, and none not written |
| `DhcpAnswers.ScanBegins` | lib/networking/dhserver.c:148-160 | in any area that begins with written options, whatever stands behind them, each is found with its payload, the first one of several |
| `DhcpAnswers.RequestedIpIs` | lib/networking/dhserver.c:342-345 | the address asked for is the payload of the first option 50, if that has four bytes |
| `DhcpAnswers.RequestedIpOf` | lib/networking/dhserver.c:342-345 | in an area that ends with its end mark there is none if no such option was written |
| `DhcpAnswers.TypeIs` | lib/networking/dhserver.c:299-308 | the type of a message is the first byte of its first option 53 |
| `DhcpAnswers.TypeOfOptions` | lib/networking/dhserver.c:299-304 | in an area that ends with its end mark there is none if no such option was written |
| `Dhcp.ReplyReadBack` | lib/networking/dhserver.c:162-228 | for every configuration that fits, each option of a reply is found with its payload and none that was left out |
| `DhcpAnswers.ReplyConfigured` | lib/networking/dhserver.c:162-228 | a client reads from a reply, at the option numbers of RFC 2132: the type, the server, the mask, the router, the DNS server and the domain if they are configured, and the lease time in network order |
| `Dhcp.OfferSound` | lib/networking/dhserver.c:310-315 | no offer names an address held by another client |
| `Dhcp.OfferComplete` | lib/networking/dhserver.c:310-315 | a client's own lease is offered again, and nothing only if there is neither that nor a vacant one |
| `Dhcp.GrantedIff` | lib/networking/dhserver.c:342-354 | a request is granted exactly for an address in the table that nobody else holds |
| `Dhcp.RequestKeeps` | lib/networking/dhserver.c:342-381 | a request keeps one lease for each client |
| `Dhcp.RequestLeaves` | lib/networking/dhserver.c:342-381 | granted, the client holds that address and no other; refused, none; other clients keep theirs; a request with the all-zero hardware address changes nothing |
| `Dhcp.Renewal` | lib/networking/dhserver.c:342-381 | renewing leaves the table as it is, unless there is no memory for the reply: then the lease is lost |
| `Dhcp.RunSound` | lib/networking/dhserver.c:308-384 | over any run no client holds two leases and no offer or grant names another client's address |
| `DhcpServer.Server.FindOption` | lib/networking/dhserver.c:148-160 | the scan of the options area |
| `DhcpServer.Server.FillOptions` | lib/networking/dhserver.c:162-228 | the cleared area holds the reply's options, the end mark and zeros |
| `DhcpServer.Server.HandleDiscover` | lib/networking/dhserver.c:310-338 | an offer of the client's own or the first vacant address, or silence |
| `DhcpServer.Server.HandleRequest` | lib/networking/dhserver.c:340-384 | the address is the four bytes behind the code and the length of the option found; the client's lease is freed first, then the requested one granted if vacant |
| `DhcpServer.Server.Receive` | lib/networking/dhserver.c:286-390 | a packet's effect on the table, on the options area and the reply, for every packet and what an earlier packet left behind it |
| `DhcpServer.ClientReads` | lib/networking/dhserver.c:162-228 | a client finds in a reply what it was sent |
| `DhcpServer.AnswersSound` | lib/networking/dhserver.c:286-390 | after any packets at all, an answer names no address another client holds, the client of an answered request holds the address named, and the answer carries exactly the configured options |
| `DhcpAnswers.RequestAnswered` | lib/networking/dhserver.c:340-384 | after any packets at all, a packet whose options are a request for an address: if the table has it and no other client holds it, and there is memory, the answer is an acknowledgement of that very address and the client holds it and no other; else there is no answer and the client holds none; other clients keep theirs |
| `DhcpAnswers.DiscoveryAnswered` | lib/networking/dhserver.c:310-338 | so for a discovery: an offer of the client's own address, or of the first vacant one, or no answer; no lease changes |
| `DhcpAnswers.OthersIgnored` | lib/networking/dhserver.c:384-386 | a packet of another type changes no lease and is not answered |
| `DhcpAnswers.NoAddressIgnored` | lib/networking/dhserver.c:342-344 | nor does a request without an address of four bytes |
| `DhcpServer.Serve` | lib/networking/dhserver.c:286-390 | a server fed with any packets gives each the answer of the run and leaves its table |

## Left out

- BleMidiDecoder.Decoder.DecodePush: how many bytes are left when the ring is full is not stated; the code reports a packet as read to its end when only its last real-time message did not fit.
- BleMidiRoundTrip.RoundTrip: is for runs that lose no packet; BleMidiLoss.LossyRoundTrip is for all.
- BleMidiTimes.TimesRoundTrip: system exclusive messages are left out, as their start is sent with a stale time (BleMidiMisreads.SysexTimeStale); BleMidiCallParts.FragmentTime and BleMidiCallParts.EndTime say how they are sent, BleMidiTimes.PayloadTime how they are read.
- HidParser.DescriptorParser.Process: requires that every item's data bytes are there, as the code reads on behind the descriptor otherwise; when a pool is exhausted the code stops at an assertion, and what it leaves is not stated.
- HidLayout.ParsedLayout: requires that no report exceeds 2^16 bits; beyond that, sizes and offsets wrap around. Disjointness follows from alignment, not the other way: items of one ID in two reports need not overlap (HidLayout.SharedBitMisplaced).
- HidValues.ReportItem.Extract: requires the field to lie inside the report, which the code does not check.
- RockBand.Transport.SendNoteOn: requires that its loop ends; RockBand.ResolutionEnds says exactly when it does not.
- SensingPad.Pad.Sense: the number of connected zones and the settings are fixed during a run; sensor readings and the touch sensor are parameters.
- Sensing.DecayLevel: the decay progress is a real number; single-precision rounding is not modelled.
- Wiimote.Remote.ReadRegister: a read must lie inside the register, and be at most 16 bytes of an unknown one; the code does not check that.
- DhcpServer.Server.Receive: a hardware address is a number, and the byte behind the options area, which an empty message type at its end reads, is a parameter; the other header fields are not modelled.
- Wiimote.Session: register writes, which activate the motion plus and set up the cipher, do not happen during a session.
- The second copy of the fragment loop inside system exclusive data (after a real-time byte) is the same member as the first; `set_mtu`, `update_mtu`, the compile-time filters of clock and active-sensing bytes, and the log of discarded bytes are not modelled.
- The HID parser's state table and usage list are sequences with the source's limits, and the encoder's message buffer is a record; their storage in fixed arrays is not modelled.
- The constants of the HID headers the parser includes are those of the HID standard; class/hid/hid.h is not part of this model.
- `GetAxis` and `fill_generic_report`, the hat decoding of a connected game pad, and the choice of USB identities: single-branch mappings.
- Rings.PushRecord: the 16-bit sum of the bytes buffered and those to come is unbounded here; the codec's rings are far smaller.
- `ring_buffer_peek`, locking and multicore variants of the rings: not used by the codec.
- Exponential and logarithmic velocity curves: floating-point powers.
- The user interface's own way to play a note, choke messages and hi-hat control changes: they bypass the note queue.
- The rest of `generate_report`, memory writes, and the generation of the cipher's tables, which are arbitrary here.
- DHCP destination selection, sending, and the DNS responder.
- Bluetooth, USB and network stacks, the web interface, configuration files and pairing.
