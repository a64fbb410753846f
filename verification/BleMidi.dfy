/** Data of the BLE-MIDI packet codec: timestamped message fragments, packets, and the
    byte layouts under which both are kept in rings. */
module BleMidi {
  import opened Bytes

  /** The `nbytes` field of a message: four flags and the number of valid bytes. */
  datatype Tag = Tag(startSysex: bool, sysex: bool, realTime: bool, channel: bool, count: nat)

  function Plain(count: nat): Tag {
    Tag(false, false, false, false, count)
  }

  function SysexTag(count: nat): Tag {
    Tag(false, true, false, false, count)
  }

  function ChannelTag(count: nat): Tag {
    Tag(false, false, false, true, count)
  }

  function RealTimeTag(count: nat): Tag {
    Tag(false, false, true, false, count)
  }

  /** A timestamped fragment of a MIDI message; `bytes` always has three places. */
  datatype Message = Message(tag: Tag, bytes: seq<byte>, ts: nat)

  predicate IsMessage(m: Message) {
    |m.bytes| == 3 && m.tag.count <= 3 && m.ts < 0x1_0000
  }

  const MESSAGE_SIZE := 6

  function Bit(b: bool, weight: nat): nat {
    if b then weight else 0
  }

  /** The packed struct ble_midi_message_t. */
  function PackMessage(m: Message): (s: seq<byte>)
    requires IsMessage(m)
    ensures |s| == MESSAGE_SIZE
  {
    [TagByte(m.tag)] + m.bytes + [m.ts % 256, m.ts / 256]
  }

  function UnpackMessage(s: seq<byte>): Message
    requires |s| == MESSAGE_SIZE
  {
    Message(ByteTag(s[0]), s[1..4], Word(s[4], s[5]))
  }

  function TagByte(t: Tag): byte
    requires t.count <= 3
  {
    Bit(t.startSysex, 0x80) + Bit(t.sysex, 0x20) + Bit(t.realTime, 0x10) + Bit(t.channel, 0x08) + t.count
  }

  function ByteTag(b: byte): Tag {
    Tag(b / 0x80 % 2 == 1, b / 0x20 % 2 == 1, b / 0x10 % 2 == 1, b / 0x08 % 2 == 1, b % 4)
  }

  lemma TagBits(t: Tag)
    requires t.count <= 3
    ensures ByteTag(TagByte(t)) == t
  {
    var b := TagByte(t);
    assert b / 8 == Bit(t.startSysex, 16) + Bit(t.sysex, 4) + Bit(t.realTime, 2) + Bit(t.channel, 1);
    assert b / 0x10 == Bit(t.startSysex, 8) + Bit(t.sysex, 2) + Bit(t.realTime, 1);
    assert b / 0x20 == Bit(t.startSysex, 4) + Bit(t.sysex, 1);
    assert b / 0x80 == Bit(t.startSysex, 1);
  }

  lemma UnpackPackedMessage(m: Message)
    requires IsMessage(m)
    ensures UnpackMessage(PackMessage(m)) == m
  {
    var s := PackMessage(m);
    assert s[1..4] == m.bytes;
    TagBits(m.tag);
  }

  /** Header and timestamp bytes carrying the high 6 and the low 7 of 13 time bits. */
  function Header(t: nat): (b: byte)
    ensures 0x80 <= b < 0xC0
  {
    0x80 + t / 128 % 64
  }

  function Low(t: nat): (b: byte)
    ensures b >= 0x80
  {
    0x80 + t % 128
  }

  predicate IsRealTime(b: byte) {
    b >= 0xF8
  }

  predicate IsChannel(b: byte) {
    0x80 <= b < 0xF0
  }

  predicate IsCommon(b: byte) {
    0xF0 < b < 0xF7
  }

  /** Length of a channel message, status included. */
  function ChannelLen(status: byte): nat {
    if status / 16 == 0xC || status / 16 == 0xD then 2 else 3
  }

  /** Length of a system common message (or F7), status included. */
  function CommonLen(status: byte): nat {
    if status == 0xF1 || status == 0xF3 then 2
    else if status == 0xF2 then 3
    else 1
  }

  // MIDI 1.0, tables 1 and 2: the number of data bytes that follow a status byte

  const NOTE_OFF := 0x8
  const NOTE_ON := 0x9
  const POLYPHONIC_KEY_PRESSURE := 0xA
  const CONTROL_CHANGE := 0xB
  const PROGRAM_CHANGE := 0xC
  const CHANNEL_PRESSURE := 0xD
  const PITCH_BEND := 0xE

  const QUARTER_FRAME := 0xF1
  const SONG_POSITION := 0xF2
  const SONG_SELECT := 0xF3
  const TUNE_REQUEST := 0xF6
  const TIMING_CLOCK := 0xF8
  const SYSTEM_RESET := 0xFF

  lemma MessageLengths(b: byte)
    requires IsChannel(b)
    ensures b / 16 in {NOTE_OFF, NOTE_ON, POLYPHONIC_KEY_PRESSURE, CONTROL_CHANGE, PITCH_BEND} ==> ChannelLen(b) == 1 + 2
    ensures b / 16 in {PROGRAM_CHANGE, CHANNEL_PRESSURE} ==> ChannelLen(b) == 1 + 1
    ensures CommonLen(QUARTER_FRAME) == CommonLen(SONG_SELECT) == 1 + 1 && CommonLen(SONG_POSITION) == 1 + 2
    ensures CommonLen(TUNE_REQUEST) == CommonLen(0xF4) == CommonLen(0xF5) == CommonLen(0xF7) == 1
    ensures forall s: byte :: IsRealTime(s) <==> TIMING_CLOCK <= s <= SYSTEM_RESET
  {
  }

  /** One piece of a packet, as the encoder writes it: a stamped status byte with data,
      channel data under running status, or a continuation of a system exclusive message. */
  datatype Seg =
    | Status(ts: byte, status: byte, data: seq<byte>)
    | Run(stamp: Option<byte>, status: byte, data: seq<byte>)
    | Cont(stamp: Option<byte>, data: seq<byte>)

  function StampBytes(o: Option<byte>): seq<byte> {
    if o.Some? then [o.value] else []
  }

  function SegBytes(g: Seg): seq<byte> {
    match g
    case Status(ts, status, data) => [ts, status] + data
    case Run(stamp, _, data) => StampBytes(stamp) + data
    case Cont(stamp, data) => StampBytes(stamp) + data
  }

  function Flat(segs: seq<Seg>): seq<byte> {
    if segs == [] then [] else Flat(segs[..|segs| - 1]) + SegBytes(segs[|segs| - 1])
  }

  /** A packet under construction or queued; no segments means no bytes, not even a header. */
  datatype Packet = Packet(header: byte, segs: seq<Seg>)

  function PacketBytes(p: Packet): seq<byte> {
    if p.segs == [] then [] else [p.header] + Flat(p.segs)
  }

  function PacketLen(p: Packet): nat {
    |PacketBytes(p)|
  }

  const EMPTY := Packet(0, [])

  /** The struct ble_midi_packet_t: a 16-bit length and the whole packet array. */
  function PackPacket(len: nat, storage: seq<byte>): seq<byte>
    requires len < 0x1_0000
  {
    [len % 256, len / 256] + storage
  }

  function UnpackPacket(rec: seq<byte>): seq<byte>
    requires |rec| >= 2
  {
    var n := Word(rec[0], rec[1]);
    if n <= |rec| - 2 then rec[2..2 + n] else []
  }

  lemma UnpackPackedPacket(len: nat, storage: seq<byte>)
    requires len < 0x1_0000 && len <= |storage|
    ensures UnpackPacket(PackPacket(len, storage)) == storage[..len]
  {
    var rec := PackPacket(len, storage);
    assert Word(rec[0], rec[1]) == len;
    assert rec[2..2 + len] == storage[..len];
  }
}
