/** What the BLE-MIDI decoder computes, byte by byte: the message fragments of system exclusive
    data are dissolved into single payload bytes. */
module BleMidiDecoding {
  import opened Bytes
  import opened BleMidi

  /** What a MIDI stream says: a whole message, a real-time byte, or one byte of a system
      exclusive message (its 0xF0 and 0xF7 included). */
  datatype Event = Msg(bytes: seq<byte>) | Rt(status: byte) | Sx(b: byte)

  datatype Stamped = Stamped(ev: Event, ts: nat)

  /** Decoder state between two positions of a packet: inside a system exclusive message; the
      last message was a channel message; running status (0: none); high time bits, last low
      time byte and time of the current message. */
  datatype Dec = Dec(sysex: bool, channel: bool, running: byte, msb: nat, prevLsb: byte, ts: nat)

  /** What was decoded, how many bytes were left, and whether decoding never ends. */
  datatype DecOut = DecOut(toks: seq<Stamped>, left: nat, hang: bool)

  function Pre(toks: seq<Stamped>, r: DecOut): DecOut {
    r.(toks := toks + r.toks)
  }

  predicate Complete(r: DecOut) {
    !r.hang && r.left == 0
  }

  /** midi_service_timestamp_decode: a smaller low byte adds one to the high bits. */
  function Tick(d: Dec, lsb: byte): Dec {
    d.(msb := if d.prevLsb > lsb then d.msb + 1 else d.msb, prevLsb := lsb)
  }

  function StampOf(d: Dec, lsb: byte): nat {
    BitOr(Tick(d, lsb).msb, lsb % 128)
  }

  function CommonEvent(status: byte, data: seq<byte>): Event {
    if status == 0xF7 then Sx(status) else Msg([status] + data)
  }

  /** A time byte and a status byte, outside of system exclusive messages. */
  function DecodeStatus(d: Dec, s: seq<byte>): DecOut
    requires |s| >= 2 && s[0] >= 0x80 && s[1] >= 0x80 && !d.sysex
    decreases |s|, 0, 0
  {
    var b := s[1];
    var d1 := Tick(d, s[0]).(ts := StampOf(d, s[0]));
    if IsRealTime(b) then Pre([Stamped(Rt(b), d1.ts)], Decode(d1.(channel := false), s[2..]))
    else if b > 0xF0 then
      if 1 + CommonLen(b) <= |s| then
        Pre([Stamped(CommonEvent(b, s[2..1 + CommonLen(b)]), d1.ts)],
            Decode(d1.(channel := false), s[1 + CommonLen(b)..]))
      else DecOut([], |s| - 2, false)
    else if b < 0xF0 then
      if 1 + ChannelLen(b) <= |s| then
        Pre([Stamped(Msg([b] + s[2..1 + ChannelLen(b)]), d1.ts)],
            Decode(d1.(running := b, channel := true), s[1 + ChannelLen(b)..]))
      else Decode(d1.(running := b, channel := d.channel && ChannelLen(b) == 3), s[2..])
    else Pre([Stamped(Sx(b), d1.ts)], Decode(d1.(sysex := true, channel := false), s[2..]))
  }

  /** The decoder loop on the bytes `s` still to decode. Where an iteration of the loop would
      change nothing, the loop never ends. */
  function Decode(d: Dec, s: seq<byte>): DecOut
    decreases |s|, if d.sysex then 1 else 0, 1
  {
    if s == [] then DecOut([], 0, false)
    else if d.sysex && IsData(s[0]) then Pre([Stamped(Sx(s[0]), d.ts)], Decode(d, s[1..]))
    else if |s| == 1 then DecOut([], 1, true)
    else if s[0] >= 0x80 && s[1] >= 0x80 then
      if !d.sysex then DecodeStatus(d, s)
      else if IsRealTime(s[1]) then Pre([Stamped(Rt(s[1]), StampOf(d, s[0]))], Decode(Tick(d, s[0]), s[2..]))
      else if s[1] == 0xF7 then Decode(d.(sysex := false, channel := false), s)
      else DecOut([], |s|, true)
    else if s[0] >= 0x80 then
      if d.running != 0 && ChannelLen(d.running) <= |s| then
        Pre([Stamped(Msg([d.running] + s[1..ChannelLen(d.running)]), StampOf(d, s[0]))],
            Decode(Tick(d, s[0]).(ts := StampOf(d, s[0]), sysex := false, channel := true),
                   s[ChannelLen(d.running)..]))
      else DecOut([], |s|, false)
    else if IsData(s[1]) then
      if d.channel && ChannelLen(d.running) - 1 <= |s| then
        Pre([Stamped(Msg([d.running] + s[..ChannelLen(d.running) - 1]), d.ts)],
            Decode(d, s[ChannelLen(d.running) - 1..]))
      else DecOut([], |s|, false)
    else DecOut([], |s|, true)
  }

  /** State at the start of a packet, whose data may continue a system exclusive message. */
  function Opening(header: byte, continues: bool): Dec {
    Dec(continues, false, 0, header % 64 * 128, 0, 0)
  }

  predicate HasHeader(pkt: seq<byte>) {
    |pkt| >= 2 && 0x80 <= pkt[0] < 0xC0
  }

  /** A whole packet; one without a proper header is left alone. */
  function DecodePacket(pkt: seq<byte>): DecOut {
    if HasHeader(pkt) then Decode(Opening(pkt[0], IsData(pkt[1])), pkt[1..])
    else DecOut([], |pkt|, false)
  }

  /** The events of one decoded message fragment. */
  function Toks(m: Message): seq<Stamped>
    requires IsMessage(m)
  {
    if m.tag.sysex then seq(m.tag.count, i requires 0 <= i < m.tag.count => Stamped(Sx(m.bytes[i]), m.ts))
    else if m.tag.realTime then [Stamped(Rt(m.bytes[0]), m.ts)]
    else if m.bytes[0] == 0xF7 then [Stamped(Sx(0xF7), m.ts)]
    else [Stamped(Msg(m.bytes[..m.tag.count]), m.ts)]
  }

  function AllToks(ms: seq<Message>): seq<Stamped>
    requires forall i :: 0 <= i < |ms| ==> IsMessage(ms[i])
  {
    if ms == [] then [] else AllToks(ms[..|ms| - 1]) + Toks(ms[|ms| - 1])
  }

  // One turn of the loop

  lemma RealTimeInside(d: Dec, s: seq<byte>)
    requires d.sysex && |s| >= 2 && s[0] >= 0x80 && IsRealTime(s[1])
    ensures Decode(d, s) == Pre([Stamped(Rt(s[1]), StampOf(d, s[0]))], Decode(Tick(d, s[0]), s[2..]))
  {
    hide DecodeStatus;
  }

  /** A real-time or system common message outside of a system exclusive one. */
  lemma SystemOutside(d: Dec, s: seq<byte>)
    requires !d.sysex && |s| >= 2 && s[0] >= 0x80 && s[1] > 0xF0
    ensures var b := s[1];
            var n := if b >= 0xF8 then 1 else CommonLen(b);
            var d1 := Tick(d, s[0]).(ts := StampOf(d, s[0]), channel := false);
            Decode(d, s) ==
              if 1 + n > |s| then DecOut([], |s| - 2, false)
              else Pre([Stamped(if b >= 0xF8 then Rt(b) else CommonEvent(b, s[2..1 + n]), d1.ts)], Decode(d1, s[1 + n..]))
  {
    assert Decode(d, s) == DecodeStatus(d, s);
    hide StampOf, Decode;
  }

  /** A channel message with a status byte. */
  lemma ChannelOutside(d: Dec, s: seq<byte>)
    requires !d.sysex && |s| >= 2 && s[0] >= 0x80 && IsChannel(s[1])
    ensures var b := s[1];
            var n := ChannelLen(b);
            var d1 := Tick(d, s[0]).(ts := StampOf(d, s[0]), running := b);
            Decode(d, s) ==
              if 1 + n <= |s| then Pre([Stamped(Msg([b] + s[2..1 + n]), d1.ts)], Decode(d1.(channel := true), s[1 + n..]))
              else Decode(d1.(channel := d.channel && n == 3), s[2..])
  {
    assert Decode(d, s) == DecodeStatus(d, s);
    hide StampOf, Decode;
  }

  /** Data under running status, with and without a time byte. */
  lemma RunningOutside(d: Dec, s: seq<byte>)
    requires |s| >= 2 && IsData(s[1]) && (s[0] >= 0x80 || !d.sysex)
    ensures s[0] >= 0x80 ==>
              Decode(d, s) ==
                if d.running != 0 && ChannelLen(d.running) <= |s| then
                  Pre([Stamped(Msg([d.running] + s[1..ChannelLen(d.running)]), StampOf(d, s[0]))],
                      Decode(Tick(d, s[0]).(ts := StampOf(d, s[0]), sysex := false, channel := true), s[ChannelLen(d.running)..]))
                else DecOut([], |s|, false)
    ensures s[0] < 0x80 ==>
              Decode(d, s) ==
                if d.channel && ChannelLen(d.running) - 1 <= |s| then
                  Pre([Stamped(Msg([d.running] + s[..ChannelLen(d.running) - 1]), d.ts)],
                      Decode(d, s[ChannelLen(d.running) - 1..]))
                else DecOut([], |s|, false)
  {
    hide DecodeStatus, StampOf;
  }

  /** The start of a system exclusive message, and its end. */
  lemma StartOutside(d: Dec, s: seq<byte>)
    requires !d.sysex && |s| >= 2 && s[0] >= 0x80 && s[1] == 0xF0
    ensures var d1 := Tick(d, s[0]).(ts := StampOf(d, s[0]), sysex := true, channel := false);
            Decode(d, s) == Pre([Stamped(Sx(0xF0), d1.ts)], Decode(d1, s[2..]))
  {
    assert Decode(d, s) == DecodeStatus(d, s);
    hide StampOf, Decode;
  }

  lemma EndInside(d: Dec, s: seq<byte>)
    requires d.sysex && |s| >= 2 && s[0] >= 0x80 && s[1] == 0xF7
    ensures Decode(d, s) == Decode(d.(sysex := false, channel := false), s)
  {
    hide DecodeStatus, StampOf;
  }

  /** Payload of a system exclusive message. */
  lemma DecodeData(d: Dec, s: seq<byte>)
    requires d.sysex && s != [] && IsData(s[0])
    ensures Decode(d, s) == Pre([Stamped(Sx(s[0]), d.ts)], Decode(d, s[1..]))
  {
    hide DecodeStatus;
  }
}
