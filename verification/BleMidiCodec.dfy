/** Whole runs of the BLE-MIDI codec's code. */
module BleMidiCodec {
  import opened Bytes
  import opened BleMidi
  import opened BleMidiEncoding
  import opened BleMidiDecoding
  import opened BleMidiSegments
  import opened BleMidiRoundTrip
  import opened BleMidiLoss
  import opened BleMidiFragments
  import opened BleMidiEncoder
  import opened BleMidiDecoder

  function BytesOf(ps: seq<Packet>): (r: seq<seq<byte>>)
    ensures |r| == |ps| && forall i :: 0 <= i < |ps| ==> r[i] == PacketBytes(ps[i])
  {
    seq(|ps|, i requires 0 <= i < |ps| => PacketBytes(ps[i]))
  }

  lemma BytesOfMore(ps: seq<Packet>, qs: seq<Packet>)
    ensures BytesOf(ps + qs) == BytesOf(ps) + BytesOf(qs)
  {
    hide PacketBytes;
  }

  /** Packets are shorter than their length field can say. */
  predicate Short(ps: seq<Packet>) {
    forall i :: 0 <= i < |ps| ==> PacketLen(ps[i]) < 0x1_0000
  }

  lemma QueueShort(codec: Encoder)
    requires codec.Valid()
    ensures Short(codec.st.out.queue)
  {
    hide PacketLen, PacketRing.Valid;
  }

  /** The transmitter takes some of the packets ready. */
  method TakePackets(codec: Encoder, n: nat) returns (sent: seq<seq<byte>>)
    requires codec.Valid()
    modifies codec.Repr
    ensures codec.Valid() && codec.st == Drain(old(codec.st), n) && sent == BytesOf(Taken(old(codec.st), n))
  {
    hide Encoder.Valid, PacketBytes;
    sent := [];
    ghost var queue := codec.st.out.queue;
    var k, more := 0, true;
    while k < n && more
      invariant k <= n && k <= |queue| && codec.Valid()
      invariant codec.st == old(codec.st).(out := old(codec.st).out.(queue := queue[k..]))
      invariant sent == BytesOf(queue[..k]) && (!more ==> k == |queue|)
      decreases n - k, more
    {
      var p := codec.PopPacket();
      if p.Some? {
        assert queue[..k + 1] == queue[..k] + [queue[k]];
        BytesOfMore(queue[..k], [queue[k]]);
        sent := sent + [p.value];
        k := k + 1;
      } else {
        more := false;
      }
    }
  }

  lemma RunTurn(e: Enc, wire: seq<Packet>, calls: seq<Call>, i: nat)
    requires Safe(e) && i < |calls| && Timed(calls[i..])
    ensures calls[i].t < 0x2000 && Timed(calls[i + 1..])
    ensures var r := Push(e, calls[i].stream, calls[i].t).e;
            && Safe(Drain(r, calls[i].taken))
            && RunCalls(e, wire, calls[i..])
               == RunCalls(Drain(r, calls[i].taken), wire + Taken(r, calls[i].taken), calls[i + 1..])
  {
    hide Push, Safe;
    assert calls[i..][0] == calls[i] && calls[i..][1..] == calls[i + 1..];
    DrainSafe(Push(e, calls[i].stream, calls[i].t).e, calls[i].taken);
  }

  lemma RunNothing(e: Enc, wire: seq<Packet>)
    requires Safe(e)
    ensures RunCalls(e, wire, []) == (e, wire)
  {
    hide Safe;
  }

  lemma NothingSent()
    ensures BytesOf([]) == [] && Short([])
  {
  }

  lemma ShortMore(wire: seq<Packet>, e: Enc, n: nat)
    requires Short(wire) && Short(e.out.queue)
    ensures Short(wire + Taken(e, n))
  {
    hide PacketLen;
  }

  /** A codec context ready for use. */
  method Ready(mtu: nat, cap: nat, packetSize: nat) returns (codec: Encoder)
    requires 6 <= mtu <= packetSize < 0x1_0000 && cap > 0
    ensures fresh(codec.Repr) && codec.Valid() && codec.st == Init(mtu, cap)
  {
    hide PacketWriter.Valid;
    codec := new Encoder(mtu, cap, packetSize);
    codec.InitData(cap);
  }

  /** A new encoder that gets any calls, with packets taken in between, sends what the run says. */
  method Transmit(mtu: nat, cap: nat, packetSize: nat, calls: seq<Call>) returns (sent: seq<seq<byte>>)
    requires 6 <= mtu <= packetSize < 0x1_0000 && cap > 0 && Timed(calls)
    ensures sent == BytesOf(RunFrom(mtu, cap, calls).1) && Short(RunFrom(mtu, cap, calls).1)
  {
    var codec := Ready(mtu, cap, packetSize);
    sent := [];
    ghost var wire: seq<Packet> := [];
    InitSafe(mtu, cap);
    hide Encoder.Linked, Safe, Push, Loop, PacketBytes, RunCalls, Taken, Drain, Short, BytesOf;
    assert BytesOf(wire) == [] && Short(wire) by { NothingSent(); }
    assert calls[0..] == calls;
    for i := 0 to |calls|
      invariant fresh(codec.Repr) && codec.Valid() && Safe(codec.st)
      invariant Timed(calls[i..]) && RunCalls(codec.st, wire, calls[i..]) == RunFrom(mtu, cap, calls)
      invariant sent == BytesOf(wire) && Short(wire)
    {
      var c := calls[i];
      RunTurn(codec.st, wire, calls, i);
      var taken, ready := codec.PushMidi(c.stream, c.t);
      ghost var r := codec.st;
      QueueShort(codec);
      ShortMore(wire, r, c.taken);
      var more := TakePackets(codec, c.taken);
      BytesOfMore(wire, Taken(r, c.taken));
      sent := sent + more;
      wire := wire + Taken(r, c.taken);
    }
    assert RunCalls(codec.st, wire, []) == (codec.st, wire) by { RunNothing(codec.st, wire); }
  }

  /** What is heard of packets, one after the other, through a ring with room for some messages that is
      emptied after each packet. */
  function Heard(packets: seq<seq<byte>>, ring: nat): seq<Stamped> {
    if packets == [] then []
    else Heard(packets[..|packets| - 1], ring) + First(DecodePacket(packets[|packets| - 1]).toks, ring)
  }

  /** Every packet's messages fit the ring. */
  predicate AllFit(packets: seq<seq<byte>>, ring: nat) {
    forall i :: 0 <= i < |packets| ==> CountMessages(DecodePacket(packets[i]).toks) <= ring
  }

  predicate Whole(packets: seq<seq<byte>>) {
    forall i :: 0 <= i < |packets| ==> Complete(DecodePacket(packets[i]))
  }

  /** Takes every message out of the decoder's ring. */
  method TakeMessages(codec: Decoder) returns (heard: seq<Stamped>)
    requires codec.Valid()
    modifies codec.fromBle, codec.fromBle.ring
    ensures codec.Valid() && codec.fromBle.out == [] && heard == AllToks(old(codec.fromBle.out))
  {
    hide MessageRing.Valid, AllToks, Toks;
    ghost var all := codec.fromBle.out;
    heard := [];
    NothingHeard();
    var more := true;
    while more
      invariant codec.Valid() && AreMessages(all) && (!more ==> codec.fromBle.out == [])
      invariant heard + AllToks(codec.fromBle.out) == AllToks(all)
      decreases |codec.fromBle.out|, more
    {
      ghost var before := codec.fromBle.out;
      var m := codec.fromBle.Pop();
      if m.Some? {
        MessageHeard(before, m.value, codec.fromBle.out, heard);
        heard := heard + Toks(m.value);
      } else {
        more := false;
      }
    }
    NothingHeard();
  }

  lemma NothingHeard()
    ensures AllToks([]) == []
  {
  }

  lemma MessageHeard(before: seq<Message>, m: Message, after: seq<Message>, heard: seq<Stamped>)
    requires AreMessages(before) && before == [m] + after
    ensures IsMessage(m) && AreMessages(after)
    ensures heard + AllToks(before) == (heard + Toks(m)) + AllToks(after)
  {
    hide Toks;
    assert before[0] == m && before[1..] == after;
    AllToksConcat([m], after);
    assert [m][..0] == [];
    assert AllToks([m]) == Toks(m);
    assert heard + (Toks(m) + AllToks(after)) == (heard + Toks(m)) + AllToks(after);
  }

  /** Decodes packets one after the other, and hands on what they say, as much of it as the ring holds. */
  method Deliver(packets: seq<seq<byte>>, cap: nat) returns (heard: seq<Stamped>, whole: bool)
    requires cap > 0 && forall i :: 0 <= i < |packets| ==> |packets[i]| < 0x1_0000
    ensures heard == Heard(packets, cap) && (AllFit(packets, cap) ==> whole == Whole(packets))
  {
    hide MessageRing.Valid, DecodePacket, AllToks, First, CountMessages;
    var codec := new Decoder(cap);
    heard, whole := [], true;
    for i := 0 to |packets|
      invariant fresh(codec) && fresh(codec.fromBle) && fresh(codec.fromBle.ring) && fresh(codec.fromBle.ring.buf)
      invariant codec.Valid() && codec.fromBle.out == [] && codec.fromBle.cap == cap
      invariant heard == Heard(packets[..i], cap)
      invariant AllFit(packets[..i], cap) ==> whole == Whole(packets[..i])
    {
      var ndecoded, hang := codec.DecodePush(packets[i]);
      assert codec.fromBle.out[0..] == codec.fromBle.out;
      var more := TakeMessages(codec);
      HeardMore(packets, cap, i);
      heard := heard + more;
      whole := whole && !hang && ndecoded == |packets[i]|;
    }
    assert packets[..|packets|] == packets;
  }

  lemma HeardMore(packets: seq<seq<byte>>, ring: nat, i: nat)
    requires i < |packets|
    ensures Heard(packets[..i + 1], ring) == Heard(packets[..i], ring) + First(DecodePacket(packets[i]).toks, ring)
    ensures Whole(packets[..i + 1]) == (Whole(packets[..i]) && Complete(DecodePacket(packets[i])))
    ensures AllFit(packets[..i + 1], ring) == (AllFit(packets[..i], ring) && CountMessages(DecodePacket(packets[i]).toks) <= ring)
  {
    hide DecodePacket, Complete, First, CountMessages;
    var more := packets[..i + 1];
    assert more[..i] == packets[..i] && more[i] == packets[i];
    assert forall k :: 0 <= k < i ==> more[k] == packets[..i][k];
  }

  /** Through a ring with room for the messages of every packet all is heard. */
  lemma {:induction false} HeardEvents(wire: seq<Packet>, ring: nat)
    requires AllFit(BytesOf(wire), ring)
    ensures Unstamp(Heard(BytesOf(wire), ring)) == DecodedEvents(wire) && Whole(BytesOf(wire)) == AllDecoded(wire)
  {
    hide DecodePacket, PacketBytes, Complete, CountMessages;
    if wire != [] {
      var init := wire[..|wire| - 1];
      assert BytesOf(wire)[..|wire| - 1] == BytesOf(init);
      assert forall i :: 0 <= i < |init| ==> BytesOf(init)[i] == BytesOf(wire)[i];
      HeardEvents(init, ring);
      UnstampConcat(Heard(BytesOf(init), ring), DecodePacket(PacketBytes(wire[|wire| - 1])).toks);
    }
  }

  /** A packet has no more messages than bytes, so a ring with room for a message each byte of the largest packet
      is always large enough. */
  lemma MessagesWithin(packet: seq<byte>)
    ensures CountMessages(DecodePacket(packet).toks) <= |packet|
  {
    hide Decode, CountMessages;
    if HasHeader(packet) {
      EventsWithin(Opening(packet[0], IsData(packet[1])), packet[1..]);
    }
    var toks := DecodePacket(packet).toks;
    assert [] + toks == toks;
    CutGrows([], toks);
    assert CountMessages([]) == 0 by { NothingCounted(); }
  }

  lemma NothingCounted()
    ensures CountMessages([]) == 0
  {
  }

  lemma {:induction false} EventsWithin(d: Dec, s: seq<byte>)
    ensures |Decode(d, s).toks| <= |s|
    decreases |s|, if d.sysex then 1 else 0, 1
  {
    hide StampOf;
    if s == [] {
    } else if d.sysex && IsData(s[0]) {
      EventsWithin(d, s[1..]);
    } else if |s| == 1 {
    } else if s[0] >= 0x80 && s[1] >= 0x80 {
      if d.sysex && s[1] == 0xF7 {
        EventsWithin(d.(sysex := false, channel := false), s);
      } else if d.sysex {
        EventsWithin(Tick(d, s[0]), s[2..]);
      } else {
        StatusWithin(d, s);
      }
    } else if s[0] >= 0x80 {
      if d.running != 0 && ChannelLen(d.running) <= |s| {
        EventsWithin(Tick(d, s[0]).(ts := StampOf(d, s[0]), sysex := false, channel := true), s[ChannelLen(d.running)..]);
      }
    } else if ChannelLen(d.running) - 1 <= |s| {
      EventsWithin(d, s[ChannelLen(d.running) - 1..]);
    }
  }

  lemma {:induction false} StatusWithin(d: Dec, s: seq<byte>)
    requires |s| >= 2 && s[0] >= 0x80 && s[1] >= 0x80 && !d.sysex
    ensures |DecodeStatus(d, s).toks| <= |s|
    decreases |s|, 0, 0
  {
    hide StampOf, Decode;
    var b := s[1];
    var d1 := Tick(d, s[0]).(ts := StampOf(d, s[0]));
    if IsRealTime(b) {
      EventsWithin(d1.(channel := false), s[2..]);
    } else if b > 0xF0 {
      if 1 + CommonLen(b) <= |s| {
        EventsWithin(d1.(channel := false), s[1 + CommonLen(b)..]);
      }
    } else if b < 0xF0 {
      if 1 + ChannelLen(b) <= |s| {
        EventsWithin(d1.(running := b, channel := true), s[1 + ChannelLen(b)..]);
      } else {
        EventsWithin(d1.(running := b, channel := d.channel && ChannelLen(b) == 3), s[2..]);
      }
    } else {
      EventsWithin(d1.(sysex := true, channel := false), s[2..]);
    }
  }

  /** The round trip of the code: an encoder sends any grammatical calls, and a decoder with room for the messages
      of any one packet reads what was sent. Nothing is heard but what was said, in its order, unless
      there was a hazard; and if no packet was lost or left behind, all of it is heard if and only if
      there was none. */
  method SendAndHear(mtu: nat, cap: nat, packetSize: nat, ring: nat, calls: seq<Call>)
    returns (heard: seq<Stamped>, whole: bool)
    requires 6 <= mtu <= packetSize < 0x1_0000 && cap > 0 && ring > 0 && Timed(calls) && LegalRun(Idle, calls)
    requires AllFit(BytesOf(RunFrom(mtu, cap, calls).1), ring)
    ensures var (e, wire) := RunFrom(mtu, cap, calls);
            var said := ParseRun(Idle, calls).1;
            && Safe(e) && |Pending(e)| <= 2
            && (e.out.clean ==> whole && Within(Unstamp(heard), said))
            && (e.out.lost == 0 && e.out.queue == [] ==>
                  (e.out.clean <==> whole && Unstamp(heard) + Pending(e) == said))
  {
    hide RunFrom, Heard, Whole, AllDecoded, DecodedEvents, Safe, Pending, ParseRun, PacketBytes, LegalRun, CountMessages,
         LeftOut, Within;
    LossyRoundTrip(mtu, cap, calls);
    var sent := Transmit(mtu, cap, packetSize, calls);
    ghost var (e, wire) := RunFrom(mtu, cap, calls);
    HeardEvents(wire, ring);
    heard, whole := Deliver(sent, ring);
    ghost var said := ParseRun(Idle, calls).1;
    if e.out.clean {
      SentWithin(wire, e.out.queue, Pending(e), said);
    }
    if e.out.lost == 0 && e.out.queue == [] {
      assert Sent(wire, e.out) == wire;
      RoundTrip(mtu, cap, calls);
    }
  }

  /** What is heard of the packets sent is part of what would be heard with those still waiting. */
  lemma {:induction false} SentWithin(wire: seq<Packet>, waiting: seq<Packet>, pending: seq<Event>, said: seq<Event>)
    requires AllDecoded(wire + waiting) && Within(DecodedEvents(wire + waiting) + pending, said)
    ensures AllDecoded(wire) && Within(DecodedEvents(wire), said)
  {
    hide DecodePacket, PacketBytes, Unstamp, Complete;
    assert forall i :: 0 <= i < |wire| ==> wire[i] == (wire + waiting)[i];
    BeginningHeard(wire, waiting);
    var rest := DecodedEvents(wire + waiting)[|DecodedEvents(wire)|..] + pending;
    assert DecodedEvents(wire + waiting) + pending == DecodedEvents(wire) + rest;
    WithinBeginning(DecodedEvents(wire), rest, said);
  }

  lemma {:induction false} BeginningHeard(wire: seq<Packet>, more: seq<Packet>)
    ensures DecodedEvents(wire) <= DecodedEvents(wire + more)
    decreases |more|
  {
    hide DecodePacket, PacketBytes, Unstamp;
    if more == [] {
      assert wire + more == wire;
    } else {
      BeginningHeard(wire, more[..|more| - 1]);
      assert (wire + more)[..|wire + more| - 1] == wire + more[..|more| - 1];
    }
  }
}
