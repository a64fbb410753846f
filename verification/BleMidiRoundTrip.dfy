/** Encoding a MIDI stream and decoding the packets gives the stream back, except for four
    hazards of the encoder. */
module BleMidiRoundTrip {
  import opened Bytes
  import opened BleMidi
  import opened BleMidiEncoding
  import opened BleMidiDecoding
  import opened BleMidiSegments

  // Packets under construction

  /** The decoder's state where the next segment `g` will be. */
  function DecNow(p: Packet, header: byte, g: Seg): Dec {
    if p.segs == [] then Opening(header, StartsWithData(g)) else DecAfter(Start(p), p.segs)
  }

  function LastSeg(p: Packet): Seg
    requires p.segs != []
  {
    p.segs[|p.segs| - 1]
  }

  predicate MayFollow(p: Packet, g: Seg) {
    && WfSeg(g)
    && (p.segs != [] && Solo(LastSeg(p)) && StartsWithData(g) ==> Solo(g))
    && (p.segs == [] && StartsWithData(g) ==> g.Cont?)
  }

  lemma EmitWf(p: Packet, header: byte, g: Seg)
    requires WfPacket(p) && MayFollow(p, g) && 0x80 <= header < 0xC0
    ensures WfPacket(Emit(p, header, g))
    ensures Events(Emit(p, header, g).segs) == Events(p.segs) + SegEvents(g)
  {
    hide SegEvents, WfSeg, SegBytes;
    var q := Emit(p, header, g);
    assert q.segs[..|p.segs|] == p.segs;
    forall i | 0 < i < |q.segs| && Solo(q.segs[i - 1]) && StartsWithData(q.segs[i])
      ensures Solo(q.segs[i])
    {
      if i == |p.segs| {
        assert q.segs[i - 1] == LastSeg(p);
      } else {
        assert q.segs[i - 1] == p.segs[i - 1] && q.segs[i] == p.segs[i];
      }
    }
  }

  lemma EmitStart(p: Packet, header: byte, g: Seg)
    ensures DecAfter(Start(Emit(p, header, g)), p.segs) == DecNow(p, header, g)
    ensures Emit(p, header, g).segs[..|p.segs|] == p.segs
  {
    hide NextDec;
    var q := Emit(p, header, g);
    if p.segs != [] {
      assert q.segs[0] == p.segs[0];
    }
  }

  lemma EmitGood(p: Packet, header: byte, g: Seg)
    requires GoodPacket(p) && MayFollow(p, g) && 0x80 <= header < 0xC0
    requires GoodSeg(DecNow(p, header, g), g)
    ensures GoodPacket(Emit(p, header, g))
    ensures var q := Emit(p, header, g); DecAfter(Start(q), q.segs) == NextDec(DecNow(p, header, g), g)
  {
    hide NextDec, GoodSeg, WfSeg;
    EmitWf(p, header, g);
    EmitStart(p, header, g);
    var q := Emit(p, header, g);
    assert p.segs != [] ==> Start(q) == Start(p);
    assert GoodAll(Start(q), p.segs);
  }

  lemma EmitFatal(p: Packet, header: byte, g: Seg)
    requires GoodPacket(p) && MayFollow(p, g) && 0x80 <= header < 0xC0
    requires Fatal(DecNow(p, header, g), g)
    ensures Doomed(Emit(p, header, g))
  {
    hide NextDec, GoodSeg, WfSeg, Fatal;
    EmitWf(p, header, g);
    EmitStart(p, header, g);
    var q := Emit(p, header, g);
    assert p.segs != [] ==> Start(q) == Start(p);
    assert DoomedAt(q, |p.segs|);
  }

  lemma EmitDoomed(p: Packet, header: byte, g: Seg)
    requires Doomed(p) && MayFollow(p, g) && 0x80 <= header < 0xC0
    ensures Doomed(Emit(p, header, g))
  {
    hide NextDec, GoodSeg, WfSeg, Fatal;
    EmitWf(p, header, g);
    var q := Emit(p, header, g);
    var k: nat :| DoomedAt(p, k);
    assert q.segs[..k] == p.segs[..k] && q.segs[k] == p.segs[k];
    assert Start(q) == Start(p);
    assert DoomedAt(q, k);
  }

  // The packet side: what every encoding step keeps

  /** Everything handed to the ring so far: packets already sent, then those queued. */
  function Sent(wire: seq<Packet>, o: Out): seq<Packet> {
    wire + o.queue
  }

  function PacketEvents(ps: seq<Packet>): seq<Event> {
    if ps == [] then [] else PacketEvents(ps[..|ps| - 1]) + Events(ps[|ps| - 1].segs)
  }

  function OutEvents(wire: seq<Packet>, o: Out): seq<Event> {
    PacketEvents(Sent(wire, o)) + Events(o.pkt.segs)
  }

  predicate WfQueue(ps: seq<Packet>) {
    forall i :: 0 <= i < |ps| ==> ps[i].segs != [] && WfPacket(ps[i])
  }

  predicate GoodQueue(ps: seq<Packet>) {
    forall i :: 0 <= i < |ps| ==> GoodPacket(ps[i])
  }

  ghost predicate DoomedQueue(ps: seq<Packet>) {
    exists i :: 0 <= i < |ps| && Doomed(ps[i])
  }

  /** Well-formedness of all packets. `cont` says that payload of a system exclusive message
      may come next. */
  predicate OutWf(wire: seq<Packet>, o: Out, cont: bool) {
    && WfQueue(Sent(wire, o))
    && WfPacket(o.pkt)
    && (o.pkt.segs == [] ==> o.running == 0 && o.prev == 0)
    && (o.running == 0 || IsChannel(o.running))
    && (o.pkt.segs != [] && Solo(LastSeg(o.pkt)) ==>
          IsChannel(o.running) && ChannelLen(o.running) == 2 && !cont)
  }

  /** How the encoder's view of a good packet agrees with the decoder's. */
  predicate Agrees(o: Out, d: Dec, cont: bool) {
    && d.running == o.running
    && (o.running != 0 && o.prev == o.running ==> d.channel && IsChannel(o.running))
    && (if cont then d.sysex == !OnlyRealTime(o.pkt) && (d.sysex || !d.channel) else !d.sysex)
  }

  predicate Link(o: Out, cont: bool) {
    && GoodPacket(o.pkt)
    && (o.pkt.segs != [] ==> Agrees(o, DecAfter(Start(o.pkt), o.pkt.segs), cont))
  }

  /** Unless packets were lost: as long as no hazard has occurred every packet is good, and
      afterwards one of them is doomed. */
  ghost predicate OutInv(wire: seq<Packet>, o: Out, cont: bool) {
    && OutWf(wire, o, cont)
    && (o.lost == 0 ==>
          if o.clean then GoodQueue(Sent(wire, o)) && Link(o, cont)
          else DoomedQueue(Sent(wire, o)) || Doomed(o.pkt))
  }

  lemma PacketEventsAppend(ps: seq<Packet>, p: Packet)
    ensures PacketEvents(ps + [p]) == PacketEvents(ps) + Events(p.segs)
  {
    assert (ps + [p])[..|ps|] == ps;
  }

  lemma DoomedAppend(ps: seq<Packet>, p: Packet)
    ensures DoomedQueue(ps + [p]) == (DoomedQueue(ps) || Doomed(p))
  {
    hide Doomed;
    var qs := ps + [p];
    if DoomedQueue(ps) {
      var i :| 0 <= i < |ps| && Doomed(ps[i]);
      assert Doomed(qs[i]);
    }
    if Doomed(p) {
      assert Doomed(qs[|ps|]);
    }
  }

  lemma SealInv(wire: seq<Packet>, o: Out, cont: bool)
    requires OutInv(wire, o, cont) && o.pkt.segs != []
    ensures OutInv(wire, Seal(o), cont)
    ensures Seal(o).lost == 0 ==> o.lost == 0 && OutEvents(wire, Seal(o)) == OutEvents(wire, o)
  {
    hide WfPacket, Agrees, Doomed, GoodAll, Events, DoomedQueue, PacketEvents;
    EmptyWf();
    if |o.queue| < o.cap {
      assert Sent(wire, Seal(o)) == Sent(wire, o) + [o.pkt];
      DoomedAppend(Sent(wire, o), o.pkt);
      PacketEventsAppend(Sent(wire, o), o.pkt);
    } else {
      assert Sent(wire, Seal(o)) == Sent(wire, o);
    }
  }

  lemma EmptyWf()
    ensures GoodPacket(EMPTY) && WfPacket(EMPTY) && Events(EMPTY.segs) == []
  {
  }

  /** Adding one segment: good while the run is clean, fatal if it ends being clean. */
  lemma AppendInv(wire: seq<Packet>, o: Out, cont: bool, header: byte, g: Seg, o': Out, cont': bool)
    requires OutInv(wire, o, cont) && MayFollow(o.pkt, g) && 0x80 <= header < 0xC0
    requires o' == o.(pkt := Emit(o.pkt, header, g), running := o'.running, prev := o'.prev, clean := o'.clean)
    requires o'.running == 0 || IsChannel(o'.running)
    requires Solo(g) ==> IsChannel(o'.running) && ChannelLen(o'.running) == 2 && !cont'
    requires o'.clean ==> o.clean
    requires o.clean && o.lost == 0 && GoodPacket(o.pkt) ==>
               var d := DecNow(o.pkt, header, g);
               if o'.clean then GoodSeg(d, g) && Agrees(o', NextDec(d, g), cont') else Fatal(d, g)
    ensures OutInv(wire, o', cont')
    ensures OutEvents(wire, o') == OutEvents(wire, o) + SegEvents(g)
  {
    hide WfSeg, GoodSeg, NextDec, Fatal, SegEvents, Agrees, DoomedQueue, PacketEvents, Events, Doomed, DecNow, Start,
         DecAfter, GoodAll, WfPacket;
    EmitWf(o.pkt, header, g);
    assert Sent(wire, o') == Sent(wire, o);
    if o.lost == 0 {
      if o'.clean {
        EmitGood(o.pkt, header, g);
      } else if o.clean {
        EmitFatal(o.pkt, header, g);
      } else if Doomed(o.pkt) {
        EmitDoomed(o.pkt, header, g);
      }
    }
  }

  /** A message the encoder may hold when it writes one; `cont` as in OutWf. */
  predicate MessageOk(m: Message, cont: bool) {
    && IsMessage(m) && Ordered(m.tag) && m.tag.count > 0
    && (if m.tag.sysex then
          if m.tag.startSysex then !cont && m.bytes[0] == 0xF0 && AllData(m.bytes[1..m.tag.count])
          else cont && AllData(m.bytes[..m.tag.count])
        else if m.tag.channel then
          !cont && IsChannel(m.bytes[0]) && m.tag.count == ChannelLen(m.bytes[0]) && AllData(m.bytes[1..m.tag.count])
        else
          || (m.bytes[0] == 0xF7 && m.tag.count == 1)
          || (!cont && IsCommon(m.bytes[0]) && m.tag.count == CommonLen(m.bytes[0]) && AllData(m.bytes[1..m.tag.count])))
  }

  function MessageEvents(m: Message): seq<Event>
    requires IsMessage(m) && m.tag.count > 0
  {
    if m.tag.sysex then Payload(m.bytes[..m.tag.count])
    else if m.tag.channel then [Msg(m.bytes[..m.tag.count])]
    else [CommonEvent(m.bytes[0], m.bytes[1..m.tag.count])]
  }

  /** What the decoder state at the next segment is known to be. */
  lemma NowAgrees(o: Out, cont: bool, header: byte, g: Seg)
    requires Link(o, cont) && (o.pkt.segs == [] ==> o.running == 0 && o.prev == 0)
    ensures var d := DecNow(o.pkt, header, g);
            && d.running == o.running
            && (o.running != 0 && o.prev == o.running ==> d.channel && IsChannel(o.running))
            && (o.pkt.segs == [] ==> d.sysex == StartsWithData(g) && !d.channel)
            && (o.pkt.segs != [] ==> Agrees(o, d, cont))
  {
    hide GoodPacket, NextDec;
  }

  /** Payload of a system exclusive message. */
  lemma EncodeCont(wire: seq<Packet>, o: Out, m: Message, prevTs: nat)
    requires OutInv(wire, o, true) && MessageOk(m, true) && Continues(m) && Bounded(o)
    ensures OutInv(wire, EncodeMessage(o, m, prevTs), true)
    ensures EncodeMessage(o, m, prevTs).lost == 0 ==>
              OutEvents(wire, EncodeMessage(o, m, prevTs)) == OutEvents(wire, o) + MessageEvents(m)
  {
    hide Bounded, GoodPacket, DoomedQueue, GoodQueue, WfQueue, OutEvents, WfPacket, PacketLen;
    SegFits(o, m, prevTs);
    var o1, g := Prepared(o, m, prevTs), NewSeg(o, m, prevTs);
    if Overflows(o, m, prevTs) {
      SealInv(wire, o, true);
    }
    var o2 := EncodeMessage(o, m, prevTs);
    if Link(o1, true) {
      NowAgrees(o1, true, Header(m.ts), g);
    }
    assert o2.pkt.segs[|o1.pkt.segs|] == g;
    AppendInv(wire, o1, true, Header(m.ts), g, o2, true);
  }

  /** A message written with its status byte. */
  lemma EncodeStatus(wire: seq<Packet>, o: Out, m: Message, prevTs: nat, cont: bool)
    requires OutInv(wire, o, cont) && MessageOk(m, cont) && Bounded(o)
    requires !Continues(m) && !ElidesStatus(o, m)
    ensures OutInv(wire, EncodeMessage(o, m, prevTs), m.tag.sysex)
    ensures EncodeMessage(o, m, prevTs).lost == 0 ==>
              OutEvents(wire, EncodeMessage(o, m, prevTs)) == OutEvents(wire, o) + MessageEvents(m)
  {
    hide Bounded, GoodPacket, DoomedQueue, GoodQueue, WfQueue, OutEvents, WfPacket, PacketLen;
    SegFits(o, m, prevTs);
    var o1, g := Prepared(o, m, prevTs), NewSeg(o, m, prevTs);
    if Overflows(o, m, prevTs) {
      SealInv(wire, o, cont);
    }
    var o2 := EncodeMessage(o, m, prevTs);
    if Link(o1, cont) {
      NowAgrees(o1, cont, Header(m.ts), g);
    }
    assert o2.pkt.segs[|o1.pkt.segs|] == g;
    assert m.bytes[..m.tag.count] == [m.bytes[0]] + m.bytes[1..m.tag.count];
    if m.tag.startSysex {
      assert Payload(m.bytes[..m.tag.count]) == [Sx(m.bytes[0])] + Payload(m.bytes[1..m.tag.count]);
    }
    AppendInv(wire, o1, cont, Header(m.ts), g, o2, m.tag.sysex);
  }

  /** A channel message under the packet's running status. */
  lemma EncodeRun(wire: seq<Packet>, o: Out, m: Message, prevTs: nat)
    requires OutInv(wire, o, false) && MessageOk(m, false) && Bounded(o)
    requires ElidesStatus(o, m)
    ensures OutInv(wire, EncodeMessage(o, m, prevTs), false)
    ensures EncodeMessage(o, m, prevTs).lost == 0 ==>
              OutEvents(wire, EncodeMessage(o, m, prevTs)) == OutEvents(wire, o) + MessageEvents(m)
  {
    hide Bounded, GoodPacket, DoomedQueue, GoodQueue, WfQueue, OutEvents, WfPacket, PacketLen;
    SegFits(o, m, prevTs);
    var o1, g := Prepared(o, m, prevTs), NewSeg(o, m, prevTs);
    if Overflows(o, m, prevTs) {
      SealInv(wire, o, false);
    }
    var o2 := EncodeMessage(o, m, prevTs);
    if Link(o1, false) {
      NowAgrees(o1, false, Header(m.ts), g);
    }
    assert m.bytes[..m.tag.count] == [m.bytes[0]] + m.bytes[1..m.tag.count];
    AppendInv(wire, o1, false, Header(m.ts), g, o2, false);
  }

  lemma EncodeInv(wire: seq<Packet>, o: Out, m: Message, prevTs: nat, cont: bool)
    requires OutInv(wire, o, cont) && MessageOk(m, cont) && Bounded(o)
    ensures OutInv(wire, EncodeMessage(o, m, prevTs), m.tag.sysex)
    ensures EncodeMessage(o, m, prevTs).lost == 0 ==> o.lost == 0
    ensures EncodeMessage(o, m, prevTs).lost == 0 ==>
              OutEvents(wire, EncodeMessage(o, m, prevTs)) == OutEvents(wire, o) + MessageEvents(m)
  {
    hide Bounded, OutInv, OutEvents, PacketLen, Hazard, NewSeg, Emit;
    if Continues(m) {
      EncodeCont(wire, o, m, prevTs);
    } else if ElidesStatus(o, m) {
      EncodeRun(wire, o, m, prevTs);
    } else {
      EncodeStatus(wire, o, m, prevTs, cont);
    }
  }

  lemma OnlyRealTimeMore(p: Packet, header: byte, g: Seg)
    requires g.Status? && IsRealTime(g.status)
    ensures OnlyRealTime(Emit(p, header, g)) == OnlyRealTime(p)
  {
    var q := Emit(p, header, g);
    assert q.segs[|p.segs|] == g;
    assert forall i :: 0 <= i < |p.segs| ==> q.segs[i] == p.segs[i];
  }

  /** A real-time message, anywhere. */
  lemma RealTimeInv(wire: seq<Packet>, o: Out, b: byte, t: nat, cont: bool)
    requires OutInv(wire, o, cont) && Bounded(o) && IsRealTime(b)
    ensures OutInv(wire, FlushOne(o, [(b, t)], 0), cont)
    ensures FlushOne(o, [(b, t)], 0).lost == 0 ==> o.lost == 0
    ensures FlushOne(o, [(b, t)], 0).lost == 0 ==>
              OutEvents(wire, FlushOne(o, [(b, t)], 0)) == OutEvents(wire, o) + [Rt(b)]
  {
    hide GoodPacket, DoomedQueue, GoodQueue, WfQueue, OutEvents, WfPacket;
    var full := PacketLen(o.pkt) + 2 >= o.mtu;
    var o1 := if full then Seal(o) else o;
    if full {
      SealInv(wire, o, cont);
    }
    var g := Status(Low(t), b, []);
    var o2 := FlushOne(o, [(b, t)], 0);
    if Link(o1, cont) {
      NowAgrees(o1, cont, Header(t), g);
    }
    OnlyRealTimeMore(o1.pkt, Header(t), g);
    hide OnlyRealTime, PacketLen, DecNow, Emit, OutWf, Link;
    AppendInv(wire, o1, cont, Header(t), g, o2, cont);
  }

  // The stream side: a reference parser for MIDI 1.0 streams

  /** Where in a stream we are: nowhere, ready for data under running status, inside a channel
      or system common message with some of its data, or inside a system exclusive message. */
  datatype Parse =
    | Idle
    | Running(status: byte)
    | InChannel(status: byte, data: seq<byte>)
    | InCommon(status: byte, data: seq<byte>)
    | InSysex

  /** The bytes a grammatical stream may continue with. A status byte may cut a channel or
      system common message short, which then is dropped. */
  predicate Legal(p: Parse, b: byte) {
    if IsRealTime(b) then true
    else if b == 0xF7 then p.InSysex?
    else if b >= 0x80 then !p.InSysex?
    else !p.Idle?
  }

  /** What the byte `b` completes, and where it leads. */
  function ParseByte(p: Parse, b: byte): (Parse, seq<Event>) {
    if IsRealTime(b) then (p, [Rt(b)])
    else if b == 0xF0 then (InSysex, [Sx(b)])
    else if b == 0xF7 then (Idle, [Sx(b)])
    else if b > 0xF0 then if CommonLen(b) == 1 then (Idle, [Msg([b])]) else (InCommon(b, []), [])
    else if b >= 0x80 then (InChannel(b, []), [])
    else match p
      case Idle => (Idle, [])
      case InSysex => (InSysex, [Sx(b)])
      case Running(s) =>
        if ChannelLen(s) == 2 then (Running(s), [Msg([s, b])]) else (InChannel(s, [b]), [])
      case InChannel(s, data) =>
        if |data| + 2 == ChannelLen(s) then (Running(s), [Msg([s] + (data + [b]))])
        else (InChannel(s, data + [b]), [])
      case InCommon(s, data) =>
        if |data| + 2 == CommonLen(s) then (Idle, [Msg([s] + (data + [b]))])
        else (InCommon(s, data + [b]), [])
  }

  /** The encoder's stream state stands for the parser state. */
  predicate Mirrors(e: Enc, p: Parse) {
    && Safe(e)
    && match p
       case Idle => !e.mes.tag.sysex && !e.mes.tag.channel && e.idx == 0
       case Running(s) =>
         && e.mes.tag.channel && e.mes.bytes[0] == s == e.running && IsChannel(s)
         && e.idx == 0 && e.mes.tag.count == ChannelLen(s)
       case InChannel(s, data) =>
         && e.mes.tag.channel && e.mes.bytes[0] == s == e.running && IsChannel(s)
         && e.idx == 1 + |data| < e.mes.tag.count == ChannelLen(s)
         && e.mes.bytes[1..e.idx] == data && AllData(data)
       case InCommon(s, data) =>
         && !e.mes.tag.sysex && !e.mes.tag.channel && e.mes.bytes[0] == s && IsCommon(s)
         && e.idx == 1 + |data| < e.mes.tag.count == CommonLen(s)
         && e.mes.bytes[1..e.idx] == data && AllData(data)
       case InSysex =>
         && e.mes.tag.sysex
         && (if e.mes.tag.startSysex then e.mes.bytes[0] == 0xF0 && AllData(e.mes.bytes[1..e.idx])
             else AllData(e.mes.bytes[..e.idx]))
  }

  /** The bytes of a system exclusive message not yet in any packet: at most two. */
  function Pending(e: Enc): seq<Event>
    requires Safe(e)
  {
    if e.mes.tag.sysex then Payload(e.mes.bytes[..e.idx]) else []
  }

  /** The whole invariant: `ref` are the events of the stream so far. */
  ghost predicate Inv(wire: seq<Packet>, e: Enc, p: Parse, ref: seq<Event>) {
    && Mirrors(e, p)
    && OutInv(wire, e.out, Continues(e.mes))
    && (e.out.lost == 0 ==> OutEvents(wire, e.out) + Pending(e) == ref)
  }

  /** Writing the pending message: sysex fragments move from Pending to the packet. */
  lemma EncodeStep(wire: seq<Packet>, e: Enc, cont: bool)
    requires MessageOk(e.mes, cont) && e.rt == [] && Bounded(e.out)
    requires OutInv(wire, e.out, cont)
    ensures var r := Encode(e);
            && r == e.(out := r.out) && OutInv(wire, r.out, e.mes.tag.sysex)
            && Bounded(r.out)
            && (r.out.lost == 0 ==> e.out.lost == 0)
            && (r.out.lost == 0 ==> OutEvents(wire, r.out) == OutEvents(wire, e.out) + MessageEvents(e.mes))
  {
    hide OutInv, OutEvents, Bounded, EncodeMessage;
    EncodeBounded(e);
    EncodeInv(wire, e.out, e.mes, e.prevTs, cont);
  }

  /** The step on `b` is no error and keeps the invariant. */
  ghost predicate StepKeeps(wire: seq<Packet>, o: StepOut, p: Parse, ref: seq<Event>, b: byte) {
    o.Next? && Inv(wire, o.e, ParseByte(p, b).0, ref + ParseByte(p, b).1)
  }

  lemma StartSysexStep(wire: seq<Packet>, e: Enc, p: Parse, ref: seq<Event>, t: nat)
    requires Inv(wire, e, p, ref) && Legal(p, 0xF0) && t < 0x2000
    ensures StepKeeps(wire, Next(StartSysex(e, t)), p, ref, 0xF0)
  {
    hide OutInv, OutEvents, Bounded;
    assert StartSysex(e, t).mes.bytes[..1] == [0xF0];
    assert Payload([0xF0]) == [Sx(0xF0)];
  }

  lemma EndSysexStep(wire: seq<Packet>, e: Enc, ref: seq<Event>)
    requires Inv(wire, e, InSysex, ref)
    ensures StepKeeps(wire, EndSysex(e), InSysex, ref, 0xF7)
  {
    hide OutInv, OutEvents, Bounded, EncodeMessage, Encode;
    EndSysexSafe(e);
    var e1 := e;
    if e.idx != 0 {
      EncodeStep(wire, e, Continues(e.mes));
      e1 := Encode(e);
    }
    var e2 := e1.(mes := Message(Plain(1), e.mes.bytes[0 := 0xF7], e.prevTs));
    EncodeStep(wire, e2, true);
    assert MessageEvents(e2.mes) == [Sx(0xF7)];
  }

  lemma RealTimeStep(wire: seq<Packet>, e: Enc, p: Parse, ref: seq<Event>, b: byte, t: nat)
    requires Inv(wire, e, p, ref) && IsRealTime(b) && t < 0x2000
    ensures StepKeeps(wire, RealTime(e, b, t), p, ref, b)
  {
    hide OutInv, OutEvents, Bounded, EncodeMessage, Encode, FlushOne;
    RealTimeSafe(e, b, t);
    CutSysexSafe(e);
    var e1 := CutSysex(e);
    if e.mes.tag.sysex && e.mes.tag.count > 0 {
      EncodeStep(wire, e, Continues(e.mes));
    }
    RealTimeInv(wire, e1.out, b, t, Continues(e1.mes));
  }

  lemma CommonStep(wire: seq<Packet>, e: Enc, p: Parse, ref: seq<Event>, b: byte, t: nat)
    requires Inv(wire, e, p, ref) && IsCommon(b) && Legal(p, b) && t < 0x2000
    ensures StepKeeps(wire, Next(Common(e, b, t)), p, ref, b)
  {
    hide OutInv, OutEvents, Bounded, EncodeMessage, Encode;
    CommonSafe(e, b, t);
    if CommonLen(b) == 1 {
      var e1 := e.(prevTs := t, running := 0, mes := Message(Plain(CommonLen(b)), e.mes.bytes[0 := b], t));
      EncodeStep(wire, e1, false);
      assert [b] + e1.mes.bytes[1..1] == [b];
    }
  }

  lemma ChannelStep(wire: seq<Packet>, e: Enc, p: Parse, ref: seq<Event>, b: byte, t: nat)
    requires Inv(wire, e, p, ref) && IsChannel(b) && Legal(p, b) && t < 0x2000
    ensures StepKeeps(wire, Next(Channel(e, b, t)), p, ref, b)
  {
    hide OutInv, OutEvents, Bounded;
  }

  lemma SysexDataStep(wire: seq<Packet>, e: Enc, ref: seq<Event>, b: byte)
    requires Inv(wire, e, InSysex, ref) && IsData(b)
    ensures StepKeeps(wire, Next(SysexData(e, b)), InSysex, ref, b)
  {
    hide OutInv, OutEvents, Bounded, EncodeMessage, Encode;
    SysexDataSafe(e, b);
    var mes := e.mes.(bytes := e.mes.bytes[e.idx := b], tag := e.mes.tag.(count := e.mes.tag.count + 1));
    assert mes.bytes[..e.idx + 1] == e.mes.bytes[..e.idx] + [b];
    assert Payload(mes.bytes[..e.idx + 1]) == Pending(e) + [Sx(b)];
    if e.idx + 1 == 3 {
      EncodeStep(wire, e.(mes := mes, idx := 3), Continues(e.mes));
    }
  }

  lemma RunningDataStep(wire: seq<Packet>, e: Enc, p: Parse, ref: seq<Event>, b: byte, t: nat)
    requires Inv(wire, e, p, ref) && p.Running? && IsData(b) && t < 0x2000
    ensures StepKeeps(wire, RunningData(e, b, t), p, ref, b)
  {
    hide OutInv, OutEvents, Bounded, EncodeMessage, Encode;
    RunningDataSafe(e, b, t);
    var mes := e.mes.(bytes := e.mes.bytes[1 := b], ts := t);
    assert mes.bytes[..2] == [p.status, b];
    assert mes.bytes[1..2] == [b];
    if e.mes.tag.count == 2 {
      EncodeStep(wire, e.(mes := mes, idx := 2), false);
    }
  }

  lemma MessageDataStep(wire: seq<Packet>, e: Enc, p: Parse, ref: seq<Event>, b: byte)
    requires Inv(wire, e, p, ref) && (p.InChannel? || p.InCommon?) && IsData(b)
    ensures StepKeeps(wire, MessageData(e, b), p, ref, b)
  {
    hide OutInv, OutEvents, Bounded, EncodeMessage, Encode;
    MessageDataSafe(e, b);
    var mes := e.mes.(bytes := e.mes.bytes[e.idx := b]);
    var n := e.idx + 1;
    assert mes.bytes[1..n] == p.data + [b];
    assert mes.bytes[..n] == [p.status] + (p.data + [b]);
    if n == e.mes.tag.count {
      EncodeStep(wire, e.(mes := mes, idx := n), false);
    }
  }

  /** A byte written behind others. */
  lemma ByteWritten(s: seq<byte>, i: nat, b: byte)
    requires i < |s|
    ensures s[i := b][..i + 1] == s[..i] + [b]
    ensures i > 0 ==> s[i := b][1..i + 1] == s[1..i] + [b]
  {
  }

  /** Every legal byte is encoded without error and keeps the invariant. */
  lemma StepInv(wire: seq<Packet>, e: Enc, p: Parse, ref: seq<Event>, b: byte, t: nat)
    requires Inv(wire, e, p, ref) && Legal(p, b) && t < 0x2000
    ensures StepKeeps(wire, Step(e, b, t), p, ref, b)
  {
    hide OutInv, OutEvents, Bounded, StartSysex, EndSysex, RealTime, Common, Channel, SysexData, RunningData,
         MessageData, StepKeeps;
    if b == 0xF0 {
      StartSysexStep(wire, e, p, ref, t);
    } else if b == 0xF7 {
      EndSysexStep(wire, e, ref);
    } else if IsRealTime(b) {
      RealTimeStep(wire, e, p, ref, b, t);
    } else if b > 0xF0 {
      CommonStep(wire, e, p, ref, b, t);
    } else if b >= 0x80 {
      ChannelStep(wire, e, p, ref, b, t);
    } else if e.mes.tag.sysex {
      SysexDataStep(wire, e, ref, b);
    } else if e.mes.tag.channel && e.idx == 0 {
      RunningDataStep(wire, e, p, ref, b, t);
    } else {
      MessageDataStep(wire, e, p, ref, b);
    }
  }

  // Whole runs

  predicate LegalStream(p: Parse, s: seq<byte>)
    decreases |s|
  {
    s == [] || (Legal(p, s[0]) && LegalStream(ParseByte(p, s[0]).0, s[1..]))
  }

  function ParseStream(p: Parse, s: seq<byte>): (Parse, seq<Event>)
    decreases |s|
  {
    if s == [] then (p, [])
    else
      var (p1, evs) := ParseByte(p, s[0]);
      var (p2, rest) := ParseStream(p1, s[1..]);
      (p2, evs + rest)
  }

  lemma {:induction false} LoopInv(wire: seq<Packet>, e: Enc, p: Parse, ref: seq<Event>,
                                   stream: seq<byte>, i: nat, t: nat)
    requires Inv(wire, e, p, ref) && t < 0x2000 && i <= |stream| && LegalStream(p, stream[i..])
    ensures var r := Loop(e, stream, i, t);
            && !r.failed && r.taken == |stream|
            && Inv(wire, r.e, ParseStream(p, stream[i..]).0, ref + ParseStream(p, stream[i..]).1)
    decreases |stream| - i
  {
    hide Step, Loop, Legal, ParseByte, Inv, ParseStream, LegalStream, Safe, PacketLen;
    InvSafe(wire, e, p, ref);
    LoopTurn(e, stream, i, t);
    StreamTurn(p, stream, i);
    if i == |stream| {
      assert ref + [] == ref;
    } else {
      var p1, evs := ParseByte(p, stream[i]).0, ParseByte(p, stream[i]).1;
      var e1 := Step(e, stream[i], t).e;
      StepInv(wire, e, p, ref, stream[i], t);
      LoopInv(wire, e1, p1, ref + evs, stream, i + 1, t);
      var rest := ParseStream(p1, stream[i + 1..]).1;
      assert (ref + evs) + rest == ref + (evs + rest);
    }
  }

  lemma StreamTurn(p: Parse, stream: seq<byte>, i: nat)
    requires i <= |stream|
    ensures i == |stream| ==> ParseStream(p, stream[i..]) == (p, [])
    ensures i < |stream| ==>
              var p1 := ParseByte(p, stream[i]).0;
              && ParseStream(p, stream[i..]).0 == ParseStream(p1, stream[i + 1..]).0
              && ParseStream(p, stream[i..]).1 == ParseByte(p, stream[i]).1 + ParseStream(p1, stream[i + 1..]).1
              && (LegalStream(p, stream[i..]) ==> Legal(p, stream[i]) && LegalStream(p1, stream[i + 1..]))
  {
    hide Legal, ParseByte;
    if i < |stream| {
      assert stream[i..][1..] == stream[i + 1..];
    }
  }

  /** A call of push_midi at a time, after which the transmitter takes some of the packets ready. */
  datatype Call = Call(stream: seq<byte>, t: nat, taken: nat)

  predicate Timed(calls: seq<Call>) {
    forall i :: 0 <= i < |calls| ==> calls[i].t < 0x2000
  }

  /** The encoder and the packets sent after a run of calls. */
  function RunCalls(e: Enc, wire: seq<Packet>, calls: seq<Call>): (Enc, seq<Packet>)
    requires Safe(e) && Timed(calls)
    decreases |calls|
  {
    if calls == [] then (e, wire)
    else
      var r := Push(e, calls[0].stream, calls[0].t).e;
      DrainSafe(r, calls[0].taken);
      RunCalls(Drain(r, calls[0].taken), wire + Taken(r, calls[0].taken), calls[1..])
  }

  function Taken(e: Enc, n: nat): seq<Packet> {
    e.out.queue[..Min(n, |e.out.queue|)]
  }

  function Drain(e: Enc, n: nat): Enc {
    e.(out := e.out.(queue := e.out.queue[Min(n, |e.out.queue|)..]))
  }

  lemma DrainSafe(e: Enc, n: nat)
    requires Safe(e)
    ensures Safe(Drain(e, n))
  {
  }

  predicate LegalRun(p: Parse, calls: seq<Call>)
    decreases |calls|
  {
    calls == [] ||
    (LegalStream(p, calls[0].stream) && LegalRun(ParseStream(p, calls[0].stream).0, calls[1..]))
  }

  function ParseRun(p: Parse, calls: seq<Call>): (Parse, seq<Event>)
    decreases |calls|
  {
    if calls == [] then (p, [])
    else
      var (p1, evs) := ParseStream(p, calls[0].stream);
      var (p2, rest) := ParseRun(p1, calls[1..]);
      (p2, evs + rest)
  }

  /** A call keeps the invariant and leaves no packet open. */
  lemma PushInv(wire: seq<Packet>, e: Enc, p: Parse, ref: seq<Event>, c: Call)
    requires Inv(wire, e, p, ref) && e.out.pkt.segs == [] && c.t < 0x2000 && LegalStream(p, c.stream)
    ensures var r := Push(e, c.stream, c.t);
            && !r.failed && r.taken == |c.stream| && r.e.out.pkt.segs == []
            && Inv(wire, r.e, ParseStream(p, c.stream).0, ref + ParseStream(p, c.stream).1)
  {
    hide Loop, OutInv, OutEvents, Bounded, Step;
    assert c.stream[0..] == c.stream;
    LoopTurn(e, c.stream, 0, c.t);
    LoopInv(wire, e, p, ref, c.stream, 0, c.t);
    var r := Loop(e, c.stream, 0, c.t);
    if r.taken != 0 && r.e.out.pkt.segs != [] {
      SealInv(wire, r.e.out, Continues(r.e.mes));
    }
  }

  lemma TakenSent(wire: seq<Packet>, e: Enc, n: nat)
    ensures Sent(wire + Taken(e, n), Drain(e, n).out) == Sent(wire, e.out)
  {
    var q, k := e.out.queue, Min(n, |e.out.queue|);
    assert (wire + q[..k]) + q[k..] == wire + q;
  }

  /** Only what was sent and what is ready matters, not how much of it was sent. */
  lemma SameSent(wire: seq<Packet>, o: Out, wire': seq<Packet>, o': Out, cont: bool)
    requires OutInv(wire, o, cont) && o' == o.(queue := o'.queue) && Sent(wire', o') == Sent(wire, o)
    ensures OutInv(wire', o', cont) && OutEvents(wire', o') == OutEvents(wire, o)
  {
    hide WfQueue, GoodQueue, DoomedQueue, PacketEvents, Events, WfPacket, Doomed, GoodPacket, Sent, DecAfter,
         OnlyRealTime;
  }

  lemma DrainInv(wire: seq<Packet>, e: Enc, p: Parse, ref: seq<Event>, n: nat)
    requires Inv(wire, e, p, ref)
    ensures Inv(wire + Taken(e, n), Drain(e, n), p, ref)
  {
    hide OutInv, OutEvents, Safe, Sent;
    InvSafe(wire, e, p, ref);
    DrainSafe(e, n);
    TakenSent(wire, e, n);
    SameSent(wire, e.out, wire + Taken(e, n), Drain(e, n).out, Continues(e.mes));
  }

  lemma {:induction false} RunInv(wire: seq<Packet>, e: Enc, p: Parse, ref: seq<Event>, calls: seq<Call>)
    requires Inv(wire, e, p, ref) && e.out.pkt.segs == []
    requires Timed(calls) && LegalRun(p, calls)
    ensures var (e', wire') := RunCalls(e, wire, calls);
            && e'.out.pkt.segs == []
            && Inv(wire', e', ParseRun(p, calls).0, ref + ParseRun(p, calls).1)
    decreases |calls|
  {
    hide Push, OutInv, OutEvents, Bounded, Inv;
    InvSafe(wire, e, p, ref);
    if calls == [] {
      assert ref + [] == ref;
    } else {
      PushInv(wire, e, p, ref, calls[0]);
      var r := Push(e, calls[0].stream, calls[0].t).e;
      var (p1, evs) := ParseStream(p, calls[0].stream);
      DrainInv(wire, r, p1, ref + evs, calls[0].taken);
      RunInv(wire + Taken(r, calls[0].taken), Drain(r, calls[0].taken), p1, ref + evs, calls[1..]);
      assert (ref + evs) + ParseRun(p1, calls[1..]).1 == ref + (evs + ParseRun(p1, calls[1..]).1);
    }
  }

  lemma InvSafe(wire: seq<Packet>, e: Enc, p: Parse, ref: seq<Event>)
    requires Inv(wire, e, p, ref)
    ensures Safe(e) && PacketLen(e.out.pkt) < e.out.mtu
  {
    hide OutInv, OutEvents, PacketLen;
  }

  lemma InitInv(mtu: nat, cap: nat)
    requires mtu >= 6
    ensures Inv([], Init(mtu, cap), Idle, [])
  {
    hide WfPacket, GoodPacket, Safe, Events;
    EmptyWf();
    InitSafe(mtu, cap);
  }

  /** All that the decoder makes of the packets sent. */
  function DecodedEvents(wire: seq<Packet>): seq<Event> {
    if wire == [] then []
    else DecodedEvents(wire[..|wire| - 1]) + Unstamp(DecodePacket(PacketBytes(wire[|wire| - 1])).toks)
  }

  predicate AllDecoded(wire: seq<Packet>) {
    forall i :: 0 <= i < |wire| ==> Complete(DecodePacket(PacketBytes(wire[i])))
  }

  lemma {:induction false} GoodWire(wire: seq<Packet>)
    requires WfQueue(wire) && GoodQueue(wire)
    ensures AllDecoded(wire) && DecodedEvents(wire) == PacketEvents(wire)
  {
    hide DecodePacket, GoodPacket, WfPacket, Events, PacketBytes, Unstamp, Complete;
    if wire != [] {
      var init, p := wire[..|wire| - 1], wire[|wire| - 1];
      assert WfQueue(init) && GoodQueue(init);
      GoodWire(init);
      DecodeGoodPacket(p);
      assert forall i :: 0 <= i < |init| ==> wire[i] == init[i];
    }
  }

  /** A run of calls on a new codec. */
  function RunFrom(mtu: nat, cap: nat, calls: seq<Call>): (Enc, seq<Packet>)
    requires mtu >= 6 && Timed(calls)
  {
    InitSafe(mtu, cap);
    RunCalls(Init(mtu, cap), [], calls)
  }

  /** The packets of a good run are decoded as the stream, those of a bad one are not. */
  lemma DecodedIff(wire: seq<Packet>, e: Enc, p: Parse, ref: seq<Event>)
    requires Inv(wire, e, p, ref) && e.out.pkt.segs == [] && e.out.lost == 0
    ensures |Pending(e)| <= 2
    ensures var all := Sent(wire, e.out); e.out.clean <==> AllDecoded(all) && DecodedEvents(all) + Pending(e) == ref
  {
    hide Doomed, GoodPacket, WfPacket, DecodePacket, PacketEvents, DecodedEvents;
    var all := Sent(wire, e.out);
    EmptyWf();
    assert PacketEvents(all) + [] == PacketEvents(all);
    if e.out.clean {
      GoodWire(all);
    } else {
      NotDoomedEmpty(e.out.pkt);
      var i :| 0 <= i < |all| && Doomed(all[i]);
      DoomedIncomplete(all[i]);
    }
  }

  /** Round trip. After any run of grammatical calls in which the ring never overflowed, however many
      packets were taken in between: every packet is decoded to its end and together they yield exactly
      the messages of the stream, up to a fragment of at most two bytes the encoder still holds, if
      and only if no hazard occurred. */
  lemma RoundTrip(mtu: nat, cap: nat, calls: seq<Call>)
    requires mtu >= 6 && Timed(calls) && LegalRun(Idle, calls)
    requires RunFrom(mtu, cap, calls).0.out.lost == 0
    ensures var (e, wire) := RunFrom(mtu, cap, calls);
            && Safe(e)
            && |Pending(e)| <= 2
            && var all := Sent(wire, e.out);
               e.out.clean <==> AllDecoded(all) && DecodedEvents(all) + Pending(e) == ParseRun(Idle, calls).1
  {
    hide RunCalls, Inv, Sent, AllDecoded, DecodedEvents;
    InitSafe(mtu, cap);
    InitInv(mtu, cap);
    RunInv([], Init(mtu, cap), Idle, [], calls);
    var (e, wire) := RunCalls(Init(mtu, cap), [], calls);
    assert [] + ParseRun(Idle, calls).1 == ParseRun(Idle, calls).1;
    InvSafe(wire, e, ParseRun(Idle, calls).0, ParseRun(Idle, calls).1);
    DecodedIff(wire, e, ParseRun(Idle, calls).0, ParseRun(Idle, calls).1);
  }

  lemma NotDoomedEmpty(p: Packet)
    requires p.segs == []
    ensures !Doomed(p)
  {
  }
}
