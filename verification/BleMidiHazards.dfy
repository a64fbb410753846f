/** Calls that never meet a hazard of the BLE-MIDI encoder, and runs that meet each of them. */
module BleMidiHazards {
  import opened Bytes
  import opened BleMidi
  import opened BleMidiEncoding
  import opened BleMidiDecoding
  import opened BleMidiSegments
  import opened BleMidiRoundTrip
  import opened BleMidiLoss

  // Calls that cannot meet a hazard

  /** Bytes of the message under assembly that will need room in the packet, stamp included. */
  function Outstanding(e: Enc): nat {
    if e.mes.tag.sysex then e.idx + Bit(e.mes.tag.startSysex, 1)
    else if e.idx > 0 then e.idx + 1
    else 0
  }

  /** After `i` bytes of a call: room needed, and no way into a hazard. */
  predicate Fits(e: Enc, i: nat) {
    && Max(PacketLen(e.out.pkt), 1) + Outstanding(e) <= 1 + 2 * i + Bit(e.mes.tag.channel && e.idx == 2, 1)
    && (Continues(e.mes) ==> !OnlyRealTime(e.out.pkt))
    && (e.mes.tag.channel ==> e.mes.tag.count == 3)
    && e.out.clean
  }

  /** Not the status of a two-byte channel message. */
  predicate NotTwoByte(b: byte) {
    IsChannel(b) ==> ChannelLen(b) == 3
  }

  lemma EncodeFits(e: Enc, cont: bool)
    requires MessageOk(e.mes, cont) && e.rt == [] && Bounded(e.out) && e.out.clean
    requires Max(PacketLen(e.out.pkt), 1) + e.mes.tag.count + 1 < e.out.mtu
    requires Continues(e.mes) ==> !OnlyRealTime(e.out.pkt)
    requires e.mes.tag.channel ==> e.mes.tag.count == 3
    ensures var r := Encode(e);
            && r.out.clean && r.out.mtu == e.out.mtu && !OnlyRealTime(r.out.pkt)
            && PacketLen(r.out.pkt) <= Max(PacketLen(e.out.pkt), 1) + e.mes.tag.count + Bit(!Continues(e.mes), 1)
  {
    hide PacketLen, SegBytes, Bounded, Encode;
    EncodeBounded(e);
    var m := e.mes;
    var g := NewSeg(e.out, m, e.prevTs);
    SegLength(m, NeedsStamp(e.out, m, e.prevTs), ElidesStatus(e.out, m));
    EmitLength(e.out.pkt, Header(m.ts), g);
    var q := EncodeMessage(e.out, m, e.prevTs).pkt;
    assert q.segs[|e.out.pkt.segs|] == g;
  }

  lemma FlushFits(o: Out, b: byte, t: nat)
    requires PacketLen(o.pkt) + 2 < o.mtu && IsRealTime(b)
    ensures var r := FlushOne(o, [(b, t)], 0);
            && r.clean == o.clean && r.mtu == o.mtu
            && PacketLen(r.pkt) == Max(PacketLen(o.pkt), 1) + 2
            && OnlyRealTime(r.pkt) == OnlyRealTime(o.pkt)
  {
    hide PacketLen, SegBytes;
    var g := Status(Low(t), b, []);
    SegBytesOf(Low(t), b);
    EmitLength(o.pkt, Header(t), g);
    var q := Emit(o.pkt, Header(t), g);
    assert forall i :: 0 <= i < |o.pkt.segs| ==> q.segs[i] == o.pkt.segs[i];
    assert q.segs[|o.pkt.segs|] == g;
  }

  lemma SegBytesOf(ts: byte, b: byte)
    ensures |SegBytes(Status(ts, b, []))| == 2
  {
  }

  lemma RealTimeFits(e: Enc, p: Parse, i: nat, b: byte, t: nat)
    requires Mirrors(e, p) && IsRealTime(b) && t < 0x2000
    requires Fits(e, i) && 2 * i + 4 < e.out.mtu
    ensures RealTime(e, b, t).e.out.mtu == e.out.mtu && Fits(RealTime(e, b, t).e, i + 1)
  {
    hide Encode, EncodeMessage, Bounded, PacketLen, OnlyRealTime, FlushOne;
    RealTimeSafe(e, b, t);
    if e.mes.tag.sysex && e.mes.tag.count > 0 {
      EncodeFits(e, Continues(e.mes));
    }
    FlushFits(CutSysex(e).out, b, t);
  }

  lemma EndSysexFits(e: Enc, i: nat)
    requires Mirrors(e, InSysex)
    requires Fits(e, i) && 2 * i + 4 < e.out.mtu
    ensures EndSysex(e).e.out.mtu == e.out.mtu && Fits(EndSysex(e).e, i + 1)
  {
    hide EncodeMessage, Bounded, PacketLen, OnlyRealTime, Encode;
    var e1 := e;
    EncodeBounded(e);
    if e.idx != 0 {
      EncodeFits(e, Continues(e.mes));
      e1 := Encode(e);
    }
    EncodeFits(e1.(mes := Message(Plain(1), e.mes.bytes[0 := 0xF7], e.prevTs)), true);
  }

  lemma StepFits(e: Enc, p: Parse, i: nat, b: byte, t: nat)
    requires Mirrors(e, p) && Legal(p, b) && NotTwoByte(b) && t < 0x2000
    requires Fits(e, i) && 2 * i + 4 < e.out.mtu
    ensures Step(e, b, t).e.out.mtu == e.out.mtu && Fits(Step(e, b, t).e, i + 1)
  {
    hide Encode, EncodeMessage, Bounded, PacketLen, OnlyRealTime, RealTime, EndSysex;
    if IsRealTime(b) {
      RealTimeFits(e, p, i, b, t);
    } else if b == 0xF7 {
      EndSysexFits(e, i);
    } else if IsCommon(b) {
      if CommonLen(b) == 1 {
        EncodeFits(e.(prevTs := t, running := 0, mes := Message(Plain(1), e.mes.bytes[0 := b], t)), false);
      }
    } else if IsData(b) {
      DataFits(e, p, i, b, t);
    }
  }

  lemma DataFits(e: Enc, p: Parse, i: nat, b: byte, t: nat)
    requires Mirrors(e, p) && Legal(p, b) && IsData(b) && t < 0x2000
    requires Fits(e, i) && 2 * i + 4 < e.out.mtu
    ensures Step(e, b, t).e.out.mtu == e.out.mtu && Fits(Step(e, b, t).e, i + 1)
  {
    hide Encode, EncodeMessage, Bounded, PacketLen, OnlyRealTime;
    ByteWritten(e.mes.bytes, if e.idx < 3 then e.idx else 0, b);
    if p.InSysex? {
      if e.idx + 1 == 3 {
        var mes := e.mes.(bytes := e.mes.bytes[e.idx := b], tag := e.mes.tag.(count := e.mes.tag.count + 1));
        EncodeFits(e.(mes := mes, idx := 3), Continues(e.mes));
      }
    } else if !p.Running? && e.idx + 1 == e.mes.tag.count {
      var mes := e.mes.(bytes := e.mes.bytes[e.idx := b]);
      EncodeFits(e.(mes := mes, idx := e.idx + 1), false);
    }
  }

  lemma {:induction false} LoopFits(wire: seq<Packet>, e: Enc, p: Parse, ref: seq<Event>,
                                    stream: seq<byte>, i: nat, t: nat)
    requires Inv(wire, e, p, ref) && t < 0x2000 && i <= |stream| && LegalStream(p, stream[i..])
    requires forall k :: i <= k < |stream| ==> NotTwoByte(stream[k])
    requires Fits(e, i) && 2 * |stream| + 2 < e.out.mtu
    ensures Loop(e, stream, i, t).e.out.clean
    ensures Loop(e, stream, i, t).e.out.mtu == e.out.mtu
    decreases |stream| - i
  {
    hide Step, Loop, Legal, ParseByte, ParseStream, LegalStream, Safe, PacketLen, OutInv, OutEvents, OnlyRealTime;
    InvSafe(wire, e, p, ref);
    LoopTurn(e, stream, i, t);
    StreamTurn(p, stream, i);
    if i < |stream| {
      StepFits(e, p, i, stream[i], t);
      StepInv(wire, e, p, ref, stream[i], t);
      LoopFits(wire, Step(e, stream[i], t).e, ParseByte(p, stream[i]).0, ref + ParseByte(p, stream[i]).1, stream, i + 1, t);
    }
  }

  /** Calls of whole messages, all short enough for the MTU (twice the length and two bytes
      are below it) and without two-byte channel messages. */
  predicate ShortRun(p: Parse, mtu: nat, calls: seq<Call>)
    decreases |calls|
  {
    calls == [] ||
    (&& (p.Idle? || (p.Running? && ChannelLen(p.status) == 3))
     && 2 * |calls[0].stream| + 2 < mtu
     && (forall k :: 0 <= k < |calls[0].stream| ==> NotTwoByte(calls[0].stream[k]))
     && ShortRun(ParseStream(p, calls[0].stream).0, mtu, calls[1..]))
  }

  lemma {:induction false} ShortRunClean(wire: seq<Packet>, e: Enc, p: Parse, ref: seq<Event>, calls: seq<Call>)
    requires Inv(wire, e, p, ref) && e.out.pkt.segs == [] && e.out.clean
    requires Timed(calls) && LegalRun(p, calls) && ShortRun(p, e.out.mtu, calls)
    ensures Safe(e) && RunCalls(e, wire, calls).0.out.clean
    decreases |calls|
  {
    hide Push, OutInv, OutEvents, Bounded, Inv, NotTwoByte, Safe;
    InvSafe(wire, e, p, ref);
    if calls != [] {
      ShortCallClean(wire, e, p, ref, calls[0]);
      PushInv(wire, e, p, ref, calls[0]);
      var r := Push(e, calls[0].stream, calls[0].t).e;
      var p1, evs := ParseStream(p, calls[0].stream).0, ParseStream(p, calls[0].stream).1;
      DrainInv(wire, r, p1, ref + evs, calls[0].taken);
      ShortRunClean(wire + Taken(r, calls[0].taken), Drain(r, calls[0].taken), p1, ref + evs, calls[1..]);
    }
  }

  lemma ShortCallClean(wire: seq<Packet>, e: Enc, p: Parse, ref: seq<Event>, c: Call)
    requires Inv(wire, e, p, ref) && e.out.pkt.segs == [] && e.out.clean
    requires p.Idle? || (p.Running? && ChannelLen(p.status) == 3)
    requires c.t < 0x2000 && LegalStream(p, c.stream) && forall k :: 0 <= k < |c.stream| ==> NotTwoByte(c.stream[k])
    requires 2 * |c.stream| + 2 < e.out.mtu
    ensures Safe(e) && Push(e, c.stream, c.t).e.out.clean
    ensures Push(e, c.stream, c.t).e.out.mtu == e.out.mtu
  {
    hide Loop, OutInv, OutEvents, Bounded;
    assert c.stream[0..] == c.stream;
    LoopFits(wire, e, p, ref, c.stream, 0, c.t);
  }

  /** Short calls of whole messages always make the round trip, less the packets lost. */
  lemma ShortRunsRoundTrip(mtu: nat, cap: nat, calls: seq<Call>)
    requires mtu >= 6 && Timed(calls) && LegalRun(Idle, calls) && ShortRun(Idle, mtu, calls)
    ensures var (e, wire) := RunFrom(mtu, cap, calls);
            var said := ParseRun(Idle, calls).1;
            && Safe(e)
            && var all := Sent(wire, e.out);
               && AllDecoded(all) && Within(DecodedEvents(all) + Pending(e), said)
               && (e.out.lost == 0 ==> DecodedEvents(all) + Pending(e) == said)
  {
    hide RunCalls, AllDecoded, DecodedEvents, Sent, Safe, ShortRun, Timed, LegalRun, LeftOut, Within;
    InitSafe(mtu, cap);
    InitInv(mtu, cap);
    ShortRunClean([], Init(mtu, cap), Idle, [], calls);
    LossyRoundTrip(mtu, cap, calls);
    if RunFrom(mtu, cap, calls).0.out.lost == 0 {
      RoundTrip(mtu, cap, calls);
    }
  }

  // Concrete runs

  /** The byte loop goes through these states. */
  predicate Passes(states: seq<Enc>, stream: seq<byte>, t: nat)
    requires t < 0x2000
  {
    && |states| == |stream| + 1
    && (forall k :: 0 <= k < |states| ==> Safe(states[k]))
    && forall k :: 0 <= k < |stream| ==> Step(states[k], stream[k], t) == Next(states[k + 1])
  }

  lemma {:induction false} LoopPasses(states: seq<Enc>, stream: seq<byte>, i: nat, t: nat)
    requires t < 0x2000 && Passes(states, stream, t) && i <= |stream|
    ensures Loop(states[i], stream, i, t) == PushOut(states[|stream|], |stream|, false)
    decreases |stream| - i
  {
    hide Step, Loop, Safe, PacketLen;
    SafeLength(states[i]);
    LoopTurn(states[i], stream, i, t);
    if i < |stream| {
      LoopPasses(states, stream, i + 1, t);
    }
  }

  lemma SafeLength(e: Enc)
    requires Safe(e)
    ensures PacketLen(e.out.pkt) < e.out.mtu
  {
  }

  /** The bytes take the encoder from one state to another. */
  ghost predicate Reaches(e: Enc, stream: seq<byte>, t: nat, e': Enc) {
    t < 0x2000 &&
    exists states: seq<Enc> :: Passes(states, stream, t) && states[0] == e && states[|stream|] == e'
  }

  lemma ReachesItself(e: Enc, t: nat)
    requires Safe(e) && t < 0x2000
    ensures Reaches(e, [], t, e)
  {
    hide Step, Safe;
    assert Passes([e], [], t);
  }

  lemma ReachesMore(e: Enc, stream: seq<byte>, t: nat, e1: Enc, b: byte, e2: Enc, longer: seq<byte>)
    requires Reaches(e, stream, t, e1) && longer == stream + [b]
    requires Safe(e1) ==> Step(e1, b, t) == Next(e2)
    ensures Reaches(e, longer, t, e2)
  {
    hide Step, Safe;
    var states: seq<Enc> :| Passes(states, stream, t) && states[0] == e && states[|stream|] == e1;
    StepSafe(e1, b, t);
    var more, s := states + [e2], stream + [b];
    forall k | 0 <= k < |s| ensures Step(more[k], s[k], t) == Next(more[k + 1]) {
      if k < |stream| {
        assert more[k] == states[k] && more[k + 1] == states[k + 1] && s[k] == stream[k];
      }
    }
    assert Passes(more, s, t);
  }

  /** The packet of a call is sealed at its end. */
  function Sealed(e: Enc): Enc {
    if e.out.pkt.segs == [] then e else e.(out := Seal(e.out))
  }

  lemma PushReaches(e: Enc, stream: seq<byte>, t: nat, e': Enc)
    requires Reaches(e, stream, t, e') && stream != []
    ensures Safe(e) && Push(e, stream, t).e == Sealed(e')
  {
    hide Loop, Safe, Step;
    var states: seq<Enc> :| Passes(states, stream, t) && states[0] == e && states[|stream|] == e';
    LoopPasses(states, stream, 0, t);
  }

  /** More packets than any of these runs makes ready. */
  const ALL := 9

  /** A run of one call. */
  lemma RunOne(e: Enc, stream: seq<byte>, t: nat)
    requires Safe(e) && t < 0x2000 && |Push(e, stream, t).e.out.queue| <= ALL
    ensures var r := Push(e, stream, t).e;
            RunCalls(e, [], [Call(stream, t, ALL)]) == (r.(out := r.out.(queue := [])), r.out.queue)
  {
    hide Push, Safe, RunCalls;
    var r := Push(e, stream, t).e;
    CallFirst(e, [], Call(stream, t, ALL), []);
    assert [Call(stream, t, ALL)] + [] == [Call(stream, t, ALL)];
    TakesAll(r);
    assert [] + Taken(r, ALL) == r.out.queue;
  }

  lemma TakesAll(r: Enc)
    requires |r.out.queue| <= ALL
    ensures Taken(r, ALL) == r.out.queue && Drain(r, ALL) == r.(out := r.out.(queue := []))
  {
  }

  /** The first call of a run. */
  lemma CallFirst(e: Enc, wire: seq<Packet>, c: Call, rest: seq<Call>)
    requires Safe(e) && c.t < 0x2000 && Timed(rest)
    ensures var r := Push(e, c.stream, c.t).e;
            && Safe(Drain(r, c.taken))
            && RunCalls(e, wire, [c] + rest) == RunCalls(Drain(r, c.taken), wire + Taken(r, c.taken), rest)
            && RunCalls(e, wire, []) == (e, wire)
            && (rest == [] ==> RunCalls(e, wire, [c] + rest) == (Drain(r, c.taken), wire + Taken(r, c.taken)))
  {
    hide Push, Safe;
    DrainSafe(Push(e, c.stream, c.t).e, c.taken);
    assert ([c] + rest)[1..] == rest;
  }

  /** A run of two calls, with `m` the state between them. */
  lemma RunTwo(e: Enc, s: seq<byte>, t: nat, m: Enc, s': seq<byte>, t': nat)
    requires Safe(e) && t < 0x2000 && t' < 0x2000 && |Push(e, s, t).e.out.queue| <= ALL
    requires Safe(m) && m == Drain(Push(e, s, t).e, ALL) && |Push(m, s', t').e.out.queue| <= ALL
    ensures var (r, r') := (Push(e, s, t).e, Push(m, s', t').e);
            RunCalls(e, [], [Call(s, t, ALL), Call(s', t', ALL)])
            == (r'.(out := r'.out.(queue := [])), r.out.queue + r'.out.queue)
  {
    hide Push, Safe, RunCalls, Taken, Drain;
    var r, r' := Push(e, s, t).e, Push(m, s', t').e;
    var c, c' := Call(s, t, ALL), Call(s', t', ALL);
    CallFirst(e, [], c, [c']);
    CallFirst(m, r.out.queue, c', []);
    assert [c] + [c'] == [c, c'] && [c'] + [] == [c'];
    TakesAll(r);
    TakesAll(r');
    assert [] + Taken(r, ALL) == r.out.queue;
  }

  /** A channel message that fits. */
  lemma ChannelEncoded(o: Out, m: Message, prevTs: nat, len: nat)
    requires IsMessage(m) && m.tag == ChannelTag(m.tag.count) && 2 <= m.tag.count <= 3 && m.bytes[0] >= 0x80
    requires PacketLen(o.pkt) == len && len + m.tag.count + 1 < o.mtu
    ensures var elided, stamped := o.running == m.bytes[0], NeedsStamp(o, m, prevTs);
            var g := if elided then Run(if stamped then Some(Low(m.ts)) else None, m.bytes[0], m.bytes[1..m.tag.count])
                     else Status(Low(m.ts), m.bytes[0], m.bytes[1..m.tag.count]);
            EncodeMessage(o, m, prevTs)
            == o.(pkt := Emit(o.pkt, Header(m.ts), g), running := m.bytes[0], prev := m.bytes[0],
                  clean := o.clean && (stamped || !elided || m.tag.count == 3))
  {
    hide PacketLen;
  }

  /** A fragment of a system exclusive message that fits. */
  lemma FragmentEncoded(o: Out, m: Message, prevTs: nat, len: nat)
    requires IsMessage(m) && m.tag.count == 3 && m.tag == Tag(m.tag.startSysex, true, false, false, 3)
    requires PacketLen(o.pkt) == len && len + 4 < o.mtu
    ensures var g := if m.tag.startSysex then Status(Low(m.ts), m.bytes[0], m.bytes[1..3]) else Cont(None, m.bytes[..3]);
            EncodeMessage(o, m, prevTs)
            == o.(pkt := Emit(o.pkt, Header(m.ts), g),
                  prev := if m.bytes[0] >= 0x80 then m.bytes[0] else o.prev,
                  clean := o.clean && (m.tag.startSysex || o.pkt.segs == [] || !OnlyRealTime(o.pkt)))
  {
    hide PacketLen, OnlyRealTime;
  }

  lemma FlatOne(g: Seg)
    ensures Flat([g]) == SegBytes(g)
  {
    FlatSingle(g);
  }

  lemma FlatTwo(g: Seg, g': Seg)
    ensures Flat([g, g']) == SegBytes(g) + SegBytes(g')
  {
    FlatSingle(g);
    FlatAppend([g], g');
    assert [g] + [g'] == [g, g'];
  }

  lemma NothingLen(p: Packet)
    requires p.segs == []
    ensures PacketLen(p) == 0
  {
  }

  // Single bytes

  lemma ChannelByte(e: Enc, b: byte, t: nat)
    requires Safe(e) && t < 0x2000 && IsChannel(b)
    ensures Step(e, b, t) == Next(Enc(Message(ChannelTag(ChannelLen(b)), e.mes.bytes[0 := b], t), 1, t, b, e.rt, e.out))
  {
  }

  /** A data byte that does not complete its message. */
  lemma DataByte(e: Enc, b: byte, t: nat)
    requires Safe(e) && t < 0x2000 && IsData(b) && e.mes.tag.channel && 0 < e.idx && e.idx + 1 < e.mes.tag.count
    ensures Step(e, b, t) == Next(e.(mes := e.mes.(bytes := e.mes.bytes[e.idx := b]), idx := e.idx + 1))
  {
  }

  /** The first of two data bytes under running status. */
  lemma RunningByte(e: Enc, b: byte, t: nat)
    requires Safe(e) && t < 0x2000 && IsData(b) && e.mes.tag == ChannelTag(3) && e.idx == 0
    requires e.running == e.mes.bytes[0] > 0
    ensures Step(e, b, t) == Next(e.(mes := e.mes.(bytes := e.mes.bytes[1 := b], ts := t), idx := 2))
  {
  }

  /** The byte that completes a channel message: the last one, or the only one under running status. */
  lemma LastByte(e: Enc, b: byte, t: nat, mes: Message)
    requires Safe(e) && t < 0x2000 && IsData(b) && e.mes.tag == ChannelTag(e.mes.tag.count)
    requires if e.idx > 0 then e.idx + 1 == e.mes.tag.count && mes == e.mes.(bytes := e.mes.bytes[e.idx := b])
             else e.mes.tag.count == 2 && e.running == e.mes.bytes[0] > 0 && mes == e.mes.(bytes := e.mes.bytes[1 := b], ts := t)
    ensures Step(e, b, t) == Next(e.(mes := mes, idx := 0, out := EncodeMessage(e.out, mes, e.prevTs)))
  {
    hide EncodeMessage, Bounded;
  }

  lemma RealTimeByte(e: Enc, b: byte, t: nat, len: nat)
    requires Safe(e) && t < 0x2000 && IsRealTime(b) && (e.mes.tag.sysex ==> e.mes.tag.count == 0)
    requires PacketLen(e.out.pkt) == len && len + 2 < e.out.mtu
    ensures Step(e, b, t) == Next(e.(out := e.out.(pkt := Emit(e.out.pkt, Header(t), Status(Low(t), b, [])), prev := b)))
  {
    hide PacketLen, Bounded;
    RealTimeSafe(e, b, t);
  }

  lemma SysexByte(e: Enc, t: nat)
    requires Safe(e) && t < 0x2000
    ensures Step(e, 0xF0, t) == Next(Enc(Message(Tag(true, true, false, false, 1), e.mes.bytes[0 := 0xF0], e.mes.ts),
                                         1, t, 0, e.rt, e.out))
  {
  }

  /** A payload byte that does not complete a fragment. */
  lemma PayloadByte(e: Enc, b: byte, t: nat)
    requires Safe(e) && t < 0x2000 && IsData(b) && e.mes.tag.sysex && e.idx < 2
    ensures Step(e, b, t) == Next(e.(mes := e.mes.(bytes := e.mes.bytes[e.idx := b], tag := e.mes.tag.(count := e.idx + 1)),
                                     idx := e.idx + 1))
  {
  }

  /** A payload byte that does. */
  lemma ThirdByte(e: Enc, b: byte, t: nat, mes: Message)
    requires Safe(e) && t < 0x2000 && IsData(b) && e.mes.tag.sysex && e.idx == 2
    requires mes == e.mes.(bytes := e.mes.bytes[2 := b], tag := e.mes.tag.(count := 3))
    ensures Step(e, b, t)
            == Next(e.(mes := mes.(ts := e.prevTs, tag := SysexTag(0)), idx := 0, out := EncodeMessage(e.out, mes, e.prevTs)))
  {
    hide EncodeMessage, Bounded;
  }

  // The fourth kind of hazard: program change 5 and, under running status, program change 7

  const FIRST_CHANGE := Status(0x80, 0xC0, [5])
  const SECOND_CHANGE := Run(None, 0xC0, [7])

  function ChangeEnc(data: byte, idx: nat, segs: seq<Seg>, clean: bool): Enc {
    var status := if segs == [] then 0 else 0xC0;
    Enc(Message(ChannelTag(2), [0xC0, data, 0], 0), idx, 0, 0xC0, [],
        Out(20, 1, Packet(if segs == [] then 0 else 0x80, segs), status, status, [], 0, clean))
  }

  lemma ChangesEncoded()
    ensures EncodeMessage(Init(20, 1).out, ChangeEnc(5, 0, [], true).mes, 0) == ChangeEnc(5, 0, [FIRST_CHANGE], true).out
    ensures EncodeMessage(ChangeEnc(5, 0, [FIRST_CHANGE], true).out, ChangeEnc(7, 0, [], true).mes, 0)
            == ChangeEnc(7, 0, [FIRST_CHANGE, SECOND_CHANGE], false).out
  {
    var m1, m2 := ChangeEnc(5, 0, [], true).mes, ChangeEnc(7, 0, [], true).mes;
    ChannelEncoded(Init(20, 1).out, m1, 0, 0);
    FlatOne(FIRST_CHANGE);
    ChannelEncoded(ChangeEnc(5, 0, [FIRST_CHANGE], true).out, m2, 0, 4);
    hide EncodeMessage;
    assert m1.bytes[1..2] == [5] && m2.bytes[1..2] == [7];
  }

  lemma FirstChange() returns (e0: Enc, e1: Enc, e2: Enc)
    ensures e0 == Init(20, 1) && Safe(e0) && Safe(e1) && Safe(e2)
    ensures Step(e0, 0xC0, 0) == Next(e1) && Step(e1, 5, 0) == Next(e2) && e2 == ChangeEnc(5, 0, [FIRST_CHANGE], true)
  {
    e0, e1, e2 := Init(20, 1), ChangeEnc(0, 1, [], true), ChangeEnc(5, 0, [FIRST_CHANGE], true);
    hide Safe, EncodeMessage, Step;
    InitSafe(20, 1);
    ChangesEncoded();
    ChannelByte(e0, 0xC0, 0);
    StepSafe(e0, 0xC0, 0);
    assert e0.mes.bytes[0 := 0xC0] == e1.mes.bytes;
    LastByte(e1, 5, 0, e2.mes);
    StepSafe(e1, 5, 0);
  }

  lemma SecondChange(e2: Enc, e3: Enc)
    requires e2 == ChangeEnc(5, 0, [FIRST_CHANGE], true) && Safe(e2)
    requires e3 == ChangeEnc(7, 0, [FIRST_CHANGE, SECOND_CHANGE], false)
    ensures Step(e2, 7, 0) == Next(e3)
  {
    hide Safe, EncodeMessage, Step;
    ChangesEncoded();
    LastByte(e2, 7, 0, e3.mes);
  }

  lemma ChangesReach()
    ensures Reaches(Init(20, 1), [0xC0, 5, 7], 0, ChangeEnc(7, 0, [FIRST_CHANGE, SECOND_CHANGE], false))
  {
    hide Safe, Step, Reaches, ChangeEnc, Init;
    var e0, e1, e2 := FirstChange();
    var e3 := ChangeEnc(7, 0, [FIRST_CHANGE, SECOND_CHANGE], false);
    SecondChange(e2, e3);
    ReachesItself(e0, 0);
    ReachesMore(e0, [], 0, e0, 0xC0, e1, [0xC0]);
    ReachesMore(e0, [0xC0], 0, e1, 5, e2, [0xC0, 5]);
    ReachesMore(e0, [0xC0, 5], 0, e2, 7, e3, [0xC0, 5, 7]);
  }

  lemma ChangePacket()
    ensures PacketBytes(Packet(0x80, [FIRST_CHANGE, SECOND_CHANGE])) == [0x80, 0x80, 0xC0, 5, 7]
    ensures DecodePacket([0x80, 0x80, 0xC0, 5, 7]).hang
  {
    FlatTwo(FIRST_CHANGE, SECOND_CHANGE);
    var pkt: seq<byte> := [0x80, 0x80, 0xC0, 5, 7];
    var d := Opening(0x80, false);
    DecodeSeg(d, FIRST_CHANGE, [7]);
    assert pkt[1..] == SegBytes(FIRST_CHANGE) + [7];
  }

  /** Two program changes with one status byte are grammatical, are encoded into one packet, and
      hang the decoder. */
  lemma ProgramChangesHang()
    ensures var calls := [Call([0xC0, 5, 7], 0, ALL)];
            && LegalRun(Idle, calls)
            && var (e, wire) := RunFrom(20, 1, calls);
               && e.out.lost == 0 && !e.out.clean && |wire| == 1
               && PacketBytes(wire[0]) == [0x80, 0x80, 0xC0, 5, 7] && DecodePacket(PacketBytes(wire[0])).hang
  {
    hide Decode, Safe, Reaches, RunCalls, DecodePacket, PacketBytes;
    InitSafe(20, 1);
    ChangesReach();
    PushReaches(Init(20, 1), [0xC0, 5, 7], 0, ChangeEnc(7, 0, [FIRST_CHANGE, SECOND_CHANGE], false));
    RunOne(Init(20, 1), [0xC0, 5, 7], 0);
    ChangePacket();
    ChangesLegal();
  }

  lemma ChangesLegal()
    ensures LegalRun(Idle, [Call([0xC0, 5, 7], 0, ALL)])
  {
    LegalOne([0xC0, 5, 7], 0);
    assert [0xC0, 5, 7][1..] == [5, 7] && [5, 7][1..] == [7] && [7][1..] == [];
    assert LegalStream(InChannel(0xC0, []), [5, 7]);
  }

  lemma LegalOne(s: seq<byte>, t: nat)
    ensures LegalRun(Idle, [Call(s, t, ALL)]) == LegalStream(Idle, s)
  {
    assert [Call(s, t, ALL)][1..] == [];
  }

  lemma LegalTwo(s: seq<byte>, t: nat, s': seq<byte>, t': nat)
    ensures LegalRun(Idle, [Call(s, t, ALL), Call(s', t', ALL)])
            == (LegalStream(Idle, s) && LegalStream(ParseStream(Idle, s).0, s'))
  {
    var p := ParseStream(Idle, s).0;
    assert [Call(s', t', ALL)][1..] == [];
    assert LegalRun(p, [Call(s', t', ALL)]) == LegalStream(p, s');
    assert [Call(s, t, ALL), Call(s', t', ALL)][1..] == [Call(s', t', ALL)];
  }

  // The first kind: an overflow between two notes of one status byte

  const NOTE := Status(0x80, 0x90, [60, 100])
  const BARE_NOTE := Run(Some(0x80), 0x90, [61, 101])

  function NoteEnc(data: seq<byte>, idx: nat, out: Out): Enc {
    Enc(Message(ChannelTag(3), [0x90] + data, 0), idx, 0, 0x90, [], out)
  }

  function NoteOut(queue: seq<Packet>, g: Seg, clean: bool): Out {
    Out(6, 2, Packet(0x80, [g]), 0x90, 0x90, queue, 0, clean)
  }

  lemma NotesEncoded()
    ensures EncodeMessage(Init(6, 2).out, NoteEnc([60, 100], 0, Init(6, 2).out).mes, 0) == NoteOut([], NOTE, true)
    ensures EncodeMessage(NoteOut([], NOTE, true), NoteEnc([61, 101], 0, Init(6, 2).out).mes, 0)
            == NoteOut([Packet(0x80, [NOTE])], BARE_NOTE, false)
  {
    FirstEncoded();
    FlatOne(NOTE);
    var m := NoteEnc([61, 101], 0, Init(6, 2).out).mes;
    assert m.bytes[1..3] == [61, 101];
  }

  lemma FirstEncoded()
    ensures EncodeMessage(Init(6, 2).out, NoteEnc([60, 100], 0, Init(6, 2).out).mes, 0) == NoteOut([], NOTE, true)
  {
    var m := NoteEnc([60, 100], 0, Init(6, 2).out).mes;
    assert m.bytes[1..3] == [60, 100];
    ChannelEncoded(Init(6, 2).out, m, 0, 0);
  }

  lemma FirstNote() returns (e0: Enc, e1: Enc, e2: Enc, e3: Enc)
    ensures e0 == Init(6, 2) && Safe(e0) && Safe(e1) && Safe(e2) && Safe(e3)
    ensures Step(e0, 0x90, 0) == Next(e1) && Step(e1, 60, 0) == Next(e2) && Step(e2, 100, 0) == Next(e3)
    ensures e3 == NoteEnc([60, 100], 0, NoteOut([], NOTE, true))
  {
    var o := Init(6, 2).out;
    e0, e1, e2, e3 := Init(6, 2), NoteEnc([0, 0], 1, o), NoteEnc([60, 0], 2, o), NoteEnc([60, 100], 0, NoteOut([], NOTE, true));
    hide Safe, EncodeMessage, Step;
    InitSafe(6, 2);
    NotesEncoded();
    ChannelByte(e0, 0x90, 0);
    StepSafe(e0, 0x90, 0);
    assert e0.mes.bytes[0 := 0x90] == e1.mes.bytes && e1.mes.bytes[1 := 60] == e2.mes.bytes;
    DataByte(e1, 60, 0);
    StepSafe(e1, 60, 0);
    assert e2.mes.bytes[2 := 100] == e3.mes.bytes;
    LastByte(e2, 100, 0, e3.mes);
    StepSafe(e2, 100, 0);
  }

  lemma SecondNote(e3: Enc) returns (e4: Enc, e5: Enc)
    requires e3 == NoteEnc([60, 100], 0, NoteOut([], NOTE, true)) && Safe(e3)
    ensures Step(e3, 61, 0) == Next(e4) && Safe(e4) && Step(e4, 101, 0) == Next(e5)
    ensures e5 == NoteEnc([61, 101], 0, NoteOut([Packet(0x80, [NOTE])], BARE_NOTE, false))
  {
    e4, e5 := NoteEnc([61, 100], 2, e3.out), NoteEnc([61, 101], 0, NoteOut([Packet(0x80, [NOTE])], BARE_NOTE, false));
    hide Safe, EncodeMessage, Step;
    NotesEncoded();
    RunningByte(e3, 61, 0);
    StepSafe(e3, 61, 0);
    assert e3.mes.bytes[1 := 61] == e4.mes.bytes && e4.mes.bytes[2 := 101] == e5.mes.bytes;
    LastByte(e4, 101, 0, e5.mes);
  }

  lemma NotesReach()
    ensures Reaches(Init(6, 2), [0x90, 60, 100, 61, 101], 0,
                    NoteEnc([61, 101], 0, NoteOut([Packet(0x80, [NOTE])], BARE_NOTE, false)))
  {
    hide Safe, Step, Reaches, NoteEnc, Init;
    var e0, e1, e2, e3 := FirstNote();
    var e4, e5 := SecondNote(e3);
    ReachesItself(e0, 0);
    ReachesMore(e0, [], 0, e0, 0x90, e1, [0x90]);
    ReachesMore(e0, [0x90], 0, e1, 60, e2, [0x90, 60]);
    ReachesMore(e0, [0x90, 60], 0, e2, 100, e3, [0x90, 60, 100]);
    ReachesMore(e0, [0x90, 60, 100], 0, e3, 61, e4, [0x90, 60, 100, 61]);
    ReachesMore(e0, [0x90, 60, 100, 61], 0, e4, 101, e5, [0x90, 60, 100, 61, 101]);
  }

  lemma NotePackets()
    ensures PacketBytes(Packet(0x80, [BARE_NOTE])) == [0x80, 0x80, 61, 101]
    ensures DecodePacket([0x80, 0x80, 61, 101]).left == 3
  {
    FlatOne(BARE_NOTE);
    var pkt: seq<byte> := [0x80, 0x80, 61, 101];
    assert pkt[1..] == [0x80, 61, 101];
  }

  /** With an MTU of 6 the second of two notes of one status byte goes into a packet of its own without
      that byte, and is lost. */
  lemma OverflowLosesNote()
    ensures var calls := [Call([0x90, 60, 100, 61, 101], 0, ALL)];
            && LegalRun(Idle, calls)
            && var (e, wire) := RunFrom(6, 2, calls);
               && e.out.lost == 0 && !e.out.clean && |wire| == 2
               && PacketBytes(wire[1]) == [0x80, 0x80, 61, 101] && DecodePacket(PacketBytes(wire[1])).left == 3
  {
    hide Decode, Safe, Reaches, RunCalls, DecodePacket, PacketBytes, LegalStream, LegalRun;
    InitSafe(6, 2);
    NotesReach();
    PushReaches(Init(6, 2), [0x90, 60, 100, 61, 101], 0,
                NoteEnc([61, 101], 0, NoteOut([Packet(0x80, [NOTE])], BARE_NOTE, false)));
    RunOne(Init(6, 2), [0x90, 60, 100, 61, 101], 0);
    NotePackets();
    NotesLegal();
    LegalOne([0x90, 60, 100, 61, 101], 0);
  }

  lemma NotesLegal()
    ensures LegalStream(Idle, [0x90, 60, 100, 61, 101])
  {
    assert [0x90, 60, 100, 61, 101][1..] == [60, 100, 61, 101] && [60, 100, 61, 101][1..] == [100, 61, 101];
    assert [100, 61, 101][1..] == [61, 101] && [61, 101][1..] == [101] && [101][1..] == [];
    assert LegalStream(Running(0x90), [61, 101]);
    assert LegalStream(InChannel(0x90, [60]), [100, 61, 101]);
    assert LegalStream(InChannel(0x90, []), [60, 100, 61, 101]);
  }

  // The second and the third kind: system exclusive data behind a full packet and behind a clock

  /** The start of a message carries the time of whatever came before it, here none. */
  const OPENING := Status(0xFF, 0xF0, [1, 2])
  const CUT_OFF := Cont(Some(0x80), [3, 4, 5])
  const CLOCK := Status(0x80, 0xF8, [])
  const GOING_ON := Cont(None, [3, 4, 5])

  function SysexEnc(bytes: seq<byte>, count: nat, t: nat, out: Out): Enc {
    Enc(Message(SysexTag(count), bytes, t), count, t, 0, [], out)
  }

  function StartEnc(bytes: seq<byte>, count: nat, t: nat, out: Out): Enc {
    Enc(Message(Tag(true, true, false, false, count), bytes, NO_TIME), count, t, 0, [], out)
  }

  function OpeningOut(mtu: nat): Out {
    Out(mtu, 2, Packet(0xBF, [OPENING]), 0, 0xF0, [], 0, true)
  }

  lemma OpeningEncoded(mtu: nat, t: nat)
    requires mtu >= 6
    ensures EncodeMessage(Init(mtu, 2).out, StartEnc([0xF0, 1, 2], 3, t, Init(mtu, 2).out).mes, t) == OpeningOut(mtu)
  {
    var m := StartEnc([0xF0, 1, 2], 3, t, Init(mtu, 2).out).mes;
    assert m.bytes[1..3] == [1, 2];
    FragmentEncoded(Init(mtu, 2).out, m, t, 0);
  }

  lemma SysexOpens(mtu: nat, t: nat) returns (e0: Enc, e1: Enc, e2: Enc, e3: Enc)
    requires mtu >= 6 && t < 0x2000
    ensures e0 == Init(mtu, 2) && Safe(e0) && Safe(e1) && Safe(e2) && Safe(e3)
    ensures Step(e0, 0xF0, t) == Next(e1) && Step(e1, 1, t) == Next(e2) && Step(e2, 2, t) == Next(e3)
    ensures e3 == SysexEnc([0xF0, 1, 2], 0, t, OpeningOut(mtu))
  {
    var o := Init(mtu, 2).out;
    e0, e1, e2 := Init(mtu, 2), StartEnc([0xF0, 0, 0], 1, t, o), StartEnc([0xF0, 1, 0], 2, t, o);
    e3 := SysexEnc([0xF0, 1, 2], 0, t, OpeningOut(mtu));
    hide Safe, EncodeMessage, Step;
    InitSafe(mtu, 2);
    OpeningEncoded(mtu, t);
    SysexByte(e0, t);
    StepSafe(e0, 0xF0, t);
    assert e0.mes.bytes[0 := 0xF0] == e1.mes.bytes && e1.mes.bytes[1 := 1] == e2.mes.bytes;
    PayloadByte(e1, 1, t);
    StepSafe(e1, 1, t);
    assert e2.mes.bytes[2 := 2] == e3.mes.bytes;
    ThirdByte(e2, 2, t, StartEnc([0xF0, 1, 2], 3, t, o).mes);
    StepSafe(e2, 2, t);
  }

  /** The next fragment. */
  lemma SysexGoesOn(e: Enc, out: Out) returns (e1: Enc, e2: Enc, e3: Enc)
    requires e == SysexEnc([0xF0, 1, 2], 0, 0, e.out) && Safe(e)
    requires out == EncodeMessage(e.out, Message(SysexTag(3), [3, 4, 5], 0), 0)
    ensures Safe(e1) && Safe(e2)
    ensures Step(e, 3, 0) == Next(e1) && Step(e1, 4, 0) == Next(e2) && Step(e2, 5, 0) == Next(e3)
    ensures e3 == SysexEnc([3, 4, 5], 0, 0, out)
  {
    e1, e2, e3 := SysexEnc([3, 1, 2], 1, 0, e.out), SysexEnc([3, 4, 2], 2, 0, e.out), SysexEnc([3, 4, 5], 0, 0, out);
    hide Safe, EncodeMessage, Step;
    assert e.mes.bytes[0 := 3] == e1.mes.bytes && e1.mes.bytes[1 := 4] == e2.mes.bytes;
    PayloadByte(e, 3, 0);
    StepSafe(e, 3, 0);
    PayloadByte(e1, 4, 0);
    StepSafe(e1, 4, 0);
    assert e2.mes.bytes[2 := 5] == [3, 4, 5];
    ThirdByte(e2, 5, 0, Message(SysexTag(3), [3, 4, 5], 0));
  }

  lemma CutOffEncoded()
    ensures EncodeMessage(OpeningOut(6), Message(SysexTag(3), [3, 4, 5], 0), 0)
            == Out(6, 2, Packet(0x80, [CUT_OFF]), 0, 0, [Packet(0xBF, [OPENING])], 0, false)
  {
    FlatOne(OPENING);
    assert [3, 4, 5][..3] == [3, 4, 5];
  }

  lemma CutOffReach()
    ensures Reaches(Init(6, 2), [0xF0, 1, 2, 3, 4, 5], 0,
                    SysexEnc([3, 4, 5], 0, 0, Out(6, 2, Packet(0x80, [CUT_OFF]), 0, 0, [Packet(0xBF, [OPENING])], 0, false)))
  {
    CutOffEncoded();
    hide Safe, Step, Reaches, Init, EncodeMessage;
    var e0, e1, e2, e3 := SysexOpens(6, 0);
    var e4, e5, e6 := SysexGoesOn(e3, EncodeMessage(OpeningOut(6), Message(SysexTag(3), [3, 4, 5], 0), 0));
    hide SysexEnc;
    ReachesItself(e0, 0);
    ReachesMore(e0, [], 0, e0, 0xF0, e1, [0xF0]);
    ReachesMore(e0, [0xF0], 0, e1, 1, e2, [0xF0, 1]);
    ReachesMore(e0, [0xF0, 1], 0, e2, 2, e3, [0xF0, 1, 2]);
    ReachesMore(e0, [0xF0, 1, 2], 0, e3, 3, e4, [0xF0, 1, 2, 3]);
    ReachesMore(e0, [0xF0, 1, 2, 3], 0, e4, 4, e5, [0xF0, 1, 2, 3, 4]);
    ReachesMore(e0, [0xF0, 1, 2, 3, 4], 0, e5, 5, e6, [0xF0, 1, 2, 3, 4, 5]);
  }

  lemma CutOffPacket()
    ensures PacketBytes(Packet(0x80, [CUT_OFF])) == [0x80, 0x80, 3, 4, 5]
    ensures DecodePacket([0x80, 0x80, 3, 4, 5]).left == 4
  {
    FlatOne(CUT_OFF);
    var pkt: seq<byte> := [0x80, 0x80, 3, 4, 5];
    assert pkt[1..] == [0x80, 3, 4, 5];
  }

  lemma PayloadLegal()
    ensures LegalStream(Idle, [0xF0, 1, 2, 3, 4, 5])
    ensures LegalStream(Idle, [0xF0, 1, 2]) && ParseStream(Idle, [0xF0, 1, 2]).0 == InSysex
    ensures LegalStream(InSysex, [0xF8, 3, 4, 5])
  {
    assert [0xF0, 1, 2, 3, 4, 5][1..] == [1, 2, 3, 4, 5];
    assert [1, 2, 3, 4, 5][1..] == [2, 3, 4, 5] && [2, 3, 4, 5][1..] == [3, 4, 5];
    assert [3, 4, 5][1..] == [4, 5] && [4, 5][1..] == [5] && [5][1..] == [];
    assert LegalStream(InSysex, [3, 4, 5]);
    assert [0xF8, 3, 4, 5][1..] == [3, 4, 5];
    assert LegalStream(InSysex, [1, 2, 3, 4, 5]);
    assert [0xF0, 1, 2][1..] == [1, 2] && [1, 2][1..] == [2] && [2][1..] == [];
    assert LegalStream(InSysex, [1, 2]) && ParseStream(InSysex, [1, 2]).0 == InSysex;
  }

  /** With an MTU of 6 the second fragment of a system exclusive message goes into a packet of its own
      behind a time byte, and is lost. */
  lemma OverflowCutsSysex()
    ensures var calls := [Call([0xF0, 1, 2, 3, 4, 5], 0, ALL)];
            && LegalRun(Idle, calls)
            && var (e, wire) := RunFrom(6, 2, calls);
               && e.out.lost == 0 && !e.out.clean && |wire| == 2
               && PacketBytes(wire[1]) == [0x80, 0x80, 3, 4, 5] && DecodePacket(PacketBytes(wire[1])).left == 4
  {
    hide Decode, Safe, Reaches, RunCalls, DecodePacket, PacketBytes, LegalStream, LegalRun;
    InitSafe(6, 2);
    CutOffReach();
    PushReaches(Init(6, 2), [0xF0, 1, 2, 3, 4, 5], 0,
                SysexEnc([3, 4, 5], 0, 0, Out(6, 2, Packet(0x80, [CUT_OFF]), 0, 0, [Packet(0xBF, [OPENING])], 0, false)));
    RunOne(Init(6, 2), [0xF0, 1, 2, 3, 4, 5], 0);
    CutOffPacket();
    PayloadLegal();
    LegalOne([0xF0, 1, 2, 3, 4, 5], 0);
  }

  function ClockOut(segs: seq<Seg>, clean: bool): Out {
    Out(20, 2, Packet(0x80, segs), 0, 0xF8, [], 0, clean)
  }

  /** After the first call, its packet taken. */
  function Between(): Enc {
    SysexEnc([0xF0, 1, 2], 0, 0, Out(20, 2, EMPTY, 0, 0, [], 0, true))
  }

  lemma FirstCall()
    ensures Safe(Init(20, 2)) && Safe(Between())
    ensures Drain(Push(Init(20, 2), [0xF0, 1, 2], 0).e, ALL) == Between()
    ensures Push(Init(20, 2), [0xF0, 1, 2], 0).e.out.queue == [Packet(0xBF, [OPENING])]
  {
    hide Safe, Step, Reaches;
    var e0, e1, e2, e3 := SysexOpens(20, 0);
    ReachesItself(e0, 0);
    ReachesMore(e0, [], 0, e0, 0xF0, e1, [0xF0]);
    ReachesMore(e0, [0xF0], 0, e1, 1, e2, [0xF0, 1]);
    ReachesMore(e0, [0xF0, 1], 0, e2, 2, e3, [0xF0, 1, 2]);
    PushReaches(e0, [0xF0, 1, 2], 0, e3);
    DrainSafe(Push(Init(20, 2), [0xF0, 1, 2], 0).e, ALL);
  }

  lemma GoingOnEncoded()
    ensures EncodeMessage(ClockOut([CLOCK], true), Message(SysexTag(3), [3, 4, 5], 0), 0)
            == ClockOut([CLOCK, GOING_ON], false)
  {
    FlatOne(CLOCK);
    assert [3, 4, 5][..3] == [3, 4, 5];
    assert OnlyRealTime(Packet(0x80, [CLOCK]));
    FragmentEncoded(ClockOut([CLOCK], true), Message(SysexTag(3), [3, 4, 5], 0), 0, 3);
  }

  lemma ClockFirst() returns (e: Enc)
    ensures Safe(Between()) && Safe(e) && Step(Between(), 0xF8, 0) == Next(e)
    ensures e == SysexEnc([0xF0, 1, 2], 0, 0, ClockOut([CLOCK], true))
  {
    hide Safe, Step, Push, Init;
    FirstCall();
    e := SysexEnc([0xF0, 1, 2], 0, 0, ClockOut([CLOCK], true));
    RealTimeByte(Between(), 0xF8, 0, 0);
    assert Emit(EMPTY, 0x80, CLOCK) == Packet(0x80, [CLOCK]);
    assert Step(Between(), 0xF8, 0) == Next(e);
    StepSafe(Between(), 0xF8, 0);
  }

  lemma GoingOnReach()
    ensures Reaches(Between(), [0xF8, 3, 4, 5], 0, SysexEnc([3, 4, 5], 0, 0, ClockOut([CLOCK, GOING_ON], false)))
  {
    GoingOnEncoded();
    hide Safe, Step, Reaches, EncodeMessage;
    var e1 := ClockFirst();
    var e2, e3, e4 := SysexGoesOn(e1, EncodeMessage(ClockOut([CLOCK], true), Message(SysexTag(3), [3, 4, 5], 0), 0));
    hide SysexEnc, Between;
    ReachesItself(Between(), 0);
    ReachesMore(Between(), [], 0, Between(), 0xF8, e1, [0xF8]);
    ReachesMore(Between(), [0xF8], 0, e1, 3, e2, [0xF8, 3]);
    ReachesMore(Between(), [0xF8, 3], 0, e2, 4, e3, [0xF8, 3, 4]);
    ReachesMore(Between(), [0xF8, 3, 4], 0, e3, 5, e4, [0xF8, 3, 4, 5]);
  }

  lemma GoingOnPacket()
    ensures PacketBytes(Packet(0x80, [CLOCK, GOING_ON])) == [0x80, 0x80, 0xF8, 3, 4, 5]
    ensures DecodePacket([0x80, 0x80, 0xF8, 3, 4, 5]).left == 3
  {
    FlatTwo(CLOCK, GOING_ON);
    var pkt: seq<byte> := [0x80, 0x80, 0xF8, 3, 4, 5];
    var d := Opening(0x80, false);
    DecodeSeg(d, CLOCK, [3, 4, 5]);
    assert pkt[1..] == SegBytes(CLOCK) + [3, 4, 5];
  }

  /** A clock before the rest of a system exclusive message in the next call: the rest is lost. */
  lemma ClockCutsSysex()
    ensures var calls := [Call([0xF0, 1, 2], 0, ALL), Call([0xF8, 3, 4, 5], 0, ALL)];
            && LegalRun(Idle, calls)
            && var (e, wire) := RunFrom(20, 2, calls);
               && e.out.lost == 0 && !e.out.clean && |wire| == 2
               && PacketBytes(wire[1]) == [0x80, 0x80, 0xF8, 3, 4, 5] && DecodePacket(PacketBytes(wire[1])).left == 3
  {
    hide Decode, Safe, Reaches, RunCalls, DecodePacket, PacketBytes, LegalStream, LegalRun, Push, Init;
    FirstCall();
    GoingOnReach();
    PushReaches(Between(), [0xF8, 3, 4, 5], 0, SysexEnc([3, 4, 5], 0, 0, ClockOut([CLOCK, GOING_ON], false)));
    RunTwo(Init(20, 2), [0xF0, 1, 2], 0, Between(), [0xF8, 3, 4, 5], 0);
    GoingOnPacket();
    PayloadLegal();
    LegalTwo([0xF0, 1, 2], 0, [0xF8, 3, 4, 5], 0);
  }
}
