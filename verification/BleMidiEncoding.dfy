/** What the BLE-MIDI encoder computes, as functions on its state: one function per routine
    of ble_midi_pkt_codec.c, with packets kept as segments instead of bytes. */
module BleMidiEncoding {
  import opened Bytes
  import opened BleMidi

  /** The packet side of the encoder. `queue` is the ring of packets ready to send, with room
      for `cap`; `lost` counts the packets a full ring refused; `clean` is cleared by the
      first hazardous encoding step (see Hazard). `running` and `prev` are the running status
      and the last status byte of the packet under construction. */
  datatype Out = Out(
    mtu: nat, cap: nat, pkt: Packet, running: byte, prev: byte,
    queue: seq<Packet>, lost: nat, clean: bool)

  /** The stream side: the message being assembled, the running status of the stream, and the
      real-time messages not yet written to a packet. */
  datatype Enc = Enc(mes: Message, idx: nat, prevTs: nat, running: byte, rt: seq<(byte, nat)>, out: Out)

  const MAX_PENDING_RT := 4
  const NO_TIME := 0xFFFF
  const NO_MESSAGE := Message(Plain(0), [0, 0, 0], NO_TIME)

  function Init(mtu: nat, cap: nat): Enc {
    Enc(NO_MESSAGE, 0, NO_TIME, 0, [], Out(mtu, cap, EMPTY, 0, 0, [], 0, true))
  }

  /** The pending packet goes to the ring, which drops it when full. */
  function Seal(o: Out): Out {
    var room := |o.queue| < o.cap;
    o.(queue := if room then o.queue + [o.pkt] else o.queue,
       lost := if room then o.lost else o.lost + 1,
       pkt := EMPTY, running := 0, prev := 0)
  }

  /** Writes a segment, and before it the header if the packet is empty. */
  function Emit(p: Packet, header: byte, g: Seg): Packet {
    Packet(if p.segs == [] then header else p.header, p.segs + [g])
  }

  /** Writes the pending real-time message number `k`. */
  function FlushOne(o: Out, rt: seq<(byte, nat)>, k: nat): Out
    requires k < |rt|
  {
    var o1 := if PacketLen(o.pkt) + 2 >= o.mtu then Seal(o) else o;
    o1.(pkt := Emit(o1.pkt, Header(rt[0].1), Status(Low(rt[k].1), rt[k].0, [])), prev := rt[k].0)
  }

  function Flush(o: Out, rt: seq<(byte, nat)>, n: nat): Out
    requires n <= |rt|
  {
    if n == 0 then o else FlushOne(Flush(o, rt, n - 1), rt, n - 1)
  }

  /** The status byte is left out: same status as the packet's running status. */
  predicate ElidesStatus(o: Out, m: Message)
    requires IsMessage(m)
  {
    m.tag.channel && o.running == m.bytes[0]
  }

  /** Payload of a system exclusive message after its first fragment. */
  predicate Continues(m: Message) {
    m.tag.sysex && !m.tag.startSysex
  }

  predicate NeedsStamp(o: Out, m: Message, prevTs: nat)
    requires IsMessage(m)
  {
    || (!Continues(m) && (!ElidesStatus(o, m) || prevTs != m.ts))
    || (m.tag.channel && o.prev != o.running)
  }

  predicate Overflows(o: Out, m: Message, prevTs: nat)
    requires IsMessage(m)
  {
    PacketLen(o.pkt) + m.tag.count + Bit(NeedsStamp(o, m, prevTs), 1) - Bit(ElidesStatus(o, m), 1) >= o.mtu
  }

  predicate OnlyRealTime(p: Packet) {
    forall i :: 0 <= i < |p.segs| ==> p.segs[i].Status? && IsRealTime(p.segs[i].status)
  }

  /** The encoding steps whose packets the decoder cannot read to their end:
      1. a full packet is sealed although the status byte of the message stays left out,
      2. a system exclusive message is cut by a full packet,
      3. a continuation follows real-time messages that opened the packet,
      4. the data of a two-byte channel message stands alone, without stamp and status. */
  predicate Hazard(o: Out, m: Message, prevTs: nat)
    requires IsMessage(m)
  {
    if Overflows(o, m, prevTs) then ElidesStatus(o, m) || Continues(m)
    else
      || (Continues(m) && o.pkt.segs != [] && OnlyRealTime(o.pkt))
      || (!NeedsStamp(o, m, prevTs) && ElidesStatus(o, m) && m.tag.count == 2)
  }

  /** The segment for a message. */
  function SegOf(m: Message, stamped: bool, elided: bool): Seg
    requires IsMessage(m) && m.tag.count > 0
  {
    var stamp := if stamped then Some(Low(m.ts)) else None;
    if Continues(m) then Cont(stamp, m.bytes[..m.tag.count])
    else if elided then Run(stamp, m.bytes[0], m.bytes[1..m.tag.count])
    else Status(Low(m.ts), m.bytes[0], m.bytes[1..m.tag.count])
  }

  /** The state and the segment with which EncodeMessage extends the packet. */
  function Prepared(o: Out, m: Message, prevTs: nat): (r: Out)
    requires IsMessage(m)
    ensures r.mtu == o.mtu && r.cap == o.cap
  {
    if Overflows(o, m, prevTs) then Seal(o) else o
  }

  function NewSeg(o: Out, m: Message, prevTs: nat): Seg
    requires IsMessage(m) && m.tag.count > 0
  {
    SegOf(m, NeedsStamp(o, m, prevTs) || Overflows(o, m, prevTs), ElidesStatus(o, m))
  }

  /** Adds a message to the packet. */
  function EncodeMessage(o: Out, m: Message, prevTs: nat): Out
    requires IsMessage(m) && m.tag.count > 0
  {
    var o1 := Prepared(o, m, prevTs);
    o1.(pkt := Emit(o1.pkt, Header(m.ts), NewSeg(o, m, prevTs)),
        running := if m.tag.channel then m.bytes[0] else o1.running,
        prev := if m.bytes[0] >= 0x80 then m.bytes[0] else o1.prev,
        clean := o.clean && !Hazard(o, m, prevTs))
  }

  function Encode(e: Enc): (r: Enc)
    requires IsMessage(e.mes)
    ensures r == e.(rt := r.rt, out := r.out)
  {
    if e.mes.tag.count == 0 then e
    else if e.mes.tag.realTime then e.(out := EncodeMessage(e.out, e.mes, e.prevTs))
    else e.(rt := [], out := EncodeMessage(Flush(e.out, e.rt, |e.rt|), e.mes, e.prevTs))
  }

  function EncodeFull(e: Enc): (r: Enc)
    requires IsMessage(e.mes)
    ensures r == e.(rt := r.rt, out := r.out, idx := 0)
  {
    Encode(e).(idx := 0)
  }

  /** Gives up the pending packet and message after a stream error. */
  function Discard(e: Enc): Enc {
    e.(idx := 0, prevTs := NO_TIME, running := 0, rt := [],
       mes := e.mes.(tag := Plain(0), ts := NO_TIME), out := e.out.(pkt := EMPTY))
  }

  /** Outcome of one stream byte: go on, or a stream error after `taken` bytes of it. */
  datatype StepOut = Next(e: Enc) | Fail(e: Enc, taken: nat)

  function StartSysex(e: Enc, t: nat): Enc
    requires |e.mes.bytes| == 3
  {
    e.(prevTs := t, running := 0, idx := 1,
       mes := e.mes.(tag := Tag(true, true, false, false, 1), bytes := e.mes.bytes[0 := 0xF0]))
  }

  function EndSysex(e: Enc): StepOut
    requires IsMessage(e.mes) && e.prevTs < 0x1_0000
  {
    if !e.mes.tag.sysex then Fail(Discard(e), 0)
    else
      var e1 := if e.idx != 0 then Encode(e) else e;
      Next(EncodeFull(e1.(mes := Message(Plain(1), e.mes.bytes[0 := 0xF7], e.prevTs))).(running := 0))
  }

  /** The fragment of a system exclusive message that a real-time byte forces out. */
  function CutSysex(e: Enc): Enc
    requires IsMessage(e.mes)
  {
    if e.mes.tag.sysex && e.mes.tag.count > 0 then EncodeFull(e).(mes := e.mes.(tag := SysexTag(0)))
    else e
  }

  function RealTime(e: Enc, b: byte, t: nat): StepOut
    requires IsMessage(e.mes)
  {
    var e1 := CutSysex(e);
    var rt := e1.rt + [(b, t)];
    if |rt| >= MAX_PENDING_RT then Fail(Discard(e1.(rt := rt)), 1)
    else Next(e1.(rt := [], out := Flush(e1.out, rt, |rt|)))
  }

  function Common(e: Enc, b: byte, t: nat): Enc
    requires |e.mes.bytes| == 3 && t < 0x2000
  {
    var e1 := e.(prevTs := t, running := 0, mes := Message(Plain(CommonLen(b)), e.mes.bytes[0 := b], t));
    if CommonLen(b) > 1 then e1.(idx := 1)
    else EncodeFull(e1).(mes := e1.mes.(tag := Plain(0)))
  }

  function Channel(e: Enc, b: byte, t: nat): Enc
    requires |e.mes.bytes| == 3
  {
    e.(prevTs := t, running := b, idx := 1,
       mes := Message(ChannelTag(ChannelLen(b)), e.mes.bytes[0 := b], t))
  }

  function SysexData(e: Enc, b: byte): Enc
    requires IsMessage(e.mes) && e.idx < 3 && e.mes.tag.count < 3 && e.prevTs < 0x1_0000
  {
    var mes := e.mes.(bytes := e.mes.bytes[e.idx := b], tag := e.mes.tag.(count := e.mes.tag.count + 1));
    if e.idx + 1 < 3 then e.(mes := mes, idx := e.idx + 1)
    else EncodeFull(e.(mes := mes, idx := e.idx + 1)).(mes := mes.(ts := e.prevTs, tag := SysexTag(0)))
  }

  function RunningData(e: Enc, b: byte, t: nat): StepOut
    requires IsMessage(e.mes) && t < 0x2000
  {
    if e.running == 0 || e.running != e.mes.bytes[0] then Fail(Discard(e), 0)
    else
      var mes := e.mes.(bytes := e.mes.bytes[1 := b], ts := t);
      Next(if e.mes.tag.count == 2 then EncodeFull(e.(mes := mes, idx := 2)) else e.(mes := mes, idx := 2))
  }

  function MessageData(e: Enc, b: byte): StepOut
    requires IsMessage(e.mes)
  {
    if e.idx >= e.mes.tag.count then Fail(Discard(e), 0)
    else
      var mes := e.mes.(bytes := e.mes.bytes[e.idx := b]);
      if e.idx + 1 < e.mes.tag.count then Next(e.(mes := mes, idx := e.idx + 1))
      else
        Next(EncodeFull(e.(mes := mes, idx := e.idx + 1)).(mes := if mes.tag.channel then mes else mes.(tag := Plain(0))))
  }

  /** One byte of the stream, received at the 13-bit time `t`. */
  function Step(e: Enc, b: byte, t: nat): StepOut
    requires Safe(e) && t < 0x2000
  {
    if b == 0xF0 then Next(StartSysex(e, t))
    else if b == 0xF7 then EndSysex(e)
    else if IsRealTime(b) then RealTime(e, b, t)
    else if b > 0xF0 then Next(Common(e, b, t))
    else if b >= 0x80 then Next(Channel(e, b, t))
    else if e.mes.tag.sysex then Next(SysexData(e, b))
    else if e.mes.tag.channel && e.idx == 0 then RunningData(e, b, t)
    else MessageData(e, b)
  }

  /** What holds between any two bytes of any stream: indices in range, no pending real-time
      message, every packet shorter than the MTU. In a system exclusive message the index
      equals the stored count. */
  predicate Safe(e: Enc) {
    && IsMessage(e.mes) && e.prevTs < 0x1_0000
    && Ordered(e.mes.tag)
    && (if e.mes.tag.sysex then e.idx == e.mes.tag.count < 3 else e.idx <= e.mes.tag.count)
    && (e.mes.tag.channel ==> e.idx < e.mes.tag.count)
    && e.rt == []
    && Bounded(e.out)
  }

  lemma InitSafe(mtu: nat, cap: nat)
    requires mtu >= 6
    ensures Safe(Init(mtu, cap))
  {
  }

  predicate Ordered(t: Tag) {
    && (t.startSysex ==> t.sysex && t.count > 0)
    && !(t.sysex && t.channel)
    && (t.channel ==> t.count >= 2)
    && !t.realTime
  }

  /** The packet-building half of Safe. */
  predicate Bounded(o: Out) {
    && o.mtu >= 6
    && (o.pkt.segs != [] ==> PacketLen(o.pkt) >= 2)
    && PacketLen(o.pkt) < o.mtu
    && forall i :: 0 <= i < |o.queue| ==> 2 <= PacketLen(o.queue[i]) < o.mtu
  }

  lemma FlatAppend(segs: seq<Seg>, g: Seg)
    ensures Flat(segs + [g]) == Flat(segs) + SegBytes(g)
    ensures segs == [] ==> Flat(segs) == []
  {
    assert (segs + [g])[..|segs|] == segs;
  }

  lemma EmitLength(p: Packet, header: byte, g: Seg)
    ensures PacketLen(Emit(p, header, g)) == Max(PacketLen(p), 1) + |SegBytes(g)|
  {
    FlatAppend(p.segs, g);
  }

  lemma SegLength(m: Message, stamped: bool, elided: bool)
    requires IsMessage(m) && Ordered(m.tag) && m.tag.count > 0
    requires elided ==> m.tag.channel
    requires !elided && !Continues(m) ==> stamped
    ensures |SegBytes(SegOf(m, stamped, elided))| == m.tag.count + Bit(stamped, 1) - Bit(elided, 1)
  {
  }

  lemma SealBounded(o: Out)
    requires Bounded(o) && o.pkt.segs != []
    ensures Bounded(Seal(o)) && Seal(o).pkt.segs == []
  {
    EmptyLength();
    hide PacketLen;
  }

  lemma EmptyLength()
    ensures PacketLen(EMPTY) == 0
  {
  }

  /** Adding a segment keeps the bounds when it fits. */
  lemma EmitBounded(o: Out, header: byte, g: Seg)
    requires Bounded(o)
    requires 1 <= |SegBytes(g)| && Max(PacketLen(o.pkt), 1) + |SegBytes(g)| < o.mtu
    ensures Bounded(o.(pkt := Emit(o.pkt, header, g)))
  {
    EmitLength(o.pkt, header, g);
  }

  /** A packet is sealed only if it has content, and then the segment always fits. */
  lemma SegFits(o: Out, m: Message, prevTs: nat)
    requires IsMessage(m) && Ordered(m.tag) && m.tag.count > 0
    requires Bounded(o)
    ensures Overflows(o, m, prevTs) ==> o.pkt.segs != []
    ensures Bounded(Prepared(o, m, prevTs))
    ensures 1 <= |SegBytes(NewSeg(o, m, prevTs))|
    ensures Max(PacketLen(Prepared(o, m, prevTs).pkt), 1) + |SegBytes(NewSeg(o, m, prevTs))| < o.mtu
  {
    SegLength(m, NeedsStamp(o, m, prevTs) || Overflows(o, m, prevTs), ElidesStatus(o, m));
    if Overflows(o, m, prevTs) {
      SealBounded(o);
    }
  }

  lemma EncodeMessageBounded(o: Out, m: Message, prevTs: nat)
    requires IsMessage(m) && Ordered(m.tag) && m.tag.count > 0
    requires Bounded(o)
    ensures Bounded(EncodeMessage(o, m, prevTs))
  {
    hide Overflows, NeedsStamp, SegOf, Hazard, PacketLen, Prepared, NewSeg, Emit;
    SegFits(o, m, prevTs);
    EmitBounded(Prepared(o, m, prevTs), Header(m.ts), NewSeg(o, m, prevTs));
  }

  lemma FlushOneBounded(o: Out, rt: seq<(byte, nat)>, k: nat)
    requires Bounded(o) && k < |rt|
    ensures Bounded(FlushOne(o, rt, k))
  {
    var g := Status(Low(rt[k].1), rt[k].0, []);
    if PacketLen(o.pkt) + 2 >= o.mtu {
      SealBounded(o);
      EmitBounded(Seal(o), Header(rt[0].1), g);
    } else {
      EmitBounded(o, Header(rt[0].1), g);
    }
  }

  lemma FlushSingle(o: Out, rt: seq<(byte, nat)>)
    requires |rt| == 1
    ensures Flush(o, rt, 1) == FlushOne(o, rt, 0)
  {
    assert Flush(o, rt, 0) == o;
  }

  lemma EncodeBounded(e: Enc)
    requires IsMessage(e.mes) && Ordered(e.mes.tag) && e.rt == []
    requires Bounded(e.out)
    ensures Encode(e) == if e.mes.tag.count == 0 then e
                         else e.(out := EncodeMessage(e.out, e.mes, e.prevTs))
    ensures Bounded(Encode(e).out)
  {
    if e.mes.tag.count > 0 {
      EncodeMessageBounded(e.out, e.mes, e.prevTs);
    }
  }

  lemma DiscardSafe(e: Enc)
    requires Safe(e)
    ensures Safe(Discard(e))
  {
  }

  lemma EndSysexSafe(e: Enc)
    requires Safe(e)
    ensures Safe(EndSysex(e).e)
  {
    hide Encode, EncodeMessage, Bounded;
    DiscardSafe(e);
    if e.mes.tag.sysex {
      EncodeBounded(e);
      var e1 := if e.idx != 0 then Encode(e) else e;
      EncodeBounded(e1.(mes := Message(Plain(1), e.mes.bytes[0 := 0xF7], e.prevTs)));
    }
  }

  lemma CutSysexSafe(e: Enc)
    requires Safe(e)
    ensures Safe(CutSysex(e))
  {
    hide Encode, EncodeMessage, Bounded;
    EncodeBounded(e);
  }

  lemma RealTimeSafe(e: Enc, b: byte, t: nat)
    requires Safe(e)
    ensures RealTime(e, b, t) == Next(CutSysex(e).(out := FlushOne(CutSysex(e).out, [(b, t)], 0)))
    ensures Safe(RealTime(e, b, t).e)
  {
    CutSysexSafe(e);
    var e1 := CutSysex(e);
    assert e1.rt + [(b, t)] == [(b, t)];
    FlushSingle(e1.out, [(b, t)]);
    FlushOneBounded(e1.out, [(b, t)], 0);
  }

  lemma CommonSafe(e: Enc, b: byte, t: nat)
    requires Safe(e) && t < 0x2000
    ensures Safe(Common(e, b, t))
  {
    hide Encode, EncodeMessage, Bounded;
    EncodeBounded(e.(prevTs := t, running := 0, mes := Message(Plain(CommonLen(b)), e.mes.bytes[0 := b], t)));
  }

  lemma SysexDataSafe(e: Enc, b: byte)
    requires Safe(e) && e.mes.tag.sysex
    ensures Safe(SysexData(e, b))
  {
    hide Encode, EncodeMessage, Bounded;
    EncodeBounded(e.(mes := e.mes.(bytes := e.mes.bytes[e.idx := b],
                                   tag := e.mes.tag.(count := e.mes.tag.count + 1)),
                     idx := e.idx + 1));
  }

  lemma RunningDataSafe(e: Enc, b: byte, t: nat)
    requires Safe(e) && t < 0x2000 && e.mes.tag.channel && e.idx == 0
    ensures Safe(RunningData(e, b, t).e)
  {
    hide Encode, EncodeMessage, Bounded;
    DiscardSafe(e);
    EncodeBounded(e.(mes := e.mes.(bytes := e.mes.bytes[1 := b], ts := t), idx := 2));
  }

  lemma MessageDataSafe(e: Enc, b: byte)
    requires Safe(e) && !e.mes.tag.sysex
    ensures Safe(MessageData(e, b).e)
  {
    hide Encode, EncodeMessage, Bounded;
    DiscardSafe(e);
    if e.idx < e.mes.tag.count {
      EncodeBounded(e.(mes := e.mes.(bytes := e.mes.bytes[e.idx := b]), idx := e.idx + 1));
    }
  }

  /** Every byte keeps the encoder safe; real-time bytes never overrun their buffer. */
  lemma StepSafe(e: Enc, b: byte, t: nat)
    requires Safe(e) && t < 0x2000
    ensures Safe(Step(e, b, t).e)
    ensures Step(e, b, t).Fail? ==> Step(e, b, t).taken == 0
  {
    if b == 0xF7 {
      EndSysexSafe(e);
    } else if IsRealTime(b) {
      RealTimeSafe(e, b, t);
    } else if 0xF0 < b {
      CommonSafe(e, b, t);
    } else if b < 0x80 {
      if e.mes.tag.sysex {
        SysexDataSafe(e, b);
      } else if e.mes.tag.channel && e.idx == 0 {
        RunningDataSafe(e, b, t);
      } else {
        MessageDataSafe(e, b);
      }
    }
  }

  /** Outcome of a call: the state, the number of bytes taken, whether a stream error ended it. */
  datatype PushOut = PushOut(e: Enc, taken: nat, failed: bool)

  /** The byte loop from position `i` on. */
  function Loop(e: Enc, stream: seq<byte>, i: nat, t: nat): (r: PushOut)
    requires Safe(e) && t < 0x2000 && i <= |stream|
    ensures Safe(r.e) && i <= r.taken <= |stream|
    ensures !r.failed ==> r.taken == |stream|
    decreases |stream| - i
  {
    if i < |stream| && PacketLen(e.out.pkt) < e.out.mtu then
      StepSafe(e, stream[i], t);
      match Step(e, stream[i], t)
      case Next(e') => Loop(e', stream, i + 1, t)
      case Fail(e', n) => PushOut(e', i + n, true)
    else PushOut(e, i, false)
  }

  /** One turn of the byte loop. */
  lemma LoopTurn(e: Enc, stream: seq<byte>, i: nat, t: nat)
    requires Safe(e) && t < 0x2000 && i <= |stream|
    ensures !(i < |stream| && PacketLen(e.out.pkt) < e.out.mtu) ==> Loop(e, stream, i, t) == PushOut(e, i, false)
    ensures i < |stream| && PacketLen(e.out.pkt) < e.out.mtu ==>
              var o := Step(e, stream[i], t);
              && Safe(o.e)
              && (o.Next? ==> Loop(e, stream, i, t) == Loop(o.e, stream, i + 1, t))
              && (o.Fail? ==> Loop(e, stream, i, t) == PushOut(o.e, i + o.taken, true))
  {
    hide Step;
    if i < |stream| && PacketLen(e.out.pkt) < e.out.mtu {
      StepSafe(e, stream[i], t);
    }
  }

  /** The packet that is ready at the end of a call without error. */
  function Finish(r: PushOut): PushOut {
    if r.failed || r.taken == 0 || r.e.out.pkt.segs == [] then r
    else r.(e := r.e.(out := Seal(r.e.out)))
  }

  /** A call of push_midi. Every stream is taken whole unless it has an error, and leaves the
      encoder safe. */
  function Push(e: Enc, stream: seq<byte>, t: nat): (r: PushOut)
    requires Safe(e) && t < 0x2000
    ensures Safe(r.e) && r.taken <= |stream|
    ensures !r.failed ==> r.taken == |stream|
  {
    Finish(Loop(e, stream, 0, t))
  }
}
