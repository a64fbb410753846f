/** The encoder half of the codec context, as the firmware keeps it: counters, small arrays and
    a byte ring. Each class carries, as a ghost, the abstract state it stands for. */
module BleMidiEncoder {
  import opened Bytes
  import opened Rings
  import opened BleMidi
  import opened BleMidiEncoding

  /** The packets as the transmitter will see them. */
  function Payloads(queue: seq<Packet>): (r: seq<seq<byte>>)
    ensures |r| == |queue|
  {
    seq(|queue|, i requires 0 <= i < |queue| => PacketBytes(queue[i]))
  }

  lemma PayloadsTail(queue: seq<Packet>)
    requires queue != []
    ensures Payloads(queue) == [PacketBytes(queue[0])] + Payloads(queue[1..])
  {
    hide PacketBytes;
  }

  function Unpacked(records: seq<seq<byte>>): (r: seq<seq<byte>>)
    requires forall i :: 0 <= i < |records| ==> |records[i]| >= 2
    ensures |r| == |records|
  {
    seq(|records|, i requires 0 <= i < |records| => UnpackPacket(records[i]))
  }

  /** The ring `to_ble` of packed packets; `queue` is the payload of each, oldest first. */
  class PacketRing {
    const packetSize: nat
    const cap: nat
    const ring: RingBuffer
    ghost var queue: seq<seq<byte>>

    ghost predicate Valid()
      reads this, ring, ring.buf
    {
      && RecordRing(ring, 2 + packetSize, cap)
      && var frames := Frames(ring.Contents(), 2 + packetSize);
        && (forall i :: 0 <= i < |frames| ==> |frames[i]| == 2 + packetSize)
        && queue == Unpacked(frames)
    }

    constructor (packetSize: nat, cap: nat)
      requires cap > 0
      ensures Valid() && queue == [] && this.packetSize == packetSize && this.cap == cap
      ensures fresh(this) && fresh(ring) && fresh(ring.buf)
    {
      this.packetSize, this.cap := packetSize, cap;
      ring := new RingBuffer((2 + packetSize) * cap);
      queue := [];
      new;
      assert Frames(ring.Contents(), 2 + packetSize) == [];
    }

    /** Stores a packet, or drops it when the ring is full. */
    method Push(len: nat, storage: seq<byte>)
      requires Valid() && len <= |storage| == packetSize && len < 0x1_0000
      modifies this, ring, ring.buf
      ensures Valid()
      ensures queue == if |old(queue)| < cap then old(queue) + [storage[..len]] else old(queue)
    {
      ghost var frames := Frames(ring.Contents(), 2 + packetSize);
      UnpackPackedPacket(len, storage);
      var n := PushRecord(ring, PackPacket(len, storage), 2 + packetSize, cap);
      if |frames| < cap {
        queue := queue + [storage[..len]];
        assert Frames(ring.Contents(), 2 + packetSize) == frames + [PackPacket(len, storage)];
      }
    }

    /** Takes the oldest packet, if there is one. */
    method Pop() returns (p: Option<seq<byte>>)
      requires Valid()
      modifies this, ring
      ensures Valid()
      ensures old(queue) == [] ==> p == None && queue == []
      ensures old(queue) != [] ==> p.Some? && old(queue) == [p.value] + queue
    {
      ghost var frames := Frames(ring.Contents(), 2 + packetSize);
      var rec := PopRecord(ring, 2 + packetSize, cap);
      if |rec| < 2 {
        p := None;
      } else {
        p := Some(UnpackPacket(rec));
        assert frames[0] == rec && frames[1..] == Frames(ring.Contents(), 2 + packetSize);
        queue := queue[1..];
      }
    }
  }

  /** The packet under construction and the ring it goes to. */
  class PacketWriter {
    const mtu: nat
    const pkt: array<byte>
    var pktLen: nat
    var pktRunning: byte
    var pktPrev: byte
    const toBle: PacketRing
    ghost var out: Out

    ghost const Repr: set<object>

    ghost predicate Valid()
      reads this, pkt, toBle, toBle.ring, toBle.ring.buf
    {
      && Repr == {this, pkt, toBle, toBle.ring, toBle.ring.buf}
      && pkt != toBle.ring.buf
      && toBle.Valid() && toBle.packetSize == pkt.Length && toBle.cap == out.cap
      && toBle.queue == Payloads(out.queue)
      && mtu == out.mtu <= pkt.Length < 0x1_0000
      && Bounded(out)
      && pktLen < mtu && pkt[..pktLen] == PacketBytes(out.pkt)
      && pktRunning == out.running && pktPrev == out.prev
    }

    constructor (mtu: nat, cap: nat, packetSize: nat)
      requires 6 <= mtu <= packetSize < 0x1_0000 && cap > 0
      ensures Valid() && fresh(Repr) && out == Init(mtu, cap).out && this.mtu == mtu
      ensures Repr == {this, pkt, toBle, toBle.ring, toBle.ring.buf}
    {
      this.mtu := mtu;
      var a := new byte[packetSize](_ => 0);
      pkt := a;
      pktLen, pktRunning, pktPrev := 0, 0, 0;
      var r := new PacketRing(packetSize, cap);
      toBle := r;
      out := Init(mtu, cap).out;
      Repr := {this, a, r, r.ring, r.ring.buf};
    }

    lemma Sizes()
      requires Valid()
      ensures pktLen == PacketLen(out.pkt) && mtu == out.mtu
      ensures pktLen > 0 <==> out.pkt.segs != []
    {
      hide PacketRing.Valid, Flat;
    }

    method PutByte(b: byte)
      requires pktLen < pkt.Length
      modifies pkt, this`pktLen
      ensures pktLen == old(pktLen) + 1 <= pkt.Length
      ensures pkt[..pktLen] == old(pkt[..pktLen]) + [b]
    {
      pkt[pktLen] := b;
      pktLen := pktLen + 1;
    }

    method AddHeaderIfNeeded(ts: nat)
      requires pktLen < pkt.Length
      modifies pkt, this`pktLen
      ensures pktLen == Max(old(pktLen), 1) <= pkt.Length
      ensures pkt[..pktLen] == if old(pktLen) == 0 then [Header(ts)] else old(pkt[..pktLen])
    {
      if pktLen == 0 {
        PutByte(Header(ts));
      }
    }

    /** Pushes the pending packet to the ring and starts a new one. */
    method SealPacket()
      requires Valid() && out.pkt.segs != []
      modifies this, toBle, toBle.ring, toBle.ring.buf
      ensures Valid() && out == Seal(old(out))
    {
      hide PacketRing.Valid, Flat;
      SealBounded(out);
      assert pkt[..][..pktLen] == pkt[..pktLen];
      toBle.Push(pktLen, pkt[..]);
      pktLen, pktRunning, pktPrev := 0, 0, 0;
      ghost var sealed := Seal(out);
      assert toBle.queue == Payloads(sealed.queue);
      out := sealed;
    }

    method PutBytes(bytes: seq<byte>)
      requires pktLen + |bytes| <= pkt.Length
      modifies pkt, this`pktLen
      ensures pktLen == old(pktLen) + |bytes| <= pkt.Length
      ensures pkt[..pktLen] == old(pkt[..pktLen]) + bytes
    {
      ghost var start := pkt[..pktLen];
      var idx := 0;
      while idx < |bytes|
        invariant idx <= |bytes| && pktLen == |start| + idx
        invariant pkt[..pktLen] == start + bytes[..idx]
      {
        PutByte(bytes[idx]);
        assert bytes[..idx + 1] == bytes[..idx] + [bytes[idx]];
        idx := idx + 1;
      }
      assert bytes[..idx] == bytes;
    }

    /** Writes the bytes of one segment, behind a header if the packet is empty. */
    method WriteSegment(headerTs: nat, bytes: seq<byte>, ghost g: Seg)
      requires Valid() && bytes == SegBytes(g) && |bytes| >= 1
      requires Max(pktLen, 1) + |bytes| < mtu
      modifies this`pktLen, this`out, pkt
      ensures Valid() && out == old(out).(pkt := Emit(old(out).pkt, Header(headerTs), g))
    {
      hide PacketRing.Valid, Bounded, PacketBytes, Emit, Header;
      EmitBytes(out.pkt, Header(headerTs), g);
      EmitBounded(out, Header(headerTs), g);
      AddHeaderIfNeeded(headerTs);
      PutBytes(bytes);
      out := out.(pkt := Emit(out.pkt, Header(headerTs), g));
    }

    static lemma EmitBytes(p: Packet, header: byte, g: Seg)
      ensures PacketBytes(Emit(p, header, g)) == (if PacketBytes(p) == [] then [header] else PacketBytes(p)) + SegBytes(g)
    {
      hide Flat, SegBytes;
      FlatAppend(p.segs, g);
      assert [p.header] + (Flat(p.segs) + SegBytes(g)) == ([p.header] + Flat(p.segs)) + SegBytes(g);
    }

    /** One turn of the loop of midi_service_stream_flush_rt_midi_to_pkt. */
    method WriteRealTime(ts0: nat, ts: nat, status: byte, ghost rt: seq<(byte, nat)>, ghost idx: nat)
      requires Valid() && idx < |rt| && rt[idx] == (status, ts) && rt[0].1 == ts0
      modifies Repr
      ensures Valid() && out == FlushOne(old(out), rt, idx)
    {
      hide PacketRing.Valid, Flat;
      if pktLen + 2 >= mtu {
        SealPacket();
      }
      WriteSegment(ts0, [Low(ts), status], Status(Low(ts), status, []));
      pktPrev := status;
      out := out.(prev := status);
    }

    /** midi_service_stream_flush_rt_midi_to_pkt for the first `n` pending messages. */
    method WritePending(rtStatus: array<byte>, rtTs: array<nat>, n: nat, ghost rt: seq<(byte, nat)>)
      requires Valid() && rtStatus !in Repr && rtTs !in Repr
      requires n == |rt| <= rtStatus.Length && n <= rtTs.Length
      requires forall i :: 0 <= i < n ==> rt[i] == (rtStatus[i], rtTs[i])
      modifies Repr
      ensures Valid() && out == Flush(old(out), rt, n)
    {
      hide PacketRing.Valid, Bounded, FlushOne;
      var idx := 0;
      while idx < n
        invariant Valid() && idx <= n
        invariant out == Flush(old(out), rt, idx)
      {
        WriteRealTime(rtTs[0], rtTs[idx], rtStatus[idx], rt, idx);
        idx := idx + 1;
      }
    }

    method DropPacket()
      requires Valid()
      modifies Repr
      ensures Valid() && out == old(out).(pkt := EMPTY)
    {
      pktLen := 0;
      out := out.(pkt := EMPTY);
    }

    /** ble_midi_pkt_codec_ble_pkt_pop: the oldest queued packet, if there is one. */
    method PopPacket() returns (p: Option<seq<byte>>)
      requires Valid()
      modifies Repr
      ensures Valid()
      ensures old(out.queue) == [] ==> p == None && out == old(out)
      ensures old(out.queue) != [] ==>
                p == Some(PacketBytes(old(out.queue)[0])) && out == old(out).(queue := old(out.queue)[1..])
    {
      hide PacketRing.Valid, Flat, Payloads, PacketBytes;
      ghost var queue := out.queue;
      p := toBle.Pop();
      if queue != [] {
        PayloadsTail(queue);
        assert p.value == Payloads(queue)[0];
        assert toBle.queue == Payloads(queue)[1..];
        out := out.(queue := queue[1..]);
      }
    }

    /** Decides which bytes of a message go into a packet, and whether they need a new one. */
    method Plan(mes: Message, previousTs: nat) returns (bytes: seq<byte>, full: bool)
      requires Valid() && IsMessage(mes) && Ordered(mes.tag) && mes.tag.count > 0
      ensures full == Overflows(out, mes, previousTs)
      ensures bytes == SegBytes(NewSeg(out, mes, previousTs))
    {
      hide PacketRing.Valid, Flat, Bounded;
      var requiresByte0 := !mes.tag.channel || pktRunning != mes.bytes[0];
      var needsTimestamp := !(mes.tag.sysex && !mes.tag.startSysex) && (requiresByte0 || previousTs != mes.ts);
      if !needsTimestamp && mes.tag.channel && pktPrev != pktRunning {
        needsTimestamp := true;
      }
      var firstByteIdx := if requiresByte0 then 0 else 1;
      var totalBytes := mes.tag.count + (if needsTimestamp then 1 else 0) - firstByteIdx;
      full := pktLen + totalBytes >= mtu;
      if full {
        needsTimestamp := true;
      }
      bytes := (if needsTimestamp then [Low(mes.ts)] else []) + mes.bytes[firstByteIdx..mes.tag.count];
    }

    /** midi_service_stream_encode_bt_pkt, after the real-time messages are out. */
    method WriteMessage(mes: Message, previousTs: nat)
      requires Valid() && IsMessage(mes) && Ordered(mes.tag) && mes.tag.count > 0
      modifies Repr
      ensures Valid() && out == EncodeMessage(old(out), mes, previousTs)
    {
      hide PacketRing.Valid, Flat, Hazard, NeedsStamp, Overflows, Bounded, SegOf;
      SegFits(out, mes, previousTs);
      EncodeMessageBounded(out, mes, previousTs);
      ghost var clean := out.clean && !Hazard(out, mes, previousTs);
      ghost var g := NewSeg(out, mes, previousTs);
      var bytes, full := Plan(mes, previousTs);
      if full {
        SealPacket();
      }
      WriteSegment(mes.ts, bytes, g);
      if mes.tag.channel {
        pktRunning := mes.bytes[0];
      }
      if mes.bytes[0] >= 0x80 {
        pktPrev := mes.bytes[0];
      }
      out := out.(running := pktRunning, prev := pktPrev, clean := clean);
    }
  }

  /** The encoder: message under assembly, pending real-time messages, and the packet writer.
      `st` is the abstract state. */
  class Encoder {
    var mes: Message
    var nextMsgByteIdx: nat
    var previousTs: nat
    var runningStatus: byte
    var npendingRt: nat
    const rtStatus: array<byte>
    const rtTs: array<nat>
    const writer: PacketWriter
    ghost var st: Enc

    ghost const Repr: set<object>

    ghost predicate PendingLinked()
      reads this, rtStatus, rtTs
    {
      && rtStatus.Length == MAX_PENDING_RT && rtTs.Length == MAX_PENDING_RT
      && npendingRt == |st.rt| <= MAX_PENDING_RT
      && forall i :: 0 <= i < npendingRt ==> st.rt[i] == (rtStatus[i], rtTs[i])
    }

    /** The parts of a codec context. */
    ghost predicate Allocated()
      reads this, Repr
    {
      && Repr == {this, rtStatus, rtTs, writer} + writer.Repr
      && this !in writer.Repr && rtStatus !in writer.Repr && rtTs !in writer.Repr
      && writer.Repr == {writer, writer.pkt, writer.toBle, writer.toBle.ring, writer.toBle.ring.buf}
      && writer.Valid()
      && rtStatus.Length == MAX_PENDING_RT && rtTs.Length == MAX_PENDING_RT
    }

    /** Fields, arrays and packet writer hold what `st` says. */
    ghost predicate Linked()
      reads this, Repr
    {
      && Allocated()
      && PendingLinked()
      && mes == st.mes && nextMsgByteIdx == st.idx && previousTs == st.prevTs && runningStatus == st.running
      && writer.out == st.out
    }

    ghost predicate Valid()
      reads this, Repr
    {
      Linked() && Safe(st)
    }

    constructor (mtu: nat, cap: nat, packetSize: nat)
      requires 6 <= mtu <= packetSize < 0x1_0000 && cap > 0
      ensures Allocated() && fresh(Repr) && writer.mtu == mtu && writer.out == Init(mtu, cap).out
    {
      hide PacketWriter.Valid;
      var w := new PacketWriter(mtu, cap, packetSize);
      var a := new byte[MAX_PENDING_RT];
      var b := new nat[MAX_PENDING_RT];
      rtStatus, rtTs, writer := a, b, w;
      Repr := {this, a, b, w} + w.Repr;
    }

    /** ble_midi_pkt_codec_init_ring_buffers, on a context with empty rings. */
    method InitData(ghost cap: nat)
      requires Allocated() && writer.mtu >= 6 && writer.out == Init(writer.mtu, cap).out
      modifies this
      ensures Valid() && st == Init(writer.mtu, cap)
    {
      hide PacketWriter.Valid, Safe;
      mes, nextMsgByteIdx, previousTs, runningStatus := NO_MESSAGE, 0, NO_TIME, 0;
      npendingRt := 0;
      st := Init(writer.mtu, cap);
      InitSafe(writer.mtu, cap);
    }

    method FlushRealTime()
      requires Linked()
      modifies Repr
      ensures Linked()
      ensures st == old(st).(rt := [], out := Flush(old(st.out), old(st.rt), |old(st.rt)|))
    {
      hide PacketWriter.Valid;
      writer.WritePending(rtStatus, rtTs, npendingRt, st.rt);
      npendingRt := 0;
      st := st.(rt := [], out := writer.out);
    }

    method EncodeBtPkt()
      requires Linked() && IsMessage(st.mes) && Ordered(st.mes.tag)
      modifies Repr
      ensures Linked() && st == Encode(old(st))
    {
      hide PacketWriter.Valid, EncodeMessage, Flush;
      if mes.tag.count == 0 {
        return;
      }
      if !mes.tag.realTime {
        FlushRealTime();
      }
      writer.WriteMessage(mes, previousTs);
      st := st.(out := writer.out);
    }

    method EncodeFullBtPkt()
      requires Linked() && IsMessage(st.mes) && Ordered(st.mes.tag)
      modifies Repr
      ensures Linked() && st == EncodeFull(old(st))
    {
      hide PacketWriter.Valid, EncodeMessage, Flush;
      EncodeBtPkt();
      nextMsgByteIdx := 0;
      st := st.(idx := 0);
    }

    /** midi_service_stream_discard_stream, without its log output. */
    method DiscardStream()
      requires Linked()
      modifies Repr
      ensures Linked() && st == Discard(old(st))
    {
      hide PacketWriter.Valid;
      nextMsgByteIdx, previousTs, runningStatus, npendingRt := 0, NO_TIME, 0, 0;
      mes := mes.(tag := Plain(0), ts := NO_TIME);
      writer.DropPacket();
      st := Discard(st);
    }

    // The branches of push_midi, one method each

    /** Status 0xF7; the result says whether it was in place. */
    method EndOfSysex() returns (ok: bool)
      requires Valid()
      modifies Repr
      ensures Linked() && EndSysex(old(st)) == if ok then Next(st) else Fail(st, 0)
    {
      hide PacketWriter.Valid, EncodeMessage, Flush, Bounded, Encode;
      if !mes.tag.sysex {
        DiscardStream();
        return false;
      }
      if nextMsgByteIdx != 0 {
        EncodeBtPkt();
      }
      mes := Message(Plain(1), mes.bytes[0 := 0xF7], previousTs);
      st := st.(mes := mes);
      EncodeFullBtPkt();
      runningStatus := 0;
      st := st.(running := 0);
      return true;
    }

    /** A real-time status byte; the overrun check is live in a state with messages pending. */
    method RealTimeStatus(b: byte, t: nat) returns (ok: bool)
      requires Linked() && IsMessage(st.mes) && Ordered(st.mes.tag) && npendingRt < MAX_PENDING_RT
      modifies Repr
      ensures Linked() && RealTime(old(st), b, t) == if ok then Next(st) else Fail(st, 1)
    {
      hide PacketWriter.Valid, EncodeMessage, Flush, Bounded;
      if mes.tag.sysex && mes.tag.count > 0 {
        EncodeFullBtPkt();
        mes := mes.(tag := SysexTag(0));
        st := st.(mes := mes);
      }
      rtStatus[npendingRt], rtTs[npendingRt] := b, t;
      npendingRt := npendingRt + 1;
      st := st.(rt := st.rt + [(b, t)]);
      if npendingRt >= MAX_PENDING_RT {
        DiscardStream();
        return false;
      }
      FlushRealTime();
      return true;
    }

    /** A system common status byte. */
    method CommonStatus(b: byte, t: nat)
      requires Valid() && t < 0x2000
      modifies Repr
      ensures Linked() && st == Common(old(st), b, t)
    {
      hide PacketWriter.Valid, EncodeMessage, Flush, Bounded, Encode;
      previousTs, runningStatus := t, 0;
      mes := Message(Plain(if b == 0xF1 || b == 0xF3 then 2 else if b == 0xF2 then 3 else 1), mes.bytes[0 := b], t);
      st := st.(prevTs := t, running := 0, mes := mes);
      if b == 0xF1 || b == 0xF3 || b == 0xF2 {
        nextMsgByteIdx := 1;
        st := st.(idx := 1);
      } else {
        EncodeFullBtPkt();
        mes := mes.(tag := Plain(0));
        st := st.(mes := mes);
      }
    }

    /** A data byte inside a system exclusive message. */
    method SysexByte(b: byte)
      requires Valid() && mes.tag.sysex
      modifies Repr
      ensures Linked() && st == SysexData(old(st), b)
    {
      hide PacketWriter.Valid, EncodeMessage, Flush, Bounded, Encode;
      mes := mes.(bytes := mes.bytes[nextMsgByteIdx := b], tag := mes.tag.(count := mes.tag.count + 1));
      nextMsgByteIdx := nextMsgByteIdx + 1;
      st := st.(mes := mes, idx := nextMsgByteIdx);
      if nextMsgByteIdx >= 3 {
        EncodeFullBtPkt();
        mes := mes.(ts := previousTs, tag := SysexTag(0));
        st := st.(mes := mes);
      }
    }

    /** The first data byte of a channel message under running status. */
    method RunningByte(b: byte, t: nat) returns (ok: bool)
      requires Valid() && t < 0x2000 && mes.tag.channel && nextMsgByteIdx == 0
      modifies Repr
      ensures Linked() && RunningData(old(st), b, t) == if ok then Next(st) else Fail(st, 0)
    {
      hide PacketWriter.Valid, EncodeMessage, Flush, Bounded, Encode;
      if runningStatus == 0 || runningStatus != mes.bytes[0] {
        DiscardStream();
        return false;
      }
      mes := mes.(bytes := mes.bytes[1 := b], ts := t);
      nextMsgByteIdx := 2;
      st := st.(mes := mes, idx := 2);
      if mes.tag.count == nextMsgByteIdx {
        EncodeFullBtPkt();
      }
      return true;
    }

    /** Any other data byte. */
    method MessageByte(b: byte) returns (ok: bool)
      requires Valid() && !mes.tag.sysex
      modifies Repr
      ensures Linked() && MessageData(old(st), b) == if ok then Next(st) else Fail(st, 0)
    {
      hide PacketWriter.Valid, EncodeMessage, Flush, Bounded, Encode;
      var len := mes.tag.count;
      if nextMsgByteIdx >= len {
        DiscardStream();
        return false;
      }
      mes := mes.(bytes := mes.bytes[nextMsgByteIdx := b]);
      nextMsgByteIdx := nextMsgByteIdx + 1;
      st := st.(mes := mes, idx := nextMsgByteIdx);
      if len == nextMsgByteIdx {
        EncodeFullBtPkt();
        if !mes.tag.channel {
          mes := mes.(tag := Plain(0));
          st := st.(mes := mes);
        }
      }
      return true;
    }

    /** One turn of the loop of push_midi; `taken` counts the byte if it was consumed. */
    method PushByte(b: byte, t: nat) returns (ok: bool, taken: nat)
      requires Valid() && t < 0x2000
      modifies Repr
      ensures Valid()
      ensures taken == if ok then 1 else 0
      ensures Step(old(st), b, t) == if ok then Next(st) else Fail(st, 0)
    {
      hide PacketWriter.Valid, EncodeFull, SysexData, RunningData, MessageData, EndSysex, RealTime, Common, Bounded;
      StepSafe(st, b, t);
      ok, taken := true, 1;
      if b >= 0x80 {
        if b == 0xF0 {
          previousTs, runningStatus, nextMsgByteIdx := t, 0, 1;
          mes := mes.(tag := Tag(true, true, false, false, 1), bytes := mes.bytes[0 := b]);
          st := StartSysex(st, t);
        } else if b == 0xF7 {
          ok := EndOfSysex();
        } else if b >= 0xF8 {
          ok := RealTimeStatus(b, t);
        } else if b > 0xF0 {
          CommonStatus(b, t);
        } else {
          runningStatus, previousTs, nextMsgByteIdx := b, t, 1;
          mes := Message(ChannelTag(ChannelLen(b)), mes.bytes[0 := b], t);
          st := Channel(st, b, t);
        }
      } else if mes.tag.sysex {
        SysexByte(b);
      } else if mes.tag.channel && nextMsgByteIdx == 0 {
        ok := RunningByte(b, t);
      } else {
        ok := MessageByte(b);
      }
      if !ok {
        taken := 0;
      }
    }

    lemma Sizes()
      requires Valid()
      ensures Safe(st) && writer.Repr <= Repr
      ensures writer.pktLen == PacketLen(st.out.pkt) && writer.mtu == st.out.mtu
    {
      hide PacketWriter.Valid;
      writer.Sizes();
    }

    /** The byte loop of push_midi. */
    method PushLoop(stream: seq<byte>, timestamp: nat) returns (bytesPushed: nat, failed: bool)
      requires Valid() && timestamp < 0x2000
      modifies Repr
      ensures Valid()
      ensures Loop(old(st), stream, 0, timestamp) == PushOut(st, bytesPushed, failed)
    {
      hide Valid, Step, Safe, Loop, PacketLen;
      bytesPushed, failed := 0, false;
      Sizes();
      while bytesPushed < |stream| && writer.pktLen < writer.mtu
        invariant Valid() && Safe(st)
        invariant writer.pktLen == PacketLen(st.out.pkt) && writer.mtu == st.out.mtu
        invariant bytesPushed <= |stream|
        invariant Loop(old(st), stream, 0, timestamp) == Loop(st, stream, bytesPushed, timestamp)
      {
        LoopTurn(st, stream, bytesPushed, timestamp);
        var ok, taken := PushByte(stream[bytesPushed], timestamp);
        bytesPushed := bytesPushed + taken;
        if !ok {
          return bytesPushed, true;
        }
        Sizes();
      }
      LoopTurn(st, stream, bytesPushed, timestamp);
    }

    /** ble_midi_pkt_codec_push_midi, at the 13-bit time `timestamp`. */
    method PushMidi(stream: seq<byte>, timestamp: nat) returns (bytesPushed: nat, readyToSend: bool)
      requires Valid() && timestamp < 0x2000
      modifies Repr
      ensures Valid()
      ensures var r := Push(old(st), stream, timestamp);
              st == r.e && bytesPushed == r.taken && (!r.failed ==> bytesPushed == |stream|)
      ensures var l := Loop(old(st), stream, 0, timestamp);
              readyToSend <==> !l.failed && l.taken > 0 && l.e.out.pkt.segs != []
    {
      hide PacketWriter.Valid, Loop, Bounded, Seal;
      var failed;
      bytesPushed, failed := PushLoop(stream, timestamp);
      readyToSend := false;
      if failed {
        return;
      }
      if bytesPushed > 0 {
        readyToSend := SealIfStarted();
      }
    }

    static lemma Started(p: Packet)
      ensures PacketLen(p) > 0 <==> p.segs != []
    {
    }

    static lemma SealSafe(e: Enc)
      requires Safe(e) && e.out.pkt.segs != []
      ensures Safe(e.(out := Seal(e.out)))
    {
      hide Bounded, Seal;
      SealBounded(e.out);
    }

    /** The packet that is ready at the end of a call, if there is one. */
    method SealIfStarted() returns (ready: bool)
      requires Valid()
      modifies Repr
      ensures Valid() && ready == (old(st.out.pkt.segs) != [])
      ensures st == if ready then old(st).(out := Seal(old(st.out))) else old(st)
    {
      hide PacketWriter.Valid, Safe, Seal, PacketLen;
      writer.Sizes();
      assert PacketLen(st.out.pkt) > 0 <==> st.out.pkt.segs != [] by { Started(st.out.pkt); }
      ready := writer.pktLen > 0;
      if ready {
        SealSafe(st);
        writer.SealPacket();
        st := st.(out := writer.out);
      }
    }

    /** Hands the oldest packet to the transmitter; decoding it is then up to the receiver. */
    method PopPacket() returns (p: Option<seq<byte>>)
      requires Valid()
      modifies Repr
      ensures Valid()
      ensures old(st.out.queue) == [] ==> p == None && st == old(st)
      ensures old(st.out.queue) != [] ==>
                && p == Some(PacketBytes(old(st.out.queue)[0]))
                && st == old(st).(out := old(st.out).(queue := old(st.out.queue)[1..]))
    {
      hide PacketWriter.Valid;
      p := writer.PopPacket();
      st := st.(out := writer.out);
    }
  }
}
