/** After a stream error the BLE-MIDI encoder drops its packet but keeps what that packet had said as
    running status. When later calls make the round trip all the same. */
module BleMidiResync {
  import opened Bytes
  import opened BleMidi
  import opened BleMidiEncoding
  import opened BleMidiDecoding
  import opened BleMidiSegments
  import opened BleMidiRoundTrip
  import opened BleMidiHazards
  import opened BleMidiMisreads

  /** The status a packet leaves as running status, 0 if it has no channel message. */
  function Told(segs: seq<Seg>): byte {
    if segs == [] then 0
    else
      match segs[|segs| - 1]
      case Run(_, b, _) => b
      case Status(_, b, _) => if IsChannel(b) then b else Told(segs[..|segs| - 1])
      case Cont(_, _) => Told(segs[..|segs| - 1])
  }

  /** The byte completes a channel message. */
  predicate Completes(e: Enc, b: byte) {
    IsData(b) && e.mes.tag.channel && if e.idx == 0 then e.mes.tag.count == 2 else e.idx + 1 == e.mes.tag.count
  }

  /** The byte completes a message whose status is left out although its packet never said it. */
  predicate StaleWrite(e: Enc, b: byte)
    requires Safe(e)
  {
    Completes(e, b) && ElidesStatus(e.out, e.mes) && Told(e.out.pkt.segs) == 0
  }

  /** The bytes from position `i` on cause no such write. */
  predicate LoopClear(e: Enc, stream: seq<byte>, i: nat, t: nat)
    requires Safe(e) && t < 0x2000 && i <= |stream|
    decreases |stream| - i
  {
    i == |stream| ||
    (StepSafe(e, stream[i], t); !StaleWrite(e, stream[i]) && LoopClear(Step(e, stream[i], t).e, stream, i + 1, t))
  }

  predicate RunClear(e: Enc, calls: seq<Call>)
    requires Safe(e) && Timed(calls)
    decreases |calls|
  {
    calls == [] ||
    var c := calls[0];
    var r := Push(e, c.stream, c.t).e;
    DrainSafe(r, c.taken);
    LoopClear(e, c.stream, 0, c.t) && RunClear(Drain(r, c.taken), calls[1..])
  }

  // The encoder beside one that has forgotten the stale status

  /** The two differ in what they know about their packets only. */
  predicate Alike(s: Enc, f: Enc) {
    f == s.(out := f.out)
  }

  /** Same packets, and the same running status unless the forgetful one has none. */
  predicate SameOut(s: Out, f: Out) {
    && f == s.(running := f.running, prev := f.prev)
    && ((f.running == s.running && f.prev == s.prev) || f.running == 0)
  }

  /** As long as they differ, the packet is the first one since the error: what it holds are no channel
      messages. */
  predicate StaleKnown(s: Enc, f: Enc) {
    s.out.running != f.out.running ==>
      && (s.out.pkt.segs != [] ==> s.out.prev == f.out.prev && !IsChannel(s.out.prev))
      && (Continues(s.mes) ==> s.out.pkt.segs != [])
  }

  lemma ToldMore(segs: seq<Seg>, g: Seg)
    ensures Told(segs + [g]) == match g case Run(_, b, _) => b
                                        case Status(_, b, _) => if IsChannel(b) then b else Told(segs)
                                        case Cont(_, _) => Told(segs)
  {
    assert (segs + [g])[..|segs|] == segs;
  }

  /** The forgetful encoder's running status is what its packet says. */
  predicate Knows(f: Out) {
    f.running == Told(f.pkt.segs)
  }

  lemma EncodeKnows(f: Out, m: Message, prevTs: nat)
    requires IsMessage(m) && m.tag.count > 0 && Ordered(m.tag) && Knows(f)
    requires m.tag.channel == IsChannel(m.bytes[0]) || Continues(m)
    ensures Knows(EncodeMessage(f, m, prevTs))
  {
    hide Overflows, NeedsStamp, Hazard;
    ToldMore(Prepared(f, m, prevTs).pkt.segs, NewSeg(f, m, prevTs));
  }

  /** Both write the same, unless the status left out is stale. */
  lemma EncodeSame(s: Out, f: Out, m: Message, prevTs: nat)
    requires IsMessage(m) && m.tag.count > 0 && Ordered(m.tag) && SameOut(s, f)
    requires m.tag.channel && s.running == m.bytes[0] ==> f.running == s.running
    requires m.tag.channel ==> IsChannel(m.bytes[0])
    ensures SameOut(EncodeMessage(s, m, prevTs), EncodeMessage(f, m, prevTs))
    ensures NewSeg(s, m, prevTs) == NewSeg(f, m, prevTs)
    ensures EncodeMessage(s, m, prevTs).running != EncodeMessage(f, m, prevTs).running ==>
              && s.running != f.running && !m.tag.channel && !Overflows(s, m, prevTs)
              && (m.bytes[0] >= 0x80 ==> EncodeMessage(s, m, prevTs).prev == EncodeMessage(f, m, prevTs).prev == m.bytes[0])
              && (m.bytes[0] < 0x80 ==> EncodeMessage(s, m, prevTs).prev == s.prev && EncodeMessage(f, m, prevTs).prev == f.prev)
              && EncodeMessage(s, m, prevTs).pkt.segs != []
  {
    hide PacketLen, OnlyRealTime;
  }

  lemma FlushSame(s: Out, f: Out, b: byte, t: nat)
    requires SameOut(s, f) && IsRealTime(b)
    ensures SameOut(FlushOne(s, [(b, t)], 0), FlushOne(f, [(b, t)], 0))
    ensures FlushOne(s, [(b, t)], 0).pkt.segs != [] && FlushOne(s, [(b, t)], 0).prev == FlushOne(f, [(b, t)], 0).prev == b
    ensures FlushOne(s, [(b, t)], 0).running != FlushOne(f, [(b, t)], 0).running ==> s.running != f.running
    ensures Knows(f) ==> Knows(FlushOne(f, [(b, t)], 0))
  {
    hide PacketLen;
    var f1 := if PacketLen(f.pkt) + 2 >= f.mtu then Seal(f) else f;
    ToldMore(f1.pkt.segs, Status(Low(t), b, []));
  }

  // How packets grow

  /** All packets, the one under construction included. */
  function All(wire: seq<Packet>, o: Out): (r: seq<Packet>)
    ensures |r| > 0
  {
    Sent(wire, o) + [o.pkt]
  }

  predicate Extends(p: Packet, q: Packet) {
    && |p.segs| <= |q.segs| && q.segs[..|p.segs|] == p.segs && (p.segs != [] ==> q.header == p.header)
  }

  /** Only the last packet changes, by growing, and others may follow it. */
  predicate Grown(ps: seq<Packet>, qs: seq<Packet>) {
    && 0 < |ps| <= |qs|
    && (forall i :: 0 <= i < |ps| - 1 ==> qs[i] == ps[i])
    && Extends(ps[|ps| - 1], qs[|ps| - 1])
  }

  lemma GrownTwice(ps: seq<Packet>, qs: seq<Packet>, rs: seq<Packet>)
    requires Grown(ps, qs) && Grown(qs, rs)
    ensures Grown(ps, rs)
  {
    var l := |ps| - 1;
    if l < |qs| - 1 {
      assert rs[l] == qs[l];
    } else {
      var p, q, r := ps[l], qs[l], rs[l];
      assert r.segs[..|q.segs|][..|p.segs|] == r.segs[..|p.segs|];
    }
  }

  predicate Grows(wire: seq<Packet>, o: Out, o': Out) {
    o'.lost == 0 ==> o.lost == 0 && Grown(All(wire, o), All(wire, o'))
  }

  lemma GrowsNot(wire: seq<Packet>, o: Out)
    ensures Grows(wire, o, o)
  {
  }

  lemma GrowsTwice(wire: seq<Packet>, o: Out, o1: Out, o2: Out)
    requires Grows(wire, o, o1) && Grows(wire, o1, o2)
    ensures Grows(wire, o, o2)
  {
    if o2.lost == 0 {
      GrownTwice(All(wire, o), All(wire, o1), All(wire, o2));
    }
  }

  lemma SealGrows(wire: seq<Packet>, o: Out)
    ensures Grows(wire, o, Seal(o))
  {
    if Seal(o).lost == 0 {
      assert All(wire, Seal(o)) == All(wire, o) + [EMPTY];
      assert o.pkt.segs[..|o.pkt.segs|] == o.pkt.segs;
    }
  }

  lemma EmitGrows(wire: seq<Packet>, o: Out, header: byte, g: Seg, o': Out)
    requires o'.pkt == Emit(o.pkt, header, g) && o'.queue == o.queue && o'.lost == o.lost
    ensures Grows(wire, o, o')
  {
    assert (o.pkt.segs + [g])[..|o.pkt.segs|] == o.pkt.segs;
  }

  lemma EncodeGrows(wire: seq<Packet>, o: Out, m: Message, prevTs: nat)
    requires IsMessage(m) && m.tag.count > 0
    ensures Grows(wire, o, EncodeMessage(o, m, prevTs))
  {
    hide Overflows, NeedsStamp, Hazard, Grows;
    var o1 := Prepared(o, m, prevTs);
    SealGrows(wire, o);
    GrowsNot(wire, o);
    EmitGrows(wire, o1, Header(m.ts), NewSeg(o, m, prevTs), EncodeMessage(o, m, prevTs));
    GrowsTwice(wire, o, o1, EncodeMessage(o, m, prevTs));
  }

  lemma FlushGrows(wire: seq<Packet>, o: Out, b: byte, t: nat)
    ensures Grows(wire, o, FlushOne(o, [(b, t)], 0))
  {
    hide PacketLen, Grows;
    var o1 := if PacketLen(o.pkt) + 2 >= o.mtu then Seal(o) else o;
    SealGrows(wire, o);
    GrowsNot(wire, o);
    EmitGrows(wire, o1, Header(t), Status(Low(t), b, []), FlushOne(o, [(b, t)], 0));
    GrowsTwice(wire, o, o1, FlushOne(o, [(b, t)], 0));
  }

  // Packets that spoil the run, whatever is added to them

  /** The decoder is stuck at a segment, whatever follows it. */
  predicate Blocks(d: Dec, g: Seg) {
    Fatal(d, g) && !Solo(g)
  }

  ghost predicate BlockedAt(p: Packet, k: nat) {
    && k < |p.segs| && 0x80 <= p.header < 0xC0
    && WfAll(p.segs[..k]) && WfSeg(p.segs[k]) && (StartsWithData(p.segs[0]) ==> p.segs[0].Cont?)
    && GoodAll(Start(p), p.segs[..k]) && Blocks(DecAfter(Start(p), p.segs[..k]), p.segs[k])
  }

  ghost predicate Blocked(p: Packet) {
    exists k: nat :: BlockedAt(p, k)
  }

  lemma BlockedExtends(p: Packet, q: Packet)
    requires Blocked(p) && Extends(p, q)
    ensures Blocked(q)
  {
    hide WfSeg, GoodAll, DecAfter, Blocks;
    var k: nat :| BlockedAt(p, k);
    assert p.segs[0] == q.segs[..|p.segs|][0] && p.segs[k] == q.segs[..|p.segs|][k];
    assert q.segs[..k] == q.segs[..|p.segs|][..k];
    assert Start(p) == Start(q);
    assert BlockedAt(q, k);
  }

  lemma BlockedSticks(d: Dec, g: Seg, rest: seq<byte>)
    requires WfSeg(g) && Blocks(d, g)
    ensures !Complete(Decode(d, SegBytes(g) + rest))
  {
    hide DecodeStatus;
    var s := SegBytes(g) + rest;
    assert |s| > 0;
  }

  lemma PacketStart(p: Packet)
    requires p.segs != [] && 0x80 <= p.header < 0xC0 && WfSeg(p.segs[0])
    ensures DecodePacket(PacketBytes(p)) == Decode(Opening(p.header, StartsWithData(p.segs[0])), Flat(p.segs))
  {
    hide Decode, Flat;
    FlatHead(p.segs);
    var pkt := PacketBytes(p);
    assert pkt[1..] == Flat(p.segs);
    assert pkt[1] == SegBytes(p.segs[0])[0];
  }

  lemma BlockedIncomplete(p: Packet)
    requires Blocked(p)
    ensures p.segs != [] && !Complete(DecodePacket(PacketBytes(p)))
  {
    hide Decode, Flat, GoodAll, DecAfter, Blocks, WfSeg, TokensOf;
    var k: nat :| BlockedAt(p, k);
    var before, g, after := p.segs[..k], p.segs[k], p.segs[k + 1..];
    assert WfSeg(p.segs[0]) by { if k > 0 { assert before[0] == p.segs[0]; } }
    PacketStart(p);
    assert p.segs == before + [g] + after;
    FlatConcat(before + [g], after);
    FlatConcat(before, [g]);
    FlatSingle(g);
    assert Flat(p.segs) == Flat(before) + (SegBytes(g) + Flat(after));
    DecodeAll(Start(p), before, SegBytes(g) + Flat(after));
    BlockedSticks(DecAfter(Start(p), before), g, Flat(after));
  }

  /** A packet that begins with the data of a channel message, without status and time byte: it is
      read as payload of a system exclusive message. */
  predicate Unled(p: Packet) {
    p.segs != [] && 0x80 <= p.header < 0xC0 && p.segs[0].Run? && p.segs[0].stamp == None && WfSeg(p.segs[0])
  }

  lemma UnledReadsPayload(p: Packet)
    requires Unled(p)
    ensures var toks := DecodePacket(PacketBytes(p)).toks; |toks| > 0 && toks[0].ev.Sx?
  {
    PacketStart(p);
    hide PacketBytes, DecodePacket, DecodeStatus;
    FlatHead(p.segs);
    var s := Flat(p.segs);
    assert s[0] == p.segs[0].data[0];
  }

  /** A packet that reads as payload where the stream has a message. */
  ghost predicate MisreadAt(ps: seq<Packet>, ref: seq<Event>, n: nat) {
    && n < |ps| && Unled(ps[n]) && WfQueue(ps[..n]) && GoodQueue(ps[..n])
    && |PacketEvents(ps[..n])| < |ref| && ref[|PacketEvents(ps[..n])|].Msg?
  }

  /** No round trip any more. */
  ghost predicate Bad(ps: seq<Packet>, ref: seq<Event>) {
    || (exists i :: 0 <= i < |ps| - 1 && Doomed(ps[i]))
    || (exists i :: 0 <= i < |ps| && Blocked(ps[i]))
    || (exists n: nat :: MisreadAt(ps, ref, n))
  }

  lemma BadStays(ps: seq<Packet>, qs: seq<Packet>, ref: seq<Event>, more: seq<Event>)
    requires Bad(ps, ref) && Grown(ps, qs)
    ensures Bad(qs, ref + more)
  {
    hide Doomed, Blocked, WfQueue, GoodQueue, PacketEvents, WfSeg, Extends;
    var l := |ps| - 1;
    if i :| 0 <= i < |ps| - 1 && Doomed(ps[i]) {
      assert Doomed(qs[i]);
    } else if i :| 0 <= i < |ps| && Blocked(ps[i]) {
      if i == l {
        BlockedExtends(ps[i], qs[i]);
      }
      assert Blocked(qs[i]);
    } else {
      var n: nat :| MisreadAt(ps, ref, n);
      assert ps[..n] == qs[..n];
      UnledExtends(ps[n], qs[n], n == l);
      assert MisreadAt(qs, ref + more, n);
    }
  }

  lemma UnledExtends(p: Packet, q: Packet, last: bool)
    requires Unled(p) && if last then Extends(p, q) else q == p
    ensures Unled(q)
  {
    hide WfSeg;
    assert last ==> q.segs[..|p.segs|][0] == q.segs[0];
  }

  lemma BadIsIncomplete(ps: seq<Packet>, p: Packet, ref: seq<Event>, rest: seq<Event>)
    requires Bad(ps + [p], ref) && p.segs == []
    ensures !(AllDecoded(ps) && DecodedEvents(ps) + rest == ref)
  {
    hide Doomed, Blocked, DecodePacket, PacketBytes, GoodQueue, WfQueue, PacketEvents, DecodedEvents, Complete, WfSeg;
    var all := ps + [p];
    assert all[..|ps|] == ps;
    if i :| 0 <= i < |all| - 1 && Doomed(all[i]) {
      DoomedIncomplete(all[i]);
      assert !Complete(DecodePacket(PacketBytes(ps[i])));
    } else if i :| 0 <= i < |all| && Blocked(all[i]) {
      BlockedIncomplete(all[i]);
      assert !Complete(DecodePacket(PacketBytes(ps[i])));
    } else {
      var n: nat :| MisreadAt(all, ref, n);
      assert all[..n] == ps[..n];
      GoodWire(ps[..n]);
      UnledReadsPayload(ps[n]);
      DecodedFrom(ps, n);
    }
  }

  /** What is decoded of a packet follows what is decoded before it. */
  lemma {:induction false} DecodedFrom(ps: seq<Packet>, n: nat)
    requires n < |ps|
    ensures var before := DecodedEvents(ps[..n]) + Unstamp(DecodePacket(PacketBytes(ps[n])).toks);
            |before| <= |DecodedEvents(ps)| && DecodedEvents(ps)[..|before|] == before
    decreases |ps|
  {
    hide DecodePacket, PacketBytes;
    var init := ps[..|ps| - 1];
    if n < |init| {
      DecodedFrom(init, n);
      assert init[..n] == ps[..n];
    } else {
      assert init == ps[..n];
    }
  }

  // The stale write

  lemma {:induction false} ToldZero(segs: seq<Seg>, k: nat)
    requires WfAll(segs) && Told(segs) == 0 && k < |segs|
    ensures !segs[k].Run?
  {
    assert WfSeg(segs[|segs| - 1]);
    if k < |segs| - 1 {
      ToldZero(segs[..|segs| - 1], k);
    }
  }

  lemma DoomedBlocked(p: Packet)
    requires Doomed(p) && Told(p.segs) == 0
    ensures Blocked(p)
  {
    hide GoodAll, DecAfter, Fatal, Told;
    var k: nat :| DoomedAt(p, k);
    ToldZero(p.segs, k);
    assert BlockedAt(p, k);
  }

  /** The message is appended behind a time byte: the decoder knows no status for it. */
  lemma StampedBlocks(p: Packet, header: byte, g: Seg)
    requires g.Run? && g.stamp.Some? && WfSeg(g) && 0x80 <= header < 0xC0
    requires p.segs != [] ==> GoodPacket(p) && DecAfter(Start(p), p.segs).running == 0
    ensures Blocked(Emit(p, header, g))
  {
    hide GoodAll, WfSeg, Fatal, DecAfter;
    var q, k := Emit(p, header, g), |p.segs|;
    assert q.segs[..k] == p.segs && q.segs[k] == g;
    if k > 0 {
      assert q.segs[0] == p.segs[0];
      assert Start(q) == Start(p);
    } else {
      EmptyGood(Start(q));
    }
    RunBlocks(DecAfter(Start(q), p.segs), g);
    assert BlockedAt(q, k);
  }

  lemma EmptyGood(d: Dec)
    ensures GoodAll(d, []) && DecAfter(d, []) == d
  {
  }

  lemma RunBlocks(d: Dec, g: Seg)
    requires g.Run? && g.stamp.Some? && d.running == 0
    ensures Blocks(d, g)
  {
  }

  /** A message whose status is left out because of what a dropped packet said spoils the run. */
  lemma StaleSpoils(wire: seq<Packet>, s: Out, f: Out, m: Message, prevTs: nat, ref: seq<Event>)
    requires IsMessage(m) && IsChannel(m.bytes[0]) && m.tag == ChannelTag(ChannelLen(m.bytes[0]))
    requires AllData(m.bytes[1..m.tag.count])
    requires OutInv(wire, f, false) && SameOut(s, f) && Knows(f) && f.running == 0 && s.running == m.bytes[0]
    requires s.pkt.segs != [] ==> !IsChannel(s.prev)
    requires f.lost == 0 ==> OutEvents(wire, f) == ref
    ensures var o := EncodeMessage(s, m, prevTs);
            o.lost == 0 ==> Bad(All(wire, o), ref + [Msg(m.bytes[..m.tag.count])])
  {
    hide WfSeg, GoodAll, Doomed, Blocked, DoomedQueue, GoodQueue, WfQueue, PacketEvents, Events, PacketLen, Told,
         BlockedAt, EncodeMessage, Hazard;
    var o, more := EncodeMessage(s, m, prevTs), [Msg(m.bytes[..m.tag.count])];
    EncodeGrows(wire, s, m, prevTs);
    if o.lost == 0 {
      assert All(wire, s) == Sent(wire, f) + [f.pkt];
      if !f.clean {
        SpoiledBefore(wire, f, ref);
        BadStays(All(wire, s), All(wire, o), ref, more);
      } else {
        FreshSpoils(wire, s, f, m, prevTs, ref);
      }
    }
  }

  lemma SpoiledBefore(wire: seq<Packet>, f: Out, ref: seq<Event>)
    requires DoomedQueue(Sent(wire, f)) || Doomed(f.pkt)
    requires Told(f.pkt.segs) == 0
    ensures Bad(Sent(wire, f) + [f.pkt], ref)
  {
    hide Doomed, Blocked, Told, Sent;
    var ps := Sent(wire, f);
    if i :| 0 <= i < |ps| && Doomed(ps[i]) {
      assert Doomed((ps + [f.pkt])[i]);
    } else {
      DoomedBlocked(f.pkt);
      assert Blocked((ps + [f.pkt])[|ps|]);
    }
  }

  lemma FreshSpoils(wire: seq<Packet>, s: Out, f: Out, m: Message, prevTs: nat, ref: seq<Event>)
    requires IsMessage(m) && IsChannel(m.bytes[0]) && m.tag == ChannelTag(ChannelLen(m.bytes[0]))
    requires AllData(m.bytes[1..m.tag.count])
    requires OutInv(wire, f, false) && SameOut(s, f) && f.running == 0 && s.running == m.bytes[0]
    requires s.pkt.segs != [] ==> !IsChannel(s.prev)
    requires f.lost == 0 && f.clean && OutEvents(wire, f) == ref
    ensures var o := EncodeMessage(s, m, prevTs);
            o.lost == 0 ==> Bad(All(wire, o), ref + [Msg(m.bytes[..m.tag.count])])
  {
    hide WfSeg, GoodAll, Doomed, Blocked, DoomedQueue, GoodQueue, WfQueue, PacketEvents, Events, PacketLen,
         BlockedAt, Hazard, DecAfter;
    var o := EncodeMessage(s, m, prevTs);
    var o1, g := Prepared(s, m, prevTs), NewSeg(s, m, prevTs);
    RunSeg(m, g);
    assert o.pkt == Emit(o1.pkt, Header(m.ts), g);
    assert All(wire, o)[|All(wire, o)| - 1] == o.pkt;
    if g.stamp.Some? {
      StampedBlocks(o1.pkt, Header(m.ts), g);
    } else if o.lost == 0 {
      assert s.pkt.segs == [] && o1 == s;
      var n, ps, ref' := |Sent(wire, s)|, All(wire, o), ref + [Msg(m.bytes[..m.tag.count])];
      assert ps[..n] == Sent(wire, f);
      NothingMore(wire, f);
      assert MisreadAt(ps, ref', n);
    }
  }

  lemma RunSeg(m: Message, g: Seg)
    requires IsMessage(m) && IsChannel(m.bytes[0]) && m.tag == ChannelTag(ChannelLen(m.bytes[0]))
    requires AllData(m.bytes[1..m.tag.count]) && g.Run? && g.data == m.bytes[1..m.tag.count] && g.status == m.bytes[0]
    requires g.stamp.Some? ==> g.stamp.value >= 0x80
    ensures WfSeg(g)
  {
  }

  lemma NothingMore(wire: seq<Packet>, f: Out)
    requires f.pkt.segs == []
    ensures OutEvents(wire, f) == PacketEvents(Sent(wire, f))
  {
  }

  // Steps of both encoders

  /** Before any stale write. */
  predicate Twins(s: Enc, f: Enc) {
    Alike(s, f) && Safe(s) && Safe(f) && SameOut(s.out, f.out) && Knows(f.out) && StaleKnown(s, f)
  }

  /** Both write their message. */
  lemma EncodeTwins(s: Enc, f: Enc, cont: bool)
    requires Alike(s, f) && s.rt == [] && SameOut(s.out, f.out) && Knows(f.out) && StaleKnown(s, f)
    requires MessageOk(s.mes, cont) && Bounded(s.out) && Bounded(f.out)
    requires s.mes.tag.channel && s.out.running == s.mes.bytes[0] ==> f.out.running == s.out.running
    ensures Alike(Encode(s), Encode(f)) && Encode(s) == s.(out := Encode(s).out)
    ensures SameOut(Encode(s).out, Encode(f).out) && Knows(Encode(f).out)
    ensures StaleKnown(Encode(s), Encode(f)) && Encode(s).out.pkt.segs != []
    ensures Bounded(Encode(s).out) && Bounded(Encode(f).out)
  {
    hide Bounded, EncodeMessage, SameOut, Knows, Told, MessageOk, Overflows, IsChannel, Encode;
    MessageKind(s.mes, cont);
    EncodeBounded(s);
    EncodeBounded(f);
    EncodeSame(s.out, f.out, s.mes, s.prevTs);
    EncodeKnows(f.out, s.mes, s.prevTs);
    Written(s.out, s.mes, s.prevTs);
  }

  lemma MessageKind(m: Message, cont: bool)
    requires MessageOk(m, cont)
    ensures IsMessage(m) && Ordered(m.tag) && m.tag.count > 0
    ensures (m.tag.channel == IsChannel(m.bytes[0]) || Continues(m)) && (m.tag.channel ==> !Continues(m))
    ensures !Continues(m) && !m.tag.channel ==> m.bytes[0] >= 0x80 && !IsChannel(m.bytes[0])
    ensures Continues(m) ==> m.bytes[0] < 0x80
  {
  }

  lemma Written(o: Out, m: Message, prevTs: nat)
    requires IsMessage(m) && m.tag.count > 0
    ensures EncodeMessage(o, m, prevTs).pkt.segs != []
  {
  }

  lemma RealTimeTwins(s: Enc, f: Enc, p: Parse, b: byte, t: nat)
    requires Twins(s, f) && Mirrors(s, p) && IsRealTime(b) && t < 0x2000
    ensures RealTime(s, b, t).Next? && RealTime(f, b, t).Next? && Twins(RealTime(s, b, t).e, RealTime(f, b, t).e)
  {
    hide Encode, EncodeMessage, Bounded, SameOut, Knows, FlushOne;
    RealTimeSafe(s, b, t);
    RealTimeSafe(f, b, t);
    CutSysexSafe(s);
    CutSysexSafe(f);
    if s.mes.tag.sysex && s.mes.tag.count > 0 {
      EncodeTwins(s, f, Continues(s.mes));
    }
    FlushSame(CutSysex(s).out, CutSysex(f).out, b, t);
  }

  lemma EndSysexTwins(s: Enc, f: Enc)
    requires Twins(s, f) && Mirrors(s, InSysex)
    ensures EndSysex(s).Next? && EndSysex(f).Next? && Twins(EndSysex(s).e, EndSysex(f).e)
  {
    hide Encode, EncodeMessage, Bounded, SameOut, Knows;
    EndSysexSafe(s);
    EndSysexSafe(f);
    var s1, f1 := s, f;
    if s.idx != 0 {
      EncodeTwins(s, f, Continues(s.mes));
      s1, f1 := Encode(s), Encode(f);
    }
    var m := Message(Plain(1), s.mes.bytes[0 := 0xF7], s.prevTs);
    EncodeTwins(s1.(mes := m), f1.(mes := m), true);
  }

  lemma DataTwins(s: Enc, f: Enc, p: Parse, b: byte, t: nat)
    requires Twins(s, f) && Mirrors(s, p) && Legal(p, b) && IsData(b) && t < 0x2000 && !StaleWrite(s, b)
    ensures Step(s, b, t).Next? && Step(f, b, t).Next? && Twins(Step(s, b, t).e, Step(f, b, t).e)
  {
    if p.InSysex? {
      PayloadTwins(s, f, b, t);
    } else if p.Running? {
      RunningTwins(s, f, p.status, b, t);
    } else {
      MessageTwins(s, f, p, b, t);
    }
  }

  lemma PayloadTwins(s: Enc, f: Enc, b: byte, t: nat)
    requires Twins(s, f) && Mirrors(s, InSysex) && IsData(b) && t < 0x2000 && !StaleWrite(s, b)
    ensures Step(s, b, t).Next? && Step(f, b, t).Next? && Twins(Step(s, b, t).e, Step(f, b, t).e)
  {
    hide Encode, EncodeMessage, Bounded, SameOut, Told, Knows;
    StepSafe(s, b, t);
    StepSafe(f, b, t);
    if s.idx + 1 == 3 {
      var m := s.mes.(bytes := s.mes.bytes[s.idx := b], tag := s.mes.tag.(count := s.mes.tag.count + 1));
      ByteWritten(s.mes.bytes, 2, b);
      EncodeTwins(s.(mes := m, idx := 3), f.(mes := m, idx := 3), Continues(s.mes));
    }
  }

  lemma RunningTwins(s: Enc, f: Enc, status: byte, b: byte, t: nat)
    requires Twins(s, f) && Mirrors(s, Running(status)) && IsData(b) && t < 0x2000 && !StaleWrite(s, b)
    ensures Step(s, b, t).Next? && Step(f, b, t).Next? && Twins(Step(s, b, t).e, Step(f, b, t).e)
  {
    hide Encode, EncodeMessage, Bounded, SameOut, Told;
    StepSafe(s, b, t);
    StepSafe(f, b, t);
    SameStatus(s, f, b);
    hide Knows;
    if s.mes.tag.count == 2 {
      var m := s.mes.(bytes := s.mes.bytes[1 := b], ts := t);
      assert m.bytes[1..2] == [b];
      EncodeTwins(s.(mes := m, idx := 2), f.(mes := m, idx := 2), false);
    }
  }

  lemma MessageTwins(s: Enc, f: Enc, p: Parse, b: byte, t: nat)
    requires Twins(s, f) && Mirrors(s, p) && IsData(b) && (p.InChannel? || p.InCommon?) && t < 0x2000 && !StaleWrite(s, b)
    ensures Step(s, b, t).Next? && Step(f, b, t).Next? && Twins(Step(s, b, t).e, Step(f, b, t).e)
  {
    hide Encode, EncodeMessage, Bounded, SameOut, Told;
    StepSafe(s, b, t);
    StepSafe(f, b, t);
    SameStatus(s, f, b);
    hide Knows;
    if s.idx + 1 == s.mes.tag.count {
      var m := s.mes.(bytes := s.mes.bytes[s.idx := b]);
      ByteWritten(s.mes.bytes, s.idx, b);
      EncodeTwins(s.(mes := m, idx := s.idx + 1), f.(mes := m, idx := s.idx + 1), false);
    }
  }

  /** A status left out is known to both. */
  lemma SameStatus(s: Enc, f: Enc, b: byte)
    requires Twins(s, f) && !StaleWrite(s, b)
    ensures Completes(s, b) && s.out.running == s.mes.bytes[0] ==> f.out.running == s.out.running
  {
  }

  lemma StepTwins(s: Enc, f: Enc, p: Parse, b: byte, t: nat)
    requires Twins(s, f) && Mirrors(s, p) && Legal(p, b) && t < 0x2000 && !StaleWrite(s, b)
    ensures Step(s, b, t).Next? && Step(f, b, t).Next? && Twins(Step(s, b, t).e, Step(f, b, t).e)
  {
    hide Encode, EncodeMessage, Bounded, SameOut, Knows, RealTime, EndSysex;
    if IsRealTime(b) {
      RealTimeTwins(s, f, p, b, t);
    } else if b == 0xF7 {
      EndSysexTwins(s, f);
    } else if IsData(b) {
      DataTwins(s, f, p, b, t);
    } else if IsCommon(b) {
      CommonSafe(s, b, t);
      CommonSafe(f, b, t);
      if CommonLen(b) == 1 {
        var m := Message(Plain(1), s.mes.bytes[0 := b], t);
        EncodeTwins(s.(prevTs := t, running := 0, mes := m), f.(prevTs := t, running := 0, mes := m), false);
      }
    }
  }

  // Steps of one encoder

  lemma EncodeEncGrows(wire: seq<Packet>, e: Enc)
    requires IsMessage(e.mes) && Ordered(e.mes.tag) && e.rt == [] && Bounded(e.out)
    ensures Encode(e) == e.(out := Encode(e).out) && Bounded(Encode(e).out) && Grows(wire, e.out, Encode(e).out)
  {
    hide EncodeMessage, Bounded, Grows;
    EncodeBounded(e);
    GrowsNot(wire, e.out);
    if e.mes.tag.count > 0 {
      EncodeGrows(wire, e.out, e.mes, e.prevTs);
    }
  }

  lemma RealTimeGrows(wire: seq<Packet>, e: Enc, b: byte, t: nat)
    requires Safe(e)
    ensures Grows(wire, e.out, RealTime(e, b, t).e.out)
  {
    hide Encode, Bounded, Grows, FlushOne;
    RealTimeSafe(e, b, t);
    EncodeEncGrows(wire, e);
    GrowsNot(wire, e.out);
    FlushGrows(wire, CutSysex(e).out, b, t);
    GrowsTwice(wire, e.out, CutSysex(e).out, RealTime(e, b, t).e.out);
  }

  lemma EndSysexGrows(wire: seq<Packet>, e: Enc)
    requires Safe(e) && e.mes.tag.sysex
    ensures Grows(wire, e.out, EndSysex(e).e.out)
  {
    hide Encode, Bounded, Grows;
    GrowsNot(wire, e.out);
    EncodeEncGrows(wire, e);
    var e1 := if e.idx != 0 then Encode(e) else e;
    var e2 := e1.(mes := Message(Plain(1), e.mes.bytes[0 := 0xF7], e.prevTs));
    EncodeEncGrows(wire, e2);
    GrowsTwice(wire, e.out, e1.out, Encode(e2).out);
  }

  lemma StepGrows(wire: seq<Packet>, e: Enc, p: Parse, b: byte, t: nat)
    requires Mirrors(e, p) && Legal(p, b) && t < 0x2000
    ensures Grows(wire, e.out, Step(e, b, t).e.out)
  {
    hide Encode, Bounded, Grows, RealTime, EndSysex;
    GrowsNot(wire, e.out);
    if IsRealTime(b) {
      RealTimeGrows(wire, e, b, t);
    } else if b == 0xF7 {
      EndSysexGrows(wire, e);
    } else if IsCommon(b) {
      EncodeEncGrows(wire, e.(prevTs := t, running := 0, mes := Message(Plain(CommonLen(b)), e.mes.bytes[0 := b], t)));
    } else if IsData(b) {
      DataGrows(wire, e, p, b, t);
    }
  }

  lemma DataGrows(wire: seq<Packet>, e: Enc, p: Parse, b: byte, t: nat)
    requires Mirrors(e, p) && Legal(p, b) && IsData(b) && t < 0x2000
    ensures Grows(wire, e.out, Step(e, b, t).e.out)
  {
    hide Encode, Bounded, Grows;
    GrowsNot(wire, e.out);
    if p.InSysex? {
      EncodeEncGrows(wire, e.(mes := e.mes.(bytes := e.mes.bytes[e.idx := b], tag := e.mes.tag.(count := e.mes.tag.count + 1)),
                              idx := e.idx + 1));
    } else if p.Running? {
      EncodeEncGrows(wire, e.(mes := e.mes.(bytes := e.mes.bytes[1 := b], ts := t), idx := 2));
    } else {
      EncodeEncGrows(wire, e.(mes := e.mes.(bytes := e.mes.bytes[e.idx := b]), idx := e.idx + 1));
    }
  }

  /** What is written never changes how the stream is taken. */
  lemma StepAlike(s: Enc, f: Enc, p: Parse, b: byte, t: nat)
    requires Alike(s, f) && Mirrors(s, p) && Mirrors(f, p) && Legal(p, b) && t < 0x2000
    ensures Step(s, b, t).Next? && Step(f, b, t).Next? && Alike(Step(s, b, t).e, Step(f, b, t).e)
  {
    hide EncodeMessage, Bounded, FlushOne, RealTime, EndSysex;
    if IsRealTime(b) {
      RealTimeSafe(s, b, t);
      RealTimeSafe(f, b, t);
    } else if b == 0xF7 {
      EndSysexAlike(s, f);
    }
  }

  lemma EndSysexAlike(s: Enc, f: Enc)
    requires Alike(s, f) && Mirrors(s, InSysex) && Mirrors(f, InSysex)
    ensures EndSysex(s).Next? && EndSysex(f).Next? && Alike(EndSysex(s).e, EndSysex(f).e)
  {
    hide Encode, EncodeMessage, Bounded;
    EncodeBounded(s);
    EncodeBounded(f);
    var s1, f1 := if s.idx != 0 then Encode(s) else s, if f.idx != 0 then Encode(f) else f;
    var m := Message(Plain(1), s.mes.bytes[0 := 0xF7], s.prevTs);
    EncodeBounded(s1.(mes := m));
    EncodeBounded(f1.(mes := m));
  }

  // The run

  /** The encoder after an error beside one that forgot the stale status: they write the same until a
      stale write, and after that the run is spoiled. */
  ghost predicate Beside(wireS: seq<Packet>, s: Enc, wireF: seq<Packet>, f: Enc, p: Parse, ref: seq<Event>, clear: bool) {
    && Inv(wireF, f, p, ref) && Mirrors(s, p) && Alike(s, f)
    && if clear then wireS == wireF && Twins(s, f) else s.out.lost == 0 ==> Bad(All(wireS, s.out), ref)
  }

  lemma StaleStep(wire: seq<Packet>, s: Enc, f: Enc, p: Parse, ref: seq<Event>, b: byte, t: nat)
    requires Inv(wire, f, p, ref) && Mirrors(s, p) && Twins(s, f) && Legal(p, b) && t < 0x2000 && StaleWrite(s, b)
    ensures var o := Step(s, b, t).e.out; o.lost == 0 ==> Bad(All(wire, o), ref + ParseByte(p, b).1)
  {
    hide EncodeMessage, Bounded, OutInv, OutEvents, Bad;
    var m := if s.idx == 0 then s.mes.(bytes := s.mes.bytes[1 := b], ts := t) else s.mes.(bytes := s.mes.bytes[s.idx := b]);
    var count := s.mes.tag.count;
    if s.idx == 0 {
      assert m.bytes[..2] == [p.status, b] && m.bytes[1..2] == [b];
    } else {
      assert m.bytes[1..count] == p.data + [b] && m.bytes[..count] == [p.status] + (p.data + [b]);
    }
    LastOut(s, b, t, m);
    StaleStatus(s, f);
    assert OutEvents(wire, f.out) + [] == OutEvents(wire, f.out);
    StaleSpoils(wire, s.out, f.out, m, s.prevTs, ref);
  }

  lemma StaleStatus(s: Enc, f: Enc)
    requires Twins(s, f) && s.out.running != 0 && Told(s.out.pkt.segs) == 0
    ensures f.out.running == 0 && (s.out.pkt.segs != [] ==> !IsChannel(s.out.prev))
  {
  }

  lemma LastOut(e: Enc, b: byte, t: nat, m: Message)
    requires Safe(e) && Completes(e, b) && t < 0x2000 && e.mes.bytes[0] >= 0x80
    requires e.idx == 0 ==> e.running == e.mes.bytes[0]
    requires m == if e.idx == 0 then e.mes.(bytes := e.mes.bytes[1 := b], ts := t) else e.mes.(bytes := e.mes.bytes[e.idx := b])
    ensures Step(e, b, t).e.out == EncodeMessage(e.out, m, e.prevTs)
  {
    hide EncodeMessage, Bounded;
  }

  lemma BesideStep(wireS: seq<Packet>, s: Enc, wireF: seq<Packet>, f: Enc, p: Parse, ref: seq<Event>, clear: bool,
                   b: byte, t: nat)
    requires Beside(wireS, s, wireF, f, p, ref, clear) && Legal(p, b) && t < 0x2000
    ensures Safe(s) && Step(s, b, t).Next? && Step(f, b, t).Next?
    ensures Beside(wireS, Step(s, b, t).e, wireF, Step(f, b, t).e, ParseByte(p, b).0, ref + ParseByte(p, b).1,
                   clear && !StaleWrite(s, b))
  {
    hide Step, ParseByte, OutInv, OutEvents, Bad, Bounded, Twins, Safe, StaleWrite, Alike, Legal;
    InvSafe(wireF, f, p, ref);
    MirrorsSafe(s, p);
    StepInv(wireF, f, p, ref, b, t);
    StepAlike(s, f, p, b, t);
    StepMirrors(s, f, p, b, t);
    if clear {
      if StaleWrite(s, b) {
        StaleStep(wireF, s, f, p, ref, b, t);
      } else {
        StepTwins(s, f, p, b, t);
      }
    } else {
      StepGrows(wireS, s, p, b, t);
      if Step(s, b, t).e.out.lost == 0 {
        BadStays(All(wireS, s.out), All(wireS, Step(s, b, t).e.out), ref, ParseByte(p, b).1);
      }
    }
  }

  lemma MirrorsSafe(e: Enc, p: Parse)
    requires Mirrors(e, p)
    ensures Safe(e)
  {
  }

  lemma StepMirrors(s: Enc, f: Enc, p: Parse, b: byte, t: nat)
    requires Mirrors(s, p) && Safe(f) && t < 0x2000 && Alike(Step(s, b, t).e, Step(f, b, t).e)
    requires Mirrors(Step(f, b, t).e, ParseByte(p, b).0)
    ensures Mirrors(Step(s, b, t).e, ParseByte(p, b).0)
  {
    hide Step, ParseByte, Bounded;
    StepSafe(s, b, t);
  }

  lemma {:induction false} BesideLoop(wireS: seq<Packet>, s: Enc, wireF: seq<Packet>, f: Enc, p: Parse, ref: seq<Event>,
                                      clear: bool, stream: seq<byte>, i: nat, t: nat)
    requires Beside(wireS, s, wireF, f, p, ref, clear) && t < 0x2000 && i <= |stream| && LegalStream(p, stream[i..])
    ensures Safe(s) && Safe(f)
    ensures var (s', f') := (Loop(s, stream, i, t), Loop(f, stream, i, t));
            && !s'.failed && !f'.failed && s'.taken == f'.taken == |stream|
            && Beside(wireS, s'.e, wireF, f'.e, ParseStream(p, stream[i..]).0, ref + ParseStream(p, stream[i..]).1,
                      clear && LoopClear(s, stream, i, t))
    decreases |stream| - i
  {
    hide Step, Loop, Legal, ParseByte, Inv, Mirrors, ParseStream, LegalStream, Safe, PacketLen, Beside, StaleWrite;
    BesideSafe(wireS, s, wireF, f, p, ref, clear);
    LoopTurn(s, stream, i, t);
    LoopTurn(f, stream, i, t);
    StreamTurn(p, stream, i);
    if i == |stream| {
      assert ref + [] == ref;
    } else {
      var b := stream[i];
      BesideStep(wireS, s, wireF, f, p, ref, clear, b, t);
      var p1, evs := ParseByte(p, b).0, ParseByte(p, b).1;
      BesideLoop(wireS, Step(s, b, t).e, wireF, Step(f, b, t).e, p1, ref + evs, clear && !StaleWrite(s, b), stream, i + 1, t);
      var rest := ParseStream(p1, stream[i + 1..]).1;
      assert (ref + evs) + rest == ref + (evs + rest);
    }
  }

  lemma BesideSafe(wireS: seq<Packet>, s: Enc, wireF: seq<Packet>, f: Enc, p: Parse, ref: seq<Event>, clear: bool)
    requires Beside(wireS, s, wireF, f, p, ref, clear)
    ensures Safe(s) && PacketLen(s.out.pkt) < s.out.mtu && Safe(f) && PacketLen(f.out.pkt) < f.out.mtu
  {
    hide PacketLen, Bad, Twins, OutInv, OutEvents;
  }

  /** The packet of a call is sealed. */
  lemma BesideSeal(wireS: seq<Packet>, s: Enc, wireF: seq<Packet>, f: Enc, p: Parse, ref: seq<Event>, clear: bool)
    requires Beside(wireS, s, wireF, f, p, ref, clear)
    ensures var s' := if s.out.pkt.segs == [] then s else s.(out := Seal(s.out));
            var f' := if f.out.pkt.segs == [] then f else f.(out := Seal(f.out));
            Beside(wireS, s', wireF, f', p, ref, clear)
  {
    hide OutInv, OutEvents, Bad, Knows, PacketLen;
    SealedMirrors(s, p);
    SealedInv(wireF, f, p, ref);
    if clear {
      SealedTwins(s, f);
    } else {
      SealGrows(wireS, s.out);
      if Seal(s.out).lost == 0 {
        if s.out.lost == 0 {
          BadStays(All(wireS, s.out), All(wireS, Seal(s.out)), ref, []);
          assert ref + [] == ref;
        }
      }
    }
  }

  lemma SealedMirrors(e: Enc, p: Parse)
    requires Mirrors(e, p)
    ensures e.out.pkt.segs != [] ==> Mirrors(e.(out := Seal(e.out)), p)
  {
    hide PacketLen;
    EmptyLength();
  }

  lemma SealedInv(wire: seq<Packet>, f: Enc, p: Parse, ref: seq<Event>)
    requires Inv(wire, f, p, ref)
    ensures f.out.pkt.segs != [] ==> Inv(wire, f.(out := Seal(f.out)), p, ref)
  {
    hide OutInv, OutEvents, PacketLen;
    if f.out.pkt.segs != [] {
      SealInv(wire, f.out, Continues(f.mes));
      SealedMirrors(f, p);
    }
  }

  lemma SealedTwins(s: Enc, f: Enc)
    requires Twins(s, f)
    ensures s.out.pkt == f.out.pkt
    ensures s.out.pkt.segs != [] ==> Twins(s.(out := Seal(s.out)), f.(out := Seal(f.out)))
  {
    hide PacketLen;
    EmptyLength();
  }

  lemma BesidePush(wireS: seq<Packet>, s: Enc, wireF: seq<Packet>, f: Enc, p: Parse, ref: seq<Event>, clear: bool, c: Call)
    requires Beside(wireS, s, wireF, f, p, ref, clear) && c.t < 0x2000 && LegalStream(p, c.stream)
    requires s.out.pkt.segs == [] && f.out.pkt.segs == []
    ensures Safe(s) && Safe(f)
    ensures var (s', f') := (Push(s, c.stream, c.t).e, Push(f, c.stream, c.t).e);
            && s'.out.pkt.segs == [] && f'.out.pkt.segs == []
            && Beside(wireS, s', wireF, f', ParseStream(p, c.stream).0, ref + ParseStream(p, c.stream).1,
                      clear && LoopClear(s, c.stream, 0, c.t))
  {
    hide Loop, Beside, Safe, Step, LoopClear;
    assert c.stream[0..] == c.stream;
    BesideSafe(wireS, s, wireF, f, p, ref, clear);
    BesideLoop(wireS, s, wireF, f, p, ref, clear, c.stream, 0, c.t);
    LoopTurn(s, c.stream, 0, c.t);
    LoopTurn(f, c.stream, 0, c.t);
    BesideSeal(wireS, Loop(s, c.stream, 0, c.t).e, wireF, Loop(f, c.stream, 0, c.t).e, ParseStream(p, c.stream).0,
               ref + ParseStream(p, c.stream).1, clear && LoopClear(s, c.stream, 0, c.t));
  }

  lemma BesideDrain(wireS: seq<Packet>, s: Enc, wireF: seq<Packet>, f: Enc, p: Parse, ref: seq<Event>, clear: bool, n: nat)
    requires Beside(wireS, s, wireF, f, p, ref, clear)
    ensures Beside(wireS + Taken(s, n), Drain(s, n), wireF + Taken(f, n), Drain(f, n), p, ref, clear)
  {
    hide Inv, Bad, Safe, Sent, Knows;
    DrainInv(wireF, f, p, ref, n);
    TakenSent(wireS, s, n);
    DrainMirrors(s, p, n);
    if clear {
      DrainTwins(s, f, n);
    }
  }

  lemma DrainMirrors(e: Enc, p: Parse, n: nat)
    requires Mirrors(e, p)
    ensures Mirrors(Drain(e, n), p)
  {
    hide Safe;
    MirrorsSafe(e, p);
    DrainSafe(e, n);
  }

  lemma DrainTwins(s: Enc, f: Enc, n: nat)
    requires Twins(s, f)
    ensures Twins(Drain(s, n), Drain(f, n)) && Taken(s, n) == Taken(f, n)
  {
    hide Safe;
    DrainSafe(s, n);
    DrainSafe(f, n);
  }

  lemma {:induction false} BesideRun(wireS: seq<Packet>, s: Enc, wireF: seq<Packet>, f: Enc, p: Parse, ref: seq<Event>,
                                     clear: bool, calls: seq<Call>)
    requires Beside(wireS, s, wireF, f, p, ref, clear) && s.out.pkt.segs == [] && f.out.pkt.segs == []
    requires Timed(calls) && LegalRun(p, calls)
    ensures Safe(s) && Safe(f)
    ensures var ((s', wireS'), (f', wireF')) := (RunCalls(s, wireS, calls), RunCalls(f, wireF, calls));
            && s'.out.pkt.segs == [] && f'.out.pkt.segs == []
            && Beside(wireS', s', wireF', f', ParseRun(p, calls).0, ref + ParseRun(p, calls).1, clear && RunClear(s, calls))
    decreases |calls|
  {
    hide Push, Beside, Safe, ParseStream, LoopClear, LegalStream;
    BesideSafe(wireS, s, wireF, f, p, ref, clear);
    if calls == [] {
      assert ref + [] == ref;
    } else {
      var c := calls[0];
      BesidePush(wireS, s, wireF, f, p, ref, clear, c);
      var s1, f1 := Push(s, c.stream, c.t).e, Push(f, c.stream, c.t).e;
      var p1, evs, clear1 := ParseStream(p, c.stream).0, ParseStream(p, c.stream).1, clear && LoopClear(s, c.stream, 0, c.t);
      BesideDrain(wireS, s1, wireF, f1, p1, ref + evs, clear1, c.taken);
      DrainSafe(s1, c.taken);
      BesideRun(wireS + Taken(s1, c.taken), Drain(s1, c.taken), wireF + Taken(f1, c.taken), Drain(f1, c.taken), p1, ref + evs,
                clear1, calls[1..]);
      assert (ref + evs) + ParseRun(p1, calls[1..]).1 == ref + (evs + ParseRun(p1, calls[1..]).1);
    }
  }

  /** The encoder after a stream error, its counts of lost packets and hazards started afresh. */
  function AfterError(e: Enc): Enc {
    var d := Discard(e);
    d.(out := d.out.(queue := [], lost := 0, clean := true))
  }

  lemma AfterErrorSafe(e: Enc)
    requires Safe(e)
    ensures Safe(AfterError(e))
  {
  }

  /** Resynchronisation. Take any encoder right after a stream error, and any run of grammatical calls
      from there that loses no packet. They make the round trip if and only if there is no hazard and
      no message is written without its status byte into a packet that never said it. */
  lemma Resynchronises(e0: Enc, calls: seq<Call>)
    requires Safe(e0) && Timed(calls) && LegalRun(Idle, calls)
    ensures Safe(AfterError(e0))
    ensures var (e, wire) := RunCalls(AfterError(e0), [], calls);
            var all := Sent(wire, e.out);
            && Safe(e)
            && (e.out.lost == 0 ==>
                  (e.out.clean && RunClear(AfterError(e0), calls) <==>
                     AllDecoded(all) && DecodedEvents(all) + Pending(e) == ParseRun(Idle, calls).1))
  {
    hide RunCalls, Beside, RunClear, LegalRun, ParseRun, AllDecoded, DecodedEvents, Sent, Safe, Push;
    AfterErrorSafe(e0);
    var s := AfterError(e0);
    var f := s.(out := s.out.(running := 0, prev := 0));
    BesideStart(e0, s, f);
    BesideRun([], s, [], f, Idle, [], true, calls);
    var (e, wire) := RunCalls(s, [], calls);
    var (e1, wire1) := RunCalls(f, [], calls);
    assert [] + ParseRun(Idle, calls).1 == ParseRun(Idle, calls).1;
    BesideDecoded(wire, e, wire1, e1, ParseRun(Idle, calls).0, ParseRun(Idle, calls).1, true && RunClear(s, calls));
  }

  lemma BesideStart(e0: Enc, s: Enc, f: Enc)
    requires Safe(e0) && s == AfterError(e0) && f == s.(out := s.out.(running := 0, prev := 0))
    ensures Beside([], s, [], f, Idle, [], true) && s.out.pkt.segs == [] && f.out.pkt.segs == []
  {
    hide WfPacket, GoodPacket, PacketLen;
    AfterErrorSafe(e0);
    EmptyWf();
    EmptyLength();
  }

  lemma BesideDecoded(wireS: seq<Packet>, s: Enc, wireF: seq<Packet>, f: Enc, p: Parse, ref: seq<Event>, clear: bool)
    requires Beside(wireS, s, wireF, f, p, ref, clear) && s.out.pkt.segs == [] && f.out.pkt.segs == []
    ensures Safe(s)
    ensures var all := Sent(wireS, s.out);
            s.out.lost == 0 ==> (s.out.clean && clear <==> AllDecoded(all) && DecodedEvents(all) + Pending(s) == ref)
  {
    hide Inv, Bad, AllDecoded, DecodedEvents, Safe;
    BesideSafe(wireS, s, wireF, f, p, ref, clear);
    if s.out.lost == 0 {
      if clear {
        DecodedIff(wireF, f, p, ref);
      } else {
        BadIsIncomplete(Sent(wireS, s.out), s.out.pkt, ref, Pending(s));
      }
    }
  }

  // A run that does not resynchronise

  /** The bytes up to position `n` take the encoder through these states. */
  lemma {:induction false} LoopFrom(states: seq<Enc>, stream: seq<byte>, i: nat, n: nat, t: nat)
    requires t < 0x2000 && i <= n <= |stream| && Passes(states, stream[..n], t)
    ensures Loop(states[i], stream, i, t) == Loop(states[n], stream, n, t)
    decreases n - i
  {
    hide Step, Loop, Safe, PacketLen;
    if i < n {
      SafeLength(states[i]);
      LoopTurn(states[i], stream, i, t);
      assert stream[..n][i] == stream[i];
      LoopFrom(states, stream, i + 1, n, t);
    }
  }

  /** After the error: nothing under way, and the status of the packet that was dropped. */
  function ErrorEnc(): Enc {
    Enc(Message(Plain(0), [0x90, 60, 100], NO_TIME), 0, NO_TIME, 0, [], Out(20, 1, EMPTY, 0x90, 0x90, [], 0, true))
  }

  lemma ErrorReached()
    ensures Safe(Init(20, 1)) && Push(Init(20, 1), [0x90, 60, 100, 0xF7], 0) == PushOut(ErrorEnc(), 3, true)
    ensures Safe(ErrorEnc()) && AfterError(ErrorEnc()) == ErrorEnc()
  {
    hide Safe, Step, Loop, RunFrom, LegalRun, ParseRun;
    NoteBegun(0);
    NotePlayed(0, 0);
    InitSafe(20, 1);
    var stream := [0x90, 60, 100, 0xF7];
    var states := NoteStates();
    assert stream[..3] == [0x90, 60, 100];
    LoopFrom(states, stream, 0, 3, 0);
    LoopTurn(Played(0), stream, 3, 0);
    SafeLength(Played(0));
    ErrorStep();
    LoopTurn(Init(20, 1), stream, 0, 0);
  }

  lemma ErrorStep()
    requires Safe(Played(0))
    ensures Step(Played(0), 0xF7, 0) == Fail(ErrorEnc(), 0)
  {
  }

  lemma NoteStates() returns (states: seq<Enc>)
    ensures |states| == 4 && states[0] == Init(20, 1) && states[3] == Played(0)
    ensures Passes(states, [0x90, 60, 100], 0)
  {
    hide Safe, Step, RunFrom, LegalRun, ParseRun;
    NoteBegun(0);
    NotePlayed(0, 0);
    InitSafe(20, 1);
    var e0 := Init(20, 1);
    var e1 := Enc(Message(ChannelTag(3), [0x90, 0, 0], 0), 1, 0, 0x90, [], e0.out);
    assert e0.mes.bytes[0 := 0x90] == e1.mes.bytes && e1.mes.bytes[1 := 60] == Begun(0).mes.bytes;
    ChannelByte(e0, 0x90, 0);
    StepSafe(e0, 0x90, 0);
    DataByte(e1, 60, 0);
    states := [e0, e1, Begun(0), Played(0)];
  }

  const STALE_NOTE := Run(None, 0x90, [60, 100])

  lemma StaleSteps() returns (e1: Enc, e2: Enc, e3: Enc)
    ensures Safe(ErrorEnc()) && Safe(e1) && Safe(e2)
    ensures Step(ErrorEnc(), 0x90, 0) == Next(e1) && Step(e1, 60, 0) == Next(e2) && Step(e2, 100, 0) == Next(e3)
    ensures e3.out == Out(20, 1, Packet(0x80, [STALE_NOTE]), 0x90, 0x90, [], 0, true)
  {
    hide Safe, Step, Push, EncodeMessage, PacketLen, AfterError;
    ErrorReached();
    var o, m := ErrorEnc().out, Message(ChannelTag(3), [0x90, 60, 100], 0);
    e1 := Enc(m, 1, 0, 0x90, [], o);
    e2 := Enc(m, 2, 0, 0x90, [], o);
    e3 := Enc(m, 0, 0, 0x90, [], Out(20, 1, Packet(0x80, [STALE_NOTE]), 0x90, 0x90, [], 0, true));
    assert m.bytes[0 := 0x90] == m.bytes && m.bytes[1 := 60] == m.bytes && m.bytes[2 := 100] == m.bytes;
    assert m.bytes[1..3] == [60, 100];
    NothingLen(EMPTY);
    ChannelByte(ErrorEnc(), 0x90, 0);
    StepSafe(ErrorEnc(), 0x90, 0);
    DataByte(e1, 60, 0);
    StepSafe(e1, 60, 0);
    ChannelEncoded(o, m, 0, 0);
    LastByte(e2, 100, 0, m);
  }

  lemma StalePacket()
    ensures PacketBytes(Packet(0x80, [STALE_NOTE])) == [0x80, 60, 100]
    ensures Unstamp(DecodePacket([0x80, 60, 100]).toks) == [Sx(60), Sx(100)]
  {
    FlatOne(STALE_NOTE);
    StaleDecoded();
    hide DecodePacket, Unstamp;
  }

  lemma StaleDecoded()
    ensures Unstamp(DecodePacket([0x80, 60, 100]).toks) == [Sx(60), Sx(100)]
  {
    hide Decode;
    var pkt: seq<byte> := [0x80, 60, 100];
    var d := Opening(0x80, true);
    assert pkt[1..] == [60, 100] + [];
    DecodePayload(d, [60, 100], []);
    DecodeNil(d);
  }

  /** A note, an error, and the same note again: it is read as two bytes of system exclusive data. */
  lemma StaleNoteMisread()
    ensures Safe(Init(20, 1)) && Push(Init(20, 1), [0x90, 60, 100, 0xF7], 0) == PushOut(ErrorEnc(), 3, true)
    ensures var calls := [Call([0x90, 60, 100], 0, ALL)];
            && Safe(ErrorEnc()) && LegalRun(Idle, calls)
            && var (e, wire) := RunCalls(ErrorEnc(), [], calls);
               && e.out.clean && e.out.lost == 0 && |wire| == 1
               && PacketBytes(wire[0]) == [0x80, 60, 100]
               && Unstamp(DecodePacket(PacketBytes(wire[0])).toks) == [Sx(60), Sx(100)]
  {
    hide Safe, Step, Reaches, RunCalls, DecodePacket, PacketBytes, Push, LegalStream, LegalRun, Unstamp;
    ErrorReached();
    var e1, e2, e3 := StaleSteps();
    ReachesItself(ErrorEnc(), 0);
    ReachesMore(ErrorEnc(), [], 0, ErrorEnc(), 0x90, e1, [0x90]);
    ReachesMore(ErrorEnc(), [0x90], 0, e1, 60, e2, [0x90, 60]);
    ReachesMore(ErrorEnc(), [0x90, 60], 0, e2, 100, e3, [0x90, 60, 100]);
    PushReaches(ErrorEnc(), [0x90, 60, 100], 0, e3);
    RunOne(ErrorEnc(), [0x90, 60, 100], 0);
    StalePacket();
    NoteLegal();
    LegalOne([0x90, 60, 100], 0);
  }

  lemma NoteLegal()
    ensures LegalStream(Idle, [0x90, 60, 100])
  {
    assert [0x90, 60, 100][1..] == [60, 100] && [60, 100][1..] == [100] && [100][1..] == [];
    assert LegalStream(InChannel(0x90, [60]), [100]);
    assert LegalStream(InChannel(0x90, []), [60, 100]);
  }
}
