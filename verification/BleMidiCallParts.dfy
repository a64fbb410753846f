/** What a part of a call does: the times of system exclusive messages, the stream errors, and how far a packet is
    filled. */
module BleMidiCallParts {
  import opened Bytes
  import opened BleMidi
  import opened BleMidiEncoding
  import opened BleMidiDecoding
  import opened BleMidiSegments
  import opened BleMidiRoundTrip

  /** What the bytes so far tell, apart from the messages themselves: when the last status byte came that begins a
      message, real-time messages apart; whether the last byte was an 0xF7, real-time messages apart; how many bytes
      a fragment under way has; and the time that what is written next will have. */
  datatype Track = Track(begun: nat, ended: bool, fragment: nat, time: nat)

  const NOTHING_YET := Track(NO_TIME, false, 0, NO_TIME)

  function TrackAt(p: Parse, k: Track, b: byte, t: nat): Track {
    if b >= 0xF8 then k.(fragment := 0)
    else if b == 0xF0 then Track(t, false, 1, k.time)
    else if b == 0xF7 then Track(k.begun, true, 0, k.begun)
    else if b >= 0x80 then Track(t, false, 0, t)
    else if p.InSysex? then Track(k.begun, false, (k.fragment + 1) % 3, if k.fragment == 2 then k.begun else k.time)
    else k.(ended := false, time := if p.Running? then t else k.time)
  }

  function TrackStream(p: Parse, k: Track, s: seq<byte>, t: nat): Track
    decreases |s|
  {
    if s == [] then k else TrackStream(ParseByte(p, s[0]).0, TrackAt(p, k, s[0], t), s[1..], t)
  }

  function TrackRun(p: Parse, k: Track, calls: seq<Call>): Track
    decreases |calls|
  {
    if calls == [] then k
    else
      var c := calls[0];
      TrackRun(ParseStream(p, c.stream).0, TrackStream(p, k, c.stream, c.t), calls[1..])
  }

  /** The encoder keeps all of it. Between messages it has room for a byte if it has just written an 0xF7. */
  predicate Keeps(e: Enc, p: Parse, k: Track) {
    && e.prevTs == k.begun && e.mes.ts == k.time
    && (p.Idle? ==> e.mes.tag.count == if k.ended then 1 else 0)
    && (p.InSysex? ==> e.idx == k.fragment)
  }

  lemma StepKeepsTrack(e: Enc, p: Parse, b: byte, t: nat, k: Track)
    requires Mirrors(e, p) && Legal(p, b) && t < 0x2000 && Keeps(e, p, k)
    ensures Keeps(Step(e, b, t).e, ParseByte(p, b).0, TrackAt(p, k, b, t))
  {
    hide Encode, Bounded;
    if IsRealTime(b) {
      RealTimeSafe(e, b, t);
    }
  }

  /** The byte loop up to position `n`, and from there on. */
  lemma {:induction false} LoopSplit(wire: seq<Packet>, e: Enc, p: Parse, ref: seq<Event>,
                                     stream: seq<byte>, i: nat, n: nat, t: nat, k: Track)
    requires Inv(wire, e, p, ref) && t < 0x2000 && i <= n <= |stream| && LegalStream(p, stream[i..n])
    requires Keeps(e, p, k)
    ensures var r := Loop(e, stream[..n], i, t);
            && Safe(r.e) && Loop(e, stream, i, t) == Loop(r.e, stream, n, t)
            && Mirrors(r.e, ParseStream(p, stream[i..n]).0)
            && Keeps(r.e, ParseStream(p, stream[i..n]).0, TrackStream(p, k, stream[i..n], t))
    decreases n - i
  {
    hide Step, Loop, Legal, ParseByte, ParseStream, LegalStream, Safe, PacketLen, OutInv, OutEvents, Keeps, TrackAt;
    InvSafe(wire, e, p, ref);
    LoopTurn(e, stream[..n], i, t);
    LoopTurn(e, stream, i, t);
    assert stream[..n][i..] == stream[i..n];
    StreamTurn(p, stream[..n], i);
    if i < n {
      var b := stream[i];
      StepKeepsTrack(e, p, b, t, k);
      StepInv(wire, e, p, ref, b, t);
      assert stream[i..n][1..] == stream[i + 1..n] == stream[..n][i + 1..];
      LoopSplit(wire, Step(e, b, t).e, ParseByte(p, b).0, ref + ParseByte(p, b).1, stream, i + 1, n, t, TrackAt(p, k, b, t));
    }
  }

  lemma {:induction false} RunTracked(wire: seq<Packet>, e: Enc, p: Parse, ref: seq<Event>, calls: seq<Call>, k: Track)
    requires Inv(wire, e, p, ref) && e.out.pkt.segs == [] && Timed(calls) && LegalRun(p, calls) && Keeps(e, p, k)
    ensures Safe(e) && Keeps(RunCalls(e, wire, calls).0, ParseRun(p, calls).0, TrackRun(p, k, calls))
    decreases |calls|
  {
    hide Loop, OutInv, OutEvents, Bounded, Inv, Safe, ParseStream, TrackStream;
    InvSafe(wire, e, p, ref);
    if calls != [] {
      var c := calls[0];
      assert c.stream[0..|c.stream|] == c.stream && c.stream[..|c.stream|] == c.stream;
      LoopSplit(wire, e, p, ref, c.stream, 0, |c.stream|, c.t, k);
      PushInv(wire, e, p, ref, c);
      var r := Push(e, c.stream, c.t).e;
      var p1, evs := ParseStream(p, c.stream).0, ParseStream(p, c.stream).1;
      DrainInv(wire, r, p1, ref + evs, c.taken);
      RunTracked(wire + Taken(r, c.taken), Drain(r, c.taken), p1, ref + evs, calls[1..], TrackStream(p, k, c.stream, c.t));
    }
  }

  /** What a run of calls and a part of another one tell. */
  function TrackOf(calls: seq<Call>, s: seq<byte>, t: nat): Track {
    TrackStream(ParseRun(Idle, calls).0, TrackRun(Idle, NOTHING_YET, calls), s, t)
  }

  /** The encoder after a run of grammatical calls and a part of another one. */
  lemma PartOfCall(mtu: nat, cap: nat, calls: seq<Call>, c: Call, n: nat)
    requires mtu >= 6 && Timed(calls) && LegalRun(Idle, calls) && c.t < 0x2000
    requires n <= |c.stream| && LegalStream(ParseRun(Idle, calls).0, c.stream[..n])
    ensures var e := RunFrom(mtu, cap, calls).0;
            && Safe(e)
            && var e1, p := Loop(e, c.stream[..n], 0, c.t).e, ParseStream(ParseRun(Idle, calls).0, c.stream[..n]).0;
               && Safe(e1) && PacketLen(e1.out.pkt) < e1.out.mtu && Mirrors(e1, p)
               && Loop(e, c.stream, 0, c.t) == Loop(e1, c.stream, n, c.t)
               && Keeps(e1, p, TrackOf(calls, c.stream[..n], c.t))
  {
    hide RunCalls, Loop, Inv, Step, ParseStream, LegalStream, TrackRun, TrackStream, Safe, Mirrors;
    InitSafe(mtu, cap);
    InitInv(mtu, cap);
    RunInv([], Init(mtu, cap), Idle, [], calls);
    RunTracked([], Init(mtu, cap), Idle, [], calls, NOTHING_YET);
    var (e, wire) := RunFrom(mtu, cap, calls);
    var p := ParseRun(Idle, calls).0;
    assert c.stream[0..n] == c.stream[..n];
    LoopSplit(wire, e, p, [] + ParseRun(Idle, calls).1, c.stream, 0, n, c.t, TrackRun(Idle, NOTHING_YET, calls));
    InvSafe(wire, e, p, [] + ParseRun(Idle, calls).1);
    StepRoom(Loop(e, c.stream[..n], 0, c.t).e);
  }

  lemma StepRoom(e: Enc)
    requires Safe(e)
    ensures PacketLen(e.out.pkt) < e.out.mtu
  {
    hide PacketLen;
  }

  // Times of system exclusive messages

  /** The end of a system exclusive message is written with the time kept. */
  lemma EndStamped(e: Enc, t: nat)
    requires Mirrors(e, InSysex) && t < 0x2000
    ensures var o := Step(e, 0xF7, t);
            && o.Next? && o.e.out.pkt.segs != []
            && LastSeg(o.e.out.pkt) == Status(Low(e.prevTs), 0xF7, [])
  {
    hide Bounded, Overflows, Hazard, Low, Header, PacketLen;
    assert e.mes.bytes[0 := 0xF7][1..1] == [];
  }

  /** After any run of grammatical calls, and any part of a call: the time byte of an 0xF7 is the low part of the
      time at which its message began. */
  lemma EndTime(mtu: nat, cap: nat, calls: seq<Call>, c: Call, n: nat)
    requires mtu >= 6 && Timed(calls) && LegalRun(Idle, calls) && c.t < 0x2000
    requires n < |c.stream| && LegalStream(ParseRun(Idle, calls).0, c.stream[..n]) && c.stream[n] == 0xF7
    requires ParseStream(ParseRun(Idle, calls).0, c.stream[..n]).0.InSysex?
    ensures var e := RunFrom(mtu, cap, calls).0;
            && Safe(e)
            && var o := Step(Loop(e, c.stream[..n], 0, c.t).e, 0xF7, c.t);
               && o.Next? && Safe(o.e) && Loop(e, c.stream, 0, c.t) == Loop(o.e, c.stream, n + 1, c.t)
               && o.e.out.pkt.segs != []
               && LastSeg(o.e.out.pkt) == Status(Low(TrackOf(calls, c.stream[..n], c.t).begun), 0xF7, [])
  {
    hide RunFrom, Loop, Step, ParseStream, LegalStream, TrackOf, Safe, Mirrors, Low, PacketLen;
    PartOfCall(mtu, cap, calls, c, n);
    var e1 := Loop(RunFrom(mtu, cap, calls).0, c.stream[..n], 0, c.t).e;
    EndStamped(e1, c.t);
    LoopTurn(e1, c.stream, n, c.t);
  }

  /** The segment of a fragment written at a time: the first one has its time byte, and a later one has one only if it
      was moved to a new packet, which then has its time, too. */
  predicate FragmentAt(p: Packet, time: nat, first: bool) {
    && p.segs != []
    && (match LastSeg(p)
        case Status(ts, b, _) => first && b == 0xF0 && ts == Low(time)
        case Cont(stamp, _) => !first && (stamp.Some? ==> stamp.value == Low(time) && |p.segs| == 1)
        case Run(_, _, _) => false)
    && (|p.segs| == 1 ==> p.header == Header(time))
  }

  lemma FragmentWritten(o: Out, m: Message, prevTs: nat)
    requires IsMessage(m) && Ordered(m.tag) && m.tag.count > 0 && m.tag.sysex && (m.tag.startSysex ==> m.bytes[0] == 0xF0)
    ensures FragmentAt(EncodeMessage(o, m, prevTs).pkt, m.ts, m.tag.startSysex)
  {
    hide PacketLen, Hazard, Low, Header;
  }

  /** After any run and any part of a call: a fragment that a third byte completes is written with the time tracked,
      that is, with the time at which its message began if a whole fragment of it was written before, and else with
      the time of what came before the message. */
  lemma FragmentTime(mtu: nat, cap: nat, calls: seq<Call>, c: Call, n: nat)
    requires mtu >= 6 && Timed(calls) && LegalRun(Idle, calls) && c.t < 0x2000
    requires n < |c.stream| && LegalStream(ParseRun(Idle, calls).0, c.stream[..n]) && IsData(c.stream[n])
    requires ParseStream(ParseRun(Idle, calls).0, c.stream[..n]).0.InSysex? && TrackOf(calls, c.stream[..n], c.t).fragment == 2
    ensures var e := RunFrom(mtu, cap, calls).0;
            && Safe(e)
            && var e1 := Loop(e, c.stream[..n], 0, c.t).e;
               && Safe(e1)
               && var o := Step(e1, c.stream[n], c.t);
                  && o.Next? && Safe(o.e) && Loop(e, c.stream, 0, c.t) == Loop(o.e, c.stream, n + 1, c.t)
                  && FragmentAt(o.e.out.pkt, TrackOf(calls, c.stream[..n], c.t).time, e1.mes.tag.startSysex)
  {
    hide RunFrom, Loop, ParseStream, LegalStream, TrackOf, Mirrors, Step, Safe, PacketLen, FragmentAt;
    PartOfCall(mtu, cap, calls, c, n);
    var e1 := Loop(RunFrom(mtu, cap, calls).0, c.stream[..n], 0, c.t).e;
    ThirdByte(e1, c.stream[n], c.t);
    LoopTurn(e1, c.stream, n, c.t);
  }

  lemma ThirdByte(e: Enc, b: byte, t: nat)
    requires Mirrors(e, InSysex) && IsData(b) && t < 0x2000 && e.idx == 2
    ensures Step(e, b, t).Next? && FragmentAt(Step(e, b, t).e.out.pkt, e.mes.ts, e.mes.tag.startSysex)
  {
    hide EncodeMessage, Bounded, FragmentAt;
    var mes := e.mes.(bytes := e.mes.bytes[e.idx := b], tag := e.mes.tag.(count := e.mes.tag.count + 1));
    EncodeBounded(e.(mes := mes, idx := 3));
    FragmentWritten(e.out, mes, e.prevTs);
  }

  // Stream errors

  /** A byte that ends a call: data without a status byte, or an 0xF7 outside of a system exclusive message. The
      first data byte right behind an 0xF7 is none. */
  predicate IsError(p: Parse, ended: bool, b: byte) {
    if b == 0xF7 then !p.InSysex? else IsData(b) && p.Idle? && !ended
  }

  /** Nothing of a message or a packet is under way, and no status is remembered for the stream. */
  predicate IsDiscarded(e: Enc) {
    && e.idx == 0 && e.running == 0 && e.rt == [] && e.prevTs == 0xFFFF && e.mes.ts == 0xFFFF
    && !e.mes.tag.sysex && !e.mes.tag.channel && e.mes.tag.count == 0 && e.out.pkt.segs == []
  }

  lemma StepFails(e: Enc, p: Parse, b: byte, t: nat, k: Track)
    requires Mirrors(e, p) && t < 0x2000 && Keeps(e, p, k)
    ensures var o := Step(e, b, t);
            && (o.Fail? <==> IsError(p, k.ended, b))
            && (o.Fail? ==>
                  && o.taken == 0 && IsDiscarded(o.e)
                  && o.e.out.queue == e.out.queue && o.e.out.lost == e.out.lost && o.e.out.clean == e.out.clean)
  {
    hide Encode, Bounded;
    if IsRealTime(b) {
      RealTimeSafe(e, b, t);
    }
  }

  /** After any run of grammatical calls: a call fails at the first byte that is an error. The bytes before it have
      been taken, the packets made ready for them stay, and what was under way is given up. */
  lemma CallFails(mtu: nat, cap: nat, calls: seq<Call>, c: Call, n: nat)
    requires mtu >= 6 && Timed(calls) && LegalRun(Idle, calls) && c.t < 0x2000
    requires n < |c.stream| && LegalStream(ParseRun(Idle, calls).0, c.stream[..n])
    requires IsError(ParseStream(ParseRun(Idle, calls).0, c.stream[..n]).0, TrackOf(calls, c.stream[..n], c.t).ended, c.stream[n])
    ensures var e := RunFrom(mtu, cap, calls).0;
            && Safe(e)
            && var r, before := Push(e, c.stream, c.t), Loop(e, c.stream[..n], 0, c.t).e;
               && r.failed && r.taken == n && IsDiscarded(r.e)
               && r.e.out.queue == before.out.queue && r.e.out.lost == before.out.lost && r.e.out.clean == before.out.clean
  {
    hide RunFrom, Loop, Step, ParseStream, LegalStream, TrackOf, Safe, Mirrors, IsDiscarded, PacketLen, Keeps;
    PartOfCall(mtu, cap, calls, c, n);
    var e1 := Loop(RunFrom(mtu, cap, calls).0, c.stream[..n], 0, c.t).e;
    StepFails(e1, ParseStream(ParseRun(Idle, calls).0, c.stream[..n]).0, c.stream[n], c.t, TrackOf(calls, c.stream[..n], c.t));
    LoopTurn(e1, c.stream, n, c.t);
  }

  /** A data byte right behind an 0xF7 is sent as if it were a status byte, and there is no error. */
  lemma StraySent(e: Enc, b: byte, t: nat, k: Track)
    requires Mirrors(e, Idle) && IsData(b) && t < 0x2000 && Keeps(e, Idle, k) && k.ended
    ensures var o := Step(e, b, t);
            && o.Next? && o.e.out.pkt.segs != [] && LastSeg(o.e.out.pkt) == Status(Low(k.time), b, [])
            && o.e.mes.tag.count == 0
  {
    hide Bounded, Overflows, Hazard, Low, Header, PacketLen;
    assert e.mes.bytes[0 := b][1..1] == [];
  }

  // Full packets

  /** A packet is sealed to make room exactly if what is to be written would fill it. */
  lemma SealedFull(o: Out, m: Message, prevTs: nat)
    requires IsMessage(m) && Ordered(m.tag) && m.tag.count > 0 && Bounded(o)
    ensures var g := SegOf(m, NeedsStamp(o, m, prevTs), ElidesStatus(o, m));
            Prepared(o, m, prevTs) == if PacketLen(o.pkt) + |SegBytes(g)| < o.mtu then o else Seal(o)
  {
    hide Bounded, PacketLen;
    SegLength(m, NeedsStamp(o, m, prevTs), ElidesStatus(o, m));
  }

  lemma SealedForClock(o: Out, b: byte, t: nat)
    requires Bounded(o)
    ensures var g := Status(Low(t), b, []);
            FlushOne(o, [(b, t)], 0).pkt
            == Emit(if PacketLen(o.pkt) + |SegBytes(g)| < o.mtu then o.pkt else EMPTY, Header(t), g)
  {
    hide Bounded, PacketLen;
  }
}
