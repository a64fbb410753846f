/** How the decoder reads the segments the encoder writes. */
module BleMidiSegments {
  import opened Bytes
  import opened BleMidi
  import opened BleMidiEncoding
  import opened BleMidiDecoding

  function Payload(data: seq<byte>): (r: seq<Event>)
    ensures |r| == |data|
  {
    seq(|data|, i requires 0 <= i < |data| => Sx(data[i]))
  }

  function StampAll(evs: seq<Event>, ts: nat): (r: seq<Stamped>)
    ensures |r| == |evs|
  {
    seq(|evs|, i requires 0 <= i < |evs| => Stamped(evs[i], ts))
  }

  function Unstamp(toks: seq<Stamped>): (r: seq<Event>)
    ensures |r| == |toks|
  {
    seq(|toks|, i requires 0 <= i < |toks| => toks[i].ev)
  }

  /** What a segment says. */
  function SegEvents(g: Seg): seq<Event> {
    match g
    case Status(_, b, data) =>
      if IsRealTime(b) then [Rt(b)]
      else if b == 0xF0 then [Sx(b)] + Payload(data)
      else if b > 0xF0 then [CommonEvent(b, data)]
      else [Msg([b] + data)]
    case Run(_, b, data) => [Msg([b] + data)]
    case Cont(_, data) => Payload(data)
  }

  function Events(segs: seq<Seg>): seq<Event> {
    if segs == [] then [] else Events(segs[..|segs| - 1]) + SegEvents(segs[|segs| - 1])
  }

  predicate StampOk(o: Option<byte>) {
    o.Some? ==> o.value >= 0x80
  }

  /** The segments a grammatical stream gives rise to. */
  predicate WfSeg(g: Seg) {
    && AllData(g.data)
    && match g
       case Status(ts, b, data) =>
         && ts >= 0x80 && b >= 0x80
         && |data| == (if IsRealTime(b) then 0
                       else if b == 0xF0 then |data|
                       else if b > 0xF0 then CommonLen(b) - 1
                       else ChannelLen(b) - 1)
       case Run(stamp, b, data) => StampOk(stamp) && IsChannel(b) && |data| == ChannelLen(b) - 1
       case Cont(stamp, data) => StampOk(stamp) && |data| > 0
  }

  predicate WfAll(segs: seq<Seg>) {
    forall i :: 0 <= i < |segs| ==> WfSeg(segs[i])
  }

  /** The decoder, in state `d` at the segment, reads it as what it says. */
  predicate GoodSeg(d: Dec, g: Seg) {
    match g
    case Status(_, b, _) => !d.sysex || IsRealTime(b) || b == 0xF7
    case Run(stamp, b, data) =>
      && !d.sysex && d.running == b
      && (stamp == None ==> d.channel && |data| == 2)
    case Cont(stamp, _) => d.sysex && stamp == None
  }

  function NextDec(d: Dec, g: Seg): Dec {
    match g
    case Status(ts, b, _) =>
      var d1 := Tick(d, ts);
      if IsRealTime(b) && d.sysex then d1
      else if IsRealTime(b) then d1.(ts := StampOf(d, ts), channel := false)
      else if b == 0xF0 then d1.(ts := StampOf(d, ts), sysex := true, channel := false)
      else if b > 0xF0 then d1.(ts := StampOf(d, ts), sysex := false, channel := false)
      else d1.(ts := StampOf(d, ts), running := b, channel := true)
    case Run(stamp, _, _) =>
      if stamp.Some? then Tick(d, stamp.value).(ts := StampOf(d, stamp.value), sysex := false, channel := true)
      else d
    case Cont(_, _) => d
  }

  function SegTime(d: Dec, g: Seg): nat {
    match g
    case Status(ts, _, _) => StampOf(d, ts)
    case Run(stamp, _, _) => if stamp.Some? then StampOf(d, stamp.value) else d.ts
    case Cont(_, _) => d.ts
  }

  lemma {:induction false} DecodePayload(d: Dec, data: seq<byte>, rest: seq<byte>)
    requires d.sysex && AllData(data)
    ensures Decode(d, data + rest) == Pre(StampAll(Payload(data), d.ts), Decode(d, rest))
  {
    hide Decode;
    if data == [] {
      assert data + rest == rest;
    } else {
      var s := data + rest;
      DecodePayload(d, data[1..], rest);
      assert s[1..] == data[1..] + rest;
      DecodeData(d, s);
      assert StampAll(Payload(data), d.ts) == [Stamped(Sx(data[0]), d.ts)] + StampAll(Payload(data[1..]), d.ts);
    }
  }

  lemma StatusBytes(g: Seg, rest: seq<byte>)
    requires g.Status?
    ensures var s := SegBytes(g) + rest;
            && |s| == 2 + |g.data| + |rest| && s[0] == g.ts && s[1] == g.status
            && s[2..] == g.data + rest
            && s[2..2 + |g.data|] == g.data && s[2 + |g.data|..] == rest
  {
  }

  /** A stamped status that starts a system exclusive message. */
  lemma DecodeStart(d: Dec, g: Seg, rest: seq<byte>)
    requires g.Status? && WfSeg(g) && !d.sysex && g.status == 0xF0
    ensures Decode(d, SegBytes(g) + rest) ==
            Pre(StampAll(SegEvents(g), SegTime(d, g)), Decode(NextDec(d, g), rest))
  {
    hide Decode, DecodeStatus, StampOf, SegBytes;
    StatusBytes(g, rest);
    StartOutside(d, SegBytes(g) + rest);
    var d1 := NextDec(d, g);
    DecodePayload(d1, g.data, rest);
    StartEvents(g, d1.ts);
    hide SegEvents, StampAll;
    assert ([Stamped(Sx(g.status), d1.ts)] + StampAll(Payload(g.data), d1.ts)) + Decode(d1, rest).toks
           == [Stamped(Sx(g.status), d1.ts)] + (StampAll(Payload(g.data), d1.ts) + Decode(d1, rest).toks);
  }

  lemma StartEvents(g: Seg, ts: nat)
    requires g.Status? && g.status == 0xF0
    ensures StampAll(SegEvents(g), ts) == [Stamped(Sx(g.status), ts)] + StampAll(Payload(g.data), ts)
  {
  }

  /** A stamped system common or real-time message, or the end of a system exclusive one. */
  lemma DecodeSystem(d: Dec, g: Seg, rest: seq<byte>)
    requires g.Status? && WfSeg(g) && !d.sysex && g.status > 0xF0
    ensures Decode(d, SegBytes(g) + rest) ==
            Pre(StampAll(SegEvents(g), SegTime(d, g)), Decode(NextDec(d, g), rest))
  {
    hide Decode, DecodeStatus, StampOf, SegBytes;
    StatusBytes(g, rest);
    SystemOutside(d, SegBytes(g) + rest);
    assert g.data == [] ==> g.data + rest == rest;
  }

  /** A stamped channel message. */
  lemma DecodeChannel(d: Dec, g: Seg, rest: seq<byte>)
    requires g.Status? && WfSeg(g) && !d.sysex && IsChannel(g.status)
    ensures Decode(d, SegBytes(g) + rest) ==
            Pre(StampAll(SegEvents(g), SegTime(d, g)), Decode(NextDec(d, g), rest))
  {
    hide Decode, DecodeStatus, StampOf, SegBytes;
    StatusBytes(g, rest);
    ChannelOutside(d, SegBytes(g) + rest);
  }

  /** A stamped status outside of a system exclusive message. */
  lemma DecodeOutside(d: Dec, g: Seg, rest: seq<byte>)
    requires g.Status? && WfSeg(g) && !d.sysex
    ensures Decode(d, SegBytes(g) + rest) ==
            Pre(StampAll(SegEvents(g), SegTime(d, g)), Decode(NextDec(d, g), rest))
  {
    hide Decode, SegEvents, NextDec, SegBytes, StampAll, SegTime;
    if g.status == 0xF0 {
      DecodeStart(d, g, rest);
    } else if g.status > 0xF0 {
      DecodeSystem(d, g, rest);
    } else {
      DecodeChannel(d, g, rest);
    }
  }

  /** A real-time status or the end of the message inside of one. */
  lemma DecodeInside(d: Dec, g: Seg, rest: seq<byte>)
    requires g.Status? && WfSeg(g) && d.sysex && (IsRealTime(g.status) || g.status == 0xF7)
    ensures Decode(d, SegBytes(g) + rest) ==
            Pre(StampAll(SegEvents(g), SegTime(d, g)), Decode(NextDec(d, g), rest))
  {
    hide Decode, DecodeStatus, StampOf, SegBytes;
    StatusBytes(g, rest);
    var s := SegBytes(g) + rest;
    if g.status == 0xF7 {
      var d0 := d.(sysex := false, channel := false);
      EndInside(d, s);
      DecodeSystem(d0, g, rest);
      SameClock(d, d0, g.ts);
    } else {
      RealTimeInside(d, s);
      assert g.data + rest == rest;
    }
  }

  lemma SameClock(d: Dec, d0: Dec, ts: byte)
    requires d0 == d.(sysex := false, channel := false)
    ensures StampOf(d, ts) == StampOf(d0, ts)
  {
  }

  lemma DecodeRun(d: Dec, g: Seg, rest: seq<byte>)
    requires g.Run? && WfSeg(g) && GoodSeg(d, g)
    ensures Decode(d, SegBytes(g) + rest) ==
            Pre(StampAll(SegEvents(g), SegTime(d, g)), Decode(NextDec(d, g), rest))
  {
    hide Decode, DecodeStatus, StampOf, SegBytes;
    RunBytes(g, rest);
    RunningOutside(d, SegBytes(g) + rest);
  }

  lemma RunBytes(g: Seg, rest: seq<byte>)
    requires g.Run?
    ensures var s, n := SegBytes(g) + rest, |g.data|;
            if g.stamp.Some? then
              |s| == 1 + n + |rest| && s[0] == g.stamp.value && s[1..n + 1] == g.data && s[n + 1..] == rest
              && (n > 0 ==> s[1] == g.data[0])
            else
              |s| == n + |rest| && s[..n] == g.data && s[n..] == rest && (n > 0 ==> s[0] == g.data[0]) && (n > 1 ==> s[1] == g.data[1])
  {
  }

  /** The decoder consumes a good segment whatever follows it. */
  lemma DecodeSeg(d: Dec, g: Seg, rest: seq<byte>)
    requires WfSeg(g) && GoodSeg(d, g)
    ensures Decode(d, SegBytes(g) + rest) ==
            Pre(StampAll(SegEvents(g), SegTime(d, g)), Decode(NextDec(d, g), rest))
  {
    hide Decode;
    match g {
      case Status(_, _, _) =>
        if d.sysex {
          DecodeInside(d, g, rest);
        } else {
          DecodeOutside(d, g, rest);
        }
      case Run(_, _, _) =>
        DecodeRun(d, g, rest);
      case Cont(_, data) =>
        assert SegBytes(g) == data;
        DecodePayload(d, data, rest);
    }
  }

  // Whole packets

  function DecAfter(d: Dec, segs: seq<Seg>): Dec {
    if segs == [] then d else NextDec(DecAfter(d, segs[..|segs| - 1]), segs[|segs| - 1])
  }

  predicate GoodAll(d: Dec, segs: seq<Seg>) {
    segs == [] ||
    (GoodAll(d, segs[..|segs| - 1]) && GoodSeg(DecAfter(d, segs[..|segs| - 1]), segs[|segs| - 1]))
  }

  function TokensOf(d: Dec, segs: seq<Seg>): seq<Stamped> {
    if segs == [] then []
    else
      var d1 := DecAfter(d, segs[..|segs| - 1]);
      var g := segs[|segs| - 1];
      TokensOf(d, segs[..|segs| - 1]) + StampAll(SegEvents(g), SegTime(d1, g))
  }

  lemma {:induction false} DecodeAll(d: Dec, segs: seq<Seg>, rest: seq<byte>)
    requires WfAll(segs) && GoodAll(d, segs)
    ensures Decode(d, Flat(segs) + rest) == Pre(TokensOf(d, segs), Decode(DecAfter(d, segs), rest))
  {
    hide Decode, SegEvents, SegBytes, GoodSeg, WfSeg, NextDec;
    if segs == [] {
      assert Flat(segs) + rest == rest;
    } else {
      var init, g := segs[..|segs| - 1], segs[|segs| - 1];
      assert Flat(segs) + rest == Flat(init) + (SegBytes(g) + rest);
      DecodeAll(d, init, SegBytes(g) + rest);
      DecodeSeg(DecAfter(d, init), g, rest);
    }
  }

  lemma {:induction false} TokensAreEvents(d: Dec, segs: seq<Seg>)
    ensures Unstamp(TokensOf(d, segs)) == Events(segs)
  {
    hide SegEvents;
    if segs != [] {
      TokensAreEvents(d, segs[..|segs| - 1]);
      var d1 := DecAfter(d, segs[..|segs| - 1]);
      var g := segs[|segs| - 1];
      assert Unstamp(StampAll(SegEvents(g), SegTime(d1, g))) == SegEvents(g);
      UnstampConcat(TokensOf(d, segs[..|segs| - 1]), StampAll(SegEvents(g), SegTime(d1, g)));
    }
  }

  lemma UnstampConcat(a: seq<Stamped>, b: seq<Stamped>)
    ensures Unstamp(a + b) == Unstamp(a) + Unstamp(b)
  {
  }

  /** Single data byte of a two-byte message without stamp. */
  predicate Solo(g: Seg) {
    g.Run? && g.stamp == None && |g.data| == 1
  }

  predicate StartsWithData(g: Seg) {
    !g.Status? && g.stamp == None
  }

  /** After the data of a two-byte message that stands alone comes another of its kind, or a
      time byte. */
  predicate SolosChain(segs: seq<Seg>) {
    forall i :: 0 < i < |segs| && Solo(segs[i - 1]) && StartsWithData(segs[i]) ==> Solo(segs[i])
  }

  predicate WfPacket(p: Packet) {
    && (p.segs != [] ==> 0x80 <= p.header < 0xC0)
    && WfAll(p.segs)
    && SolosChain(p.segs)
    && (p.segs != [] && StartsWithData(p.segs[0]) ==> p.segs[0].Cont?)
  }

  function Start(p: Packet): Dec {
    Opening(p.header, p.segs != [] && StartsWithData(p.segs[0]))
  }

  lemma {:induction false} FlatConcat(a: seq<Seg>, b: seq<Seg>)
    ensures Flat(a + b) == Flat(a) + Flat(b)
  {
    hide SegBytes;
    if b == [] {
      assert a + b == a;
    } else {
      var init, g := b[..|b| - 1], b[|b| - 1];
      FlatConcat(a, init);
      assert a + b == (a + init) + [g];
      FlatAppend(a + init, g);
      assert Flat(a) + (Flat(init) + SegBytes(g)) == (Flat(a) + Flat(init)) + SegBytes(g);
    }
  }

  lemma FlatSingle(g: Seg)
    ensures Flat([g]) == SegBytes(g)
  {
    assert [g][..0] == [];
  }

  lemma FlatHead(segs: seq<Seg>)
    requires segs != []
    ensures Flat(segs) == SegBytes(segs[0]) + Flat(segs[1..])
  {
    assert segs == [segs[0]] + segs[1..];
    FlatConcat([segs[0]], segs[1..]);
    FlatSingle(segs[0]);
  }

  /** Decoding a packet starts in the state its first segment calls for. */
  lemma DecodePacketStart(p: Packet)
    requires WfPacket(p) && p.segs != []
    ensures DecodePacket(PacketBytes(p)) == Decode(Start(p), Flat(p.segs))
  {
    hide Decode;
    FlatHead(p.segs);
    var pkt := PacketBytes(p);
    var g := p.segs[0];
    assert WfSeg(g);
    assert |SegBytes(g)| > 0;
    assert pkt[1] == SegBytes(g)[0];
    assert IsData(pkt[1]) == StartsWithData(g);
    assert pkt[1..] == Flat(p.segs);
  }

  predicate GoodPacket(p: Packet) {
    WfPacket(p) && GoodAll(Start(p), p.segs)
  }

  /** A good packet is decoded to its end, and says what its segments say. */
  lemma DecodeGoodPacket(p: Packet)
    requires GoodPacket(p) && p.segs != []
    ensures Complete(DecodePacket(PacketBytes(p)))
    ensures DecodePacket(PacketBytes(p)).toks == TokensOf(Start(p), p.segs)
    ensures Unstamp(DecodePacket(PacketBytes(p)).toks) == Events(p.segs)
  {
    DecodePacketStart(p);
    DecodeAll(Start(p), p.segs, []);
    assert Flat(p.segs) + [] == Flat(p.segs);
    DecodeNil(DecAfter(Start(p), p.segs));
    TokensAreEvents(Start(p), p.segs);
  }

  lemma DecodeNil(d: Dec)
    ensures Decode(d, []) == DecOut([], 0, false)
  {
  }

  // Packets that cannot be decoded to their end

  /** In state `d` the decoder never gets past segment number `k`. */
  predicate Fatal(d: Dec, g: Seg) {
    match g
    case Status(_, _, _) => false
    case Run(stamp, b, data) =>
      if stamp.Some? then d.running == 0
      else |data| == 1 && d.channel && IsChannel(d.running) && ChannelLen(d.running) == 2 && !d.sysex
    case Cont(stamp, _) => if stamp.Some? then d.running == 0 else !d.sysex && !d.channel
  }

  ghost predicate DoomedAt(p: Packet, k: nat) {
    && k < |p.segs|
    && GoodAll(Start(p), p.segs[..k])
    && Fatal(DecAfter(Start(p), p.segs[..k]), p.segs[k])
  }

  ghost predicate Doomed(p: Packet) {
    WfPacket(p) && exists k: nat :: DoomedAt(p, k)
  }

  lemma SoloStep(d: Dec, x: byte, rest: seq<byte>)
    requires IsData(x) && d.channel && IsChannel(d.running) && ChannelLen(d.running) == 2 && !d.sysex
    ensures rest == [] || rest[0] >= 0x80 ==> Decode(d, [x] + rest).hang
    ensures rest != [] && IsData(rest[0]) ==>
              Decode(d, [x] + rest) == Pre([Stamped(Msg([d.running, x]), d.ts)], Decode(d, rest))
  {
    hide DecodeStatus;
    var s := [x] + rest;
    assert s[1..] == rest;
    assert [d.running] + s[..1] == [d.running, x];
  }

  /** Single data bytes are consumed one by one, but the last of them never is. */
  lemma {:induction false} SolosStick(d: Dec, segs: seq<Seg>, k: nat)
    requires WfAll(segs) && SolosChain(segs)
    requires k < |segs| && Solo(segs[k]) && Fatal(d, segs[k])
    ensures !Complete(Decode(d, Flat(segs[k..])))
    decreases |segs| - k
  {
    hide Decode, Flat;
    FlatHead(segs[k..]);
    assert segs[k..][1..] == segs[k + 1..];
    var rest := Flat(segs[k + 1..]);
    var x := segs[k].data[0];
    assert WfSeg(segs[k]);
    assert SegBytes(segs[k]) == [x];
    SoloStep(d, x, rest);
    if k + 1 == |segs| {
      assert segs[k + 1..] == [];
      FlatNil();
    } else {
      FlatStart(segs, k + 1);
      if StartsWithData(segs[k + 1]) {
        SolosStick(d, segs, k + 1);
      }
    }
  }

  lemma FlatNil()
    ensures Flat([]) == []
  {
  }

  /** The first byte of a segment tells what kind it is. */
  lemma FlatStart(segs: seq<Seg>, k: nat)
    requires WfAll(segs) && k < |segs|
    ensures |Flat(segs[k..])| >= |SegBytes(segs[k])| > 0 && Flat(segs[k..])[0] == SegBytes(segs[k])[0]
    ensures IsData(Flat(segs[k..])[0]) == StartsWithData(segs[k])
  {
    hide Flat;
    FlatHead(segs[k..]);
    assert WfSeg(segs[k]);
  }

  lemma FatalSticks(d: Dec, segs: seq<Seg>, k: nat)
    requires WfAll(segs) && SolosChain(segs)
    requires k < |segs| && Fatal(d, segs[k])
    ensures !Complete(Decode(d, Flat(segs[k..])))
  {
    if Solo(segs[k]) {
      SolosStick(d, segs, k);
    } else {
      hide Decode, DecodeStatus, Flat;
      FlatHead(segs[k..]);
      FlatStart(segs, k);
      assert WfSeg(segs[k]);
      var s := Flat(segs[k..]);
      if segs[k].stamp.Some? {
        assert s[1] == segs[k].data[0];
        StampedSticks(d, s);
      } else {
        BareSticks(d, s);
      }
    }
  }

  /** A time byte and data, without running status. */
  lemma StampedSticks(d: Dec, s: seq<byte>)
    requires |s| >= 2 && s[0] >= 0x80 && IsData(s[1]) && d.running == 0
    ensures !Complete(Decode(d, s))
  {
    hide DecodeStatus;
  }

  /** Data that belongs to nothing. */
  lemma BareSticks(d: Dec, s: seq<byte>)
    requires |s| >= 1 && IsData(s[0]) && !d.sysex && !d.channel
    ensures !Complete(Decode(d, s))
  {
    hide DecodeStatus;
  }

  lemma DoomedAtIncomplete(p: Packet, k: nat)
    requires WfPacket(p) && DoomedAt(p, k)
    ensures !Complete(DecodePacket(PacketBytes(p)))
  {
    hide Decode, Flat, GoodAll, Start, DecAfter, DecodePacket, WfSeg, Fatal, TokensOf;
    DecodePacketStart(p);
    var init, rest := p.segs[..k], p.segs[k..];
    assert p.segs == init + rest;
    FlatConcat(init, rest);
    DecodeAll(Start(p), init, Flat(rest));
    FatalSticks(DecAfter(Start(p), init), p.segs, k);
  }

  lemma DoomedIncomplete(p: Packet)
    requires Doomed(p)
    ensures !Complete(DecodePacket(PacketBytes(p)))
  {
    var k: nat :| DoomedAt(p, k);
    DoomedAtIncomplete(p, k);
  }
}
