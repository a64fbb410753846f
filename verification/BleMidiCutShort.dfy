/** What the decoder makes of a packet that was cut short, or that goes on in a way no encoder writes. */
module BleMidiCutShort {
  import opened Bytes
  import opened BleMidi
  import opened BleMidiEncoding
  import opened BleMidiDecoding
  import opened BleMidiSegments

  /** What the first `k` bytes of a segment are decoded to. A time byte alone, and the first of two data bytes, keep
      the decoder in its loop for ever; a channel status byte alone is passed over in silence; an incomplete system
      common message is left over behind its status byte; payload is decoded as far as it goes. */
  function Outcome(g: Seg, ts: nat, k: nat): DecOut
    requires 0 < k < |SegBytes(g)|
  {
    match g
    case Status(_, b, data) =>
      if k == 1 then DecOut([], 1, true)
      else if b == 0xF0 then DecOut(StampAll(Payload([b] + data[..k - 2]), ts), 0, false)
      else if b > 0xF0 then DecOut([], k - 2, false)
      else if k == 2 then DecOut([], 0, false)
      else DecOut([], 1, true)
    case Run(stamp, _, _) => if k == 1 then DecOut([], 1, true) else DecOut([], k, false)
    case Cont(_, data) => DecOut(StampAll(Payload(SegBytes(g)[..k]), ts), 0, false)
  }

  lemma PayloadOnly(d: Dec, data: seq<byte>)
    requires d.sysex && AllData(data)
    ensures Decode(d, data) == DecOut(StampAll(Payload(data), d.ts), 0, false)
  {
    hide Decode;
    DecodePayload(d, data, []);
    DecodeNil(d);
    assert data + [] == data;
  }

  lemma CutBytes(g: Seg, k: nat)
    requires g.Status? && 1 < k < |SegBytes(g)|
    ensures SegBytes(g)[..k] == [g.ts, g.status] + g.data[..k - 2] && SegBytes(g)[..k][2..] == g.data[..k - 2]
  {
  }

  lemma CutSysex(d: Dec, g: Seg, k: nat)
    requires g.Status? && WfSeg(g) && !d.sysex && g.status == 0xF0 && 1 < k < |SegBytes(g)|
    ensures Decode(d, SegBytes(g)[..k]) == Outcome(g, SegTime(d, g), k)
  {
    hide StampOf, BitOr, Decode, DecodeStatus, SegBytes;
    assert |SegBytes(g)| == 2 + |g.data| by { Length(g); }
    CutBytes(g, k);
    StartOutside(d, SegBytes(g)[..k]);
    var d1 := Tick(d, g.ts).(ts := StampOf(d, g.ts), sysex := true, channel := false);
    PayloadOnly(d1, g.data[..k - 2]);
    var all := Payload([g.status] + g.data[..k - 2]);
    assert all == [Sx(g.status)] + Payload(g.data[..k - 2]);
    assert StampAll(all, d1.ts) == [Stamped(Sx(g.status), d1.ts)] + StampAll(Payload(g.data[..k - 2]), d1.ts);
  }

  lemma CutCommon(d: Dec, g: Seg, k: nat)
    requires g.Status? && WfSeg(g) && !d.sysex && g.status > 0xF0 && 1 < k < |SegBytes(g)|
    ensures Decode(d, SegBytes(g)[..k]) == Outcome(g, SegTime(d, g), k)
  {
    hide StampOf, BitOr, SegBytes;
    assert |SegBytes(g)| == 2 + |g.data| by { Length(g); }
    CutBytes(g, k);
    var s := SegBytes(g)[..k];
    assert s[0] == g.ts && s[1] == g.status;
  }

  lemma CutChannel(d: Dec, g: Seg, k: nat)
    requires g.Status? && WfSeg(g) && !d.sysex && g.status < 0xF0 && 1 < k < |SegBytes(g)|
    ensures Decode(d, SegBytes(g)[..k]) == Outcome(g, SegTime(d, g), k)
  {
    hide StampOf, BitOr, SegBytes;
    assert |SegBytes(g)| == 2 + |g.data| by { Length(g); }
    CutBytes(g, k);
    var s := SegBytes(g)[..k];
    assert s[0] == g.ts && s[1] == g.status;
    var d1 := Tick(d, g.ts).(ts := StampOf(d, g.ts), running := g.status, channel := d.channel && ChannelLen(g.status) == 3);
    Rest(d1, s[2..]);
    hide Decode;
    assert DecodeStatus(d, s) == Decode(d1, s[2..]);
    Outside(d, s);
  }

  lemma Outside(d: Dec, s: seq<byte>)
    requires |s| >= 2 && s[0] >= 0x80 && s[1] >= 0x80 && !d.sysex
    ensures Decode(d, s) == DecodeStatus(d, s)
  {
    hide DecodeStatus;
  }

  lemma Rest(d: Dec, s: seq<byte>)
    requires !d.sysex && |s| <= 1
    ensures Decode(d, s) == DecOut([], |s|, |s| == 1)
  {
    hide DecodeStatus;
  }

  lemma Length(g: Seg)
    requires g.Status?
    ensures |SegBytes(g)| == 2 + |g.data|
  {
  }

  lemma CutStatus(d: Dec, g: Seg, k: nat)
    requires g.Status? && WfSeg(g) && GoodSeg(d, g) && 1 < k < |SegBytes(g)|
    ensures Decode(d, SegBytes(g)[..k]) == Outcome(g, SegTime(d, g), k)
  {
    hide StampOf, BitOr, Decode, Outcome, SegTime;
    if g.status == 0xF0 {
      CutSysex(d, g, k);
    } else if g.status < 0xF0 {
      CutChannel(d, g, k);
    } else {
      CutCommon(d, g, k);
    }
  }

  lemma CutSegment(d: Dec, g: Seg, k: nat)
    requires WfSeg(g) && GoodSeg(d, g) && 0 < k < |SegBytes(g)|
    ensures Decode(d, SegBytes(g)[..k]) == Outcome(g, SegTime(d, g), k)
  {
    hide StampOf, BitOr;
    var s := SegBytes(g)[..k];
    match g
    case Status(ts, _, _) =>
      if k == 1 {
        assert s == [ts];
      } else {
        CutStatus(d, g, k);
      }
    case Run(stamp, _, data) =>
      assert k == 1 ==> s == [if stamp.Some? then stamp.value else data[0]];
      assert k == 2 ==> stamp.Some? && s == [stamp.value, data[0]];
    case Cont(_, data) =>
      PayloadOnly(d, s);
  }

  /** A good packet cut short in its segment number `j`: the segments before it are decoded, and of this one what the
      table of outcomes says. */
  lemma CutShort(p: Packet, j: nat, k: nat)
    requires GoodPacket(p) && j < |p.segs| && 0 < k < |SegBytes(p.segs[j])|
    ensures var n := 1 + |Flat(p.segs[..j])| + k;
            && n < |PacketBytes(p)|
            && GoodAll(Start(p), p.segs[..j])
            && var d := DecAfter(Start(p), p.segs[..j]);
               DecodePacket(PacketBytes(p)[..n])
               == Pre(TokensOf(Start(p), p.segs[..j]), Outcome(p.segs[j], SegTime(d, p.segs[j]), k))
  {
    hide Decode, GoodSeg, NextDec, SegTime, Outcome, WfSeg, SegBytes, DecodePacket, TokensOf, Flat, PacketBytes;
    var init, g := p.segs[..j], p.segs[j];
    Prefix(Start(p), p.segs, j);
    CutBehind(p, j, k);
    var pkt := PacketBytes(p)[..1 + |Flat(init)| + k];
    hide GoodAll, DecAfter, Start, Pre, SolosChain;
    CutStart(p, pkt);
    DecodeAll(Start(p), init, SegBytes(g)[..k]);
    CutSegment(DecAfter(Start(p), init), g, k);
  }

  /** The bytes of such a packet. */
  lemma CutBehind(p: Packet, j: nat, k: nat)
    requires j < |p.segs| && 0 < k < |SegBytes(p.segs[j])|
    ensures var n := 1 + |Flat(p.segs[..j])| + k;
            && n < |PacketBytes(p)| && PacketBytes(p)[..n][1..] == Flat(p.segs[..j]) + SegBytes(p.segs[j])[..k]
  {
    hide SegBytes, Flat;
    var init, g, rest := p.segs[..j], p.segs[j], p.segs[j + 1..];
    assert p.segs == init + [g] + rest;
    FlatConcat(init + [g], rest);
    FlatConcat(init, [g]);
    FlatSingle(g);
    HeaderFirst(p);
    hide PacketBytes;
    Taken(p.header, Flat(init), SegBytes(g), Flat(rest), k);
  }

  lemma Taken(h: byte, a: seq<byte>, b: seq<byte>, c: seq<byte>, k: nat)
    requires 0 < k < |b|
    ensures ([h] + (a + b + c))[..1 + |a| + k][1..] == a + b[..k]
  {
  }

  lemma HeaderFirst(p: Packet)
    requires p.segs != []
    ensures PacketBytes(p) == [p.header] + Flat(p.segs)
  {
  }

  lemma {:induction false} Prefix(d: Dec, segs: seq<Seg>, j: nat)
    requires GoodAll(d, segs) && j < |segs|
    ensures GoodAll(d, segs[..j]) && GoodSeg(DecAfter(d, segs[..j]), segs[j])
    decreases |segs|
  {
    hide GoodSeg, NextDec;
    if j < |segs| - 1 {
      Prefix(d, segs[..|segs| - 1], j);
      assert segs[..|segs| - 1][..j] == segs[..j];
    } else {
      assert segs[..j] == segs[..|segs| - 1];
    }
  }

  lemma CutStart(p: Packet, pkt: seq<byte>)
    requires WfPacket(p) && p.segs != [] && 2 <= |pkt| && pkt <= PacketBytes(p)
    ensures DecodePacket(pkt) == Decode(Start(p), pkt[1..])
  {
    hide Decode;
    FlatHead(p.segs);
    var g := p.segs[0];
    assert WfSeg(g);
    assert |SegBytes(g)| > 0;
    assert pkt[0] == p.header && pkt[1] == PacketBytes(p)[1] == SegBytes(g)[0];
    assert IsData(pkt[1]) == StartsWithData(g);
  }

  /** Bytes at which the decoder stops at once, whatever follows. */
  predicate StopsAt(d: Dec, s: seq<byte>) {
    && s != []
    && if |s| == 1 then !d.sysex || !IsData(s[0])
       else if IsData(s[0]) then !d.sysex && (!IsData(s[1]) || !d.channel)
       else if IsData(s[1]) then d.running == 0
       else d.sysex && !IsRealTime(s[1]) && s[1] != 0xF7
  }

  lemma Stopped(d: Dec, s: seq<byte>)
    requires StopsAt(d, s)
    ensures Decode(d, s) == DecOut([], |s|, |s| == 1 || !IsData(s[1]))
  {
  }

  /** Behind good segments: a last byte on its own, a data byte before a status byte, and a status byte in the middle
      of a system exclusive message keep the decoder in its loop for ever; data without a status byte ends the packet,
      and all of it is left over. */
  lemma GoesOnBadly(p: Packet, rest: seq<byte>)
    requires GoodPacket(p) && p.segs != [] && StopsAt(DecAfter(Start(p), p.segs), rest)
    ensures var forever := |rest| == 1 || !IsData(rest[1]);
            DecodePacket(PacketBytes(p) + rest) == Pre(TokensOf(Start(p), p.segs), DecOut([], |rest|, forever))
  {
    hide Decode, GoodSeg, NextDec, SegTime, StopsAt, WfSeg, Flat, PacketBytes, TokensOf, GoodAll, DecAfter, Start;
    hide DecodePacket, SolosChain;
    HeaderFirst(p);
    var pkt := PacketBytes(p) + rest;
    assert pkt[1..] == Flat(p.segs) + rest;
    LongStart(p, pkt);
    DecodeAll(Start(p), p.segs, rest);
    Stopped(DecAfter(Start(p), p.segs), rest);
    assert rest != [] by { NotEmpty(DecAfter(Start(p), p.segs), rest); }
  }

  lemma NotEmpty(d: Dec, s: seq<byte>)
    requires StopsAt(d, s)
    ensures s != []
  {
  }

  lemma LongStart(p: Packet, pkt: seq<byte>)
    requires WfPacket(p) && p.segs != [] && PacketBytes(p) <= pkt
    ensures DecodePacket(pkt) == Decode(Start(p), pkt[1..])
  {
    hide Decode;
    FlatHead(p.segs);
    var g := p.segs[0];
    assert WfSeg(g);
    assert |SegBytes(g)| > 0;
    assert pkt[0] == p.header && pkt[1] == PacketBytes(p)[1] == SegBytes(g)[0];
    assert IsData(pkt[1]) == StartsWithData(g);
  }

  /** What does not begin with a header and a byte behind it is left alone. */
  lemma NotAPacket(pkt: seq<byte>)
    requires |pkt| < 2 || pkt[0] / 64 != 2
    ensures DecodePacket(pkt) == DecOut([], |pkt|, false)
  {
  }
}
