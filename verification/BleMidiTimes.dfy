/** Timestamps across the BLE-MIDI codec. */
module BleMidiTimes {
  import opened Bytes
  import opened BleMidi
  import opened BleMidiEncoding
  import opened BleMidiDecoding
  import opened BleMidiSegments
  import opened BleMidiRoundTrip

  // Decoding of times

  function StampByte(g: Seg): Option<byte> {
    match g
    case Status(ts, _, _) => Some(ts)
    case Run(stamp, _, _) => stamp
    case Cont(stamp, _) => stamp
  }

  /** The last low time byte, 0 if there is none. */
  function LastLow(segs: seq<Seg>): byte {
    if segs == [] then 0
    else
      var o := StampByte(segs[|segs| - 1]);
      if o.Some? then o.value else LastLow(segs[..|segs| - 1])
  }

  /** How often the low time byte decreases. */
  function Drops(segs: seq<Seg>): nat {
    if segs == [] then 0
    else
      var init, o := segs[..|segs| - 1], StampByte(segs[|segs| - 1]);
      Drops(init) + Bit(o.Some? && LastLow(init) > o.value, 1)
  }

  predicate NeverDecreases(segs: seq<Seg>) {
    forall i, j :: 0 <= i < j < |segs| && StampByte(segs[i]).Some? && StampByte(segs[j]).Some? ==>
      StampByte(segs[i]).value <= StampByte(segs[j]).value
  }

  lemma {:induction false} DropsNone(segs: seq<Seg>)
    ensures Drops(segs) == 0 <==> NeverDecreases(segs)
    ensures NeverDecreases(segs) ==>
              forall i :: 0 <= i < |segs| && StampByte(segs[i]).Some? ==> StampByte(segs[i]).value <= LastLow(segs)
    ensures LastLow(segs) != 0 ==> exists i :: 0 <= i < |segs| && StampByte(segs[i]) == Some(LastLow(segs))
  {
    hide StampByte;
    if segs != [] {
      var init, n := segs[..|segs| - 1], |segs| - 1;
      DropsNone(init);
      assert forall i :: 0 <= i < n ==> init[i] == segs[i];
      if LastLow(init) != 0 {
        var i :| 0 <= i < |init| && StampByte(init[i]) == Some(LastLow(init));
        assert StampByte(segs[i]) == Some(LastLow(init));
      }
    }
  }

  /** The time the decoder makes of a low byte after some decreases of it. */
  function Read(header: byte, drops: nat, low: byte): nat {
    BitOr(header % 64 * 128 + drops, low % 128)
  }

  lemma Pow2Of7()
    ensures Pow2(7) == 128
  {
    assert Pow2(4) == 16;
  }

  lemma OrDigits(high: nat, a: nat, low: nat)
    requires a < 128 && low < 128
    ensures BitOr(high * 128 + a, low) == high * 128 + BitOr(a, low) && BitOr(a, low) < 128
  {
    hide BitOr;
    Pow2Of7();
    BitOrSplit(high, 7, a, low);
  }

  lemma OrReference(h: nat, drops: nat, low: nat)
    requires low < 128
    ensures BitOr(h * 128 + drops, low) == (h + drops) * 128 + low <==> drops == 0
  {
    hide BitOr;
    if drops == 0 {
      OrDigits(h, 0, low);
    }
  }

  /** The time a reference clock shows, which adds 128 where the decoder adds 1. They agree as long
      as the low byte has not decreased. */
  lemma ReadIsReference(header: byte, drops: nat, low: byte)
    ensures Read(header, drops, low) == (header % 64 + drops) * 128 + low % 128 <==> drops == 0
  {
    hide BitOr;
    OrReference(header % 64, drops, low % 128);
  }

  lemma OrExactly(h: nat, q: nat, r: nat, high: nat, low: nat)
    requires r < 128 && low < 128
    ensures BitOr(h * 128 + (q * 128 + r), low) == high * 128 + low <==> high == h + q && BitOr(r, low) == low
  {
    hide BitOr;
    OrDigits(h + q, r, low);
    assert h * 128 + (q * 128 + r) == (h + q) * 128 + r;
  }

  lemma LowDigits(t: nat)
    ensures t == t / 128 * 128 + t % 128 && Low(t) % 128 == t % 128
  {
  }

  /** Any other 13-bit time is read exactly if its high bits are those of the header and the number of
      decreases is hidden in its low bits. */
  lemma ReadExactly(header: byte, drops: nat, t: nat)
    requires t < 0x2000
    ensures Read(header, drops, Low(t)) == t <==>
              t / 128 == header % 64 + drops / 128 && BitOr(drops % 128, t % 128) == t % 128
  {
    hide BitOr, Low;
    LowDigits(t);
    LowDigits(drops);
    OrExactly(header % 64, drops / 128, drops % 128, t / 128, t % 128);
  }

  lemma {:induction false} ClockAfter(d: Dec, segs: seq<Seg>)
    requires GoodAll(d, segs) && d.prevLsb == 0
    ensures DecAfter(d, segs).msb == d.msb + Drops(segs) && DecAfter(d, segs).prevLsb == LastLow(segs)
  {
    hide BitOr;
    if segs != [] {
      ClockAfter(d, segs[..|segs| - 1]);
    }
  }

  lemma {:induction false} GoodBefore(d: Dec, segs: seq<Seg>, n: nat)
    requires GoodAll(d, segs) && n <= |segs|
    ensures GoodAll(d, segs[..n])
    decreases |segs|
  {
    hide GoodSeg, DecAfter;
    if n < |segs| {
      GoodBefore(d, segs[..|segs| - 1], n);
      assert segs[..|segs| - 1][..n] == segs[..n];
    } else {
      assert segs[..n] == segs;
    }
  }

  lemma ReadStep(d: Dec, g: Seg, header: byte, drops: nat)
    requires StampByte(g).Some? && !g.Cont? && d.msb == header % 64 * 128 + drops
    ensures SegTime(d, g) == Read(header, drops + Bit(d.prevLsb > StampByte(g).value, 1), StampByte(g).value)
  {
    hide BitOr;
  }

  lemma StampedKind(d: Dec, segs: seq<Seg>, j: nat)
    requires GoodAll(d, segs) && j < |segs| && StampByte(segs[j]).Some?
    ensures !segs[j].Cont?
  {
    GoodBefore(d, segs, j + 1);
    hide DecAfter;
    assert segs[..j + 1][..j] == segs[..j];
    assert GoodSeg(DecAfter(d, segs[..j]), segs[j]);
  }

  /** The time decoded for a segment with a time byte. */
  lemma StampRead(p: Packet, j: nat)
    requires GoodPacket(p) && j < |p.segs| && StampByte(p.segs[j]).Some?
    ensures SegTime(DecAfter(Start(p), p.segs[..j]), p.segs[j])
            == Read(p.header, Drops(p.segs[..j + 1]), StampByte(p.segs[j]).value)
  {
    hide BitOr, SegTime, Read, StampByte, GoodAll, DecAfter, WfPacket;
    GoodBefore(Start(p), p.segs, j);
    ClockAfter(Start(p), p.segs[..j]);
    StampedKind(Start(p), p.segs, j);
    ReadStep(DecAfter(Start(p), p.segs[..j]), p.segs[j], p.header, Drops(p.segs[..j]));
    assert p.segs[..j + 1][..j] == p.segs[..j];
  }

  /** In any good packet at all, the times decoded are those of the reference clock if and only if the
      low time byte never decreases. */
  lemma TimesExactIffSteady(p: Packet)
    requires GoodPacket(p)
    ensures (forall j :: 0 <= j < |p.segs| && StampByte(p.segs[j]).Some? ==>
               SegTime(DecAfter(Start(p), p.segs[..j]), p.segs[j])
               == (p.header % 64 + Drops(p.segs[..j + 1])) * 128 + StampByte(p.segs[j]).value % 128)
            <==> NeverDecreases(p.segs)
  {
    hide SegTime, DecAfter, Read, GoodPacket, NeverDecreases, Drops;
    forall j | 0 <= j < |p.segs| && StampByte(p.segs[j]).Some?
      ensures SegTime(DecAfter(Start(p), p.segs[..j]), p.segs[j])
              == (p.header % 64 + Drops(p.segs[..j + 1])) * 128 + StampByte(p.segs[j]).value % 128
              <==> Drops(p.segs[..j + 1]) == 0
    {
      StampRead(p, j);
      ReadIsReference(p.header, Drops(p.segs[..j + 1]), StampByte(p.segs[j]).value);
    }
    DropsNone(p.segs);
    DropsWhere(p.segs);
  }

  /** The low byte decreases somewhere exactly if it has decreased at some time byte. */
  lemma {:induction false} DropsWhere(segs: seq<Seg>)
    ensures Drops(segs) == 0 <==>
              forall j :: 0 <= j < |segs| && StampByte(segs[j]).Some? ==> Drops(segs[..j + 1]) == 0
    ensures forall j :: 0 <= j <= |segs| ==> Drops(segs[..j]) <= Drops(segs)
  {
    if segs != [] {
      var init, n := segs[..|segs| - 1], |segs| - 1;
      DropsWhere(init);
      forall j | 0 <= j <= |segs|
        ensures Drops(segs[..j]) <= Drops(segs)
        ensures j <= n ==> segs[..j] == init[..j]
      {
        assert j <= n ==> segs[..j] == init[..j];
        assert j == |segs| ==> segs[..j] == segs;
      }
      forall j | 0 <= j < n
        ensures segs[..j + 1] == init[..j + 1] && segs[j] == init[j]
      {
      }
      assert segs[..n + 1] == segs;
    }
  }

  // Payload of system exclusive messages

  /** The last segment with a time byte, real-time messages apart; -1 if there is none. */
  function LastTimed(segs: seq<Seg>): (i: int)
    ensures -1 <= i < |segs|
  {
    if segs == [] then -1
    else
      var g := segs[|segs| - 1];
      if StampByte(g).Some? && !(g.Status? && IsRealTime(g.status)) then |segs| - 1 else LastTimed(segs[..|segs| - 1])
  }

  /** Payload has the time of the 0xF0 before it, whatever real-time messages come in between, and time 0 if that is
      in an earlier packet. */
  lemma {:induction false} PayloadTime(d: Dec, segs: seq<Seg>)
    requires GoodAll(d, segs) && d.ts == 0
    ensures DecAfter(d, segs).sysex ==>
              var i := LastTimed(segs);
              && (i >= 0 ==> segs[i].Status? && segs[i].status == 0xF0)
              && DecAfter(d, segs).ts == if i >= 0 then SegTime(DecAfter(d, segs[..i]), segs[i]) else 0
  {
    hide BitOr;
    if segs != [] {
      var init := segs[..|segs| - 1];
      PayloadTime(d, init);
      if LastTimed(init) >= 0 {
        assert init[..LastTimed(init)] == segs[..LastTimed(init)];
      }
    }
  }

  // Packets whose messages have given times

  /** A segment of one message, outside of system exclusive messages. */
  predicate OneMessage(g: Seg) {
    match g
    case Status(_, b, _) => NoSysex(b)
    case Run(_, _, _) => true
    case Cont(_, _) => false
  }

  predicate NoSysex(b: byte) {
    b != 0xF0 && b != 0xF7
  }

  /** Message number `i` of the packet has the 13-bit time `times[i]`, and the packet is stamped
      accordingly. */
  predicate StampedBy(p: Packet, times: seq<nat>) {
    && |times| == |p.segs|
    && (p.segs != [] ==> p.header == Header(times[0]))
    && forall j :: 0 <= j < |p.segs| ==>
         && OneMessage(p.segs[j]) && times[j] < 0x2000
         && (StampByte(p.segs[j]).Some? ==> StampByte(p.segs[j]).value == Low(times[j]))
  }

  /** The last message is read with its own time: with a time byte if its high bits are those of the
      header and decreases are hidden in its low bits, without one if it has the time of the message
      before it. */
  predicate LastFaithful(segs: seq<Seg>, times: seq<nat>)
    requires |times| == |segs| > 0
  {
    var n, t := Drops(segs), times[|times| - 1];
    if StampByte(segs[|segs| - 1]).Some? then
      t / 128 == times[0] / 128 + n / 128 && BitOr(n % 128, t % 128) == t % 128
    else |times| > 1 && t == times[|times| - 2]
  }

  predicate Faithful(segs: seq<Seg>, times: seq<nat>)
    requires |times| == |segs|
  {
    segs != [] ==> Faithful(segs[..|segs| - 1], times[..|segs| - 1]) && LastFaithful(segs, times)
  }

  function SegTimes(d: Dec, segs: seq<Seg>): (r: seq<nat>)
    ensures |r| == |segs|
  {
    if segs == [] then []
    else
      var init := segs[..|segs| - 1];
      SegTimes(d, init) + [SegTime(DecAfter(d, init), segs[|segs| - 1])]
  }

  function TimesOf(toks: seq<Stamped>): (r: seq<nat>)
    ensures |r| == |toks|
  {
    seq(|toks|, i requires 0 <= i < |toks| => toks[i].ts)
  }

  /** Outside of system exclusive messages every segment is one message. */
  lemma {:induction false} TokenTimes(d: Dec, segs: seq<Seg>)
    requires forall j :: 0 <= j < |segs| ==> OneMessage(segs[j])
    ensures TimesOf(TokensOf(d, segs)) == SegTimes(d, segs)
  {
    hide SegTime, DecAfter;
    if segs != [] {
      var init, g := segs[..|segs| - 1], segs[|segs| - 1];
      TokenTimes(d, init);
      assert OneMessage(g);
      OneToken(g, SegTime(DecAfter(d, init), g));
    }
  }

  lemma OneToken(g: Seg, ts: nat)
    requires OneMessage(g)
    ensures |StampAll(SegEvents(g), ts)| == 1 && StampAll(SegEvents(g), ts)[0].ts == ts
  {
  }

  /** After a channel message the decoder still has its time. */
  lemma {:induction false} ChannelTime(d: Dec, segs: seq<Seg>)
    requires !d.sysex && !d.channel && GoodAll(d, segs) && forall j :: 0 <= j < |segs| ==> OneMessage(segs[j])
    ensures !DecAfter(d, segs).sysex
    ensures DecAfter(d, segs).channel ==> segs != [] && DecAfter(d, segs).ts == SegTimes(d, segs)[|segs| - 1]
  {
    hide StampOf;
    if segs != [] {
      assert OneMessage(segs[|segs| - 1]);
      ChannelTime(d, segs[..|segs| - 1]);
    }
  }

  /** The time decoded next, from what was decoded before. */
  lemma TimeNext(d: Dec, header: byte, segs: seq<Seg>)
    requires segs != [] && d == Opening(header, false) && GoodAll(d, segs)
    requires forall j :: 0 <= j < |segs| ==> OneMessage(segs[j])
    ensures var init, g := segs[..|segs| - 1], segs[|segs| - 1];
            SegTime(DecAfter(d, init), g)
            == if StampByte(g).Some? then Read(header, Drops(segs), StampByte(g).value)
               else if init == [] then 0 else SegTimes(d, init)[|init| - 1]
  {
    hide BitOr, NextDec;
    var init, g := segs[..|segs| - 1], segs[|segs| - 1];
    assert forall j :: 0 <= j < |init| ==> init[j] == segs[j];
    assert OneMessage(g);
    ChannelTime(d, init);
    ClockAfter(d, init);
    hide DecAfter, SegTimes, LastLow;
  }

  /** The last message of a packet is decoded with its time exactly if it is faithful, provided that
      those before it are. */
  lemma LastTimeExact(d: Dec, header: byte, segs: seq<Seg>, times: seq<nat>)
    requires segs != [] && StampedBy(Packet(header, segs), times) && d == Opening(header, false) && GoodAll(d, segs)
    requires SegTimes(d, segs[..|segs| - 1]) == times[..|segs| - 1]
    ensures SegTime(DecAfter(d, segs[..|segs| - 1]), segs[|segs| - 1]) == times[|segs| - 1] <==> LastFaithful(segs, times)
  {
    TimeNext(d, header, segs);
    FirstStamped(d, segs);
    HeaderHigh(times[0]);
    ReadExactly(header, Drops(segs), times[|segs| - 1]);
    hide GoodAll, SegTime, DecAfter, Drops, BitOr, Read, OneMessage, StampByte, SegTimes;
    var init := segs[..|segs| - 1];
    if init != [] {
      assert SegTimes(d, init)[|init| - 1] == times[|segs| - 2];
    }
  }

  /** The first message of a packet has a time byte. */
  lemma FirstStamped(d: Dec, segs: seq<Seg>)
    requires segs != [] && !d.channel && GoodAll(d, segs) && OneMessage(segs[0])
    ensures |segs| == 1 ==> StampByte(segs[0]).Some?
  {
  }

  lemma HeaderHigh(t: nat)
    requires t < 0x2000
    ensures Header(t) % 64 == t / 128
  {
  }

  lemma {:induction false} SegTimesExact(header: byte, segs: seq<Seg>, times: seq<nat>)
    requires StampedBy(Packet(header, segs), times) && GoodAll(Opening(header, false), segs)
    ensures SegTimes(Opening(header, false), segs) == times <==> Faithful(segs, times)
  {
    hide LastFaithful, DecAfter, SegTime, GoodSeg, Header, OneMessage, StampByte;
    if segs != [] {
      var d, init, before := Opening(header, false), segs[..|segs| - 1], times[..|segs| - 1];
      assert StampedBy(Packet(header, init), before) by {
        assert forall j :: 0 <= j < |init| ==> init[j] == segs[j] && before[j] == times[j];
      }
      SegTimesExact(header, init, before);
      if SegTimes(d, init) == before {
        LastTimeExact(d, header, segs, times);
        assert times == before + [times[|segs| - 1]];
      } else {
        assert SegTimes(d, segs)[..|segs| - 1] == SegTimes(d, init);
      }
    }
  }

  /** The times decoded from a good packet without system exclusive data. */
  lemma PacketTimes(p: Packet)
    requires GoodPacket(p) && p.segs != [] && forall j :: 0 <= j < |p.segs| ==> OneMessage(p.segs[j])
    ensures TimesOf(DecodePacket(PacketBytes(p)).toks) == SegTimes(Start(p), p.segs)
    ensures Start(p) == Opening(p.header, false)
  {
    hide DecodePacket, GoodAll, TokensOf, SegTimes;
    DecodeGoodPacket(p);
    assert OneMessage(p.segs[0]) && WfSeg(p.segs[0]);
    assert !StartsWithData(p.segs[0]);
    TokenTimes(Start(p), p.segs);
  }

  /** Every message of a good packet is decoded with its own time if and only if the packet is
      faithful. */
  lemma PacketTimesExact(p: Packet, times: seq<nat>)
    requires GoodPacket(p) && p.segs != [] && StampedBy(p, times)
    ensures TimesOf(DecodePacket(PacketBytes(p)).toks) == times <==> Faithful(p.segs, times)
  {
    hide DecodePacket, GoodAll, SegTimes, Faithful, PacketBytes;
    PacketTimes(p);
    SegTimesExact(p.header, p.segs, times);
  }

  // The times of a call's messages

  /** When the message under way began, after a byte received at `t`. */
  function BegunAfter(p: Parse, begun: nat, b: byte, t: nat): nat {
    if IsRealTime(b) || (IsData(b) && (p.InChannel? || p.InCommon?)) then begun else t
  }

  /** The times of what the byte completes: a message has the time at which it began. */
  function TimesOfByte(p: Parse, begun: nat, b: byte, t: nat): (r: seq<nat>)
    ensures |r| == |ParseByte(p, b).1|
  {
    if ParseByte(p, b).1 == [] then []
    else [if IsRealTime(b) then t else BegunAfter(p, begun, b, t)]
  }

  function BegunStream(p: Parse, begun: nat, s: seq<byte>, t: nat): nat
    decreases |s|
  {
    if s == [] then begun else BegunStream(ParseByte(p, s[0]).0, BegunAfter(p, begun, s[0], t), s[1..], t)
  }

  function TimesOfStream(p: Parse, begun: nat, s: seq<byte>, t: nat): (r: seq<nat>)
    ensures |r| == |ParseStream(p, s).1|
    decreases |s|
  {
    if s == [] then []
    else
      TimesOfByte(p, begun, s[0], t)
      + TimesOfStream(ParseByte(p, s[0]).0, BegunAfter(p, begun, s[0], t), s[1..], t)
  }

  function BegunRun(p: Parse, begun: nat, calls: seq<Call>): nat
    decreases |calls|
  {
    if calls == [] then begun
    else BegunRun(ParseStream(p, calls[0].stream).0, BegunStream(p, begun, calls[0].stream, calls[0].t), calls[1..])
  }

  /** The message under assembly carries the time at which it began. */
  predicate KnowsTime(e: Enc, p: Parse, begun: nat) {
    p.InChannel? || p.InCommon? ==> e.mes.ts == begun
  }

  lemma StepKnowsTime(e: Enc, p: Parse, b: byte, t: nat, begun: nat)
    requires Mirrors(e, p) && Legal(p, b) && t < 0x2000 && KnowsTime(e, p, begun)
    ensures KnowsTime(Step(e, b, t).e, ParseByte(p, b).0, BegunAfter(p, begun, b, t))
  {
    hide Encode, Bounded;
  }

  lemma {:induction false} LoopKnowsTime(wire: seq<Packet>, e: Enc, p: Parse, ref: seq<Event>,
                                         stream: seq<byte>, i: nat, t: nat, begun: nat)
    requires Inv(wire, e, p, ref) && KnowsTime(e, p, begun) && t < 0x2000 && i <= |stream| && LegalStream(p, stream[i..])
    ensures KnowsTime(Loop(e, stream, i, t).e, ParseStream(p, stream[i..]).0, BegunStream(p, begun, stream[i..], t))
    decreases |stream| - i
  {
    hide Step, Loop, Legal, ParseByte, ParseStream, LegalStream, Safe, PacketLen, KnowsTime, OutInv, OutEvents;
    InvSafe(wire, e, p, ref);
    LoopTurn(e, stream, i, t);
    StreamTurn(p, stream, i);
    if i < |stream| {
      var b := stream[i];
      StepKnowsTime(e, p, b, t, begun);
      StepInv(wire, e, p, ref, b, t);
      assert stream[i..][1..] == stream[i + 1..];
      LoopKnowsTime(wire, Step(e, b, t).e, ParseByte(p, b).0, ref + ParseByte(p, b).1, stream, i + 1, t,
                    BegunAfter(p, begun, b, t));
    }
  }

  lemma {:induction false} RunKnowsTime(wire: seq<Packet>, e: Enc, p: Parse, ref: seq<Event>, calls: seq<Call>, begun: nat)
    requires Inv(wire, e, p, ref) && e.out.pkt.segs == [] && KnowsTime(e, p, begun)
    requires Timed(calls) && LegalRun(p, calls)
    ensures Safe(e) && KnowsTime(RunCalls(e, wire, calls).0, ParseRun(p, calls).0, BegunRun(p, begun, calls))
    decreases |calls|
  {
    hide Loop, OutInv, OutEvents, Bounded, Inv, Safe, ParseStream, BegunStream;
    InvSafe(wire, e, p, ref);
    if calls != [] {
      var c := calls[0];
      assert c.stream[0..] == c.stream;
      LoopKnowsTime(wire, e, p, ref, c.stream, 0, c.t, begun);
      PushInv(wire, e, p, ref, c);
      var r := Push(e, c.stream, c.t).e;
      var p1, evs := ParseStream(p, c.stream).0, ParseStream(p, c.stream).1;
      DrainInv(wire, r, p1, ref + evs, c.taken);
      RunKnowsTime(wire + Taken(r, c.taken), Drain(r, c.taken), p1, ref + evs, calls[1..], BegunStream(p, begun, c.stream, c.t));
    }
  }

  // Encoding of times

  function Before(ps: seq<Packet>, n: nat): nat
    requires n <= |ps|
  {
    if n == 0 then 0 else Before(ps, n - 1) + |ps[n - 1].segs|
  }

  /** The times of the messages in packet number `i`. */
  function Share(ps: seq<Packet>, times: seq<nat>, i: nat): (r: seq<nat>)
    requires i < |ps|
    ensures Before(ps, i + 1) <= |times| ==> |r| == |ps[i].segs|
  {
    if Before(ps, i + 1) <= |times| then times[Before(ps, i)..Before(ps, i + 1)] else []
  }

  /** The messages in the packets have the given times, one after the other. */
  predicate AllStamped(ps: seq<Packet>, times: seq<nat>) {
    && |times| == Before(ps, |ps|)
    && forall i :: 0 <= i < |ps| ==> StampedBy(ps[i], Share(ps, times, i))
  }

  lemma {:induction false} BeforeMonotone(ps: seq<Packet>, m: nat, n: nat)
    requires m <= n <= |ps|
    ensures Before(ps, m) <= Before(ps, n)
    decreases n
  {
    if m < n {
      BeforeMonotone(ps, m, n - 1);
    }
  }

  lemma {:induction false} BeforeSame(ps: seq<Packet>, qs: seq<Packet>, n: nat)
    requires n <= |ps| && n <= |qs| && forall i :: 0 <= i < n ==> |ps[i].segs| == |qs[i].segs|
    ensures Before(ps, n) == Before(qs, n)
    decreases n
  {
    if n > 0 {
      BeforeSame(ps, qs, n - 1);
    }
  }

  /** An empty packet says nothing. */
  lemma StampedEmpty(ps: seq<Packet>, p: Packet, times: seq<nat>)
    requires p.segs == []
    ensures AllStamped(ps + [p], times) == AllStamped(ps, times)
  {
    hide Before, StampedBy;
    var qs := ps + [p];
    forall n | 0 <= n <= |ps| ensures Before(qs, n) == Before(ps, n) {
      BeforeSame(ps, qs, n);
    }
    BeforeLast(qs);
    EmptyStamped(p);
    assert forall i :: 0 <= i < |ps| ==> Share(qs, times, i) == Share(ps, times, i) && qs[i] == ps[i];
    if |times| == Before(ps, |ps|) {
      assert Share(qs, times, |ps|) == [];
    }
  }

  lemma BeforeLast(ps: seq<Packet>)
    requires ps != []
    ensures Before(ps, |ps|) == Before(ps, |ps| - 1) + |ps[|ps| - 1].segs|
  {
  }

  lemma EmptyStamped(p: Packet)
    requires p.segs == []
    ensures StampedBy(p, [])
  {
  }

  /** A message is added to the last packet. */
  lemma StampedEmit(ps: seq<Packet>, p: Packet, g: Seg, times: seq<nat>, t: nat)
    requires AllStamped(ps + [p], times) && t < 0x2000 && OneMessage(g)
    requires StampByte(g).Some? ==> StampByte(g).value == Low(t)
    ensures AllStamped(ps + [Emit(p, Header(t), g)], times + [t])
  {
    hide Before, StampedBy, OneMessage;
    var q := Emit(p, Header(t), g);
    var ps1, ps2, times' := ps + [p], ps + [q], times + [t];
    forall n | 0 <= n <= |ps| ensures Before(ps1, n) == Before(ps2, n) <= |times| {
      BeforeSame(ps1, ps2, n);
      BeforeMonotone(ps1, n, |ps1|);
    }
    BeforeLast(ps1);
    BeforeLast(ps2);
    forall i | 0 <= i < |ps| ensures StampedBy(ps2[i], Share(ps2, times', i)) {
      BeforeMonotone(ps1, i, i + 1);
      assert Share(ps2, times', i) == Share(ps1, times, i);
      assert StampedBy(ps1[i], Share(ps1, times, i));
    }
    var last := Share(ps1, times, |ps|);
    assert Share(ps2, times', |ps|) == last + [t];
    assert StampedBy(ps1[|ps|], last);
    StampedMore(p, last, g, t);
  }

  lemma StampedMore(p: Packet, times: seq<nat>, g: Seg, t: nat)
    requires StampedBy(p, times) && t < 0x2000 && OneMessage(g)
    requires StampByte(g).Some? ==> StampByte(g).value == Low(t)
    ensures StampedBy(Emit(p, Header(t), g), times + [t])
  {
    hide OneMessage, StampByte;
  }

  /** While no packet is lost, those ready behind the first `n` and the one under construction have the
      given times. */
  predicate OutStamped(o: Out, n: nat, times: seq<nat>) {
    o.lost == 0 ==> n <= |o.queue| && AllStamped(o.queue[n..] + [o.pkt], times)
  }

  lemma SealStamped(o: Out, n: nat, times: seq<nat>)
    requires OutStamped(o, n, times)
    ensures OutStamped(Seal(o), n, times)
  {
    hide AllStamped;
    if Seal(o).lost == 0 {
      assert Seal(o).queue[n..] == o.queue[n..] + [o.pkt];
      StampedEmpty(o.queue[n..] + [o.pkt], EMPTY, times);
    }
  }

  lemma EmitOutStamped(o: Out, g: Seg, n: nat, times: seq<nat>, t: nat)
    requires OutStamped(o, n, times) && t < 0x2000 && OneMessage(g)
    requires StampByte(g).Some? ==> StampByte(g).value == Low(t)
    ensures OutStamped(o.(pkt := Emit(o.pkt, Header(t), g)), n, times + [t])
  {
    hide AllStamped, OneMessage, StampByte;
    if o.lost == 0 {
      StampedEmit(o.queue[n..], o.pkt, g, times, t);
    }
  }

  lemma EncodeMessageStamped(o: Out, m: Message, prevTs: nat, n: nat, times: seq<nat>)
    requires OutStamped(o, n, times) && IsMessage(m) && m.tag.count > 0 && m.ts < 0x2000
    requires !m.tag.sysex && NoSysex(m.bytes[0])
    ensures OutStamped(EncodeMessage(o, m, prevTs), n, times + [m.ts])
  {
    hide Hazard, NeedsStamp, Overflows, PacketLen, OutStamped;
    SealStamped(o, n, times);
    EmitOutStamped(Prepared(o, m, prevTs), NewSeg(o, m, prevTs), n, times, m.ts);
    SameStamped(Prepared(o, m, prevTs).(pkt := Emit(Prepared(o, m, prevTs).pkt, Header(m.ts), NewSeg(o, m, prevTs))),
                EncodeMessage(o, m, prevTs), n, times + [m.ts]);
  }

  lemma SameStamped(o: Out, o': Out, n: nat, times: seq<nat>)
    requires OutStamped(o, n, times) && o'.lost == o.lost && o'.queue == o.queue && o'.pkt == o.pkt
    ensures OutStamped(o', n, times)
  {
  }

  lemma EncodeStamped(e: Enc, n: nat, times: seq<nat>)
    requires OutStamped(e.out, n, times) && IsMessage(e.mes) && Ordered(e.mes.tag) && e.rt == [] && Bounded(e.out)
    requires e.mes.tag.count > 0 && e.mes.ts < 0x2000 && !e.mes.tag.sysex && NoSysex(e.mes.bytes[0])
    ensures Encode(e) == e.(out := Encode(e).out) && OutStamped(Encode(e).out, n, times + [e.mes.ts])
  {
    hide EncodeMessage, OutStamped, Bounded, Encode;
    EncodeBounded(e);
    EncodeMessageStamped(e.out, e.mes, e.prevTs, n, times);
  }

  lemma RealTimeStamped(o: Out, b: byte, t: nat, n: nat, times: seq<nat>)
    requires OutStamped(o, n, times) && IsRealTime(b) && t < 0x2000
    ensures OutStamped(FlushOne(o, [(b, t)], 0), n, times + [t])
  {
    hide PacketLen, OutStamped;
    SealStamped(o, n, times);
    var o1 := if PacketLen(o.pkt) + 2 >= o.mtu then Seal(o) else o;
    EmitOutStamped(o1, Status(Low(t), b, []), n, times, t);
    SameStamped(o1.(pkt := Emit(o1.pkt, Header(t), Status(Low(t), b, []))), FlushOne(o, [(b, t)], 0), n, times + [t]);
  }

  /** Every byte outside of system exclusive messages stamps what it completes with the time at which
      that began. */
  lemma StepStamped(e: Enc, p: Parse, b: byte, t: nat, begun: nat, n: nat, times: seq<nat>)
    requires Mirrors(e, p) && Legal(p, b) && NoSysex(b) && !p.InSysex? && t < 0x2000 && begun < 0x2000
    requires KnowsTime(e, p, begun) && OutStamped(e.out, n, times)
    ensures OutStamped(Step(e, b, t).e.out, n, times + TimesOfByte(p, begun, b, t))
  {
    hide Encode, EncodeMessage, Bounded, OutStamped;
    assert times + [] == times;
    if IsRealTime(b) {
      RealTimeSafe(e, b, t);
      RealTimeStamped(e.out, b, t, n, times);
    } else if b > 0xF0 {
      if CommonLen(b) == 1 {
        EncodeStamped(e.(prevTs := t, running := 0, mes := Message(Plain(1), e.mes.bytes[0 := b], t)), n, times);
      }
    } else if IsData(b) {
      if e.mes.tag.channel && e.idx == 0 {
        if e.mes.tag.count == 2 {
          EncodeStamped(e.(mes := e.mes.(bytes := e.mes.bytes[1 := b], ts := t), idx := 2), n, times);
        }
      } else if e.idx + 1 == e.mes.tag.count {
        EncodeStamped(e.(mes := e.mes.(bytes := e.mes.bytes[e.idx := b]), idx := e.idx + 1), n, times);
      }
    }
  }

  lemma {:induction false} LoopStamped(wire: seq<Packet>, e: Enc, p: Parse, ref: seq<Event>,
                                       stream: seq<byte>, i: nat, t: nat, begun: nat, n: nat, times: seq<nat>)
    requires Inv(wire, e, p, ref) && KnowsTime(e, p, begun) && OutStamped(e.out, n, times) && !p.InSysex?
    requires t < 0x2000 && begun < 0x2000 && i <= |stream| && LegalStream(p, stream[i..])
    requires forall k :: i <= k < |stream| ==> NoSysex(stream[k])
    ensures OutStamped(Loop(e, stream, i, t).e.out, n, times + TimesOfStream(p, begun, stream[i..], t))
    decreases |stream| - i
  {
    hide Step, Loop, Legal, ParseStream, LegalStream, Safe, PacketLen, KnowsTime, OutInv, OutEvents, OutStamped;
    InvSafe(wire, e, p, ref);
    LoopTurn(e, stream, i, t);
    StreamTurn(p, stream, i);
    if i == |stream| {
      assert times + [] == times;
    } else {
      var b := stream[i];
      var p1, begun1, more := ParseByte(p, b).0, BegunAfter(p, begun, b, t), TimesOfByte(p, begun, b, t);
      StepKnowsTime(e, p, b, t, begun);
      StepStamped(e, p, b, t, begun, n, times);
      StepInv(wire, e, p, ref, b, t);
      assert stream[i..][1..] == stream[i + 1..];
      LoopStamped(wire, Step(e, b, t).e, p1, ref + ParseByte(p, b).1, stream, i + 1, t, begun1, n, times + more);
      assert times + (more + TimesOfStream(p1, begun1, stream[i + 1..], t))
             == (times + more) + TimesOfStream(p1, begun1, stream[i + 1..], t);
    }
  }

  lemma {:induction false} BegunBound(p: Parse, begun: nat, calls: seq<Call>)
    requires Timed(calls) && begun < 0x2000
    ensures BegunRun(p, begun, calls) < 0x2000
    decreases |calls|
  {
    hide ParseStream;
    if calls != [] {
      var c := calls[0];
      BegunStreamBound(p, begun, c.stream, c.t);
      BegunBound(ParseStream(p, c.stream).0, BegunStream(p, begun, c.stream, c.t), calls[1..]);
    }
  }

  lemma {:induction false} BegunStreamBound(p: Parse, begun: nat, s: seq<byte>, t: nat)
    requires begun < 0x2000 && t < 0x2000
    ensures BegunStream(p, begun, s, t) < 0x2000
    decreases |s|
  {
    hide ParseByte;
    if s != [] {
      BegunStreamBound(ParseByte(p, s[0]).0, BegunAfter(p, begun, s[0], t), s[1..], t);
    }
  }

  /** The times of a call's messages, by the reference parser. */
  function TimesOfCall(calls: seq<Call>, c: Call): seq<nat> {
    TimesOfStream(ParseRun(Idle, calls).0, BegunRun(Idle, 0, calls), c.stream, c.t)
  }

  /** The packets a call makes ready, behind those left from earlier calls. */
  function CallPackets(e: Enc, c: Call): seq<Packet>
    requires Safe(e) && c.t < 0x2000
  {
    var queue := Push(e, c.stream, c.t).e.out.queue;
    if |e.out.queue| <= |queue| then queue[|e.out.queue|..] else []
  }

  /** The packets of a call are stamped with the times at which its messages began. */
  lemma CallStampedFrom(wire: seq<Packet>, e: Enc, p: Parse, ref: seq<Event>, c: Call, begun: nat)
    requires Inv(wire, e, p, ref) && e.out.pkt.segs == [] && KnowsTime(e, p, begun) && begun < 0x2000
    requires !p.InSysex? && c.t < 0x2000 && LegalStream(p, c.stream)
    requires forall k :: 0 <= k < |c.stream| ==> NoSysex(c.stream[k])
    ensures Safe(e)
    ensures Push(e, c.stream, c.t).e.out.lost == 0 ==>
              AllStamped(CallPackets(e, c), TimesOfStream(p, begun, c.stream, c.t))
  {
    hide Loop, Bounded, OutInv, OutEvents, AllStamped, KnowsTime, TimesOfStream, Safe, OutStamped;
    InvSafe(wire, e, p, ref);
    NothingStamped(e.out);
    assert c.stream[0..] == c.stream;
    var n, times := |e.out.queue|, TimesOfStream(p, begun, c.stream, c.t);
    assert [] + times == times;
    LoopStamped(wire, e, p, ref, c.stream, 0, c.t, begun, n, []);
    SealStamped(Loop(e, c.stream, 0, c.t).e.out, n, times);
    PushInv(wire, e, p, ref, c);
    if Push(e, c.stream, c.t).e.out.lost == 0 {
      AllReady(Push(e, c.stream, c.t).e.out, n, times);
    }
  }

  lemma AllReady(o: Out, n: nat, times: seq<nat>)
    requires OutStamped(o, n, times) && o.pkt.segs == [] && o.lost == 0
    ensures n <= |o.queue| && AllStamped(o.queue[n..], times)
  {
    StampedEmpty(o.queue[n..], o.pkt, times);
  }

  lemma CallGood(wire: seq<Packet>, e: Enc, p: Parse, ref: seq<Event>, c: Call)
    requires Inv(wire, e, p, ref) && e.out.pkt.segs == [] && c.t < 0x2000 && LegalStream(p, c.stream)
    ensures Safe(e)
    ensures var (o, ps) := (Push(e, c.stream, c.t).e.out, CallPackets(e, c));
            o.lost == 0 && o.clean ==> forall i :: 0 <= i < |ps| ==> ps[i].segs != [] && GoodPacket(ps[i])
  {
    hide Push, OutEvents, GoodPacket, WfPacket, Mirrors, Safe, Link, DoomedQueue, Doomed;
    InvSafe(wire, e, p, ref);
    PushInv(wire, e, p, ref, c);
    var o, ps := Push(e, c.stream, c.t).e.out, CallPackets(e, c);
    if o.lost == 0 && o.clean {
      forall i | 0 <= i < |ps| ensures ps[i].segs != [] && GoodPacket(ps[i]) {
        assert ps[i] == Sent(wire, o)[|wire| + |e.out.queue| + i];
      }
    }
  }

  lemma CallStamped(mtu: nat, cap: nat, calls: seq<Call>, c: Call)
    requires mtu >= 6 && Timed(calls) && LegalRun(Idle, calls) && !ParseRun(Idle, calls).0.InSysex?
    requires c.t < 0x2000 && LegalStream(ParseRun(Idle, calls).0, c.stream)
    requires forall k :: 0 <= k < |c.stream| ==> NoSysex(c.stream[k])
    ensures var e := RunFrom(mtu, cap, calls).0;
            && Safe(e)
            && var (o, ps) := (Push(e, c.stream, c.t).e.out, CallPackets(e, c));
               && (o.lost == 0 ==> AllStamped(ps, TimesOfCall(calls, c)))
               && (o.lost == 0 && o.clean ==> forall i :: 0 <= i < |ps| ==> ps[i].segs != [] && GoodPacket(ps[i]))
  {
    hide RunCalls, Push, CallPackets, Inv, GoodPacket, AllStamped, KnowsTime, TimesOfStream, BegunRun, Safe;
    InitSafe(mtu, cap);
    InitInv(mtu, cap);
    RunInv([], Init(mtu, cap), Idle, [], calls);
    InitKnowsTime(mtu, cap);
    RunKnowsTime([], Init(mtu, cap), Idle, [], calls, 0);
    BegunBound(Idle, 0, calls);
    var (e, wire) := RunFrom(mtu, cap, calls);
    var p := ParseRun(Idle, calls).0;
    var ref := [] + ParseRun(Idle, calls).1;
    CallStampedFrom(wire, e, p, ref, c, BegunRun(Idle, 0, calls));
    CallGood(wire, e, p, ref, c);
  }

  lemma InitKnowsTime(mtu: nat, cap: nat)
    ensures KnowsTime(Init(mtu, cap), Idle, 0)
  {
  }

  lemma NothingStamped(o: Out)
    requires o.pkt.segs == []
    ensures OutStamped(o, |o.queue|, [])
  {
    assert Before(o.queue[|o.queue|..] + [o.pkt], 1) == 0;
  }

  /** Times make the round trip. After any run, for a call without system exclusive data: if nothing is
      lost and no hazard occurs, each packet's messages are decoded with the times at which they
      began if and only if the packet is faithful to these times. */
  lemma TimesRoundTrip(mtu: nat, cap: nat, calls: seq<Call>, c: Call)
    requires mtu >= 6 && Timed(calls) && LegalRun(Idle, calls) && !ParseRun(Idle, calls).0.InSysex?
    requires c.t < 0x2000 && LegalStream(ParseRun(Idle, calls).0, c.stream)
    requires forall k :: 0 <= k < |c.stream| ==> NoSysex(c.stream[k])
    ensures var e := RunFrom(mtu, cap, calls).0;
            && Safe(e)
            && var (o, ps, times) := (Push(e, c.stream, c.t).e.out, CallPackets(e, c), TimesOfCall(calls, c));
               o.clean && o.lost == 0 ==>
                 && |times| == Before(ps, |ps|)
                 && forall i :: 0 <= i < |ps| ==>
                      var mine := Share(ps, times, i);
                      && |mine| == |ps[i].segs|
                      && (TimesOf(DecodePacket(PacketBytes(ps[i])).toks) == mine <==> Faithful(ps[i].segs, mine))
  {
    hide RunCalls, Push, CallPackets, GoodPacket, DecodePacket, PacketBytes, StampedBy, Before, Share, Faithful,
         TimesOf, TimesOfCall;
    CallStamped(mtu, cap, calls, c);
    var e := RunFrom(mtu, cap, calls).0;
    var o, ps := Push(e, c.stream, c.t).e.out, CallPackets(e, c);
    var times := TimesOfCall(calls, c);
    if o.clean && o.lost == 0 {
      forall i | 0 <= i < |ps|
        ensures var mine := Share(ps, times, i);
                && |mine| == |ps[i].segs|
                && (TimesOf(DecodePacket(PacketBytes(ps[i])).toks) == mine <==> Faithful(ps[i].segs, mine))
      {
        StampedLength(ps[i], Share(ps, times, i));
        PacketTimesExact(ps[i], Share(ps, times, i));
      }
    }
  }

  lemma StampedLength(p: Packet, times: seq<nat>)
    requires StampedBy(p, times)
    ensures |times| == |p.segs|
  {
  }

  predicate Constant(times: seq<nat>, t: nat) {
    forall i :: 0 <= i < |times| ==> times[i] == t
  }

  /** A packet whose messages have one time is faithful. */
  lemma {:induction false} ConstantFaithful(d: Dec, header: byte, segs: seq<Seg>, times: seq<nat>, t: nat)
    requires StampedBy(Packet(header, segs), times) && Constant(times, t) && !d.channel && GoodAll(d, segs)
    ensures Faithful(segs, times) && Drops(segs) == 0 && (LastLow(segs) == 0 || LastLow(segs) == Low(t))
  {
    hide BitOr, GoodSeg, DecAfter, OneMessage, StampByte, Header;
    if segs != [] {
      var init, before := segs[..|segs| - 1], times[..|segs| - 1];
      assert StampedBy(Packet(header, init), before) by {
        assert forall j :: 0 <= j < |init| ==> init[j] == segs[j] && before[j] == times[j];
      }
      ConstantFaithful(d, header, init, before, t);
      FirstStamped(d, segs);
    }
  }

  lemma {:induction false} NothingUnderWay(p: Parse, begun: nat, s: seq<byte>, t: nat)
    requires p.InChannel? || p.InCommon? ==> begun == t
    ensures Constant(TimesOfStream(p, begun, s, t), t)
    decreases |s|
  {
    if s != [] {
      NothingUnderWay(ParseByte(p, s[0]).0, BegunAfter(p, begun, s[0], t), s[1..], t);
    }
  }

  /** A call that begins between two messages, or in the millisecond in which the message under way
      began: every message is decoded with the time of the call. */
  lemma CallTimesExact(mtu: nat, cap: nat, calls: seq<Call>, c: Call)
    requires mtu >= 6 && Timed(calls) && LegalRun(Idle, calls)
    requires var p := ParseRun(Idle, calls).0;
             p.Idle? || p.Running? || (!p.InSysex? && BegunRun(Idle, 0, calls) == c.t)
    requires c.t < 0x2000 && LegalStream(ParseRun(Idle, calls).0, c.stream)
    requires forall k :: 0 <= k < |c.stream| ==> NoSysex(c.stream[k])
    ensures var e := RunFrom(mtu, cap, calls).0;
            && Safe(e)
            && var (o, ps) := (Push(e, c.stream, c.t).e.out, CallPackets(e, c));
               o.clean && o.lost == 0 ==>
                 forall i :: 0 <= i < |ps| ==> Constant(TimesOf(DecodePacket(PacketBytes(ps[i])).toks), c.t)
  {
    hide RunCalls, Push, CallPackets, DecodePacket, PacketBytes, StampedBy, Before, Faithful, TimesOf, GoodPacket;
    CallStamped(mtu, cap, calls, c);
    var e := RunFrom(mtu, cap, calls).0;
    var o, ps := Push(e, c.stream, c.t).e.out, CallPackets(e, c);
    var times := TimesOfCall(calls, c);
    NothingUnderWay(ParseRun(Idle, calls).0, BegunRun(Idle, 0, calls), c.stream, c.t);
    hide TimesOfCall;
    if o.clean && o.lost == 0 {
      forall i | 0 <= i < |ps|
        ensures Constant(TimesOf(DecodePacket(PacketBytes(ps[i])).toks), c.t)
      {
        ShareConstant(ps, times, i, c.t);
        OnePacketExact(ps[i], Share(ps, times, i), c.t);
      }
    }
  }

  lemma ShareConstant(ps: seq<Packet>, times: seq<nat>, i: nat, t: nat)
    requires i < |ps| && Constant(times, t)
    ensures Constant(Share(ps, times, i), t)
  {
  }

  lemma OnePacketExact(p: Packet, times: seq<nat>, t: nat)
    requires GoodPacket(p) && p.segs != [] && StampedBy(p, times) && Constant(times, t)
    ensures TimesOf(DecodePacket(PacketBytes(p)).toks) == times
  {
    hide GoodAll, DecodePacket, Faithful, TimesOf;
    assert !Start(p).channel;
    ConstantFaithful(Start(p), p.header, p.segs, times, t);
    PacketTimesExact(p, times);
  }
}
