/** Packets dropped by a full ring: the encoder goes on as if they had been sent. */
module BleMidiLoss {
  import opened Bytes
  import opened BleMidi
  import opened BleMidiEncoding
  import opened BleMidiDecoding
  import opened BleMidiSegments
  import opened BleMidiRoundTrip

  /** `some` is `all` with `lost` packets left out. */
  ghost predicate LeftOut(some: seq<Packet>, all: seq<Packet>, lost: nat) {
    if all == [] then some == [] && lost == 0
    else
      var n, k := |all| - 1, |some| - 1;
      || (lost > 0 && LeftOut(some, all[..n], lost - 1))
      || (some != [] && some[k] == all[n] && LeftOut(some[..k], all[..n], lost))
  }

  lemma LeftOutMore(some: seq<Packet>, all: seq<Packet>, lost: nat, p: Packet)
    requires LeftOut(some, all, lost)
    ensures LeftOut(some + [p], all + [p], lost) && LeftOut(some, all + [p], lost + 1)
  {
    assert (some + [p])[..|some|] == some && (all + [p])[..|all|] == all;
  }

  /** With nothing left out all is there. */
  lemma {:induction false} LeftOutNothing(some: seq<Packet>, all: seq<Packet>)
    requires LeftOut(some, all, 0)
    ensures some == all
  {
    if all != [] {
      LeftOutNothing(some[..|some| - 1], all[..|all| - 1]);
    }
  }

  lemma {:induction false} LeftOutCount(some: seq<Packet>, all: seq<Packet>, lost: nat)
    requires LeftOut(some, all, lost)
    ensures |some| + lost == |all|
  {
    if all != [] {
      var init := all[..|all| - 1];
      if lost > 0 && LeftOut(some, init, lost - 1) {
        LeftOutCount(some, init, lost - 1);
      } else {
        LeftOutCount(some[..|some| - 1], init, lost);
      }
    }
  }

  /** `a` is `b` with some elements left out. */
  ghost predicate Within<T>(a: seq<T>, b: seq<T>)
    decreases |b|
  {
    || a == []
    || (b != [] &&
        var k, n := |a| - 1, |b| - 1;
        Within(a, b[..n]) || (a[k] == b[n] && Within(a[..k], b[..n])))
  }

  lemma {:induction false} WithinMore<T>(a: seq<T>, b: seq<T>, s: seq<T>)
    requires Within(a, b)
    ensures Within(a, b + s) && Within(a + s, b + s)
    decreases |s|
  {
    if s == [] {
      assert a + s == a && b + s == b;
    } else {
      var n := |s| - 1;
      WithinMore(a, b, s[..n]);
      assert a + s == (a + s[..n]) + [s[n]] && b + s == (b + s[..n]) + [s[n]];
      OneMoreWithin(a, b + s[..n], s[n]);
      OneMoreWithin(a + s[..n], b + s[..n], s[n]);
    }
  }

  lemma OneMoreWithin<T>(a: seq<T>, b: seq<T>, x: T)
    requires Within(a, b)
    ensures Within(a, b + [x]) && Within(a + [x], b + [x])
  {
    assert (a + [x])[..|a|] == a && (b + [x])[..|b|] == b;
  }

  lemma {:induction false} WithinBeginning<T>(a: seq<T>, rest: seq<T>, b: seq<T>)
    requires Within(a + rest, b)
    ensures Within(a, b)
    decreases |b|
  {
    if rest == [] {
      assert a + rest == a;
    } else {
      var n, k := |b| - 1, |rest| - 1;
      if Within(a + rest, b[..n]) {
        WithinBeginning(a, rest, b[..n]);
      } else {
        assert (a + rest)[..|a + rest| - 1] == a + rest[..k];
        WithinBeginning(a, rest[..k], b[..n]);
      }
    }
  }

  /** Every packet is decoded on its own, so what is heard without some packets is part of what would be heard
      with them. */
  lemma {:induction false} HeardWithin(some: seq<Packet>, all: seq<Packet>, lost: nat)
    requires LeftOut(some, all, lost)
    ensures Within(DecodedEvents(some), DecodedEvents(all))
    ensures AllDecoded(all) ==> AllDecoded(some)
  {
    hide DecodePacket, PacketBytes, Unstamp, Complete;
    if all != [] {
      var n, k := |all| - 1, |some| - 1;
      var last := Unstamp(DecodePacket(PacketBytes(all[n])).toks);
      if lost > 0 && LeftOut(some, all[..n], lost - 1) {
        HeardWithin(some, all[..n], lost - 1);
        WithinMore(DecodedEvents(some), DecodedEvents(all[..n]), last);
      } else {
        HeardWithin(some[..k], all[..n], lost);
        WithinMore(DecodedEvents(some[..k]), DecodedEvents(all[..n]), last);
        assert forall i :: 0 <= i < k ==> some[i] == some[..k][i];
      }
    }
  }

  /** Two encoders that differ in their rings only: the second one has room for `more`, and has lost nothing as
      long as the first one has not lost more than that. */
  ghost predicate Ampler(more: nat, wire: seq<Packet>, o: Out, wire': seq<Packet>, o': Out) {
    && o' == o.(cap := o.cap + more, queue := o'.queue, lost := o'.lost)
    && |o.queue| <= o.cap
    && (o.lost <= more ==>
          && o'.lost == 0 && |o'.queue| <= |o.queue| + o.lost
          && LeftOut(Sent(wire, o), Sent(wire', o'), o.lost))
  }

  lemma SealAmpler(more: nat, wire: seq<Packet>, o: Out, wire': seq<Packet>, o': Out)
    requires Ampler(more, wire, o, wire', o')
    ensures Ampler(more, wire, Seal(o), wire', Seal(o'))
  {
    hide LeftOut;
    var s, s' := Seal(o), Seal(o');
    if s.lost <= more {
      LeftOutMore(Sent(wire, o), Sent(wire', o'), o.lost, o.pkt);
      assert Sent(wire', s') == Sent(wire', o') + [o.pkt];
      if |o.queue| < o.cap {
        assert Sent(wire, s) == Sent(wire, o) + [o.pkt];
      } else {
        assert Sent(wire, s) == Sent(wire, o);
      }
    }
  }

  lemma EncodeAmpler(more: nat, wire: seq<Packet>, o: Out, wire': seq<Packet>, o': Out, m: Message, prevTs: nat)
    requires Ampler(more, wire, o, wire', o') && IsMessage(m) && m.tag.count > 0
    ensures Ampler(more, wire, EncodeMessage(o, m, prevTs), wire', EncodeMessage(o', m, prevTs))
  {
    hide LeftOut, PacketLen, OnlyRealTime, Seal, Emit;
    SealAmpler(more, wire, o, wire', o');
    PreparedAmpler(more, wire, o, wire', o', m, prevTs);
  }

  lemma PreparedAmpler(more: nat, wire: seq<Packet>, o: Out, wire': seq<Packet>, o': Out, m: Message, prevTs: nat)
    requires Ampler(more, wire, o, wire', o') && IsMessage(m) && m.tag.count > 0
    ensures Ampler(more, wire, Prepared(o, m, prevTs), wire', Prepared(o', m, prevTs))
    ensures NewSeg(o, m, prevTs) == NewSeg(o', m, prevTs) && Hazard(o, m, prevTs) == Hazard(o', m, prevTs)
  {
    hide LeftOut, PacketLen, OnlyRealTime, Seal;
    SealAmpler(more, wire, o, wire', o');
  }

  lemma FlushAmpler(more: nat, wire: seq<Packet>, o: Out, wire': seq<Packet>, o': Out, rt: seq<(byte, nat)>, k: nat)
    requires Ampler(more, wire, o, wire', o') && k < |rt|
    ensures Ampler(more, wire, FlushOne(o, rt, k), wire', FlushOne(o', rt, k))
  {
    hide LeftOut, PacketLen, Seal;
    SealAmpler(more, wire, o, wire', o');
  }

  ghost predicate Twins(more: nat, wire: seq<Packet>, e: Enc, wire': seq<Packet>, e': Enc) {
    Safe(e) && Safe(e') && e' == e.(out := e'.out) && Ampler(more, wire, e.out, wire', e'.out)
  }

  /** Writing the message under construction. */
  lemma WriteTwins(more: nat, wire: seq<Packet>, e: Enc, wire': seq<Packet>, e': Enc)
    requires IsMessage(e.mes) && e.rt == [] && e' == e.(out := e'.out) && Ampler(more, wire, e.out, wire', e'.out)
    ensures Encode(e') == Encode(e).(out := Encode(e').out) && Encode(e).rt == []
    ensures Ampler(more, wire, Encode(e).out, wire', Encode(e').out)
  {
    hide EncodeMessage, Ampler;
    if e.mes.tag.count > 0 {
      EncodeAmpler(more, wire, e.out, wire', e'.out, e.mes, e.prevTs);
      assert Flush(e.out, [], 0) == e.out && Flush(e'.out, [], 0) == e'.out;
    }
  }

  /** The results of a byte are alike. */
  ghost predicate Alike(more: nat, wire: seq<Packet>, o: StepOut, wire': seq<Packet>, o': StepOut) {
    && o.Next? == o'.Next? && o'.e == o.e.(out := o'.e.out) && Ampler(more, wire, o.e.out, wire', o'.e.out)
    && (o.Fail? ==> o.taken == o'.taken)
  }

  lemma DiscardAlike(more: nat, wire: seq<Packet>, e: Enc, wire': seq<Packet>, e': Enc, taken: nat)
    requires e' == e.(out := e'.out) && Ampler(more, wire, e.out, wire', e'.out)
    ensures Alike(more, wire, Fail(Discard(e), taken), wire', Fail(Discard(e'), taken))
  {
    hide LeftOut;
  }

  lemma EndSysexAlike(more: nat, wire: seq<Packet>, e: Enc, wire': seq<Packet>, e': Enc)
    requires Twins(more, wire, e, wire', e')
    ensures Alike(more, wire, EndSysex(e), wire', EndSysex(e'))
  {
    hide Ampler, Encode;
    DiscardAlike(more, wire, e, wire', e', 0);
    if e.mes.tag.sysex {
      WriteTwins(more, wire, e, wire', e');
      var m := Message(Plain(1), e.mes.bytes[0 := 0xF7], e.prevTs);
      var e1 := if e.idx != 0 then Encode(e) else e;
      var e2 := if e.idx != 0 then Encode(e') else e';
      WriteTwins(more, wire, e1.(mes := m), wire', e2.(mes := m));
    }
  }

  lemma RealTimeAlike(more: nat, wire: seq<Packet>, e: Enc, wire': seq<Packet>, e': Enc, b: byte, t: nat)
    requires Twins(more, wire, e, wire', e') && t < 0x2000
    ensures Alike(more, wire, RealTime(e, b, t), wire', RealTime(e', b, t))
  {
    hide Ampler, Encode, FlushOne, RealTime;
    RealTimeSafe(e, b, t);
    RealTimeSafe(e', b, t);
    WriteTwins(more, wire, e, wire', e');
    FlushAmpler(more, wire, CutSysex(e).out, wire', CutSysex(e').out, [(b, t)], 0);
  }

  lemma CommonAlike(more: nat, wire: seq<Packet>, e: Enc, wire': seq<Packet>, e': Enc, b: byte, t: nat)
    requires Twins(more, wire, e, wire', e') && t < 0x2000
    ensures Alike(more, wire, Next(Common(e, b, t)), wire', Next(Common(e', b, t)))
  {
    hide Ampler, Encode;
    var m := Message(Plain(CommonLen(b)), e.mes.bytes[0 := b], t);
    WriteTwins(more, wire, e.(prevTs := t, running := 0, mes := m), wire', e'.(prevTs := t, running := 0, mes := m));
  }

  lemma DataAlike(more: nat, wire: seq<Packet>, e: Enc, wire': seq<Packet>, e': Enc, b: byte, t: nat)
    requires Twins(more, wire, e, wire', e') && b < 0x80 && t < 0x2000
    ensures Alike(more, wire, Step(e, b, t), wire', Step(e', b, t))
  {
    hide Ampler, Encode, Bounded;
    DiscardAlike(more, wire, e, wire', e', 0);
    if e.mes.tag.sysex {
      var m := e.mes.(bytes := e.mes.bytes[e.idx := b], tag := e.mes.tag.(count := e.mes.tag.count + 1));
      WriteTwins(more, wire, e.(mes := m, idx := e.idx + 1), wire', e'.(mes := m, idx := e.idx + 1));
    } else if e.mes.tag.channel && e.idx == 0 {
      var m := e.mes.(bytes := e.mes.bytes[1 := b], ts := t);
      WriteTwins(more, wire, e.(mes := m, idx := 2), wire', e'.(mes := m, idx := 2));
    } else if e.idx < e.mes.tag.count {
      var m := e.mes.(bytes := e.mes.bytes[e.idx := b]);
      WriteTwins(more, wire, e.(mes := m, idx := e.idx + 1), wire', e'.(mes := m, idx := e.idx + 1));
    }
  }

  lemma StepTwins(more: nat, wire: seq<Packet>, e: Enc, wire': seq<Packet>, e': Enc, b: byte, t: nat)
    requires Twins(more, wire, e, wire', e') && t < 0x2000
    ensures var o, o' := Step(e, b, t), Step(e', b, t);
            && o.Next? == o'.Next? && (o.Fail? ==> o.taken == o'.taken) && Twins(more, wire, o.e, wire', o'.e)
  {
    StepSafe(e, b, t);
    StepSafe(e', b, t);
    hide Ampler, Bounded, EndSysex, RealTime, Common, SysexData, RunningData, MessageData;
    if b == 0xF7 {
      EndSysexAlike(more, wire, e, wire', e');
    } else if IsRealTime(b) {
      RealTimeAlike(more, wire, e, wire', e', b, t);
    } else if 0xF0 < b {
      CommonAlike(more, wire, e, wire', e', b, t);
    } else if b < 0x80 {
      DataAlike(more, wire, e, wire', e', b, t);
    }
  }

  lemma {:induction false} LoopTwins(more: nat, wire: seq<Packet>, e: Enc, wire': seq<Packet>, e': Enc, stream: seq<byte>, i: nat, t: nat)
    requires Twins(more, wire, e, wire', e') && t < 0x2000 && i <= |stream|
    ensures var r, r' := Loop(e, stream, i, t), Loop(e', stream, i, t);
            Twins(more, wire, r.e, wire', r'.e) && r'.taken == r.taken && r'.failed == r.failed
    decreases |stream| - i
  {
    assert Safe(e) && Safe(e') && e'.out.pkt == e.out.pkt && e'.out.mtu == e.out.mtu;
    LoopTurn(e, stream, i, t);
    LoopTurn(e', stream, i, t);
    hide Loop, Step, Safe, PacketLen, Twins;
    if i < |stream| && PacketLen(e.out.pkt) < e.out.mtu {
      StepTwins(more, wire, e, wire', e', stream[i], t);
      if Step(e, stream[i], t).Next? {
        LoopTwins(more, wire, Step(e, stream[i], t).e, wire', Step(e', stream[i], t).e, stream, i + 1, t);
      }
    }
  }

  lemma PushTwins(more: nat, wire: seq<Packet>, e: Enc, wire': seq<Packet>, e': Enc, stream: seq<byte>, t: nat)
    requires Twins(more, wire, e, wire', e') && t < 0x2000
    ensures Twins(more, wire, Push(e, stream, t).e, wire', Push(e', stream, t).e)
  {
    LoopTwins(more, wire, e, wire', e', stream, 0, t);
    var r, r' := Loop(e, stream, 0, t), Loop(e', stream, 0, t);
    assert Safe(Push(e, stream, t).e) && Safe(Push(e', stream, t).e);
    hide Loop, Safe, Seal, LeftOut;
    SealAmpler(more, wire, r.e.out, wire', r'.e.out);
  }

  lemma DrainTwins(more: nat, wire: seq<Packet>, e: Enc, wire': seq<Packet>, e': Enc, n: nat)
    requires Twins(more, wire, e, wire', e')
    ensures Twins(more, wire + Taken(e, n), Drain(e, n), wire' + Taken(e', n), Drain(e', n))
  {
    TakenSent(wire, e, n);
    TakenSent(wire', e', n);
    DrainSafe(e, n);
    DrainSafe(e', n);
    hide Safe, LeftOut, Sent;
  }

  lemma {:induction false} RunTwins(more: nat, wire: seq<Packet>, e: Enc, wire': seq<Packet>, e': Enc, calls: seq<Call>)
    requires Twins(more, wire, e, wire', e') && Timed(calls)
    ensures var r, r' := RunCalls(e, wire, calls), RunCalls(e', wire', calls);
            Twins(more, r.1, r.0, r'.1, r'.0)
    decreases |calls|
  {
    assert Safe(e) && Safe(e');
    hide Twins, Safe, Push;
    if calls != [] {
      var c := calls[0];
      PushTwins(more, wire, e, wire', e', c.stream, c.t);
      var r, r' := Push(e, c.stream, c.t).e, Push(e', c.stream, c.t).e;
      DrainTwins(more, wire, r, wire', r', c.taken);
      RunTwins(more, wire + Taken(r, c.taken), Drain(r, c.taken), wire' + Taken(r', c.taken), Drain(r', c.taken), calls[1..]);
    }
  }

  /** A ring that drops packets changes nothing else. After any calls at all, the packets are those of a codec
      whose ring has room for as many more as were lost, which then loses none; exactly those lost
      are left out. */
  lemma DropsOnly(mtu: nat, cap: nat, calls: seq<Call>)
    requires mtu >= 6 && Timed(calls)
    ensures var (e, wire) := RunFrom(mtu, cap, calls);
            var (e', wire') := RunFrom(mtu, cap + e.out.lost, calls);
            && Safe(e) && Safe(e') && e'.out.lost == 0
            && e' == e.(out := e.out.(cap := e'.out.cap, queue := e'.out.queue, lost := 0))
            && LeftOut(Sent(wire, e.out), Sent(wire', e'.out), e.out.lost)
  {
    hide RunCalls, Safe, LeftOut;
    InitSafe(mtu, cap);
    var (e, wire) := RunFrom(mtu, cap, calls);
    InitSafe(mtu, cap + e.out.lost);
    InitTwins(mtu, cap, e.out.lost);
    RunTwins(e.out.lost, [], Init(mtu, cap), [], Init(mtu, cap + e.out.lost), calls);
  }

  /** The round trip for a ring that may drop packets. With the packets lost the run would make the round trip
      if and only if no hazard occurred; what is heard without them is then part of what was said, in
      its order, and nothing else. */
  lemma LossyRoundTrip(mtu: nat, cap: nat, calls: seq<Call>)
    requires mtu >= 6 && Timed(calls) && LegalRun(Idle, calls)
    ensures var (e, wire) := RunFrom(mtu, cap, calls);
            var (e', wire') := RunFrom(mtu, cap + e.out.lost, calls);
            var some, all, said := Sent(wire, e.out), Sent(wire', e'.out), ParseRun(Idle, calls).1;
            && Safe(e) && |Pending(e)| <= 2
            && LeftOut(some, all, e.out.lost) && |some| + e.out.lost == |all|
            && (e.out.lost == 0 ==> some == all)
            && (e.out.clean <==> AllDecoded(all) && DecodedEvents(all) + Pending(e) == said)
            && (e.out.clean ==> AllDecoded(some) && Within(DecodedEvents(some) + Pending(e), said))
  {
    hide RunFrom, Safe, LeftOut, AllDecoded, DecodedEvents, ParseRun, Pending, Sent, LegalRun;
    DropsOnly(mtu, cap, calls);
    var (e, wire) := RunFrom(mtu, cap, calls);
    var (e', wire') := RunFrom(mtu, cap + e.out.lost, calls);
    var some, all := Sent(wire, e.out), Sent(wire', e'.out);
    RoundTrip(mtu, cap + e.out.lost, calls);
    LeftOutCount(some, all, e.out.lost);
    if e.out.lost == 0 {
      LeftOutNothing(some, all);
    }
    HeardWithin(some, all, e.out.lost);
    SamePending(e, e');
    WithinMore(DecodedEvents(some), DecodedEvents(all), Pending(e));
  }

  lemma SamePending(e: Enc, e': Enc)
    requires Safe(e) && Safe(e') && e' == e.(out := e'.out)
    ensures Pending(e) == Pending(e')
  {
  }

  lemma InitTwins(mtu: nat, cap: nat, more: nat)
    requires mtu >= 6
    ensures Twins(more, [], Init(mtu, cap), [], Init(mtu, cap + more))
  {
    InitSafe(mtu, cap);
    InitSafe(mtu, cap + more);
    hide Safe;
    assert LeftOut([], [], 0);
  }
}
