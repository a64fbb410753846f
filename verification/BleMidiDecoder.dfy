/** The decoder half of the codec context: it cuts a packet into timestamped message fragments
    and stores them in a byte ring. */
module BleMidiDecoder {
  import opened Bytes
  import opened Rings
  import opened BleMidi
  import opened BleMidiDecoding
  import opened BleMidiFragments

  function UnpackedMessages(records: seq<seq<byte>>): (r: seq<Message>)
    requires forall i :: 0 <= i < |records| ==> |records[i]| == MESSAGE_SIZE
    ensures |r| == |records|
  {
    seq(|records|, i requires 0 <= i < |records| => UnpackMessage(records[i]))
  }

  lemma UnpackedTail(records: seq<seq<byte>>)
    requires records != [] && forall i :: 0 <= i < |records| ==> |records[i]| == MESSAGE_SIZE
    requires AreMessages(UnpackedMessages(records))
    ensures var ms := UnpackedMessages(records);
            && ms[0] == UnpackMessage(records[0]) && ms[1..] == UnpackedMessages(records[1..])
            && AreMessages(ms[1..])
  {
    hide UnpackMessage;
  }

  lemma NoFrames(s: seq<byte>)
    ensures |s| < MESSAGE_SIZE ==> Frames(s, MESSAGE_SIZE) == []
  {
  }

  /** The ring `from_ble` of packed messages; `out` is its content, oldest first. */
  class MessageRing {
    const cap: nat
    const ring: RingBuffer
    ghost var out: seq<Message>

    ghost predicate Valid()
      reads this, ring, ring.buf
    {
      && RecordRing(ring, MESSAGE_SIZE, cap)
      && var frames := Frames(ring.Contents(), MESSAGE_SIZE);
        && (forall i :: 0 <= i < |frames| ==> |frames[i]| == MESSAGE_SIZE)
        && out == UnpackedMessages(frames)
        && AreMessages(out)
    }

    constructor (cap: nat)
      requires cap > 0
      ensures Valid() && out == [] && this.cap == cap
      ensures fresh(this) && fresh(ring) && fresh(ring.buf)
    {
      this.cap := cap;
      ring := new RingBuffer(MESSAGE_SIZE * cap);
      out := [];
      new;
      assert Frames(ring.Contents(), MESSAGE_SIZE) == [];
    }

    /** midi_service_stream_push: stores a message if there is room for all of it. */
    method Push(m: Message) returns (success: bool)
      requires Valid() && IsMessage(m)
      modifies this, ring, ring.buf
      ensures Valid()
      ensures success == (|old(out)| < cap) && |out| <= cap
      ensures out == if success then old(out) + [m] else old(out)
    {
      ghost var frames := Frames(ring.Contents(), MESSAGE_SIZE);
      RoomForRecord(|frames|, cap, MESSAGE_SIZE);
      UnpackPackedMessage(m);
      success := ring.buf.Length >= ring.numBuffered + MESSAGE_SIZE;
      if success {
        var n := PushRecord(ring, PackMessage(m), MESSAGE_SIZE, cap);
        out := out + [m];
        assert Frames(ring.Contents(), MESSAGE_SIZE) == frames + [PackMessage(m)];
      }
    }

    /** ble_midi_pkt_codec_pop_midi: the oldest message, if there is one. */
    method Pop() returns (m: Option<Message>)
      requires Valid()
      modifies this, ring
      ensures Valid()
      ensures old(out) == [] ==> m == None && out == []
      ensures old(out) != [] ==> m.Some? && old(out) == [m.value] + out
    {
      hide UnpackedMessages, UnpackMessage, Frames;
      ghost var frames := Frames(ring.Contents(), MESSAGE_SIZE);
      assert |ring.Contents()| < MESSAGE_SIZE ==> frames == [] by { NoFrames(ring.Contents()); }
      if ring.numBuffered < MESSAGE_SIZE {
        m := None;
      } else {
        FramesTail(ring.Contents(), MESSAGE_SIZE);
        var rec := PopRecord(ring, MESSAGE_SIZE, cap);
        m := Some(UnpackMessage(rec));
        assert frames[0] == rec && frames[1..] == Frames(ring.Contents(), MESSAGE_SIZE);
        UnpackedTail(frames);
        out := out[1..];
      }
    }
  }

  /** The local variables of decode_push. */
  datatype Cursor = Cursor(mes: Message, pos: nat, msb: nat, prevLsb: byte, running: byte)

  function DecOf(c: Cursor): Dec {
    Dec(c.mes.tag.sysex, c.mes.tag.channel, c.running, c.msb, c.prevLsb, c.mes.ts)
  }

  /** What the variables satisfy at the head of the decoder loop. */
  predicate AtHead(c: Cursor, pkt: seq<byte>) {
    && c.pos <= |pkt| < 0x1_0000
    && IsMessage(c.mes)
    && 2 * c.msb <= 0x3F00 + c.pos
    && (c.mes.tag.sysex ==> c.mes.tag.count == 0 && !c.mes.tag.channel)
    && (c.mes.tag.channel ==> c.mes.bytes[0] == c.running && IsChannel(c.running) && !c.mes.tag.realTime)
    && (c.mes.tag.channel ==> c.mes.tag.count == ChannelLen(c.running) || |pkt| - c.pos <= 1)
    && (c.running != 0 ==> IsChannel(c.running))
  }

  /** How a turn of the loop ends: the loop goes on, returns, or repeats itself for ever. */
  datatype Flow = Go | Stop | Hang

  /** The messages `new` and what follows at `c'` are what decoding at `c` yields. */
  ghost predicate Decoded(c: Cursor, c': Cursor, flow: Flow, pkt: seq<byte>, new': seq<Message>)
    requires c.pos <= |pkt| && c'.pos <= |pkt| && AreMessages(new')
  {
    Decode(DecOf(c), pkt[c.pos..]) ==
      Pre(AllToks(new'),
          match flow
          case Go => Decode(DecOf(c'), pkt[c'.pos..])
          case Stop => DecOut([], |pkt| - c'.pos, false)
          case Hang => DecOut([], |pkt| - c'.pos, true))
  }

  /** A message that did not fit behind others. */
  ghost predicate Missed(all: seq<Stamped>, ms: seq<Message>, m: Message, begun: bool) {
    Tight(ms + [m]) && LacksOne(all, ms, m) && (begun ==> Begins(ms + [m]))
  }

  /** What a turn stores: what decoding yields or, once the ring is full, the first messages of that. */
  ghost predicate Told(c: Cursor, c': Cursor, flow: Flow, pkt: seq<byte>, new': seq<Message>, full: bool)
    requires c.pos <= |pkt| && c'.pos <= |pkt|
  {
    && Tight(new') && Begins(new')
    && (Decoded(c, c', flow, pkt, new') || (full && flow.Stop? && Short(c, pkt, new')))
  }

  ghost predicate Short(c: Cursor, pkt: seq<byte>, new': seq<Message>)
    requires c.pos <= |pkt|
  {
    exists m :: Missed(Decode(DecOf(c), pkt[c.pos..]).toks, new', m, true)
  }

  /** A turn that decodes one message: it is stored, or did not fit. */
  lemma OneTold(c: Cursor, c': Cursor, stop: Cursor, pkt: seq<byte>, m: Message)
    requires c.pos <= |pkt| && c'.pos <= |pkt| && stop.pos <= |pkt| && IsMessage(m) && !m.tag.sysex
    requires Decode(DecOf(c), pkt[c.pos..]) == Pre(Toks(m), Decode(DecOf(c'), pkt[c'.pos..]))
    ensures Told(c, c', Go, pkt, [m], false) && Told(c, c', Go, pkt, [m], true)
    ensures Told(c, stop, Stop, pkt, [], true)
  {
    hide Toks, Decode;
    NoToks();
    SingleToks(m);
    assert [] + Toks(m) == Toks(m) && [] + [m] == [m];
    assert Missed(Decode(DecOf(c), pkt[c.pos..]).toks, [], m, true);
  }

  /** A real-time message and the payload behind it. */
  lemma RealTimeTold(c: Cursor, c1: Cursor, c': Cursor, flow: Flow, pkt: seq<byte>, rt: Message, ms: seq<Message>,
                     lack: Message, full: bool)
    requires c.pos <= |pkt| && c1.pos <= |pkt| && c'.pos <= |pkt| && IsMessage(rt) && rt.tag == RealTimeTag(1)
    requires Decode(DecOf(c), pkt[c.pos..]) == Pre(Toks(rt), Decode(DecOf(c1), pkt[c1.pos..]))
    requires IsMessage(c1.mes) && c1.mes.tag == SysexTag(0) && Tight(ms) && !flow.Hang? && (flow.Stop? ==> full)
    requires flow.Go? ==> Pre(Toks(c1.mes), Decode(DecOf(c1), pkt[c1.pos..])) == Pre(AllToks(ms), Decode(DecOf(c'), pkt[c'.pos..]))
    requires flow.Stop? ==> Missed(Toks(c1.mes) + Decode(DecOf(c1), pkt[c1.pos..]).toks, ms, lack, false)
    ensures Told(c, c', flow, pkt, [rt] + ms, full)
  {
    hide AllToks, Toks, Decode, Fragment, Tight, Opens, FillOf;
    NoPayload(c1.mes, Decode(DecOf(c1), pkt[c1.pos..]).toks);
    SingleToks(rt);
    OneFragment(rt);
    if flow.Go? {
      TightConcat([rt], ms);
      AreTight(ms);
      AllToksConcat([rt], ms);
      PrePre(AllToks([rt]), AllToks(ms), Decode(DecOf(c'), pkt[c'.pos..]));
    } else {
      var all := Decode(DecOf(c), pkt[c.pos..]).toks;
      TightMore([rt], ms, lack);
      LacksMore([rt], ms, lack, all, Decode(DecOf(c1), pkt[c1.pos..]).toks);
      assert Missed(all, [rt] + ms, lack, true);
    }
  }

  lemma AreTight(ms: seq<Message>)
    requires Tight(ms)
    ensures AreMessages(ms)
  {
  }

  lemma OneFragment(m: Message)
    requires IsMessage(m) && !m.tag.sysex
    ensures Fragment(m) && Opens(m) && FillOf(m) == 0 && Tight([m]) && Begins([m])
  {
  }

  lemma FillingStart(m: Message)
    requires IsMessage(m) && (m.tag == SysexTag(0) || (m.tag == SysexTag(1) && m.bytes[0] == 0xF0))
    ensures Filling([], m, m.tag.count == 1)
  {
  }

  lemma FillingIs(ms: seq<Message>, m: Message, begun: bool)
    requires Filling(ms, m, begun)
    ensures Tight(ms) && IsMessage(m) && AreMessages(ms)
    ensures begun && m.tag.count == 0 ==> Begins(ms)
  {
  }

  /** A turn that decodes nothing. */
  lemma NoneTold(c: Cursor, c': Cursor, flow: Flow, pkt: seq<byte>, full: bool)
    requires c.pos <= |pkt| && c'.pos <= |pkt|
    requires Decode(DecOf(c), pkt[c.pos..]) == match flow
             case Go => Decode(DecOf(c'), pkt[c'.pos..])
             case Stop => DecOut([], |pkt| - c'.pos, false)
             case Hang => DecOut([], |pkt| - c'.pos, true)
    ensures Told(c, c', flow, pkt, [], full)
  {
    hide Decode;
    NoToks();
    PreNothing(Decode(DecOf(c), pkt[c.pos..]));
  }

  /** What was stored so far, and what is still to come. */
  ghost predicate Sofar(whole: DecOut, ms: seq<Message>, rest: DecOut) {
    Tight(ms) && Begins(ms) && whole == Pre(AllToks(ms), rest)
  }

  /** The end of decoding: everything is stored, or the ring is full and more would have come. */
  ghost predicate Ended(whole: DecOut, left: nat, hang: bool, ms: seq<Message>, full: bool, begun: bool) {
    && Tight(ms) && (begun ==> Begins(ms))
    && (whole == DecOut(AllToks(ms), left, hang) ||
        (full && !hang && exists m :: Missed(whole.toks, ms, m, begun)))
  }

  lemma NothingYet(whole: DecOut)
    ensures Sofar(whole, [], whole) && Tight([])
  {
    NoToks();
    PreNothing(whole);
  }

  /** What was decoded before a turn, and what the turn adds. */
  lemma Onward(whole: DecOut, before: seq<Message>, c: Cursor, c': Cursor, flow: Flow, pkt: seq<byte>, new': seq<Message>,
               full: bool)
    requires c.pos <= |pkt| && c'.pos <= |pkt| && Told(c, c', flow, pkt, new', full)
    requires Sofar(whole, before, Decode(DecOf(c), pkt[c.pos..]))
    ensures flow.Go? ==> Sofar(whole, before + new', Decode(DecOf(c'), pkt[c'.pos..]))
    ensures !flow.Go? ==> Ended(whole, |pkt| - c'.pos, flow.Hang?, before + new', full, true)
  {
    hide AllToks, Decode, Toks, Tight, Opens;
    var rest := Decode(DecOf(c), pkt[c.pos..]);
    TightFacts(before, new');
    if Decoded(c, c', flow, pkt, new') {
      AllToksConcat(before, new');
      PrePre(AllToks(before), AllToks(new'),
             match flow
             case Go => Decode(DecOf(c'), pkt[c'.pos..])
             case Stop => DecOut([], |pkt| - c'.pos, false)
             case Hang => DecOut([], |pkt| - c'.pos, true));
    } else {
      var m :| Missed(rest.toks, new', m, true);
      TightMore(before, new', m);
      LacksMore(before, new', m, whole.toks, rest.toks);
      assert Missed(whole.toks, before + new', m, true);
    }
  }

  lemma TightFacts(before: seq<Message>, new': seq<Message>)
    requires Tight(before) && Tight(new') && Begins(before) && Begins(new')
    ensures AreMessages(before) && AreMessages(new') && Tight(before + new') && Begins(before + new')
  {
    hide Fragment;
    TightConcat(before, new');
  }

  /** What the loop stored comes behind the payload that opened the packet. */
  lemma EndedMore(whole: DecOut, before: seq<Message>, rest: DecOut, left: nat, hang: bool, new': seq<Message>, full: bool)
    requires Tight(before) && whole == Pre(AllToks(before), rest) && Ended(rest, left, hang, new', full, true)
    ensures Ended(whole, left, hang, before + new', full, false)
  {
    hide AllToks, Toks, Fragment;
    TightConcat(before, new');
    if rest == DecOut(AllToks(new'), left, hang) {
      AllToksConcat(before, new');
    } else {
      var m :| Missed(rest.toks, new', m, true);
      TightMore(before, new', m);
      LacksMore(before, new', m, whole.toks, rest.toks);
      assert Missed(whole.toks, before + new', m, false);
    }
  }

  /** In numbers of messages. */
  lemma EndedKept(whole: DecOut, left: nat, hang: bool, ms: seq<Message>, full: bool, room: nat)
    requires Ended(whole, left, hang, ms, full, false) && |ms| <= room && (full ==> |ms| == room)
    ensures AllToks(ms) == First(whole.toks, room) && |ms| == Min(CountMessages(whole.toks), room)
    ensures CountMessages(whole.toks) <= room ==> whole.left == left && whole.hang == hang
  {
    hide AllToks, Toks, Fragment;
    if whole == DecOut(AllToks(ms), left, hang) {
      CutTight(ms);
    } else {
      var m :| Missed(whole.toks, ms, m, false);
      LackingFirst(whole.toks, ms, m);
    }
  }

  /** The same when payload that opens a packet does not fit. */
  lemma MissedKept(whole: DecOut, ms: seq<Message>, m: Message)
    requires Tight(ms) && Missed(whole.toks, ms, m, false)
    ensures AllToks(ms) == First(whole.toks, |ms|) && CountMessages(whole.toks) > |ms|
  {
    LackingFirst(whole.toks, ms, m);
  }

  lemma NothingKept(room: nat)
    ensures CountMessages([]) == 0 && First([], room) == [] == AllToks([])
  {
  }

  /** Where the loop cannot go on. */
  lemma StuckTold(c: Cursor, pkt: seq<byte>, full: bool)
    requires AtHead(c, pkt) && c.pos < |pkt| && (c.mes.tag.sysex ==> pkt[c.pos] >= 0x80)
    requires c.pos + 1 < |pkt| ==> IsData(pkt[c.pos]) && !IsData(pkt[c.pos + 1])
    ensures Told(c, c, Hang, pkt, [], full)
  {
    hide DecodeStatus;
    NoneTold(c, c, Hang, pkt, full);
  }

  lemma SingleToks(m: Message)
    requires IsMessage(m)
    ensures AllToks([m]) == Toks(m)
  {
    assert [m][..0] == [];
  }

  lemma StampFits(c: Cursor, pkt: seq<byte>)
    requires AtHead(c, pkt) && c.pos + 2 <= |pkt|
    ensures StampOf(DecOf(c), pkt[c.pos]) < 0x1_0000
    ensures 2 * Tick(DecOf(c), pkt[c.pos]).msb <= 0x3F00 + (c.pos + 2)
  {
  }

  lemma PrePre(a: seq<Stamped>, b: seq<Stamped>, r: DecOut)
    ensures Pre(a, Pre(b, r)) == Pre(a + b, r)
  {
    assert a + (b + r.toks) == a + b + r.toks;
  }

  lemma PreNothing(r: DecOut)
    ensures Pre([], r) == r
  {
    assert [] + r.toks == r.toks;
  }

  /** What a message outside of a system exclusive one says. */
  lemma MessageToks(m: Message)
    requires IsMessage(m) && !m.tag.sysex
    ensures AllToks([m]) == Toks(m)
    ensures Toks(m) == [Stamped(if m.tag.realTime then Rt(m.bytes[0])
                                else if m.bytes[0] == 0xF7 then Sx(0xF7)
                                else Msg(m.bytes[..m.tag.count]), m.ts)]
  {
    SingleToks(m);
  }

  lemma RealTimeToks(m: Message)
    requires IsMessage(m) && m.tag == RealTimeTag(1)
    ensures Toks(m) == [Stamped(Rt(m.bytes[0]), m.ts)]
  {
  }

  /** Slices of a suffix are slices of the whole. */
  lemma SuffixSlices(pkt: seq<byte>, from: nat, a: nat, b: nat)
    requires a <= b && from + b <= |pkt|
    ensures pkt[from..][a..b] == pkt[from + a..from + b] && pkt[from..][b..] == pkt[from + b..]
  {
  }

  /** The variables after one more payload byte. */
  function Absorbed(c: Cursor, pkt: seq<byte>): Cursor
    requires c.pos < |pkt| && IsMessage(c.mes) && c.mes.tag.count < 3
  {
    c.(mes := c.mes.(bytes := c.mes.bytes[c.mes.tag.count := pkt[c.pos]],
                     tag := c.mes.tag.(count := c.mes.tag.count + 1)),
       pos := c.pos + 1)
  }

  lemma OneMorePayload(c: Cursor, pkt: seq<byte>)
    requires c.pos < |pkt| && IsData(pkt[c.pos])
    requires IsMessage(c.mes) && c.mes.tag == SysexTag(c.mes.tag.count) && c.mes.tag.count < 3
    ensures IsMessage(Absorbed(c, pkt).mes) && DecOf(Absorbed(c, pkt)) == DecOf(c)
    ensures Toks(Absorbed(c, pkt).mes) == Toks(c.mes) + [Stamped(Sx(pkt[c.pos]), c.mes.ts)]
  {
  }

  lemma Absorb(whole: DecOut, emitted: seq<Stamped>, c: Cursor, pkt: seq<byte>)
    requires c.pos < |pkt| && IsData(pkt[c.pos])
    requires IsMessage(c.mes) && c.mes.tag == SysexTag(c.mes.tag.count) && c.mes.tag.count < 3
    requires whole == Pre(emitted + Toks(c.mes), Decode(DecOf(c), pkt[c.pos..]))
    ensures whole == Pre(emitted + Toks(Absorbed(c, pkt).mes), Decode(DecOf(c), pkt[c.pos + 1..]))
  {
    hide Decode, DecodeStatus;
    var s := pkt[c.pos..];
    assert s[1..] == pkt[c.pos + 1..];
    DecodeData(DecOf(c), s);
    OneMorePayload(c, pkt);
    hide Toks;
    var g, rest := [Stamped(Sx(s[0]), c.mes.ts)], Decode(DecOf(c), s[1..]);
    assert (emitted + Toks(c.mes)) + (g + rest.toks) == (emitted + (Toks(c.mes) + g)) + rest.toks;
  }

  lemma NoPayload(m: Message, emitted: seq<Stamped>)
    requires IsMessage(m) && m.tag == SysexTag(0)
    ensures Toks(m) == [] && emitted + Toks(m) == emitted && Toks(m) + emitted == emitted
  {
  }

  class Decoder {
    const fromBle: MessageRing

    ghost predicate Valid()
      reads this, fromBle, fromBle.ring, fromBle.ring.buf
    {
      fromBle.Valid() && AreMessages(fromBle.out)
    }

    constructor (cap: nat)
      requires cap > 0
      ensures Valid() && fromBle.out == [] && fromBle.cap == cap
      ensures fresh(this) && fresh(fromBle) && fresh(fromBle.ring) && fresh(fromBle.ring.buf)
    {
      fromBle := new MessageRing(cap);
    }

    /** Copies the data bytes of a message of length `n`, status included. */
    method ReadData(pkt: seq<byte>, pos: nat, mes: Message, n: nat) returns (m: Message)
      requires |mes.bytes| == 3 && 1 <= n <= 3 && pos + n - 1 <= |pkt|
      ensures m == mes.(bytes := m.bytes) && |m.bytes| == 3
      ensures m.bytes[..n] == [mes.bytes[0]] + pkt[pos..pos + n - 1]
    {
      m := mes;
      var idx := 1;
      while idx < n
        invariant 1 <= idx <= n && m == mes.(bytes := m.bytes) && |m.bytes| == 3
        invariant m.bytes[0] == mes.bytes[0]
        invariant forall k :: 1 <= k < idx ==> m.bytes[k] == pkt[pos + k - 1]
      {
        m := m.(bytes := m.bytes[idx := pkt[pos + idx - 1]]);
        idx := idx + 1;
      }
    }

    /** A channel message without status byte but with its own time byte. */
    method RunningStamped(pkt: seq<byte>, c: Cursor) returns (c': Cursor, flow: Flow)
      requires Valid() && AtHead(c, pkt) && c.pos + 1 < |pkt|
      requires pkt[c.pos] >= 0x80 && IsData(pkt[c.pos + 1])
      modifies fromBle, fromBle.ring, fromBle.ring.buf
      ensures Valid() && old(fromBle.out) <= fromBle.out
      ensures c'.pos <= |pkt|
      ensures flow.Go? ==> AtHead(c', pkt) && c'.pos > c.pos && !c'.mes.tag.sysex
      ensures Told(c, c', flow, pkt, fromBle.out[|old(fromBle.out)|..], |fromBle.out| == fromBle.cap)
    {
      hide AllToks, MessageRing.Valid, StampOf, Decode, Toks, Told;
      ghost var s := pkt[c.pos..];
      RunningOutside(DecOf(c), s);
      var n := ChannelLen(c.running);
      if c.running == 0 || c.pos + n > |pkt| {
        NoneTold(c, c, Stop, pkt, |fromBle.out| == fromBle.cap);
        assert fromBle.out[|fromBle.out|..] == [];
        return c, Stop;
      }
      StampFits(c, pkt);
      var d1 := Tick(DecOf(c), pkt[c.pos]);
      var m := ReadData(pkt, c.pos + 1,
                        Message(ChannelTag(n), c.mes.bytes[0 := c.running], StampOf(DecOf(c), pkt[c.pos])), n);
      MessageToks(m);
      SuffixSlices(pkt, c.pos, 1, n);
      c' := Cursor(m, c.pos + n, d1.msb, d1.prevLsb, c.running);
      OneTold(c, c', c, pkt, m);
      var ok := fromBle.Push(m);
      if !ok {
        assert fromBle.out[|fromBle.out|..] == [];
        return c, Stop;
      }
      flow := Go;
      assert fromBle.out[|old(fromBle.out)|..] == [m];
    }

    /** Channel data without time byte and status, right behind a channel message. */
    method RunningPlain(pkt: seq<byte>, c: Cursor) returns (c': Cursor, flow: Flow)
      requires Valid() && AtHead(c, pkt) && c.pos + 1 < |pkt| && !c.mes.tag.sysex
      requires IsData(pkt[c.pos]) && IsData(pkt[c.pos + 1])
      modifies fromBle, fromBle.ring, fromBle.ring.buf
      ensures Valid() && old(fromBle.out) <= fromBle.out
      ensures c'.pos <= |pkt|
      ensures flow.Go? ==> AtHead(c', pkt) && c'.pos > c.pos && !c'.mes.tag.sysex
      ensures Told(c, c', flow, pkt, fromBle.out[|old(fromBle.out)|..], |fromBle.out| == fromBle.cap)
    {
      hide AllToks, MessageRing.Valid, StampOf, Decode, Toks, Told;
      ghost var s := pkt[c.pos..];
      RunningOutside(DecOf(c), s);
      var n := ChannelLen(c.running);
      if c.running != c.mes.bytes[0] || !c.mes.tag.channel || c.pos + n - 1 > |pkt| {
        NoneTold(c, c, Stop, pkt, |fromBle.out| == fromBle.cap);
        assert fromBle.out[|fromBle.out|..] == [];
        return c, Stop;
      }
      var m := ReadData(pkt, c.pos, c.mes, n);
      MessageToks(m);
      SuffixSlices(pkt, c.pos, 0, n - 1);
      c' := c.(mes := m, pos := c.pos + n - 1);
      OneTold(c, c', c, pkt, m);
      var ok := fromBle.Push(m);
      if !ok {
        assert fromBle.out[|fromBle.out|..] == [];
        return c, Stop;
      }
      flow := Go;
      assert fromBle.out[|old(fromBle.out)|..] == [m];
    }

    /** A time byte and a real-time or system common status byte (or 0xF7). */
    method SystemMessage(pkt: seq<byte>, c: Cursor) returns (c': Cursor, flow: Flow)
      requires Valid() && AtHead(c, pkt) && c.pos + 1 < |pkt| && !c.mes.tag.sysex
      requires pkt[c.pos] >= 0x80 && pkt[c.pos + 1] > 0xF0
      modifies fromBle, fromBle.ring, fromBle.ring.buf
      ensures Valid() && old(fromBle.out) <= fromBle.out
      ensures c'.pos <= |pkt|
      ensures flow.Go? ==> AtHead(c', pkt) && c'.pos > c.pos && !c'.mes.tag.sysex
      ensures Told(c, c', flow, pkt, fromBle.out[|old(fromBle.out)|..], |fromBle.out| == fromBle.cap)
    {
      hide AllToks, MessageRing.Valid, StampOf, Decode, DecodeStatus, Toks, Told;
      ghost var s := pkt[c.pos..];
      SystemOutside(DecOf(c), s);
      StampFits(c, pkt);
      var d1 := Tick(DecOf(c), pkt[c.pos]);
      var b := pkt[c.pos + 1];
      var m := c.mes.(ts := StampOf(DecOf(c), pkt[c.pos]), bytes := c.mes.bytes[0 := b]);
      var n := if b >= 0xF8 then 1 else CommonLen(b);
      m := m.(tag := if b >= 0xF8 then RealTimeTag(1) else Plain(n));
      c' := Cursor(m, c.pos + 2, d1.msb, d1.prevLsb, c.running);
      if c'.pos + n - 1 > |pkt| {
        NoneTold(c, c', Stop, pkt, |fromBle.out| == fromBle.cap);
        assert fromBle.out[|fromBle.out|..] == [];
        return c', Stop;
      }
      m := ReadData(pkt, c'.pos, m, n);
      MessageToks(m);
      SuffixSlices(pkt, c.pos, 2, 1 + n);
      c' := c'.(mes := m, pos := c'.pos + n - 1);
      ghost var stop := if b >= 0xF8 then c' else c'.(pos := c'.pos - 1);
      OneTold(c, c', stop, pkt, m);
      var ok := fromBle.Push(m);
      if !ok {
        c' := if b >= 0xF8 then c' else c'.(pos := c'.pos - 1);
        assert fromBle.out[|fromBle.out|..] == [];
        return c', Stop;
      }
      flow := Go;
      assert fromBle.out[|old(fromBle.out)|..] == [m];
    }

    /** A time byte and a channel status byte. */
    method ChannelMessage(pkt: seq<byte>, c: Cursor) returns (c': Cursor, flow: Flow)
      requires Valid() && AtHead(c, pkt) && c.pos + 1 < |pkt| && !c.mes.tag.sysex
      requires pkt[c.pos] >= 0x80 && IsChannel(pkt[c.pos + 1])
      modifies fromBle, fromBle.ring, fromBle.ring.buf
      ensures Valid() && old(fromBle.out) <= fromBle.out
      ensures c'.pos <= |pkt|
      ensures flow.Go? ==> AtHead(c', pkt) && c'.pos > c.pos && !c'.mes.tag.sysex
      ensures Told(c, c', flow, pkt, fromBle.out[|old(fromBle.out)|..], |fromBle.out| == fromBle.cap)
    {
      hide AllToks, MessageRing.Valid, StampOf, Decode, DecodeStatus, Toks, Told;
      ghost var s := pkt[c.pos..];
      ChannelOutside(DecOf(c), s);
      StampFits(c, pkt);
      var d1 := Tick(DecOf(c), pkt[c.pos]);
      var b := pkt[c.pos + 1];
      var m := c.mes.(ts := StampOf(DecOf(c), pkt[c.pos]), bytes := c.mes.bytes[0 := b]);
      var n := ChannelLen(b);
      c' := Cursor(if n == 2 then m.(tag := Plain(2)) else m, c.pos + 2, d1.msb, d1.prevLsb, b);
      if c'.pos + n - 1 > |pkt| {
        assert s[2..] == pkt[c'.pos..];
        NoneTold(c, c', Go, pkt, |fromBle.out| == fromBle.cap);
        assert fromBle.out[|fromBle.out|..] == [];
        return c', Go;
      }
      m := ReadData(pkt, c'.pos, m.(tag := ChannelTag(n)), n);
      MessageToks(m);
      SuffixSlices(pkt, c.pos, 2, 1 + n);
      c' := c'.(mes := m, pos := c'.pos + n - 1);
      OneTold(c, c', c'.(pos := c'.pos - 1), pkt, m);
      var ok := fromBle.Push(m);
      if !ok {
        c' := c'.(pos := c'.pos - 1);
        assert fromBle.out[|fromBle.out|..] == [];
        return c', Stop;
      }
      flow := Go;
      assert fromBle.out[|old(fromBle.out)|..] == [m];
    }

    /** Stores a fragment of a system exclusive message and starts an empty one. */
    method Ship(m: Message, ghost start: nat, ghost whole: DecOut, ghost rest: DecOut, ghost begun: bool)
      returns (m': Message, ok: bool)
      requires Valid() && start <= |fromBle.out| && m.tag == SysexTag(m.tag.count) && m.tag.count > 0
      requires Filling(fromBle.out[start..], m, begun)
      requires whole == Pre(AllToks(fromBle.out[start..]) + Toks(m), rest)
      modifies fromBle, fromBle.ring, fromBle.ring.buf
      ensures Valid() && old(fromBle.out) <= fromBle.out
      ensures m' == m.(tag := SysexTag(0))
      ensures Tight(fromBle.out[start..]) && (begun ==> Begins(fromBle.out[start..]))
      ensures ok ==> whole == Pre(AllToks(fromBle.out[start..]) + Toks(m'), rest)
      ensures ok && m.tag.count == 3 ==> Filling(fromBle.out[start..], m', begun)
      ensures !ok ==> |fromBle.out| == fromBle.cap && Missed(whole.toks, fromBle.out[start..], m, begun)
    {
      hide AllToks, MessageRing.Valid, StampOf, Toks, Filling, Tight;
      ghost var before := fromBle.out[start..];
      FillingShip(before, m, begun);
      FillingIs(before, m, begun);
      m' := m.(tag := SysexTag(0));
      ok := fromBle.Push(m);
      if ok {
        Shipped(before, m);
        assert fromBle.out[start..] == before + [m];
        NoPayload(m', AllToks(fromBle.out[start..]));
      } else {
        assert fromBle.out[start..] == before;
        assert LacksOne(whole.toks, before, m);
      }
    }

    /** Payload bytes of a system exclusive message, in fragments of three; the first byte of the
        message may be there already. `lack` is the first fragment that did not fit. */
    method SysexPayload(pkt: seq<byte>, c: Cursor, idx: nat) returns (c': Cursor, ok: bool, ghost lack: Message)
      requires Valid() && c.pos <= |pkt| && IsMessage(c.mes)
      requires c.mes.tag == SysexTag(idx) && (idx == 0 || (idx == 1 && c.mes.bytes[0] == 0xF0))
      modifies fromBle, fromBle.ring, fromBle.ring.buf
      ensures Valid() && old(fromBle.out) <= fromBle.out
      ensures c'.pos <= |pkt|
      ensures Tight(fromBle.out[|old(fromBle.out)|..]) && (idx == 1 ==> Begins(fromBle.out[|old(fromBle.out)|..]))
      ensures ok ==>
                && c.pos <= c'.pos && c' == c.(mes := c'.mes, pos := c'.pos)
                && IsMessage(c'.mes) && c'.mes.tag == SysexTag(0) && c'.mes.ts == c.mes.ts
                && (c'.pos < |pkt| ==> pkt[c'.pos] >= 0x80)
      ensures ok ==> Pre(Toks(c.mes), Decode(DecOf(c), pkt[c.pos..])) ==
                     Pre(AllToks(fromBle.out[|old(fromBle.out)|..]), Decode(DecOf(c'), pkt[c'.pos..]))
      ensures !ok ==> && |fromBle.out| == fromBle.cap
                      && Missed(Toks(c.mes) + Decode(DecOf(c), pkt[c.pos..]).toks,
                                fromBle.out[|old(fromBle.out)|..], lack, idx == 1)
    {
      hide AllToks, MessageRing.Valid, StampOf, Toks, Decode, Filling, Tight, Missed;
      c', lack := c, c.mes;
      ok := true;
      ghost var start := |fromBle.out|;
      ghost var whole := Pre(Toks(c.mes), Decode(DecOf(c), pkt[c.pos..]));
      NoToks();
      assert fromBle.out[start..] == [] && [] + Toks(c.mes) == Toks(c.mes);
      FillingStart(c.mes);
      while c'.pos < |pkt| && IsData(pkt[c'.pos])
        invariant Valid() && old(fromBle.out) <= fromBle.out
        invariant c.pos <= c'.pos <= |pkt| && c' == c.(mes := c'.mes, pos := c'.pos)
        invariant IsMessage(c'.mes) && c'.mes.ts == c.mes.ts
        invariant c'.mes.tag == SysexTag(c'.mes.tag.count) && c'.mes.tag.count < 3
        invariant Filling(fromBle.out[start..], c'.mes, idx == 1)
        invariant AreMessages(fromBle.out[start..])
        invariant whole == Pre(AllToks(fromBle.out[start..]) + Toks(c'.mes), Decode(DecOf(c'), pkt[c'.pos..]))
        decreases |pkt| - c'.pos
      {
        Absorb(whole, AllToks(fromBle.out[start..]), c', pkt);
        FillingAbsorb(fromBle.out[start..], c'.mes, idx == 1, pkt[c'.pos]);
        c' := Absorbed(c', pkt);
        if c'.mes.tag.count == 3 {
          var m;
          lack := c'.mes;
          m, ok := Ship(c'.mes, start, whole, Decode(DecOf(c'), pkt[c'.pos..]), idx == 1);
          if !ok {
            return c'.(pos := if c'.pos >= 3 then c'.pos - 3 else 0), false, lack;
          }
          c' := c'.(mes := m);
        }
      }
      FillingIs(fromBle.out[start..], c'.mes, idx == 1);
      if c'.mes.tag.count > 0 {
        var m;
        lack := c'.mes;
        m, ok := Ship(c'.mes, start, whole, Decode(DecOf(c'), pkt[c'.pos..]), idx == 1);
        if !ok {
          return c', false, lack;
        }
        c' := c'.(mes := m);
      }
      NoPayload(c'.mes, AllToks(fromBle.out[start..]));
    }

    /** A time byte and 0xF0, with the payload behind them. */
    method SysexStart(pkt: seq<byte>, c: Cursor) returns (c': Cursor, flow: Flow)
      requires Valid() && AtHead(c, pkt) && c.pos + 1 < |pkt| && !c.mes.tag.sysex
      requires pkt[c.pos] >= 0x80 && pkt[c.pos + 1] == 0xF0
      modifies fromBle, fromBle.ring, fromBle.ring.buf
      ensures Valid() && old(fromBle.out) <= fromBle.out
      ensures c'.pos <= |pkt|
      ensures flow.Go? ==> AtHead(c', pkt) && c'.pos > c.pos
      ensures flow.Go? && c'.pos < |pkt| ==> pkt[c'.pos] >= 0x80
      ensures Told(c, c', flow, pkt, fromBle.out[|old(fromBle.out)|..], |fromBle.out| == fromBle.cap)
    {
      hide AllToks, MessageRing.Valid, StampOf, Tight;
      ghost var s := pkt[c.pos..];
      assert Decode(DecOf(c), s) == DecodeStatus(DecOf(c), s);
      hide Decode;
      StampFits(c, pkt);
      var d1 := Tick(DecOf(c), pkt[c.pos]);
      var m := Message(SysexTag(1), c.mes.bytes[0 := 0xF0], StampOf(DecOf(c), pkt[c.pos]));
      var c1 := Cursor(m, c.pos + 2, d1.msb, d1.prevLsb, c.running);
      assert s[2..] == pkt[c1.pos..];
      assert Toks(m) == [Stamped(Sx(0xF0), m.ts)];
      var ok;
      ghost var lack;
      c', ok, lack := SysexPayload(pkt, c1, 1);
      flow := if ok then Go else Stop;
    }

    /** A time byte and a real-time status byte inside a system exclusive message. */
    method SysexRealTime(pkt: seq<byte>, c: Cursor) returns (c': Cursor, flow: Flow)
      requires Valid() && AtHead(c, pkt) && c.pos + 1 < |pkt| && c.mes.tag.sysex
      requires pkt[c.pos] >= 0x80 && pkt[c.pos + 1] >= 0xF8
      modifies fromBle, fromBle.ring, fromBle.ring.buf
      ensures Valid() && old(fromBle.out) <= fromBle.out
      ensures c'.pos <= |pkt|
      ensures flow.Go? ==> AtHead(c', pkt) && c.pos < c'.pos
      ensures flow.Go? ==> c'.pos < |pkt| ==> pkt[c'.pos] >= 0x80
      ensures Told(c, c', flow, pkt, fromBle.out[|old(fromBle.out)|..], |fromBle.out| == fromBle.cap)
    {
      hide AllToks, MessageRing.Valid, StampOf, Decode, Toks, Pre, Told, Tight, Missed;
      ghost var s := pkt[c.pos..];
      ghost var start := |fromBle.out|;
      RealTimeInside(DecOf(c), s);
      StampFits(c, pkt);
      var d1 := Tick(DecOf(c), pkt[c.pos]);
      var rt := Message(RealTimeTag(1), [pkt[c.pos + 1], 0, 0], StampOf(DecOf(c), pkt[c.pos]));
      RealTimeToks(rt);
      var c1 := Cursor(c.mes.(tag := SysexTag(0)), c.pos + 2, d1.msb, d1.prevLsb, c.running);
      assert s[2..] == pkt[c1.pos..];
      OneTold(c, c1, c, pkt, rt);
      var ok := fromBle.Push(rt);
      if !ok {
        assert fromBle.out[start..] == [];
        return c, Stop;
      }
      assert fromBle.out[start..] == [rt];
      ghost var mid := |fromBle.out|;
      ghost var lack;
      c', ok, lack := SysexPayload(pkt, c1, 0);
      flow := if ok then Go else Stop;
      assert fromBle.out[start..] == [rt] + fromBle.out[mid..];
      RealTimeTold(c, c1, c', flow, pkt, rt, fromBle.out[mid..], lack, |fromBle.out| == fromBle.cap);
    }

    /** Status bytes inside a system exclusive message: real-time, 0xF7, or anything else. */
    method SysexStatus(pkt: seq<byte>, c: Cursor) returns (c': Cursor, flow: Flow)
      requires Valid() && AtHead(c, pkt) && c.pos + 1 < |pkt| && c.mes.tag.sysex
      requires pkt[c.pos] >= 0x80 && pkt[c.pos + 1] >= 0x80
      modifies fromBle, fromBle.ring, fromBle.ring.buf
      ensures Valid() && old(fromBle.out) <= fromBle.out
      ensures c'.pos <= |pkt|
      ensures flow.Go? ==> AtHead(c', pkt) && c.pos <= c'.pos
      ensures flow.Go? ==> c'.pos > c.pos || !c'.mes.tag.sysex
      ensures flow.Go? && c'.mes.tag.sysex && c'.pos < |pkt| ==> pkt[c'.pos] >= 0x80
      ensures Told(c, c', flow, pkt, fromBle.out[|old(fromBle.out)|..], |fromBle.out| == fromBle.cap)
    {
      hide AllToks, MessageRing.Valid, StampOf, DecodeStatus, Told;
      if c.mes.tag.count > 0 {
        assert false; // fragments are stored as soon as their payload ends
      }
      if pkt[c.pos + 1] >= 0xF8 {
        c', flow := SysexRealTime(pkt, c);
        return;
      }
      assert fromBle.out[|fromBle.out|..] == [];
      if pkt[c.pos + 1] == 0xF7 {
        c', flow := c.(mes := c.mes.(tag := Plain(0))), Go;
      } else {
        c', flow := c, Hang;
      }
      NoneTold(c, c', flow, pkt, |fromBle.out| == fromBle.cap);
    }

    /** One turn of the decoder loop. */
    method Turn(pkt: seq<byte>, c: Cursor) returns (c': Cursor, flow: Flow)
      requires Valid() && AtHead(c, pkt) && c.pos < |pkt|
      requires c.mes.tag.sysex ==> pkt[c.pos] >= 0x80
      modifies fromBle, fromBle.ring, fromBle.ring.buf
      ensures Valid() && old(fromBle.out) <= fromBle.out
      ensures c'.pos <= |pkt|
      ensures flow.Go? ==> AtHead(c', pkt) && c.pos <= c'.pos
      ensures flow.Go? ==> c'.pos > c.pos || (c.mes.tag.sysex && !c'.mes.tag.sysex)
      ensures flow.Go? && c'.mes.tag.sysex && c'.pos < |pkt| ==> pkt[c'.pos] >= 0x80
      ensures Told(c, c', flow, pkt, fromBle.out[|old(fromBle.out)|..], |fromBle.out| == fromBle.cap)
    {
      hide AllToks, MessageRing.Valid, StampOf, Decode, DecodeStatus, Told;
      assert fromBle.out[|fromBle.out|..] == [];
      if c.pos + 1 >= |pkt| {
        StuckTold(c, pkt, |fromBle.out| == fromBle.cap);
        return c, Hang;
      } else if pkt[c.pos] >= 0x80 && pkt[c.pos + 1] >= 0x80 {
        if c.mes.tag.sysex {
          c', flow := SysexStatus(pkt, c);
        } else if pkt[c.pos + 1] == 0xF0 {
          c', flow := SysexStart(pkt, c);
        } else if pkt[c.pos + 1] > 0xF0 {
          c', flow := SystemMessage(pkt, c);
        } else {
          c', flow := ChannelMessage(pkt, c);
        }
      } else if pkt[c.pos] >= 0x80 {
        c', flow := RunningStamped(pkt, c);
      } else if IsData(pkt[c.pos + 1]) {
        c', flow := RunningPlain(pkt, c);
      } else {
        StuckTold(c, pkt, |fromBle.out| == fromBle.cap);
        return c, Hang;
      }
    }

    /** The decoder loop from `c0` on. */
    method DecodeLoop(pkt: seq<byte>, c0: Cursor) returns (ndecoded: nat, hang: bool)
      requires Valid() && AtHead(c0, pkt)
      requires c0.mes.tag.sysex && c0.pos < |pkt| ==> pkt[c0.pos] >= 0x80
      modifies fromBle, fromBle.ring, fromBle.ring.buf
      ensures Valid() && old(fromBle.out) <= fromBle.out && ndecoded <= |pkt|
      ensures Ended(Decode(DecOf(c0), pkt[c0.pos..]), |pkt| - ndecoded, hang,
                    fromBle.out[|old(fromBle.out)|..], |fromBle.out| == fromBle.cap, true)
    {
      hide AllToks, MessageRing.Valid, StampOf, Decode, Toks, Pre, Told, Ended, Tight;
      ghost var start := |fromBle.out|;
      ghost var whole := Decode(DecOf(c0), pkt[c0.pos..]);
      NoToks();
      assert fromBle.out[start..] == [];
      PreNothing(whole);
      var c := c0;
      NothingYet(whole);
      while c.pos < |pkt|
        invariant Valid() && old(fromBle.out) <= fromBle.out
        invariant AtHead(c, pkt) && c0.pos <= c.pos
        invariant c.mes.tag.sysex && c.pos < |pkt| ==> pkt[c.pos] >= 0x80
        invariant Sofar(whole, fromBle.out[start..], Decode(DecOf(c), pkt[c.pos..]))
        decreases |pkt| - c.pos, c.mes.tag.sysex
      {
        ghost var before := fromBle.out;
        var c', flow := Turn(pkt, c);
        assert fromBle.out[start..] == before[start..] + fromBle.out[|before|..];
        Onward(whole, before[start..], c, c', flow, pkt, fromBle.out[|before|..], |fromBle.out| == fromBle.cap);
        if flow != Go {
          return c'.pos, flow == Hang;
        }
        c := c';
      }
      assert pkt[c.pos..] == [];
      DecodeNothing(DecOf(c), whole, fromBle.out[start..], |fromBle.out| == fromBle.cap);
      return c.pos, false;
    }

    /** ble_midi_pkt_codec_ble_midi_decode_push. The ring gets the first messages that DecodePacket yields, as
        many as fit; if all fit, as much is left of the packet as there. `hang` stands for a loop that
        never ends. */
    method DecodePush(pkt: seq<byte>) returns (ndecoded: nat, hang: bool)
      requires Valid() && |pkt| < 0x1_0000
      modifies fromBle, fromBle.ring, fromBle.ring.buf
      ensures Valid() && old(fromBle.out) <= fromBle.out && ndecoded <= |pkt| && |fromBle.out| <= fromBle.cap
      ensures var r, room := DecodePacket(pkt), fromBle.cap - |old(fromBle.out)|;
              && room >= 0
              && AllToks(fromBle.out[|old(fromBle.out)|..]) == First(r.toks, room)
              && |fromBle.out| - |old(fromBle.out)| == Min(CountMessages(r.toks), room)
              && (CountMessages(r.toks) <= room ==> r.left == |pkt| - ndecoded && r.hang == hang)
    {
      hide AllToks, MessageRing.Valid, StampOf, Decode, Toks, Pre, Tight, Missed, Ended, First, CountMessages;
      ghost var start := |fromBle.out|;
      NoToks();
      RoomLeft();
      assert fromBle.out[start..] == [];
      if |pkt| < 2 || !(0x80 <= pkt[0] < 0xC0) {
        NothingKept(fromBle.cap - start);
        return 0, false;
      }
      var c := Cursor(Message(Plain(0), [0, 0, 0], 0), 1, (pkt[0] as int) % 64 * 128, 0, 0);
      ghost var whole := DecodePacket(pkt);
      if IsData(pkt[1]) {
        c := c.(mes := c.mes.(tag := SysexTag(0)));
        NoPayload(c.mes, Decode(DecOf(c), pkt[1..]).toks);
        PreNothing(Decode(DecOf(c), pkt[1..]));
        var ok;
        ghost var lack;
        c, ok, lack := SysexPayload(pkt, c, 0);
        RoomLeft();
        if !ok {
          MissedKept(whole, fromBle.out[start..], lack);
          return c.pos, false;
        }
      } else {
        PreNothing(Decode(DecOf(c), pkt[1..]));
        NothingYet(whole);
      }
      ghost var mid := fromBle.out;
      ndecoded, hang := DecodeLoop(pkt, c);
      RoomLeft();
      assert fromBle.out[start..] == mid[start..] + fromBle.out[|mid|..];
      EndedMore(whole, mid[start..], Decode(DecOf(c), pkt[c.pos..]), |pkt| - ndecoded, hang, fromBle.out[|mid|..],
                |fromBle.out| == fromBle.cap);
      EndedKept(whole, |pkt| - ndecoded, hang, fromBle.out[start..], |fromBle.out| == fromBle.cap, fromBle.cap - start);
    }

    lemma RoomLeft()
      requires Valid()
      ensures |fromBle.out| <= fromBle.cap
    {
    }
  }

  lemma DecodeNothing(d: Dec, whole: DecOut, ms: seq<Message>, full: bool)
    requires Sofar(whole, ms, Decode(d, []))
    ensures Ended(whole, 0, false, ms, full, true)
  {
    assert AllToks(ms) + [] == AllToks(ms);
  }
}
