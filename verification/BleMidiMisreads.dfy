/** Runs of the BLE-MIDI codec in which times are misread. */
module BleMidiMisreads {
  import opened Bytes
  import opened BleMidi
  import opened BleMidiEncoding
  import opened BleMidiDecoding
  import opened BleMidiSegments
  import opened BleMidiRoundTrip
  import opened BleMidiTimes
  import opened BleMidiHazards

  // Times that are misread

  /** A note on at `t` without its velocity. */
  function Begun(t: nat): Enc {
    Enc(Message(ChannelTag(3), [0x90, 60, 0], t), 2, t, 0x90, [], Init(20, 1).out)
  }

  lemma NoteBegun(t: nat)
    requires t < 0x2000
    ensures LegalRun(Idle, [Call([0x90, 60], t, ALL)]) && ParseRun(Idle, [Call([0x90, 60], t, ALL)]).0 == InChannel(0x90, [60])
    ensures BegunRun(Idle, 0, [Call([0x90, 60], t, ALL)]) == t
    ensures RunFrom(20, 1, [Call([0x90, 60], t, ALL)]).0 == Begun(t) && Safe(Begun(t))
  {
    NoteBegunLegal(t);
    var e0 := Init(20, 1);
    InitSafe(20, 1);
    hide Safe, Step, Reaches;
    var e1 := Enc(Message(ChannelTag(3), [0x90, 0, 0], t), 1, t, 0x90, [], e0.out);
    assert e0.mes.bytes[0 := 0x90] == e1.mes.bytes && e1.mes.bytes[1 := 60] == Begun(t).mes.bytes;
    ChannelByte(e0, 0x90, t);
    StepSafe(e0, 0x90, t);
    DataByte(e1, 60, t);
    StepSafe(e1, 60, t);
    ReachesItself(e0, t);
    ReachesMore(e0, [], t, e0, 0x90, e1, [0x90]);
    ReachesMore(e0, [0x90], t, e1, 60, Begun(t), [0x90, 60]);
    PushReaches(e0, [0x90, 60], t, Begun(t));
    RunOne(e0, [0x90, 60], t);
  }

  lemma NoteBegunLegal(t: nat)
    ensures LegalRun(Idle, [Call([0x90, 60], t, ALL)]) && ParseRun(Idle, [Call([0x90, 60], t, ALL)]).0 == InChannel(0x90, [60])
    ensures BegunRun(Idle, 0, [Call([0x90, 60], t, ALL)]) == t
  {
    assert [0x90, 60][1..] == [60] && [60][1..] == [] && [Call([0x90, 60], t, ALL)][1..] == [];
    assert LegalStream(InChannel(0x90, []), [60]);
    assert ParseStream(InChannel(0x90, []), [60]).0 == InChannel(0x90, [60]);
    assert BegunStream(InChannel(0x90, []), t, [60], t) == t;
  }

  /** The note completed, in an empty packet. */
  function Played(t: nat): Enc {
    Enc(Message(ChannelTag(3), [0x90, 60, 100], t), 0, t, 0x90, [],
        Out(20, 1, Packet(Header(t), [Status(Low(t), 0x90, [60, 100])]), 0x90, 0x90, [], 0, true))
  }

  lemma NotePlayed(t: nat, now: nat)
    requires t < 0x2000 && now < 0x2000
    ensures Safe(Begun(t)) && Step(Begun(t), 100, now) == Next(Played(t)) && Safe(Played(t))
  {
    NoteBegun(t);
    hide Safe, Step;
    var e, m := Begun(t), Played(t).mes;
    assert e.mes.bytes[2 := 100] == m.bytes && m.bytes[1..3] == [60, 100];
    ChannelEncoded(e.out, m, t, 0);
    assert Emit(EMPTY, Header(t), Status(Low(t), 0x90, [60, 100])) == Played(t).out.pkt;
    LastByte(e, 100, now, m);
    StepSafe(e, 100, now);
  }

  /** The low byte decreases: 130 ms read as 3 ms. */
  lemma WrapMisread()
    ensures var (calls, c) := ([Call([0x90, 60], 127, ALL)], Call([100, 0xF8], 130, ALL));
            && LegalRun(Idle, calls) && LegalStream(ParseRun(Idle, calls).0, c.stream)
            && Safe(RunFrom(20, 1, calls).0)
            && var o := Push(RunFrom(20, 1, calls).0, c.stream, c.t).e.out;
               && o.clean && o.lost == 0 && |o.queue| == 1
               && PacketBytes(o.queue[0]) == [0x80, 0xFF, 0x90, 60, 100, 0x82, 0xF8]
               && TimesOfCall(calls, c) == [127, 130]
               && TimesOf(DecodePacket(PacketBytes(o.queue[0])).toks) == [127, 3]
  {
    hide Safe, Step, Reaches, RunCalls, DecodePacket, PacketBytes, TimesOf, Push, LegalStream, TimesOfStream;
    NoteBegun(127);
    NotePlayed(127, 130);
    var e1, e2 := Played(127), Played(127).(out := Out(20, 1, WrapPacket(), 0x90, 0xF8, [], 0, true));
    WrapPacketRead();
    RealTimeByte(e1, 0xF8, 130, 5);
    StepSafe(e1, 0xF8, 130);
    ReachesItself(Begun(127), 130);
    ReachesMore(Begun(127), [], 130, Begun(127), 100, e1, [100]);
    ReachesMore(Begun(127), [100], 130, e1, 0xF8, e2, [100, 0xF8]);
    PushReaches(Begun(127), [100, 0xF8], 130, e2);
    WrapLegal();
  }

  function WrapPacket(): Packet {
    Packet(0x80, [Status(0xFF, 0x90, [60, 100]), Status(0x82, 0xF8, [])])
  }

  lemma WrapLegal()
    ensures LegalStream(InChannel(0x90, [60]), [100, 0xF8])
    ensures TimesOfStream(InChannel(0x90, [60]), 127, [100, 0xF8], 130) == [127, 130]
  {
    assert [100, 0xF8][1..] == [0xF8] && [0xF8][1..] == [];
    assert LegalStream(Running(0x90), [0xF8]);
    assert TimesOfStream(Running(0x90), 127, [0xF8], 130) == [130];
  }

  lemma OrHigh(k: nat, low: nat)
    requires low < 128
    ensures BitOr(k * 128, low) == k * 128 + low
  {
    OrDigits(k, 0, low);
  }

  lemma OrOne()
    ensures BitOr(1, 2) == 3
  {
    assert BitOr(0, 1) == 1;
  }

  lemma WrapTimes()
    ensures StampOf(Opening(0x80, false), 0xFF) == 127
    ensures SegTime(NextDec(Opening(0x80, false), Status(0xFF, 0x90, [60, 100])), Status(0x82, 0xF8, [])) == 3
  {
    hide BitOr;
    OrHigh(0, 127);
    OrOne();
  }

  lemma WrapPacketRead()
    ensures PacketLen(Played(127).out.pkt) == 5
    ensures Emit(Played(127).out.pkt, Header(130), Status(Low(130), 0xF8, [])) == WrapPacket()
    ensures PacketBytes(WrapPacket()) == [0x80, 0xFF, 0x90, 60, 100, 0x82, 0xF8]
    ensures TimesOf(DecodePacket(PacketBytes(WrapPacket())).toks) == [127, 3]
  {
    hide DecodePacket, TimesOf, TokensOf, SegTime, StampOf, NextDec, Opening, Flat;
    var a, b := Status(0xFF, 0x90, [60, 100]), Status(0x82, 0xF8, []);
    FlatOne(a);
    FlatTwo(a, b);
    WrapTimes();
    TwoSegments(0x80, a, b);
  }

  lemma GoodTwo(d: Dec, a: Seg, b: Seg)
    requires GoodSeg(d, a) && GoodSeg(NextDec(d, a), b)
    ensures GoodAll(d, [a, b])
    ensures SegTimes(d, [a, b]) == [SegTime(d, a), SegTime(NextDec(d, a), b)]
  {
    hide GoodSeg, NextDec, SegTime;
    assert [a, b][..|[a, b]| - 1] == [a] && [a][..|[a]| - 1] == [];
    assert DecAfter(d, [a]) == NextDec(d, a);
    assert GoodAll(d, [a]) && SegTimes(d, [a]) == [SegTime(d, a)];
  }

  /** What is decoded of a packet of two messages. */
  lemma TwoSegments(header: byte, a: Seg, b: Seg)
    requires 0x80 <= header < 0xC0 && a.Status? && WfSeg(a) && WfSeg(b) && OneMessage(a) && OneMessage(b)
    requires GoodSeg(NextDec(Opening(header, false), a), b)
    ensures TimesOf(DecodePacket(PacketBytes(Packet(header, [a, b]))).toks)
            == [StampOf(Opening(header, false), a.ts), SegTime(NextDec(Opening(header, false), a), b)]
  {
    hide DecodePacket, TimesOf, TokensOf, SegTimes, DecAfter, GoodAll, NextDec;
    GoodTwo(Opening(header, false), a, b);
    PacketTimes(Packet(header, [a, b]));
  }

  /** A clock before the rest of a note: 127 ms read as 255 ms, although the low bytes increase. */
  lemma InterruptedMisread()
    ensures var (calls, c) := ([Call([0x90, 60], 127, ALL)], Call([0xF8, 100], 130, ALL));
            && LegalRun(Idle, calls) && LegalStream(ParseRun(Idle, calls).0, c.stream)
            && Safe(RunFrom(20, 1, calls).0)
            && var o := Push(RunFrom(20, 1, calls).0, c.stream, c.t).e.out;
               && o.clean && o.lost == 0 && |o.queue| == 1
               && PacketBytes(o.queue[0]) == [0x81, 0x82, 0xF8, 0xFF, 0x90, 60, 100]
               && TimesOfCall(calls, c) == [130, 127]
               && TimesOf(DecodePacket(PacketBytes(o.queue[0])).toks) == [130, 255]
  {
    hide Safe, Step, Reaches, RunCalls, DecodePacket, PacketBytes, TimesOf, Push, LegalStream, TimesOfStream;
    NoteBegun(127);
    var e1, e2 := InterruptedSteps();
    InterruptedPacketRead();
    ReachesItself(Begun(127), 130);
    ReachesMore(Begun(127), [], 130, Begun(127), 0xF8, e1, [0xF8]);
    ReachesMore(Begun(127), [0xF8], 130, e1, 100, e2, [0xF8, 100]);
    PushReaches(Begun(127), [0xF8, 100], 130, e2);
    InterruptedLegal();
  }

  const CLOCK_AT_130 := Status(0x82, 0xF8, [])
  const NOTE_AT_127 := Status(0xFF, 0x90, [60, 100])

  function InterruptedOut(segs: seq<Seg>, running: byte, prev: byte): Out {
    Out(20, 1, Packet(0x81, segs), running, prev, [], 0, true)
  }

  lemma InterruptedEncoded()
    ensures EncodeMessage(InterruptedOut([CLOCK_AT_130], 0, 0xF8), Played(127).mes, 127)
            == InterruptedOut([CLOCK_AT_130, NOTE_AT_127], 0x90, 0x90)
  {
    FlatOne(CLOCK_AT_130);
    var m := Played(127).mes;
    assert m.bytes[1..3] == [60, 100];
    ChannelEncoded(InterruptedOut([CLOCK_AT_130], 0, 0xF8), m, 127, 3);
    hide EncodeMessage;
  }

  lemma InterruptedSteps() returns (e1: Enc, e2: Enc)
    ensures Safe(Begun(127)) && Safe(e1)
    ensures Step(Begun(127), 0xF8, 130) == Next(e1) && Step(e1, 100, 130) == Next(e2)
    ensures e2 == Played(127).(out := InterruptedOut([CLOCK_AT_130, NOTE_AT_127], 0x90, 0x90))
  {
    hide Safe, Step, RunFrom, EncodeMessage, ParseRun, LegalRun, BegunRun, PacketLen;
    NoteBegun(127);
    e1 := Begun(127).(out := InterruptedOut([CLOCK_AT_130], 0, 0xF8));
    e2 := Played(127).(out := InterruptedOut([CLOCK_AT_130, NOTE_AT_127], 0x90, 0x90));
    NothingLen(EMPTY);
    RealTimeByte(Begun(127), 0xF8, 130, 0);
    assert Emit(EMPTY, 0x81, CLOCK_AT_130) == Packet(0x81, [CLOCK_AT_130]);
    StepSafe(Begun(127), 0xF8, 130);
    var m := Played(127).mes;
    assert e1.mes.bytes[2 := 100] == m.bytes;
    InterruptedEncoded();
    LastByte(e1, 100, 130, m);
  }

  lemma InterruptedLegal()
    ensures LegalStream(InChannel(0x90, [60]), [0xF8, 100])
    ensures TimesOfStream(InChannel(0x90, [60]), 127, [0xF8, 100], 130) == [130, 127]
  {
    assert [0xF8, 100][1..] == [100] && [100][1..] == [];
    assert LegalStream(InChannel(0x90, [60]), [100]);
    assert TimesOfStream(InChannel(0x90, [60]), 127, [100], 130) == [127];
  }

  lemma InterruptedTimes()
    ensures StampOf(Opening(0x81, false), 0x82) == 130
    ensures SegTime(NextDec(Opening(0x81, false), CLOCK_AT_130), NOTE_AT_127) == 255
    ensures GoodSeg(NextDec(Opening(0x81, false), CLOCK_AT_130), NOTE_AT_127)
  {
    hide BitOr;
    OrHigh(1, 2);
    OrHigh(1, 127);
    var d := Opening(0x81, false);
    assert d.msb == 128;
    assert NextDec(d, CLOCK_AT_130).msb == 128 && NextDec(d, CLOCK_AT_130).prevLsb == 0x82;
  }

  lemma InterruptedPacketRead()
    ensures PacketBytes(Packet(0x81, [CLOCK_AT_130, NOTE_AT_127])) == [0x81, 0x82, 0xF8, 0xFF, 0x90, 60, 100]
    ensures TimesOf(DecodePacket(PacketBytes(Packet(0x81, [CLOCK_AT_130, NOTE_AT_127]))).toks) == [130, 255]
  {
    hide DecodePacket, TimesOf, TokensOf, SegTime, StampOf, NextDec, Opening, Flat;
    FlatTwo(CLOCK_AT_130, NOTE_AT_127);
    InterruptedTimes();
    TwoSegments(0x81, CLOCK_AT_130, NOTE_AT_127);
  }

  /** The same status byte sent again while its note is under way: 20 ms read as 10 ms, without a
      second time byte. */
  lemma RepeatedStatusMisread()
    ensures var (calls, c) := ([Call([0x90, 60], 10, ALL)], Call([100, 0x90, 61, 101], 20, ALL));
            && LegalRun(Idle, calls) && LegalStream(ParseRun(Idle, calls).0, c.stream)
            && Safe(RunFrom(20, 1, calls).0)
            && var o := Push(RunFrom(20, 1, calls).0, c.stream, c.t).e.out;
               && o.clean && o.lost == 0 && |o.queue| == 1
               && PacketBytes(o.queue[0]) == [0x80, 0x8A, 0x90, 60, 100, 61, 101]
               && TimesOfCall(calls, c) == [10, 20]
               && TimesOf(DecodePacket(PacketBytes(o.queue[0])).toks) == [10, 10]
  {
    hide Safe, Step, Reaches, RunCalls, DecodePacket, PacketBytes, TimesOf, Push, LegalStream, TimesOfStream;
    NoteBegun(10);
    NotePlayed(10, 20);
    var e1, e2, e3, e4 := RepeatedSteps();
    RepeatedPacketRead();
    ReachesItself(Begun(10), 20);
    ReachesMore(Begun(10), [], 20, Begun(10), 100, e1, [100]);
    ReachesMore(Begun(10), [100], 20, e1, 0x90, e2, [100, 0x90]);
    ReachesMore(Begun(10), [100, 0x90], 20, e2, 61, e3, [100, 0x90, 61]);
    ReachesMore(Begun(10), [100, 0x90, 61], 20, e3, 101, e4, [100, 0x90, 61, 101]);
    PushReaches(Begun(10), [100, 0x90, 61, 101], 20, e4);
    RepeatedLegal();
  }

  const NOTE_AT_10 := Status(0x8A, 0x90, [60, 100])
  const SECOND_NOTE := Run(None, 0x90, [61, 101])

  function RepeatedEnc(bytes: seq<byte>, idx: nat, out: Out): Enc {
    Enc(Message(ChannelTag(3), bytes, 20), idx, 20, 0x90, [], out)
  }

  function RepeatedOut(segs: seq<Seg>): Out {
    Out(20, 1, Packet(0x80, segs), 0x90, 0x90, [], 0, true)
  }

  lemma RepeatedEncoded()
    ensures Played(10).out == RepeatedOut([NOTE_AT_10])
    ensures EncodeMessage(RepeatedOut([NOTE_AT_10]), Message(ChannelTag(3), [0x90, 61, 101], 20), 20)
            == RepeatedOut([NOTE_AT_10, SECOND_NOTE])
  {
    var m := Message(ChannelTag(3), [0x90, 61, 101], 20);
    assert m.bytes[1..3] == [61, 101];
    FlatOne(NOTE_AT_10);
    ChannelEncoded(RepeatedOut([NOTE_AT_10]), m, 20, 5);
    hide EncodeMessage;
  }

  lemma RepeatedSteps() returns (e1: Enc, e2: Enc, e3: Enc, e4: Enc)
    ensures e1 == Played(10) && Safe(e1) && Safe(e2) && Safe(e3)
    ensures Step(e1, 0x90, 20) == Next(e2) && Step(e2, 61, 20) == Next(e3) && Step(e3, 101, 20) == Next(e4)
    ensures e4 == RepeatedEnc([0x90, 61, 101], 0, RepeatedOut([NOTE_AT_10, SECOND_NOTE]))
  {
    hide Safe, Step, EncodeMessage, PacketLen;
    NotePlayed(10, 20);
    RepeatedEncoded();
    e1, e2 := Played(10), RepeatedEnc([0x90, 60, 100], 1, RepeatedOut([NOTE_AT_10]));
    e3 := RepeatedEnc([0x90, 61, 100], 2, RepeatedOut([NOTE_AT_10]));
    e4 := RepeatedEnc([0x90, 61, 101], 0, RepeatedOut([NOTE_AT_10, SECOND_NOTE]));
    assert e1.mes.bytes[0 := 0x90] == e2.mes.bytes;
    ChannelByte(e1, 0x90, 20);
    StepSafe(e1, 0x90, 20);
    assert e2.mes.bytes[1 := 61] == e3.mes.bytes;
    DataByte(e2, 61, 20);
    StepSafe(e2, 61, 20);
    assert e3.mes.bytes[2 := 101] == e4.mes.bytes;
    LastByte(e3, 101, 20, e4.mes);
  }

  lemma RepeatedLegal()
    ensures LegalStream(InChannel(0x90, [60]), [100, 0x90, 61, 101])
    ensures TimesOfStream(InChannel(0x90, [60]), 10, [100, 0x90, 61, 101], 20) == [10, 20]
  {
    assert [100, 0x90, 61, 101][1..] == [0x90, 61, 101] && [0x90, 61, 101][1..] == [61, 101];
    assert [61, 101][1..] == [101] && [101][1..] == [];
    assert LegalStream(InChannel(0x90, [61]), [101]) && TimesOfStream(InChannel(0x90, [61]), 20, [101], 20) == [20];
    assert LegalStream(InChannel(0x90, []), [61, 101]) && TimesOfStream(InChannel(0x90, []), 20, [61, 101], 20) == [20];
    assert LegalStream(Running(0x90), [0x90, 61, 101]) && TimesOfStream(Running(0x90), 10, [0x90, 61, 101], 20) == [20];
  }

  lemma RepeatedTimes()
    ensures StampOf(Opening(0x80, false), 0x8A) == 10
    ensures SegTime(NextDec(Opening(0x80, false), NOTE_AT_10), SECOND_NOTE) == 10
    ensures GoodSeg(NextDec(Opening(0x80, false), NOTE_AT_10), SECOND_NOTE)
  {
    hide BitOr;
    OrHigh(0, 10);
    var d := Opening(0x80, false);
    assert StampOf(d, 0x8A) == 10;
    hide StampOf;
    assert NextDec(d, NOTE_AT_10).ts == 10;
  }

  lemma RepeatedPacketRead()
    ensures PacketBytes(Packet(0x80, [NOTE_AT_10, SECOND_NOTE])) == [0x80, 0x8A, 0x90, 60, 100, 61, 101]
    ensures TimesOf(DecodePacket(PacketBytes(Packet(0x80, [NOTE_AT_10, SECOND_NOTE]))).toks) == [10, 10]
  {
    hide DecodePacket, TimesOf, TokensOf, SegTime, StampOf, NextDec, Opening, Flat;
    FlatTwo(NOTE_AT_10, SECOND_NOTE);
    RepeatedTimes();
    TwoSegments(0x80, NOTE_AT_10, SECOND_NOTE);
  }

  /** The start of a system exclusive message is sent with the time of whatever came before it: on a new
      codec with 8191 ms, at any time. */
  lemma SysexTimeStale(t: nat)
    requires t < 0x2000
    ensures var (e, wire) := RunFrom(20, 2, [Call([0xF0, 1, 2], t, ALL)]);
            && e.out.clean && e.out.lost == 0 && |wire| == 1
            && PacketBytes(wire[0]) == [0xBF, 0xFF, 0xF0, 1, 2]
            && TimesOf(DecodePacket(PacketBytes(wire[0])).toks) == [8191, 8191, 8191]
  {
    hide Safe, Step, Reaches, RunCalls, DecodePacket, PacketBytes, TimesOf, Push;
    var e0, e1, e2, e3 := SysexOpens(20, t);
    ReachesItself(e0, t);
    ReachesMore(e0, [], t, e0, 0xF0, e1, [0xF0]);
    ReachesMore(e0, [0xF0], t, e1, 1, e2, [0xF0, 1]);
    ReachesMore(e0, [0xF0, 1], t, e2, 2, e3, [0xF0, 1, 2]);
    PushReaches(e0, [0xF0, 1, 2], t, e3);
    RunOne(e0, [0xF0, 1, 2], t);
    OpeningRead();
  }

  lemma OpeningStamp()
    ensures StampOf(Opening(0xBF, false), 0xFF) == 8191
  {
    hide BitOr;
    OrHigh(63, 127);
  }

  lemma OpeningRead()
    ensures PacketBytes(Packet(0xBF, [OPENING])) == [0xBF, 0xFF, 0xF0, 1, 2]
    ensures TimesOf(DecodePacket([0xBF, 0xFF, 0xF0, 1, 2]).toks) == [8191, 8191, 8191]
  {
    hide StampOf, Decode, NextDec, Flat;
    FlatOne(OPENING);
    OpeningStamp();
    var pkt: seq<byte> := [0xBF, 0xFF, 0xF0, 1, 2];
    var d := Opening(0xBF, false);
    assert pkt[1..] == SegBytes(OPENING) + [];
    DecodeSeg(d, OPENING, []);
    DecodeNil(NextDec(d, OPENING));
  }
}
