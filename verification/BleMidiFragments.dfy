/** How decoded events are cut into messages: payload of a system exclusive message in fragments of up to
    three bytes, everything else one by one. */
module BleMidiFragments {
  import opened Bytes
  import opened BleMidi
  import opened BleMidiDecoding

  predicate AreMessages(ms: seq<Message>) {
    forall i :: 0 <= i < |ms| ==> IsMessage(ms[i])
  }

  lemma NoToks()
    ensures AllToks([]) == []
  {
  }

  lemma Shipped(ms: seq<Message>, m: Message)
    requires AreMessages(ms) && IsMessage(m)
    ensures AllToks(ms + [m]) == AllToks(ms) + Toks(m)
  {
    assert (ms + [m])[..|ms|] == ms;
  }

  lemma {:induction false} AllToksConcat(a: seq<Message>, b: seq<Message>)
    requires AreMessages(a) && AreMessages(b)
    ensures AllToks(a + b) == AllToks(a) + AllToks(b)
  {
    hide Toks, AllToks;
    if b == [] {
      NoToks();
      assert a + b == a && AllToks(a) + [] == AllToks(a);
    } else {
      var m := |b| - 1;
      AllToksConcat(a, b[..m]);
      assert a + b == (a + b[..m]) + [b[m]] && b == b[..m] + [b[m]];
      Shipped(a + b[..m], b[m]);
      Shipped(b[..m], b[m]);
      assert (AllToks(a) + AllToks(b[..m])) + Toks(b[m]) == AllToks(a) + (AllToks(b[..m]) + Toks(b[m]));
    }
  }

  /** Number of messages, and of payload bytes in the last one. */
  datatype Cut = Cut(count: nat, fill: nat)

  /** One more event: payload joins a fragment that has room. */
  function CutMore(c: Cut, ev: Event): Cut {
    if ev.Sx? && ev.b != 0xF7 then
      if IsData(ev.b) && 0 < c.fill < 3 then c.(fill := c.fill + 1) else Cut(c.count + 1, 1)
    else Cut(c.count + 1, 0)
  }

  function CutOf(toks: seq<Stamped>): Cut {
    if toks == [] then Cut(0, 0) else CutMore(CutOf(toks[..|toks| - 1]), toks[|toks| - 1].ev)
  }

  /** Number of messages that some events take. */
  function CountMessages(toks: seq<Stamped>): nat {
    CutOf(toks).count
  }

  /** The events of the first messages, as many as `room` says. */
  function First(toks: seq<Stamped>, room: nat): seq<Stamped> {
    if CountMessages(toks) <= room then toks else First(toks[..|toks| - 1], room)
  }

  lemma CutAppend(toks: seq<Stamped>, t: Stamped)
    ensures CutOf(toks + [t]) == CutMore(CutOf(toks), t.ev)
  {
    assert (toks + [t])[..|toks|] == toks;
  }

  /** More events take as many messages or more, at most one for each. */
  lemma {:induction false} CutGrows(a: seq<Stamped>, b: seq<Stamped>)
    ensures CountMessages(a) <= CountMessages(a + b) <= CountMessages(a) + |b|
  {
    if b == [] {
      assert a + b == a;
    } else {
      var init := b[..|b| - 1];
      CutGrows(a, init);
      assert a + b == (a + init) + [b[|b| - 1]];
      CutAppend(a + init, b[|b| - 1]);
    }
  }

  /** What is kept is a beginning that takes no more messages than there is room for, and the longest one. */
  lemma {:induction false} FirstIs(toks: seq<Stamped>, room: nat)
    ensures var r := First(toks, room);
            && r <= toks && CountMessages(r) <= room
            && forall a :: a <= toks && CountMessages(a) <= room ==> |a| <= |r|
  {
    if CountMessages(toks) > room {
      var init := toks[..|toks| - 1];
      FirstIs(init, room);
      forall a | a <= toks && CountMessages(a) <= room
        ensures |a| <= |First(toks, room)|
      {
        assert |a| == |toks| ==> a == toks;
        assert a <= init;
      }
    }
  }

  /** Events that fill the room, with one more that needs another message behind them. */
  lemma FirstFull(toks: seq<Stamped>, a: seq<Stamped>, t: Stamped, room: nat)
    requires a + [t] <= toks && CountMessages(a) == room && CountMessages(a + [t]) > room
    ensures First(toks, room) == a && CountMessages(toks) > room
  {
    FirstIs(toks, room);
    var r := First(toks, room);
    assert a == toks[..|a|] && a <= toks;
    if |r| > |a| {
      assert r == (a + [t]) + r[|a| + 1..];
      CutGrows(a + [t], r[|a| + 1..]);
    }
    assert r == toks[..|r|];
    var n := |a| + 1;
    assert toks == (a + [t]) + toks[n..];
    CutGrows(a + [t], toks[n..]);
  }

  /** A message begins with other than payload. */
  predicate Opens(m: Message) {
    |m.bytes| == 3 && (m.tag.sysex ==> !IsData(m.bytes[0]))
  }

  /** A stored fragment holds one to three bytes, of which none but the first can be a status. */
  predicate Fragment(m: Message) {
    && |m.bytes| == 3
    && (m.tag.sysex ==>
          && 1 <= m.tag.count <= 3 && m.bytes[0] != 0xF7
          && forall k :: 1 <= k < m.tag.count ==> IsData(m.bytes[k]))
  }

  function FillOf(m: Message): nat {
    if m.tag.sysex then m.tag.count else 0
  }

  /** A fragment that begins with payload comes behind a full one, or behind something else. */
  predicate Follows(before: Message, m: Message) {
    Opens(m) || FillOf(before) == 0 || FillOf(before) == 3
  }

  /** Messages as the decoder cuts them. */
  ghost predicate Tight(ms: seq<Message>) {
    && AreMessages(ms)
    && (forall i :: 0 <= i < |ms| ==> Fragment(ms[i]))
    && (forall i :: 0 < i < |ms| ==> Follows(ms[i - 1], ms[i]))
  }

  lemma TightConcat(a: seq<Message>, b: seq<Message>)
    requires Tight(a) && Tight(b) && (a != [] && b != [] ==> Follows(a[|a| - 1], b[0]))
    ensures Tight(a + b)
  {
    hide Follows, Fragment;
    forall i | 0 < i < |a + b|
      ensures Follows((a + b)[i - 1], (a + b)[i])
    {
      if i > |a| {
        assert (a + b)[i - 1] == b[i - 1 - |a|] && (a + b)[i] == b[i - |a|];
      }
    }
  }

  /** The first `k` bytes of a fragment. */
  lemma {:induction false} CutPayload(toks: seq<Stamped>, m: Message, k: nat)
    requires IsMessage(m) && Fragment(m) && m.tag.sysex && 1 <= k <= m.tag.count
    requires Opens(m) || CutOf(toks).fill == 0 || CutOf(toks).fill == 3
    ensures k <= |Toks(m)| && CutOf(toks + Toks(m)[..k]) == Cut(CountMessages(toks) + 1, k)
    decreases k
  {
    var t := Toks(m);
    assert toks + t[..k] == (toks + t[..k - 1]) + [t[k - 1]];
    CutAppend(toks + t[..k - 1], t[k - 1]);
    if k == 1 {
      assert toks + t[..0] == toks;
    } else {
      CutPayload(toks, m, k - 1);
    }
  }

  /** Anything but payload is one event. */
  lemma OneEvent(m: Message)
    requires IsMessage(m) && !m.tag.sysex
    ensures |Toks(m)| == 1 && forall c: Cut :: CutMore(c, Toks(m)[0].ev) == Cut(c.count + 1, 0)
  {
  }

  /** A message takes one message more. */
  lemma CutMessage(toks: seq<Stamped>, m: Message)
    requires IsMessage(m) && Fragment(m)
    requires Opens(m) || CutOf(toks).fill == 0 || CutOf(toks).fill == 3
    ensures Toks(m) != [] && CutOf(toks + Toks(m)) == Cut(CountMessages(toks) + 1, FillOf(m))
    ensures CountMessages(toks + Toks(m)[..1]) == CountMessages(toks) + 1
  {
    hide CutOf, CutMore;
    if m.tag.sysex {
      CutPayload(toks, m, m.tag.count);
      CutPayload(toks, m, 1);
      assert Toks(m)[..m.tag.count] == Toks(m);
    } else {
      OneEvent(m);
      hide Toks;
      CutAppend(toks, Toks(m)[0]);
      assert Toks(m) == [Toks(m)[0]] && Toks(m)[..1] == Toks(m);
    }
  }

  /** The events of some messages take exactly these. */
  lemma {:induction false} CutTight(ms: seq<Message>)
    requires Tight(ms)
    ensures CutOf(AllToks(ms)) == Cut(|ms|, if ms == [] then 0 else FillOf(ms[|ms| - 1]))
  {
    hide Toks, Fragment;
    if ms != [] {
      var n := |ms| - 1;
      CutTight(ms[..n]);
      CutMessage(AllToks(ms[..n]), ms[n]);
    }
  }

  /** The events `all` need more messages than `ms`: the next one is `m`. */
  ghost predicate LacksOne(all: seq<Stamped>, ms: seq<Message>, m: Message) {
    AreMessages(ms) && IsMessage(m) && AllToks(ms) + Toks(m) <= all
  }

  /** A full ring keeps the first messages that fit. */
  lemma LackingFirst(all: seq<Stamped>, ms: seq<Message>, m: Message)
    requires Tight(ms) && Tight(ms + [m]) && LacksOne(all, ms, m)
    ensures First(all, |ms|) == AllToks(ms) && CountMessages(all) > |ms|
  {
    hide Toks, Fragment, AllToks;
    assert (ms + [m])[|ms|] == m;
    if ms != [] {
      assert (ms + [m])[|ms| - 1] == ms[|ms| - 1];
    }
    CutTight(ms);
    CutMessage(AllToks(ms), m);
    var a, t := AllToks(ms), Toks(m)[0];
    assert Toks(m)[..1] == [t];
    assert a + [t] <= a + Toks(m) <= all;
    FirstFull(all, a, t, |ms|);
  }

  lemma LacksMore(before: seq<Message>, new': seq<Message>, m: Message, all: seq<Stamped>, rest: seq<Stamped>)
    requires AreMessages(before) && all == AllToks(before) + rest && LacksOne(rest, new', m)
    ensures LacksOne(all, before + new', m)
  {
    hide Toks, AllToks;
    AllToksConcat(before, new');
    assert all == (AllToks(before) + (AllToks(new') + Toks(m))) + rest[|AllToks(new') + Toks(m)|..];
    assert AllToks(before + new') + Toks(m) == AllToks(before) + (AllToks(new') + Toks(m));
  }

  /** The first message, if there is one, begins with other than payload. */
  predicate Begins(ms: seq<Message>) {
    ms != [] ==> Opens(ms[0])
  }

  /** Messages before, and more messages with one that did not fit. */
  lemma TightMore(before: seq<Message>, new': seq<Message>, m: Message)
    requires Tight(before) && Tight(new' + [m])
    requires Begins(new' + [m]) || (before != [] ==> FillOf(before[|before| - 1]) == 0)
    ensures Tight(before + new') && Tight((before + new') + [m])
    ensures Begins(before) && Begins(new' + [m]) ==> Begins(before + new' + [m])
  {
    hide Fragment;
    assert Tight(new') by {
      assert forall i :: 0 <= i < |new'| ==> new'[i] == (new' + [m])[i];
    }
    assert new' != [] ==> new'[0] == (new' + [m])[0];
    TightConcat(before, new');
    TightConcat(before, new' + [m]);
    assert before + (new' + [m]) == (before + new') + [m];
  }

  /** Payload under way: full fragments, and one that is not shipped yet. `begun` tells that they begin with
      the start of the message. */
  ghost predicate Filling(ms: seq<Message>, m: Message, begun: bool) {
    && Tight(ms) && IsMessage(m) && m.tag.sysex
    && (ms != [] ==> FillOf(ms[|ms| - 1]) == 3)
    && (m.tag.count > 0 ==> Fragment(m))
    && (begun ==> if ms == [] then m.tag.count > 0 && Opens(m) else Opens(ms[0]))
  }

  lemma FillingShip(ms: seq<Message>, m: Message, begun: bool)
    requires Filling(ms, m, begun) && m.tag.count > 0
    ensures Tight(ms + [m]) && (begun ==> Begins(ms + [m]) && Begins(ms))
    ensures m.tag.count == 3 ==> Filling(ms + [m], m.(tag := SysexTag(0)), begun)
  {
    hide Fragment;
    TightConcat(ms, [m]);
  }

  lemma FillingAbsorb(ms: seq<Message>, m: Message, begun: bool, b: byte)
    requires Filling(ms, m, begun) && m.tag.count < 3 && IsData(b)
    ensures Filling(ms, m.(bytes := m.bytes[m.tag.count := b], tag := m.tag.(count := m.tag.count + 1)), begun)
  {
    hide Tight;
  }
}
