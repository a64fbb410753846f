/** What a drum kit sends, told from the calls alone: every hit's note-on with its velocity, and a note-off for the
    note itself, for the oldest note when the queue is full, and for the notes whose gate time is over. */
module NoteQueueRuns {
  import opened NoteQueue

  // Note-ons

  function Ons(trace: seq<Message>): seq<Message> {
    if trace == [] then []
    else
      var m := trace[|trace| - 1];
      Ons(trace[..|trace| - 1]) + if m.On? then [m] else []
  }

  /** The note-ons that the calls ask for; note 255 stands for none. */
  function Hits(calls: seq<Call>): seq<Message> {
    if calls == [] then []
    else
      var c := calls[|calls| - 1];
      Hits(calls[..|calls| - 1]) + if c.Hit? && c.note != 255 then [On(c.note, c.velocity)] else []
  }

  lemma OnsMore(trace: seq<Message>, m: Message)
    ensures Ons(trace + [m]) == Ons(trace) + if m.On? then [m] else []
  {
    assert (trace + [m])[..|trace|] == trace;
  }

  lemma {:induction false} OnsOfOffs(trace: seq<Message>, q: seq<Pending>)
    ensures Ons(trace + Offs(q)) == Ons(trace)
    decreases |q|
  {
    hide Ons;
    if q == [] {
      assert trace + Offs(q) == trace;
    } else {
      var n := |q| - 1;
      OnsOfOffs(trace, q[..n]);
      assert trace + Offs(q) == trace + Offs(q[..n]) + [Off(q[n].note)];
      OnsMore(trace + Offs(q[..n]), Off(q[n].note));
    }
  }

  lemma OnsOfPlay(k: Kit, capacity: nat, note: nat, velocity: nat, now: nat)
    requires capacity > 0
    ensures Ons(Play(k, capacity, note, velocity, now).trace) == Ons(k.trace) + [On(note, velocity)]
  {
    hide Ons, Without, Find;
    var i := Find(k.queue, note);
    var k1 := if i < |k.queue| then Stop(k, i) else k;
    OnsMore(k.trace, Off(note));
    OnsMore(k1.trace, On(note, velocity));
    var k2 := k1.(trace := k1.trace + [On(note, velocity)]);
    if |k2.queue| >= capacity {
      OnsMore(k2.trace, Off(k2.queue[0].note));
    }
  }

  lemma OnsOfHit(k: Kit, note: nat, velocity: nat)
    ensures Ons(Direct(k, note, velocity).trace) == Ons(k.trace) + [On(note, velocity)]
  {
    hide Ons;
    OnsMore(k.trace, On(note, velocity));
    OnsMore(k.trace + [On(note, velocity)], Off(note));
  }

  lemma OnsOfCall(s: System, capacity: nat, c: Call)
    requires capacity > 0
    ensures Ons(After(s, capacity, c).kit.trace)
            == Ons(s.kit.trace) + if c.Hit? && c.note != 255 then [On(c.note, c.velocity)] else []
  {
    hide Ons, Play, Direct, Expired, Offs;
    match c
    case Hit(note, velocity, now) =>
      OnsOfPlay(s.kit, capacity, note, velocity, now);
      OnsOfHit(s.kit, note, velocity);
    case Pass(now) =>
      OnsOfOffs(s.kit.trace, s.kit.queue[..Expired(s.kit.queue, s.gate, now)]);
    case SetGate(gate, now) =>
  }

  /** Over any run the note-ons sent are those of the hits, in their order and with their velocities. */
  lemma {:induction false} NoteOnsSent(capacity: nat, calls: seq<Call>)
    requires capacity > 0
    ensures Ons(Run(capacity, calls).kit.trace) == Hits(calls)
  {
    if calls != [] {
      var before, c := calls[..|calls| - 1], calls[|calls| - 1];
      NoteOnsSent(capacity, before);
      RunNext(capacity, calls);
      OnsOfCall(Run(capacity, before), capacity, c);
      hide Run, Ons, After;
    }
  }

  // Note-offs of a hit

  /** The notes waiting, without one of them. */
  function Others(q: seq<Pending>, note: nat): seq<Pending> {
    if q == [] then [] else (if q[0].note == note then [] else [q[0]]) + Others(q[1..], note)
  }

  lemma {:induction false} NoneLeftOut(q: seq<Pending>, note: nat)
    requires !Queued(q, note)
    ensures Others(q, note) == q
  {
    if q != [] {
      assert forall i :: 0 <= i < |q| - 1 ==> q[1..][i] == q[i + 1];
      assert q[0].note != note;
      NoneLeftOut(q[1..], note);
    }
  }

  lemma QueuedBehind(q: seq<Pending>, note: nat)
    requires q != [] && q[0].note != note
    ensures Queued(q, note) <==> Queued(q[1..], note)
  {
    var rest := q[1..];
    if Queued(rest, note) {
      var j :| 0 <= j < |rest| && rest[j].note == note;
      assert q[j + 1].note == note;
    }
    if Queued(q, note) {
      var j :| 0 <= j < |q| && q[j].note == note;
      assert rest[j - 1].note == note;
    }
  }

  lemma OthersBehind(q: seq<Pending>, note: nat)
    requires q != [] && q[0].note != note
    ensures Queued(q, note) <==> Queued(q[1..], note)
    ensures var i := Find(q[1..], note);
            && Find(q, note) == i + 1 && Others(q, note) == [q[0]] + Others(q[1..], note)
            && (i < |q[1..]| ==> Without(q, i + 1) == [q[0]] + Without(q[1..], i))
  {
    QueuedBehind(q, note);
    hide Queued;
  }

  lemma UniqueBehind(q: seq<Pending>)
    requires Unique(q) && q != []
    ensures Unique(q[1..]) && !Queued(q[1..], q[0].note)
  {
    assert forall i :: 0 <= i < |q| - 1 ==> q[1..][i] == q[i + 1];
  }

  lemma FirstOut(q: seq<Pending>)
    requires q != []
    ensures Queued(q, q[0].note) && Find(q, q[0].note) == 0
    ensures Others(q, q[0].note) == Others(q[1..], q[0].note) && Without(q, 0) == q[1..]
  {
  }

  lemma {:induction false} OthersAre(q: seq<Pending>, note: nat)
    requires Unique(q)
    ensures var i := Find(q, note);
            && (i < |q| <==> Queued(q, note))
            && Others(q, note) == if i < |q| then Without(q, i) else q
  {
    if q == [] {
      assert Others(q, note) == q && !Queued(q, note);
    } else {
      UniqueBehind(q);
      hide Unique, Queued, Find, Others, Without;
      if q[0].note == note {
        NoneLeftOut(q[1..], note);
        FirstOut(q);
      } else {
        OthersAre(q[1..], note);
        OthersBehind(q, note);
      }
    }
  }

  lemma WithoutFirst(q: seq<Pending>)
    requires q != []
    ensures Without(q, 0) == q[1..]
  {
  }

  /** A hit stops its own note if that is still playing, and then starts it; only when the queue is full without
      that note, the oldest of the others is stopped. All others keep waiting. */
  lemma PlayTells(k: Kit, capacity: nat, note: nat, velocity: nat, now: nat)
    requires capacity > 0 && Unique(k.queue)
    ensures var others, k' := Others(k.queue, note), Play(k, capacity, note, velocity, now);
            && k'.queue == (if |others| < capacity then others else others[1..]) + [Pending(note, now)]
            && k'.trace == k.trace
                           + (if Queued(k.queue, note) then [Off(note)] else [])
                           + [On(note, velocity)]
                           + (if |others| < capacity then [] else [Off(others[0].note)])
  {
    hide Unique, Queued, Others, Without, Find;
    OthersAre(k.queue, note);
    var others := Others(k.queue, note);
    if |others| >= capacity {
      assert Without(others, 0) == others[1..] by { WithoutFirst(others); }
    }
    assert k.trace + [] == k.trace;
  }

  // Which hit a waiting note comes from

  /** The hit that started a note, call `j`: it has not been hit since, at least not with a gate time. */
  ghost predicate StartedBy(capacity: nat, calls: seq<Call>, p: Pending, j: nat)
    requires capacity > 0
  {
    && j < |calls| && calls[j].Hit? && calls[j].note == p.note != 255 && calls[j].now == p.time
    && Run(capacity, calls[..j]).gate > 0
    && forall l :: j < l < |calls| && calls[l].Hit? && calls[l].note == p.note ==> Run(capacity, calls[..l]).gate == 0
  }

  lemma {:induction false} OthersIn(q: seq<Pending>, note: nat, p: Pending)
    ensures p in Others(q, note) <==> p in q && p.note != note
  {
    if q != [] {
      OthersIn(q[1..], note, p);
      assert q == [q[0]] + q[1..];
    }
  }

  /** A note waiting after a call is that of the call, at the end, or another one that waited before. */
  lemma LeftWaiting(s: System, capacity: nat, c: Call, i: nat)
    requires capacity > 0 && Unique(s.kit.queue) && i < |After(s, capacity, c).kit.queue|
    ensures var p, delayed := After(s, capacity, c).kit.queue[i], c.Hit? && c.note != 255 && s.gate > 0;
            if delayed && i == |After(s, capacity, c).kit.queue| - 1 then p == Pending(c.note, c.now)
            else p in s.kit.queue && (delayed ==> p.note != c.note)
  {
    hide Expired, Unique, Play, Others;
    if c.Hit? && c.note != UNASSIGNED && s.gate > 0 {
      PlayTells(s.kit, capacity, c.note, c.velocity, c.now);
      OthersIn(s.kit.queue, c.note, After(s, capacity, c).kit.queue[i]);
    }
  }

  lemma QueueUnique(capacity: nat, calls: seq<Call>)
    requires capacity > 0 && Monotone(calls) && NoClash(capacity, calls)
    ensures Unique(Run(capacity, calls).kit.queue)
  {
    hide NoClash, Run, Monotone;
    RunConsistent(capacity, calls);
  }

  /** Every note waiting was started by a hit. */
  lemma {:induction false} WaitingSince(capacity: nat, calls: seq<Call>, i: nat) returns (j: nat)
    requires capacity > 0 && Monotone(calls) && NoClash(capacity, calls) && i < |Run(capacity, calls).kit.queue|
    ensures StartedBy(capacity, calls, Run(capacity, calls).kit.queue[i], j)
    decreases |calls|
  {
    assert calls != [];
    var n := |calls| - 1;
    var before, c := calls[..n], calls[n];
    assert NoClash(capacity, before);
    QueueUnique(capacity, before);
    RunNext(capacity, calls);
    hide NoClash, After, Run, Unique, StartedBy;
    var s, p := Run(capacity, before), Run(capacity, calls).kit.queue[i];
    LeftWaiting(s, capacity, c, i);
    if c.Hit? && c.note != 255 && s.gate > 0 && i == |Run(capacity, calls).kit.queue| - 1 {
      j := n;
      assert StartedBy(capacity, calls, p, n) by { StartedNow(capacity, calls); }
    } else {
      var m :| 0 <= m < |s.kit.queue| && s.kit.queue[m] == p;
      j := WaitingSince(capacity, before, m);
      StartedBefore(capacity, calls, p, j);
    }
  }

  lemma StartedNow(capacity: nat, calls: seq<Call>)
    requires capacity > 0 && calls != [] && calls[|calls| - 1].Hit? && calls[|calls| - 1].note != 255
    requires Run(capacity, calls[..|calls| - 1]).gate > 0
    ensures StartedBy(capacity, calls, Pending(calls[|calls| - 1].note, calls[|calls| - 1].now), |calls| - 1)
  {
    hide Run;
  }

  lemma StartedBefore(capacity: nat, calls: seq<Call>, p: Pending, j: nat)
    requires capacity > 0 && calls != [] && StartedBy(capacity, calls[..|calls| - 1], p, j)
    requires var c := calls[|calls| - 1];
             c.Hit? && c.note == p.note ==> Run(capacity, calls[..|calls| - 1]).gate == 0
    ensures StartedBy(capacity, calls, p, j)
  {
    hide Run;
    var n := |calls| - 1;
    var before := calls[..n];
    assert before[..j] == calls[..j];
    forall l | j < l < |calls| && calls[l].Hit? && calls[l].note == p.note
      ensures Run(capacity, calls[..l]).gate == 0
    {
      if l < n {
        assert before[..l] == calls[..l] && before[l] == calls[l];
      }
    }
  }

  /** With prompt passes, a pass stops the notes waiting that were last hit as long ago as the gate time or longer,
      and no others. */
  lemma StoppedInTime(capacity: nat, calls: seq<Call>, now: nat, i: nat) returns (j: nat)
    requires capacity > 0 && Monotone(calls + [Pass(now)]) && Prompt(capacity, calls + [Pass(now)]) && NoClash(capacity, calls)
    requires i < |Run(capacity, calls).kit.queue|
    ensures var s := Run(capacity, calls);
            && StartedBy(capacity, calls, s.kit.queue[i], j)
            && (i < Expired(s.kit.queue, s.gate, now) <==> now - calls[j].now >= s.gate)
  {
    assert Monotone(calls) by {
      var all := calls + [Pass(now)];
      assert forall j :: 0 <= j < |calls| ==> calls[j] == all[j];
    }
    hide Run, NoClash, Monotone, Prompt, Expired;
    j := WaitingSince(capacity, calls, i);
    GateTimesMet(capacity, calls, now, i);
  }

  /** What a pass sends and leaves. */
  lemma PassTells(capacity: nat, calls: seq<Call>, now: nat)
    requires capacity > 0
    ensures var s, s' := Run(capacity, calls), Run(capacity, calls + [Pass(now)]);
            var n := Expired(s.kit.queue, s.gate, now);
            && s'.kit.queue == s.kit.queue[n..] && |s'.kit.trace| == |s.kit.trace| + n
            && (forall i :: 0 <= i < n ==> s'.kit.trace[|s.kit.trace| + i] == Off(s.kit.queue[i].note))
            && s'.gate == s.gate
  {
    hide *;
    NextCall(capacity, calls, Pass(now));
    var s := Run(capacity, calls);
    PassIs(s, capacity, now);
    OffsBehind(s.kit, Expired(s.kit.queue, s.gate, now));
  }

  lemma PassIs(s: System, capacity: nat, now: nat)
    requires capacity > 0
    ensures After(s, capacity, Pass(now)) == s.(kit := StopOldest(s.kit, Expired(s.kit.queue, s.gate, now)))
  {
    hide Expired, StopOldest;
  }

  lemma OffsBehind(k: Kit, n: nat)
    requires n <= |k.queue|
    ensures var k' := StopOldest(k, n);
            && k'.queue == k.queue[n..] && |k'.trace| == |k.trace| + n
            && forall i :: 0 <= i < n ==> k'.trace[|k.trace| + i] == Off(k.queue[i].note)
  {
  }

  /** The gate time is that set last, at most 30 seconds. */
  lemma {:induction false} GateIsSet(capacity: nat, calls: seq<Call>, j: nat)
    requires capacity > 0 && j < |calls| && calls[j].SetGate?
    requires forall l :: j < l < |calls| ==> !calls[l].SetGate?
    ensures Run(capacity, calls).gate == if calls[j].gate <= 30_000 then calls[j].gate else 30_000
    decreases |calls|
  {
    hide Play, Expire, Direct, Run;
    RunNext(capacity, calls);
    if j < |calls| - 1 {
      GateIsSet(capacity, calls[..|calls| - 1], j);
    }
  }
}
