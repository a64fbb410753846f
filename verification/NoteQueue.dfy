/** Delayed note-offs: pads play notes that a queue stops after the gate time. */
module NoteQueue {
  import opened Sensing

  datatype Message = On(note: nat, velocity: nat) | Off(note: nat)

  /** A queued note, and the true time it was played. */
  datatype Pending = Pending(note: nat, time: nat)

  /** The notes waiting for their note-off, oldest first, and all messages sent. */
  datatype Kit = Kit(queue: seq<Pending>, trace: seq<Message>)

  // The trace

  /** The last message of a note was a note-on. */
  predicate Playing(trace: seq<Message>, note: nat) {
    trace != [] &&
    var m := trace[|trace| - 1];
    if m.note == note then m.On? else Playing(trace[..|trace| - 1], note)
  }

  /** Note-ons and note-offs alternate for every note, beginning with a note-on. */
  predicate Alternating(trace: seq<Message>) {
    trace == [] ||
    var before, m := trace[..|trace| - 1], trace[|trace| - 1];
    Alternating(before) && m.On? == !Playing(before, m.note)
  }

  lemma Sent(trace: seq<Message>, m: Message)
    ensures Alternating(trace + [m]) <==> Alternating(trace) && m.On? == !Playing(trace, m.note)
    ensures forall n :: Playing(trace + [m], n) == if n == m.note then m.On? else Playing(trace, n)
  {
    assert (trace + [m])[..|trace|] == trace;
  }

  /** Messages of one note. */
  function Of(trace: seq<Message>, note: nat): (r: seq<Message>)
    ensures forall i :: 0 <= i < |r| ==> r[i].note == note
  {
    if trace == [] then []
    else
      var m := trace[|trace| - 1];
      Of(trace[..|trace| - 1], note) + if m.note == note then [m] else []
  }

  /** In an alternating trace the messages of a note are On, Off, On, Off and so on. */
  lemma {:induction false} AlternatingOf(trace: seq<Message>, note: nat)
    requires Alternating(trace)
    ensures forall i :: 0 <= i < |Of(trace, note)| ==> Of(trace, note)[i].On? == (i % 2 == 0)
    ensures Playing(trace, note) <==> |Of(trace, note)| % 2 == 1
  {
    if trace != [] {
      AlternatingOf(trace[..|trace| - 1], note);
    }
  }

  // The queue

  predicate Queued(q: seq<Pending>, note: nat) {
    exists i :: 0 <= i < |q| && q[i].note == note
  }

  predicate Unique(q: seq<Pending>) {
    forall i, j :: 0 <= i < j < |q| ==> q[i].note != q[j].note
  }

  predicate InOrder(q: seq<Pending>) {
    forall i, j :: 0 <= i < j < |q| ==> q[i].time <= q[j].time
  }

  /** The queue holds exactly the notes that are playing, each once, oldest first. */
  ghost predicate Consistent(k: Kit, capacity: nat, now: nat) {
    && Alternating(k.trace) && Unique(k.queue) && InOrder(k.queue) && |k.queue| <= capacity
    && (forall i :: 0 <= i < |k.queue| ==> k.queue[i].time <= now)
    && (forall n :: Playing(k.trace, n) <==> Queued(k.queue, n))
  }

  /** Position of a note in the queue, its length if it is not there. */
  function Find(q: seq<Pending>, note: nat): (i: nat)
    ensures i <= |q| && (i < |q| ==> q[i].note == note) && (forall j :: 0 <= j < i ==> q[j].note != note)
  {
    if q == [] || q[0].note == note then 0 else 1 + Find(q[1..], note)
  }

  function Without(q: seq<Pending>, i: nat): seq<Pending>
    requires i < |q|
  {
    q[..i] + q[i + 1..]
  }

  function Stop(k: Kit, i: nat): Kit
    requires i < |k.queue|
  {
    Kit(Without(k.queue, i), k.trace + [Off(k.queue[i].note)])
  }

  /** A note played by a pad: stopped first if it is still playing, and pushing out the oldest note
      if the queue is full. */
  function Play(k: Kit, capacity: nat, note: nat, velocity: nat, now: nat): Kit
    requires capacity > 0
  {
    var i := Find(k.queue, note);
    var k1 := if i < |k.queue| then Stop(k, i) else k;
    var k2 := k1.(trace := k1.trace + [On(note, velocity)]);
    var k3 := if |k2.queue| >= capacity then Stop(k2, 0) else k2;
    k3.(queue := k3.queue + [Pending(note, now)])
  }

  /** The gate time has passed, as the 32-bit clock shows it. */
  predicate Due(p: Pending, gate: nat, now: nat) {
    Between(p.time % W32, now % W32) >= gate
  }

  /** Number of notes that a pass over the queue stops: the oldest ones, up to the first not due. */
  function Expired(q: seq<Pending>, gate: nat, now: nat): (n: nat)
    ensures n <= |q|
    ensures forall i :: 0 <= i < n ==> Due(q[i], gate, now)
    ensures n < |q| ==> !Due(q[n], gate, now)
  {
    if q == [] || !Due(q[0], gate, now) then 0 else 1 + Expired(q[1..], gate, now)
  }

  function Offs(q: seq<Pending>): (r: seq<Message>)
    ensures |r| == |q|
  {
    seq(|q|, i requires 0 <= i < |q| => Off(q[i].note))
  }

  /** The oldest `n` notes are stopped. */
  function StopOldest(k: Kit, n: nat): Kit
    requires n <= |k.queue|
  {
    Kit(k.queue[n..], k.trace + Offs(k.queue[..n]))
  }

  /** The notes that have been playing for the gate time are stopped. */
  function Expire(k: Kit, gate: nat, now: nat): Kit {
    StopOldest(k, Expired(k.queue, gate, now))
  }

  lemma StopConsistent(k: Kit, capacity: nat, now: nat, i: nat)
    requires Consistent(k, capacity, now) && i < |k.queue|
    ensures Consistent(Stop(k, i), capacity, now) && !Playing(Stop(k, i).trace, k.queue[i].note)
  {
    hide Playing, Alternating;
    var q, q' := k.queue, Without(k.queue, i);
    var note := q[i].note;
    Sent(k.trace, Off(note));
    assert Queued(q, note);
    WithoutQueued(q, i);
    hide Queued;
  }

  lemma WithoutQueued(q: seq<Pending>, i: nat)
    requires Unique(q) && i < |q|
    ensures forall n :: Queued(Without(q, i), n) <==> Queued(q, n) && n != q[i].note
  {
    var q' := Without(q, i);
    forall n
      ensures Queued(q', n) <==> Queued(q, n) && n != q[i].note
    {
      if Queued(q, n) && n != q[i].note {
        var j :| 0 <= j < |q| && q[j].note == n;
        assert q'[if j < i then j else j - 1] == q[j];
      }
      if Queued(q', n) {
        var j :| 0 <= j < |q'| && q'[j].note == n;
        assert q'[j] == q[if j < i then j else j + 1];
      }
    }
  }

  /** Playing a note keeps the queue and the trace consistent. */
  lemma PlayConsistent(k: Kit, capacity: nat, note: nat, velocity: nat, now: nat, before: nat)
    requires capacity > 0 && Consistent(k, capacity, before) && before <= now
    ensures Consistent(Play(k, capacity, note, velocity, now), capacity, now)
  {
    hide Playing, Alternating, Find;
    var i := Find(k.queue, note);
    if i < |k.queue| {
      StopConsistent(k, capacity, before, i);
    }
    var k1 := if i < |k.queue| then Stop(k, i) else k;
    assert !Playing(k1.trace, note);
    Started(k1, capacity, note, velocity, now, before);
  }

  lemma Started(k: Kit, capacity: nat, note: nat, velocity: nat, now: nat, before: nat)
    requires capacity > 0 && Consistent(k, capacity, before) && before <= now && !Playing(k.trace, note)
    ensures var k2 := k.(trace := k.trace + [On(note, velocity)]);
            var k3 := if |k2.queue| >= capacity then Stop(k2, 0) else k2;
            Consistent(k3.(queue := k3.queue + [Pending(note, now)]), capacity, now)
  {
    hide Playing, Alternating, Unique, InOrder, Queued;
    Sent(k.trace, On(note, velocity));
    var k2 := k.(trace := k.trace + [On(note, velocity)]);
    var k3 := if |k2.queue| >= capacity then Stop(k2, 0) else k2;
    var q := if |k.queue| >= capacity then k.queue[1..] else k.queue;
    if |k.queue| >= capacity {
      FirstQueued(k.queue);
      Sent(k2.trace, Off(k.queue[0].note));
    }
    assert k3.queue == q;
    InOrderMore(k.queue, q, note, now);
    forall n
      ensures Queued(q + [Pending(note, now)], n) <==> n == note || (Queued(k.queue, n) && (q != k.queue ==> n != k.queue[0].note))
    {
      QueuedMore(k.queue, q, note, now, n);
    }
  }

  lemma FirstQueued(q: seq<Pending>)
    requires q != []
    ensures Queued(q, q[0].note)
  {
  }

  lemma InOrderMore(all: seq<Pending>, q: seq<Pending>, note: nat, now: nat)
    requires Unique(all) && InOrder(all) && !Queued(all, note) && (q == all || (all != [] && q == all[1..]))
    requires forall i :: 0 <= i < |all| ==> all[i].time <= now
    ensures var q' := q + [Pending(note, now)];
            Unique(q') && InOrder(q') && forall i :: 0 <= i < |q'| ==> q'[i].time <= now
  {
  }

  lemma QueuedMore(all: seq<Pending>, q: seq<Pending>, note: nat, now: nat, n: nat)
    requires Unique(all) && (q == all || (all != [] && q == all[1..]))
    ensures Queued(q + [Pending(note, now)], n) <==> n == note || (Queued(all, n) && (q != all ==> n != all[0].note))
  {
    var q' := q + [Pending(note, now)];
    assert q'[|q|].note == note;
    if Queued(all, n) && (q != all ==> n != all[0].note) {
      var j :| 0 <= j < |all| && all[j].note == n;
      assert q'[if q == all then j else j - 1].note == n;
    }
    if Queued(q', n) && n != note {
      var j :| 0 <= j < |q'| && q'[j].note == n;
      assert all[if q == all then j else j + 1].note == n;
    }
  }

  lemma StopOneMore(k: Kit, n: nat)
    requires n < |k.queue|
    ensures StopOldest(k, n + 1) == Stop(StopOldest(k, n), 0)
  {
    var q := k.queue;
    assert q[n..][..0] + q[n..][1..] == q[n + 1..];
    assert Offs(q[..n + 1]) == Offs(q[..n]) + [Off(q[n].note)];
    assert k.trace + (Offs(q[..n]) + [Off(q[n].note)]) == k.trace + Offs(q[..n]) + [Off(q[n].note)];
  }

  lemma StopNone(k: Kit)
    ensures StopOldest(k, 0) == k
  {
    assert k.trace + Offs(k.queue[..0]) == k.trace;
  }

  /** A pass goes on exactly as long as the oldest note left is due. */
  lemma OneMoreDue(k: Kit, n: nat, gate: nat, now: nat)
    requires n <= Expired(k.queue, gate, now)
    requires var q := StopOldest(k, n).queue; q != [] && Due(q[0], gate, now)
    ensures n < Expired(k.queue, gate, now) && StopOldest(k, n + 1) == Stop(StopOldest(k, n), 0)
  {
    hide Due, Expired;
    StopOneMore(k, n);
  }

  lemma NoneDue(k: Kit, n: nat, gate: nat, now: nat)
    requires n <= Expired(k.queue, gate, now)
    requires var q := StopOldest(k, n).queue; q == [] || !Due(q[0], gate, now)
    ensures StopOldest(k, n) == Expire(k, gate, now)
  {
    hide Due, Expired;
  }

  lemma {:induction false} StopOldestConsistent(k: Kit, capacity: nat, now: nat, n: nat)
    requires Consistent(k, capacity, now) && n <= |k.queue|
    ensures Consistent(StopOldest(k, n), capacity, now)
    decreases n
  {
    hide Consistent, Stop;
    if n == 0 {
      StopNone(k);
    } else {
      StopOldestConsistent(k, capacity, now, n - 1);
      StopConsistent(StopOldest(k, n - 1), capacity, now, 0);
      StopOneMore(k, n - 1);
    }
  }

  /** A pass keeps the queue and the trace consistent. */
  lemma ExpireConsistent(k: Kit, capacity: nat, gate: nat, now: nat, before: nat)
    requires Consistent(k, capacity, before) && before <= now
    ensures Consistent(Expire(k, gate, now), capacity, now)
  {
    hide Playing, Alternating, Unique, InOrder, Queued, StopOldest;
    StopOldestConsistent(k, capacity, now, Expired(k.queue, gate, now));
  }

  predicate Before(q: seq<Pending>, now: nat) {
    InOrder(q) && forall i :: 0 <= i < |q| ==> q[i].time <= now
  }

  /** Clock time never exceeds true time, so no note is stopped early. */
  lemma NotStoppedEarly(q: seq<Pending>, gate: nat, now: nat, i: nat)
    requires Before(q, now) && i < Expired(q, gate, now)
    ensures now - q[i].time >= gate
  {
    assert Due(q[i], gate, now);
    BetweenIs(q[i].time, now);
  }

  /** Everything left is younger than the gate time if and only if the oldest note left, if there is
      one, is younger than the period of the clock. */
  lemma NotStoppedLate(q: seq<Pending>, gate: nat, now: nat)
    requires Before(q, now) && gate <= W32
    ensures var n := Expired(q, gate, now);
            (forall i :: n <= i < |q| ==> now - q[i].time < gate) <==> n == |q| || now - q[n].time < W32
  {
    var n := Expired(q, gate, now);
    if n < |q| {
      assert !Due(q[n], gate, now);
      BetweenIs(q[n].time, now);
      assert forall i :: n <= i < |q| ==> q[n].time <= q[i].time;
    }
  }

  /** Without a gate time note-on and note-off are sent at once, past the queue. */
  function Direct(k: Kit, note: nat, velocity: nat): Kit {
    k.(trace := k.trace + [On(note, velocity)] + [Off(note)])
  }

  /** That keeps the queue and the trace consistent if and only if the note is not waiting in the
      queue, as it may be after the gate time was switched off. */
  lemma DirectConsistent(k: Kit, capacity: nat, now: nat, note: nat, velocity: nat)
    requires Consistent(k, capacity, now)
    ensures Consistent(Direct(k, note, velocity), capacity, now) <==> !Queued(k.queue, note)
  {
    hide Playing, Alternating, Queued, Unique, InOrder;
    Sent(k.trace, On(note, velocity));
    Sent(k.trace + [On(note, velocity)], Off(note));
    assert Playing(k.trace, note) == Queued(k.queue, note);
  }

  // Whole runs

  const UNASSIGNED := 255
  const MAX_GATE := 30_000

  /** The kit and its gate time, which may be changed at any time. */
  datatype System = System(kit: Kit, gate: nat)

  datatype Call = Hit(note: nat, velocity: nat, now: nat) | Pass(now: nat) | SetGate(gate: nat, now: nat)

  predicate Monotone(calls: seq<Call>) {
    forall i, j :: 0 <= i < j < |calls| ==> calls[i].now <= calls[j].now
  }

  function Limited(gate: nat): nat {
    if gate > MAX_GATE then MAX_GATE else gate
  }

  function After(s: System, capacity: nat, c: Call): System
    requires capacity > 0
  {
    match c
    case Hit(note, velocity, now) =>
      if note == UNASSIGNED then s
      else if s.gate > 0 then s.(kit := Play(s.kit, capacity, note, velocity, now))
      else s.(kit := Direct(s.kit, note, velocity))
    case Pass(now) => s.(kit := Expire(s.kit, s.gate, now))
    case SetGate(gate, now) => s.(gate := Limited(gate))
  }

  const START := System(Kit([], []), 0)

  /** A run from the start. */
  function Run(capacity: nat, calls: seq<Call>): System
    requires capacity > 0
  {
    if calls == [] then START
    else After(Run(capacity, calls[..|calls| - 1]), capacity, calls[|calls| - 1])
  }

  function Now(calls: seq<Call>): nat {
    if calls == [] then 0 else calls[|calls| - 1].now
  }

  /** A note is played without a gate time while it waits for its note-off. */
  predicate Clash(s: System, c: Call) {
    c.Hit? && c.note != UNASSIGNED && s.gate == 0 && Queued(s.kit.queue, c.note)
  }

  predicate NoClash(capacity: nat, calls: seq<Call>)
    requires capacity > 0
  {
    calls != [] ==>
      var before := calls[..|calls| - 1];
      NoClash(capacity, before) && !Clash(Run(capacity, before), calls[|calls| - 1])
  }

  lemma {:induction false} AlternatingBefore(trace: seq<Message>, n: nat)
    requires Alternating(trace) && n <= |trace|
    ensures Alternating(trace[..n])
    decreases |trace|
  {
    if n < |trace| {
      AlternatingBefore(trace[..|trace| - 1], n);
      assert trace[..|trace| - 1][..n] == trace[..n];
    } else {
      assert trace[..n] == trace;
    }
  }

  /** Messages sent stay sent. */
  lemma SentStays(s: System, capacity: nat, c: Call)
    requires capacity > 0
    ensures var s' := After(s, capacity, c);
            |s.kit.trace| <= |s'.kit.trace| && s'.kit.trace[..|s.kit.trace|] == s.kit.trace
  {
  }

  /** A call keeps the queue and the trace consistent if and only if it does not clash. */
  lemma AfterConsistent(s: System, capacity: nat, c: Call, from: nat)
    requires capacity > 0 && Consistent(s.kit, capacity, from) && from <= c.now
    ensures Consistent(After(s, capacity, c).kit, capacity, c.now) <==> !Clash(s, c)
  {
    ConsistentLater(s.kit, capacity, from, c.now);
    hide Consistent, Play, Expire, Direct, Queued;
    match c
    case Hit(note, velocity, now) =>
      PlayConsistent(s.kit, capacity, note, velocity, now, from);
      DirectConsistent(s.kit, capacity, now, note, velocity);
    case Pass(now) => ExpireConsistent(s.kit, capacity, s.gate, now, from);
    case SetGate(gate, now) =>
  }

  lemma ConsistentLater(k: Kit, capacity: nat, from: nat, now: nat)
    requires Consistent(k, capacity, from) && from <= now
    ensures Consistent(k, capacity, now)
  {
    hide Playing, Alternating, Queued;
  }

  /** After any run the messages of every note alternate and the notes playing are exactly those
      queued, if and only if no call clashed. */
  lemma {:induction false} RunConsistent(capacity: nat, calls: seq<Call>)
    requires capacity > 0 && Monotone(calls)
    ensures Consistent(Run(capacity, calls).kit, capacity, Now(calls)) <==> NoClash(capacity, calls)
    ensures Alternating(Run(capacity, calls).kit.trace) <==> NoClash(capacity, calls)
  {
    if calls == [] {
    } else {
      var before, c := calls[..|calls| - 1], calls[|calls| - 1];
      RunConsistent(capacity, before);
      hide Playing, Unique, InOrder, Queued, Clash, Run;
      var s := Run(capacity, before);
      assert Run(capacity, calls) == After(s, capacity, c) by { RunNext(capacity, calls); }
      if NoClash(capacity, before) {
        AfterConsistent(s, capacity, c, Now(before));
        if c.Hit? && Clash(s, c) {
          ClashBreaks(s, capacity, c, Now(before));
        }
      } else if Alternating(After(s, capacity, c).kit.trace) {
        SentStays(s, capacity, c);
        AlternatingBefore(After(s, capacity, c).kit.trace, |s.kit.trace|);
      }
    }
  }

  lemma RunNext(capacity: nat, calls: seq<Call>)
    requires capacity > 0 && calls != []
    ensures Run(capacity, calls) == After(Run(capacity, calls[..|calls| - 1]), capacity, calls[|calls| - 1])
  {
  }

  lemma ClashBreaks(s: System, capacity: nat, c: Call, from: nat)
    requires capacity > 0 && Consistent(s.kit, capacity, from) && Clash(s, c)
    ensures !Alternating(After(s, capacity, c).kit.trace)
  {
    hide Playing, Alternating, Unique, InOrder;
    Sent(s.kit.trace, On(c.note, c.velocity));
    Sent(s.kit.trace + [On(c.note, c.velocity)], Off(c.note));
  }

  /** The gate time is switched off while a note waits: the next note-on comes before its note-off. */
  lemma ClashingRun(capacity: nat, note: nat, velocity: nat)
    requires capacity > 0 && note != UNASSIGNED
    ensures var calls := [SetGate(100, 0), Call.Hit(note, velocity, 0), SetGate(0, 0), Call.Hit(note, velocity, 0)];
            && Monotone(calls) && NoClash(capacity, calls[..3]) && !NoClash(capacity, calls)
            && Run(capacity, calls).kit.trace == [On(note, velocity), On(note, velocity), Off(note)]
  {
    var a, b, c := SetGate(100, 0), Call.Hit(note, velocity, 0), SetGate(0, 0);
    NextCall(capacity, [], a);
    NextCall(capacity, [a], b);
    NextCall(capacity, [a, b], c);
    NextCall(capacity, [a, b, c], b);
    ClashingCalls(capacity, note, velocity);
    hide Run, NoClash, After, Clash;
    assert [] + [a] == [a] && [a] + [b] == [a, b] && [a, b] + [c] == [a, b, c] && [a, b, c] + [b] == [a, b, c, b];
    assert [a, b, c, b][..3] == [a, b, c];
  }

  lemma ClashingCalls(capacity: nat, note: nat, velocity: nat)
    requires capacity > 0 && note != UNASSIGNED
    ensures var hit, k := Call.Hit(note, velocity, 0), Kit([Pending(note, 0)], [On(note, velocity)]);
            && After(START, capacity, SetGate(100, 0)) == System(START.kit, 100) && !Clash(START, SetGate(100, 0))
            && After(System(START.kit, 100), capacity, hit) == System(k, 100) && !Clash(System(START.kit, 100), hit)
            && After(System(k, 100), capacity, SetGate(0, 0)) == System(k, 0) && !Clash(System(k, 100), SetGate(0, 0))
            && Clash(System(k, 0), hit)
            && After(System(k, 0), capacity, hit).kit.trace == [On(note, velocity), On(note, velocity), Off(note)]
  {
    var k := Kit([Pending(note, 0)], [On(note, velocity)]);
    assert k.queue[0].note == note;
  }

  /** One more call of a run. */
  lemma NextCall(capacity: nat, calls: seq<Call>, c: Call)
    requires capacity > 0
    ensures Run(capacity, calls + [c]) == After(Run(capacity, calls), capacity, c)
    ensures NoClash(capacity, calls + [c]) <==> NoClash(capacity, calls) && !Clash(Run(capacity, calls), c)
    ensures Run(capacity, []) == START && NoClash(capacity, [])
  {
    assert (calls + [c])[..|calls|] == calls;
  }

  // Gate times

  /** The time of the last pass and the gate time it had; the start counts as one. */
  function LastPass(capacity: nat, calls: seq<Call>): (nat, nat)
    requires capacity > 0
  {
    if calls == [] then (0, 0)
    else
      var before, c := calls[..|calls| - 1], calls[|calls| - 1];
      if c.Pass? then (c.now, Run(capacity, before).gate) else LastPass(capacity, before)
  }

  /** Passes are close together: less than the clock's period apart, less the gate time. */
  predicate Prompt(capacity: nat, calls: seq<Call>)
    requires capacity > 0
  {
    calls != [] ==>
      var before, c := calls[..|calls| - 1], calls[|calls| - 1];
      && Prompt(capacity, before)
      && (c.Pass? ==>
            var (time, gate) := LastPass(capacity, before);
            c.now - time < W32 && c.now - time + gate <= W32)
  }

  /** A note was played after the last pass, or was too young for it. */
  predicate Young(q: seq<Pending>, time: nat, gate: nat) {
    forall i :: 0 <= i < |q| ==> q[i].time >= time || time - q[i].time < gate
  }

  lemma WithoutBefore(q: seq<Pending>, i: nat, now: nat)
    requires Before(q, now) && i < |q|
    ensures Before(Without(q, i), now)
  {
  }

  lemma AddedBefore(q: seq<Pending>, note: nat, now: nat)
    requires Before(q, now)
    ensures Before(q + [Pending(note, now)], now)
  {
  }

  lemma PlayBefore(k: Kit, capacity: nat, note: nat, velocity: nat, now: nat)
    requires capacity > 0 && Before(k.queue, now)
    ensures Before(Play(k, capacity, note, velocity, now).queue, now)
  {
    hide Before, Find, Without;
    var i := Find(k.queue, note);
    var q := if i < |k.queue| then Without(k.queue, i) else k.queue;
    if i < |k.queue| {
      WithoutBefore(k.queue, i, now);
    }
    if |q| >= capacity {
      WithoutBefore(q, 0, now);
      AddedBefore(Without(q, 0), note, now);
    } else {
      AddedBefore(q, note, now);
    }
  }

  lemma BehindBefore(q: seq<Pending>, n: nat, now: nat)
    requires Before(q, now) && n <= |q|
    ensures Before(q[n..], now)
  {
  }

  lemma ExpireBefore(k: Kit, gate: nat, now: nat)
    requires Before(k.queue, now)
    ensures Before(Expire(k, gate, now).queue, now)
  {
    hide Before, Expired;
    BehindBefore(k.queue, Expired(k.queue, gate, now), now);
  }

  /** Every call keeps the queue in order. */
  lemma AfterBefore(s: System, capacity: nat, c: Call, from: nat)
    requires capacity > 0 && Before(s.kit.queue, from) && from <= c.now
    ensures Before(After(s, capacity, c).kit.queue, c.now)
  {
    BeforeLater(s.kit.queue, from, c.now);
    hide Before, Play, Expired;
    match c
    case Hit(note, velocity, now) => PlayBefore(s.kit, capacity, note, velocity, now);
    case Pass(now) => ExpireBefore(s.kit, s.gate, now);
    case SetGate(gate, now) =>
  }

  lemma WithoutYoung(q: seq<Pending>, i: nat, time: nat, gate: nat)
    requires Young(q, time, gate) && i < |q|
    ensures Young(Without(q, i), time, gate)
  {
  }

  lemma AddedYoung(q: seq<Pending>, note: nat, now: nat, time: nat, gate: nat)
    requires Young(q, time, gate) && time <= now
    ensures Young(q + [Pending(note, now)], time, gate)
  {
  }

  lemma HitYoung(s: System, capacity: nat, c: Call, time: nat, gate: nat)
    requires capacity > 0 && Young(s.kit.queue, time, gate) && !c.Pass? && time <= c.now
    ensures Young(After(s, capacity, c).kit.queue, time, gate)
  {
    hide Young, Find, Without;
    if c.Hit? {
      var queue, i := s.kit.queue, Find(s.kit.queue, c.note);
      var q := if i < |queue| then Without(queue, i) else queue;
      if i < |queue| {
        WithoutYoung(queue, i, time, gate);
      }
      if |q| >= capacity {
        WithoutYoung(q, 0, time, gate);
        AddedYoung(Without(q, 0), c.note, c.now, time, gate);
      } else {
        AddedYoung(q, c.note, c.now, time, gate);
      }
    }
  }

  /** A prompt pass leaves only notes younger than the gate time. */
  lemma PassYoung(q: seq<Pending>, gate: nat, now: nat, time: nat, last: nat)
    requires Before(q, now) && Young(q, time, last) && gate <= W32
    requires time <= now && now - time < W32 && now - time + last <= W32
    ensures forall i :: Expired(q, gate, now) <= i < |q| ==> now - q[i].time < gate
  {
    hide Expired;
    NotStoppedLate(q, gate, now);
  }

  lemma {:induction false} RunYoung(capacity: nat, calls: seq<Call>)
    requires capacity > 0 && Monotone(calls) && Prompt(capacity, calls)
    ensures var s := Run(capacity, calls);
            var (time, gate) := LastPass(capacity, calls);
            && s.gate <= MAX_GATE && gate <= MAX_GATE && time <= Now(calls)
            && Before(s.kit.queue, Now(calls)) && Young(s.kit.queue, time, gate)
  {
    if calls != [] {
      var before, c := calls[..|calls| - 1], calls[|calls| - 1];
      RunYoung(capacity, before);
      hide Before, Young, Expired, Play, Direct;
      var s := Run(capacity, before);
      var (time, gate) := LastPass(capacity, before);
      AfterBefore(s, capacity, c, Now(before));
      if c.Pass? {
        BeforeLater(s.kit.queue, Now(before), c.now);
        PassYoung(s.kit.queue, s.gate, c.now, time, gate);
        StillYoung(s.kit.queue, Expired(s.kit.queue, s.gate, c.now), s.gate, c.now);
      } else {
        HitYoung(s, capacity, c, time, gate);
      }
    }
  }

  lemma BeforeLater(q: seq<Pending>, from: nat, now: nat)
    requires Before(q, from) && from <= now
    ensures Before(q, now)
  {
  }

  lemma StillYoung(q: seq<Pending>, n: nat, gate: nat, now: nat)
    requires n <= |q| && forall i :: n <= i < |q| ==> now - q[i].time < gate
    ensures Young(q[n..], now, gate)
  {
  }

  /** Gate times are met over any run with prompt passes, whatever is played and however the gate
      time changes: every note a pass stops has played for the gate time, and every note it leaves
      has not. */
  lemma GateTimesMet(capacity: nat, calls: seq<Call>, now: nat, i: nat)
    requires capacity > 0 && Monotone(calls + [Pass(now)]) && Prompt(capacity, calls + [Pass(now)])
    requires i < |Run(capacity, calls).kit.queue|
    ensures var s := Run(capacity, calls);
            i < Expired(s.kit.queue, s.gate, now) <==> now - s.kit.queue[i].time >= s.gate
  {
    var all := calls + [Pass(now)];
    assert all[..|all| - 1] == calls;
    assert Monotone(calls) by { assert forall j :: 0 <= j < |calls| ==> calls[j] == all[j]; }
    RunYoung(capacity, calls);
    var s := Run(capacity, calls);
    var (time, gate) := LastPass(capacity, calls);
    assert Now(calls) <= now by { if calls != [] { assert all[|calls| - 1].now <= all[|calls|].now; } }
    hide Run, LastPass, Prompt, Monotone;
    BeforeLater(s.kit.queue, Now(calls), now);
    PassYoung(s.kit.queue, s.gate, now, time, gate);
    if i < Expired(s.kit.queue, s.gate, now) {
      NotStoppedEarly(s.kit.queue, s.gate, now, i);
    }
  }

  /** A pass that comes a clock's period after a note leaves it playing, however short its gate time. */
  lemma LatePassMisses(capacity: nat, note: nat, velocity: nat, gate: nat)
    requires capacity > 0 && note != UNASSIGNED && 0 < gate <= MAX_GATE
    ensures Run(capacity, [SetGate(gate, 0), Call.Hit(note, velocity, 0), Pass(W32)]).kit
            == Kit([Pending(note, 0)], [On(note, velocity)])
  {
    var a, b, c := SetGate(gate, 0), Call.Hit(note, velocity, 0), Pass(W32);
    assert [a, b, c][..2] == [a, b] && [a, b][..1] == [a] && [a][..0] == [];
    assert Run(capacity, [a]) == System(Kit([], []), gate);
    var k := Kit([Pending(note, 0)], [On(note, velocity)]);
    assert Play(Kit([], []), capacity, note, velocity, 0) == k;
    assert Run(capacity, [a, b]) == System(k, gate);
    assert !Due(Pending(note, 0), gate, W32);
    StopNone(k);
  }
}
