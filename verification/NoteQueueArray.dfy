/** The queue of pending notes as an array, and the drum kit that sends the messages. */
module NoteQueueArray {
  import opened Sensing
  import opened NoteQueue

  datatype NoteEvent = NoteEvent(note: nat, noteOnTimeMs: nat)

  /** What is stored of a pending note. */
  function Stored(p: Pending): NoteEvent {
    NoteEvent(p.note, p.time % W32)
  }

  class NoteEventQueue {
    const pending: array<NoteEvent>
    var size: nat

    ghost predicate Valid()
      reads this
    {
      size <= pending.Length && pending.Length > 0
    }

    /** The notes waiting, oldest first. */
    ghost function Contents(): (s: seq<NoteEvent>)
      reads this, pending
      requires Valid()
    {
      pending[..size]
    }

    constructor (capacity: nat)
      requires capacity > 0
      ensures Valid() && Contents() == [] && pending.Length == capacity && fresh(pending)
    {
      pending := new NoteEvent[capacity](_ => NoteEvent(0, 0));
      size := 0;
    }

    method AddNote(note: nat, time: nat)
      requires Valid()
      modifies this, pending
      ensures Valid()
      ensures Contents() == if |old(Contents())| < pending.Length then old(Contents()) + [NoteEvent(note, time)] else old(Contents())
    {
      if size < pending.Length {
        pending[size] := NoteEvent(note, time);
        size := size + 1;
      }
    }

    method PeekOldestNote() returns (e: NoteEvent)
      requires Valid() && Contents() != []
      ensures e == Contents()[0]
    {
      e := pending[0];
    }

    /** Moves everything behind the index down by one. */
    method RemoveIndex(index: nat)
      requires Valid() && index < size
      modifies this, pending
      ensures Valid() && Contents() == old(Contents())[..index] + old(Contents())[index + 1..]
    {
      var i := index;
      while i + 1 < size
        invariant index <= i < size == old(size)
        invariant forall j :: 0 <= j < pending.Length ==>
                    pending[j] == if index <= j < i then old(pending[j + 1]) else old(pending[j])
      {
        pending[i] := pending[i + 1];
        i := i + 1;
      }
      size := size - 1;
    }

    method RemoveOldestNote()
      requires Valid() && Contents() != []
      modifies this, pending
      ensures Valid() && Contents() == old(Contents())[1..]
    {
      RemoveIndex(0);
    }

    method RemoveNote(note: nat) returns (found: bool, ghost at: nat)
      requires Valid()
      modifies this, pending
      ensures Valid() && at <= |old(Contents())|
      ensures forall j :: 0 <= j < at ==> old(Contents())[j].note != note
      ensures found == (at < |old(Contents())|)
      ensures found ==> old(Contents())[at].note == note
      ensures found ==> Contents() == old(Contents())[..at] + old(Contents())[at + 1..]
      ensures !found ==> Contents() == old(Contents())
    {
      var i := 0;
      while i < size
        invariant 0 <= i <= size == old(size) && pending[..] == old(pending[..])
        invariant forall j :: 0 <= j < i ==> pending[j].note != note
      {
        if pending[i].note == note {
          RemoveIndex(i);
          return true, i;
        }
        i := i + 1;
      }
      return false, i;
    }

    method IsEmpty() returns (b: bool)
      requires Valid()
      ensures b == (Contents() == [])
    {
      b := size == 0;
    }

    method IsFull() returns (b: bool)
      requires Valid()
      ensures b == (|Contents()| == pending.Length)
    {
      b := size >= pending.Length;
    }
  }

  /** The array holds what the specification's queue says. */
  ghost predicate Represents(stored: seq<NoteEvent>, q: seq<Pending>) {
    |stored| == |q| && forall i :: 0 <= i < |q| ==> stored[i] == Stored(q[i])
  }

  lemma RepresentsWithout(stored: seq<NoteEvent>, q: seq<Pending>, i: nat)
    requires Represents(stored, q) && i < |q|
    ensures Represents(stored[..i] + stored[i + 1..], Without(q, i))
  {
  }

  lemma RepresentsFind(stored: seq<NoteEvent>, q: seq<Pending>, note: nat, at: nat)
    requires Represents(stored, q) && at <= |q|
    requires (forall j :: 0 <= j < at ==> stored[j].note != note) && (at < |q| ==> stored[at].note == note)
    ensures at == Find(q, note)
  {
    assert forall j :: 0 <= j < |q| ==> stored[j].note == q[j].note;
  }

  lemma RepresentsFirst(stored: seq<NoteEvent>, q: seq<Pending>)
    requires Represents(stored, q)
    ensures stored == [] <==> q == []
    ensures q != [] ==> stored[0] == Stored(q[0])
  {
  }

  class DrumKit {
    const queue: NoteEventQueue
    var gateTimeMs: nat
    /** What was sent to the transport. */
    var sent: seq<Message>
    ghost var waiting: seq<Pending>
    ghost var now: nat

    ghost function Value(): Kit
      reads this
    {
      Kit(waiting, sent)
    }

    ghost predicate Valid()
      reads this, queue, queue.pending
    {
      && Held() && Before(waiting, now) && gateTimeMs <= MAX_GATE
    }

    ghost predicate Held()
      reads this`waiting, queue, queue.pending
    {
      queue.Valid() && Represents(queue.Contents(), waiting)
    }

    constructor (capacity: nat)
      requires capacity > 0
      ensures Valid() && fresh(queue) && fresh(queue.pending) && queue.pending.Length == capacity
      ensures System(Value(), gateTimeMs) == START && now == 0
    {
      queue := new NoteEventQueue(capacity);
      gateTimeMs, sent, waiting, now := 0, [], [], 0;
    }

    method SetGateTime(gate: nat)
      requires Valid()
      modifies this`gateTimeMs
      ensures Valid() && gateTimeMs == Limited(gate)
    {
      gateTimeMs := if gate > MAX_GATE then MAX_GATE else gate;
    }

    /** A note-on whose note-off is sent later. */
    method SendNoteOnWithDelayedOff(note: nat, velocity: nat, time: nat)
      requires Valid() && time >= now && gateTimeMs > 0
      modifies this`sent, this`waiting, this`now, queue, queue.pending
      ensures Valid() && now == time
      ensures Value() == Play(old(Value()), queue.pending.Length, note, velocity, time)
    {
      BeforeLater(waiting, now, time);
      PlayBefore(Value(), queue.pending.Length, note, velocity, time);
      hide Play, Before, Held, Stop, Stopped;
      StopPlaying(note);
      sent := sent + [On(note, velocity)];
      MakeRoom();
      Enqueue(note, time);
      now := time;
      PlayIs(old(Value()), queue.pending.Length, note, velocity, time);
    }

    method Enqueue(note: nat, time: nat)
      requires Held() && |waiting| < queue.pending.Length
      modifies this`waiting, queue, queue.pending
      ensures Held() && waiting == old(waiting) + [Pending(note, time)]
    {
      queue.AddNote(note, time % W32);
      waiting := waiting + [Pending(note, time)];
    }

    /** Stops a note if it is still playing. */
    method StopPlaying(note: nat)
      requires Held()
      modifies this`sent, this`waiting, queue, queue.pending
      ensures Held() && Value() == Stopped(old(Value()), note)
    {
      var found, at := queue.RemoveNote(note);
      RepresentsFind(old(queue.Contents()), waiting, note, at);
      if found {
        RepresentsWithout(old(queue.Contents()), waiting, at);
        sent := sent + [Off(note)];
        waiting := Without(waiting, at);
      }
    }

    method StopOldestNote()
      requires Held() && waiting != []
      modifies this`sent, this`waiting, queue, queue.pending
      ensures Held() && Value() == Stop(old(Value()), 0)
    {
      RepresentsWithout(queue.Contents(), waiting, 0);
      var oldest := queue.PeekOldestNote();
      sent := sent + [Off(oldest.note)];
      queue.RemoveOldestNote();
      waiting := Without(waiting, 0);
    }

    /** Stops the oldest note if the queue is full. */
    method MakeRoom()
      requires Held()
      modifies this`sent, this`waiting, queue, queue.pending
      ensures Held() && |waiting| < queue.pending.Length
      ensures Value() == if |old(waiting)| >= queue.pending.Length then Stop(old(Value()), 0) else old(Value())
    {
      var full := queue.IsFull();
      if full {
        StopOldestNote();
      }
    }

    /** A note-on and its note-off at once. */
    method SendNoteOnOff(note: nat, velocity: nat)
      requires Valid()
      modifies this`sent
      ensures Valid() && Value() == Direct(old(Value()), note, velocity)
    {
      sent := sent + [On(note, velocity)];
      sent := sent + [Off(note)];
    }

    /** A pad's note, none if it has no note assigned. */
    method SendNoteOn(note: nat, velocity: nat, time: nat)
      requires Valid() && time >= now
      modifies this`sent, this`waiting, this`now, queue, queue.pending
      ensures Valid() && now == time
      ensures System(Value(), gateTimeMs)
              == After(System(old(Value()), gateTimeMs), queue.pending.Length, Call.Hit(note, velocity, time))
    {
      hide Play, Represents, Direct;
      BeforeLater(waiting, now, time);
      now := time;
      if note == UNASSIGNED {
        return;
      }
      if gateTimeMs > 0 {
        SendNoteOnWithDelayedOff(note, velocity, time);
      } else {
        SendNoteOnOff(note, velocity);
      }
    }

    /** Stops the notes whose gate time has passed. */
    method SendPendingNoteOffs(time: nat)
      requires Valid() && time >= now
      modifies this`sent, this`waiting, this`now, queue, queue.pending
      ensures Valid() && now == time && Value() == Expire(old(Value()), gateTimeMs, time)
    {
      ghost var start, n: nat := Value(), 0;
      BeforeLater(waiting, now, time);
      ExpireBefore(start, gateTimeMs, time);
      StopNone(start);
      hide Held, Due, Stop, Before, StopOldest, Expired, Expire, Between;
      now := time;
      var due := OldestDue(time);
      while due
        invariant Held() && now == time && due == (waiting != [] && Due(waiting[0], gateTimeMs, time))
        invariant n <= Expired(start.queue, gateTimeMs, time) && Value() == StopOldest(start, n)
        decreases |start.queue| - n
      {
        OneMoreDue(start, n, gateTimeMs, time);
        StopOldestNote();
        n := n + 1;
        due := OldestDue(time);
      }
      NoneDue(start, n, gateTimeMs, time);
    }

    /** The oldest note has played for the gate time. */
    method OldestDue(time: nat) returns (due: bool)
      requires Held()
      ensures due == (waiting != [] && Due(waiting[0], gateTimeMs, time))
    {
      RepresentsFirst(queue.Contents(), waiting);
      var empty := queue.IsEmpty();
      if empty {
        return false;
      }
      hide Represents, Due, Between;
      DueStored(waiting[0], gateTimeMs, time);
      var oldest := queue.PeekOldestNote();
      due := Between(oldest.noteOnTimeMs, time % W32) >= gateTimeMs;
    }
  }

  lemma DueStored(p: Pending, gate: nat, time: nat)
    ensures Due(p, gate, time) <==> Between(Stored(p).noteOnTimeMs, time % W32) >= gate
  {
  }

  function Stopped(k: Kit, note: nat): Kit {
    var i := Find(k.queue, note);
    if i < |k.queue| then Stop(k, i) else k
  }

  lemma PlayIs(k: Kit, capacity: nat, note: nat, velocity: nat, now: nat)
    requires capacity > 0
    ensures var k1 := Stopped(k, note);
            var k2 := k1.(trace := k1.trace + [On(note, velocity)]);
            var k3 := if |k2.queue| >= capacity then Stop(k2, 0) else k2;
            Play(k, capacity, note, velocity, now) == k3.(queue := k3.queue + [Pending(note, now)])
  {
  }

  /** A new kit that gets any calls sends what the run says. */
  method Perform(capacity: nat, calls: seq<Call>) returns (sent: seq<Message>)
    requires capacity > 0 && Monotone(calls)
    ensures sent == Run(capacity, calls).kit.trace
    ensures Alternating(sent) <==> NoClash(capacity, calls)
  {
    RunConsistent(capacity, calls);
    var kit := new DrumKit(capacity);
    hide Represents, Play, Expire, Direct, Before, Alternating, NoClash;
    for i := 0 to |calls|
      invariant fresh(kit) && fresh(kit.queue) && fresh(kit.queue.pending)
      invariant kit.Valid() && kit.queue.pending.Length == capacity && (i < |calls| ==> kit.now <= calls[i].now)
      invariant System(kit.Value(), kit.gateTimeMs) == Run(capacity, calls[..i])
    {
      assert calls[..i + 1][..i] == calls[..i];
      match calls[i]
      case Hit(note, velocity, now) => kit.SendNoteOn(note, velocity, now);
      case Pass(now) => kit.SendPendingNoteOffs(now);
      case SetGate(gate, now) => kit.SetGateTime(gate);
    }
    assert calls[..|calls|] == calls;
    sent := kit.sent;
  }
}
