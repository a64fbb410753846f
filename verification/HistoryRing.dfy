/** The history as the firmware keeps it: a circular buffer with write and trigger positions. */
module HistoryRing {
  import opened Bytes
  import opened History

  /** A ring's entries, oldest first. */
  function Unrolled(ring: seq<Entry>, next: nat): (r: seq<Entry>)
    requires next <= |ring|
    ensures |r| == |ring|
  {
    ring[next..] + ring[..next]
  }

  /** The last `n` entries, with empty ones before the first. */
  function Recent(entries: seq<Entry>, n: nat): (r: seq<Entry>)
    ensures |r| == n
    ensures forall k :: 0 <= k < n ==> r[k] == if |entries| - n + k >= 0 then entries[|entries| - n + k] else EMPTY
  {
    seq(n, k requires 0 <= k < n => if |entries| - n + k >= 0 then entries[|entries| - n + k] else EMPTY)
  }

  /** The position `back` places before the next one. */
  function Back(next: nat, n: nat, back: int): int
    requires next < n && 0 < back <= n
  {
    if next >= back then next - back else next - back + n
  }

  function Next(next: nat, n: nat): nat {
    if next + 1 == n then 0 else next + 1
  }

  lemma RecentMore(ring: seq<Entry>, next: nat, entries: seq<Entry>, e: Entry)
    requires next < |ring| && Unrolled(ring, next) == Recent(entries, |ring|)
    ensures Unrolled(ring[next := e], Next(next, |ring|)) == Recent(entries + [e], |ring|)
  {
    var n, ring', next' := |ring|, ring[next := e], Next(next, |ring|);
    var u, u' := Unrolled(ring, next), Unrolled(ring', next');
    forall k | 0 <= k < n
      ensures u'[k] == Recent(entries + [e], n)[k]
    {
      if k < n - 1 {
        assert u'[k] == u[k + 1];
      }
    }
  }

  /** One place on, as the remainder computes it. */
  lemma NextIs(next: nat, n: nat)
    requires next < n
    ensures (next + 1) % n == Next(next, n)
  {
    if next + 1 < n {
      ModUnique(next + 1, n, 0, next + 1);
    } else {
      ModUnique(n, n, 1, 0);
    }
  }

  /** A position relative to the next one. */
  lemma RelativeIs(position: nat, next: nat, n: nat)
    requires position < n && next < n
    ensures (position + (n - next)) % n == if position >= next then position - next else position + n - next
  {
    var x := position + (n - next);
    if x >= n {
      ModUnique(x, n, 1, x - n);
    } else {
      ModUnique(x, n, 0, x);
    }
  }

  class MonitorHistory {
    const ring: array<Entry>
    var lastWritePos: int
    var nextWritePos: nat
    var triggerStartPos: int
    var triggerEndPos: int
    var valuesAfterLastGap: nat
    ghost var log: Log

    ghost predicate Marked()
      requires nextWritePos < ring.Length
      reads this
    {
      var n, count := ring.Length, |log.entries|;
      && (triggerStartPos == NONE <==> log.start == NONE)
      && (log.start != NONE ==>
            && 0 < count - log.end <= count - log.start <= n
            && triggerStartPos == Back(nextWritePos, n, count - log.start)
            && triggerEndPos == Back(nextWritePos, n, count - log.end))
    }

    ghost predicate Valid()
      reads this, ring
    {
      && 0 < ring.Length && nextWritePos < ring.Length
      && Unrolled(ring[..], nextWritePos) == Recent(log.entries, ring.Length)
      && lastWritePos == (if log.entries == [] then NONE else Back(nextWritePos, ring.Length, 1))
      && Protected(log, ring.Length) && Marked()
      && valuesAfterLastGap == Values(log.entries) % W16
    }

    constructor (count: nat)
      requires count > 0
      ensures Valid() && log == NEW_LOG && ring.Length == count && fresh(ring)
    {
      ring := new Entry[count](_ => EMPTY);
      lastWritePos, nextWritePos, triggerStartPos, triggerEndPos, valuesAfterLastGap := NONE, 0, NONE, NONE, 0;
      log := NEW_LOG;
    }

    /** Full: the start of the trigger is the next entry to be overwritten. */
    method IsFull() returns (full: bool)
      requires Valid()
      ensures full == Full(log, ring.Length)
      ensures full <==> log.start != NONE && Relative(triggerStartPos) == 0
    {
      hide Unrolled, Recent, Values;
      full := triggerStartPos != NONE && triggerStartPos == nextWritePos;
      if triggerStartPos != NONE {
        RelativeIs(triggerStartPos, nextWritePos, ring.Length);
      }
    }

    method AddEntryRaw(time: nat, isGap: bool, values: seq<nat>) returns (ok: bool)
      requires Valid()
      modifies this, ring
      ensures Valid() && ok == !Full(old(log), ring.Length)
      ensures log == Add(old(log), ring.Length, Entry(time, isGap, values))
    {
      hide Unrolled, Recent, Values;
      var full := IsFull();
      if full {
        return false;
      }
      ghost var e := Entry(time, isGap, values);
      RecentMore(ring[..], nextWritePos, log.entries, e);
      Counted(log.entries, e);
      NextIs(nextWritePos, ring.Length);
      ghost var after := ring[..][nextWritePos := e];
      ring[nextWritePos] := Entry(time, isGap, values);
      assert ring[..] == after;
      valuesAfterLastGap := if isGap then 0 else (valuesAfterLastGap + 1) % W16;
      lastWritePos := nextWritePos;
      nextWritePos := (nextWritePos + 1) % ring.Length;
      log := log.(entries := log.entries + [e]);
      return true;
    }

    method AddValueEntry(time: nat, sensors: seq<nat>) returns (ok: bool)
      requires Valid() && |sensors| == 3
      modifies this, ring
      ensures Valid() && ok == !Full(old(log), ring.Length)
      ensures log == Add(old(log), ring.Length, Entry(time, false, Convert(sensors)))
    {
      ok := AddEntryRaw(time, false, [sensors[0] / 4 % 256, sensors[1] / 4 % 256, sensors[2] / 4 % 256]);
    }

    method AddGapEntry(time: nat) returns (ok: bool)
      requires Valid()
      modifies this, ring
      ensures Valid() && ok == !Full(old(log), ring.Length)
      ensures log == Add(old(log), ring.Length, Entry(time, true, [0, 0, 0]))
    {
      ok := AddEntryRaw(time, true, [0, 0, 0]);
    }

    /** The entries in the ring, oldest first; the first one has no predecessor. */
    method CopyTo(buffer: array<Entry>)
      requires Valid() && buffer.Length == ring.Length && buffer != ring
      modifies buffer
      ensures buffer[..] == Recent(log.entries, ring.Length)[0 := Recent(log.entries, ring.Length)[0].(timeUntilPreviousUs := 0)]
    {
      var toEnd := ring.Length - nextWritePos;
      forall k | 0 <= k < toEnd {
        buffer[k] := ring[nextWritePos + k];
      }
      if nextWritePos > 0 {
        forall k | 0 <= k < nextWritePos {
          buffer[toEnd + k] := ring[k];
        }
      }
      assert buffer[..] == Unrolled(ring[..], nextWritePos);
      buffer[0] := buffer[0].(timeUntilPreviousUs := 0);
    }

    /** A position relative to the start of the copied buffer. */
    function Relative(position: int): int
      reads this
      requires ring.Length > 0
    {
      (position + (ring.Length - nextWritePos)) % ring.Length
    }

    /** The relative trigger positions are those of the marked entries. */
    method TriggerWindow() returns (start: int, end: int)
      requires Valid() && log.start != NONE
      ensures 0 <= start <= end < ring.Length
      ensures Recent(log.entries, ring.Length)[start] == log.entries[log.start]
      ensures Recent(log.entries, ring.Length)[end] == log.entries[log.end]
    {
      RelativeIs(triggerStartPos, nextWritePos, ring.Length);
      RelativeIs(triggerEndPos, nextWritePos, ring.Length);
      start, end := Relative(triggerStartPos), Relative(triggerEndPos);
    }

    method SetTriggerStartPos()
      requires Valid()
      modifies this`triggerStartPos, this`triggerEndPos, this`log
      ensures Valid() && log == SetStart(old(log))
    {
      hide Unrolled, Recent, Values;
      if lastWritePos != NONE {
        triggerStartPos, triggerEndPos := lastWritePos, lastWritePos;
      }
      log := SetStart(log);
    }

    method SetTriggerEndPos()
      requires Valid()
      modifies this`triggerEndPos, this`log
      ensures Valid() && log == SetEnd(old(log))
    {
      hide Unrolled, Recent, Values;
      if lastWritePos != NONE {
        triggerEndPos := lastWritePos;
      }
      log := SetEnd(log);
    }

    method ResetTrigger()
      requires Valid()
      modifies this`triggerStartPos, this`triggerEndPos, this`log
      ensures Valid() && log == old(log).(start := NONE, end := NONE)
    {
      triggerStartPos, triggerEndPos := NONE, NONE;
      log := log.(start := NONE, end := NONE);
    }

    lemma MarkedIff()
      requires Valid()
      ensures triggerStartPos == NONE <==> log.start == NONE
    {
    }

    method LastValues() returns (values: seq<nat>)
      requires Valid()
      ensures values == if log.entries == [] then [0, 0, 0] else log.entries[|log.entries| - 1].values
    {
      if lastWritePos == NONE {
        return [0, 0, 0];
      }
      assert Unrolled(ring[..], nextWritePos)[ring.Length - 1] == ring[lastWritePos];
      return ring[lastWritePos].values;
    }
  }

  lemma Counted(entries: seq<Entry>, e: Entry)
    ensures Values(entries + [e]) % W16 == if e.isGap then 0 else (Values(entries) % W16 + 1) % W16
  {
    AddMore(entries, e);
  }

  class DrumMonitor {
    const history: MonitorHistory
    var lastUpdateUs: nat
    ghost var last: nat

    ghost predicate Valid()
      reads this, history, history.ring
    {
      history.Valid() && lastUpdateUs == last % W32
    }

    /** The specification's state. */
    ghost function State(): Monitor
      reads this, history
    {
      Monitor(history.log, last)
    }

    constructor (count: nat)
      requires count > 0
      ensures Valid() && fresh(history) && fresh(history.ring)
      ensures State() == Monitor(NEW_LOG, 0) && history.ring.Length == count
    {
      history := new MonitorHistory(count);
      lastUpdateUs, last := 0, 0;
    }

    /** Takes a sample unless the last one is too recent. */
    method AddPadHistoryEntry(now: nat, sensors: seq<nat>) returns (ok: bool)
      requires Valid() && |sensors| == 3
      modifies this, history, history.ring
      ensures Valid() && State() == After(old(State()), history.ring.Length, Sample(now, sensors))
      ensures ok <==> Elapsed(old(State()), now) >= MIN_INTERVAL_US
                      && !Full(BeforeValue(old(history.log), history.ring.Length, Elapsed(old(State()), now)), history.ring.Length)
    {
      hide MonitorHistory.Valid, Single, Values, Convert;
      ghost var before := State();
      var elapsed := (now % W32 - lastUpdateUs) % W32;
      if elapsed < MIN_INTERVAL_US {
        return false;
      }
      lastUpdateUs, last := now % W32, now;
      if elapsed > 2 * MIN_INTERVAL_US {
        AddGapBefore();
        elapsed := elapsed - MIN_INTERVAL_US;
      }
      ok := history.AddValueEntry(elapsed % W16, sensors);
    }

    /** Any call of a run. */
    method Take(c: Call)
      requires Valid() && (c.Sample? ==> |c.values| == 3)
      modifies this, history, history.ring
      ensures Valid() && State() == After(old(State()), history.ring.Length, c)
    {
      hide MonitorHistory.Valid, AddSample;
      match c
      case Sample(now, values) => var ok := AddPadHistoryEntry(now, values);
      case MarkStart => history.SetTriggerStartPos();
      case MarkEnd => history.SetTriggerEndPos();
      case Reset => history.ResetTrigger();
    }

    method AddGapBefore()
      requires Valid()
      modifies history, history.ring
      ensures Valid() && history.log == AddGap(old(history.log), history.ring.Length)
    {
      var single := history.valuesAfterLastGap == 1;
      assert single == Single(history.log.entries);
      hide MonitorHistory.Valid, Single, Values;
      if single {
        var values := history.LastValues();
        var ok := history.AddEntryRaw(MIN_INTERVAL_US / 2, false, values);
        ok := history.AddGapEntry(MIN_INTERVAL_US / 2);
      } else {
        var ok := history.AddGapEntry(MIN_INTERVAL_US);
      }
    }
  }

  /** A new monitor that gets any calls shows the last entries of the run's log, oldest first, and
      where the trigger marked last is among them. */
  method Record(count: nat, calls: seq<Call>) returns (shown: seq<Entry>, marked: bool, start: int, end: int)
    requires count > 0 && Shaped(calls)
    ensures var log := Run(Monitor(NEW_LOG, 0), count, calls).log;
            && NoSingles(log.entries)
            && shown == Recent(log.entries, count)[0 := Recent(log.entries, count)[0].(timeUntilPreviousUs := 0)]
            && marked == (log.start != NONE)
            && (marked ==> && 0 <= start <= end < count && 0 <= log.start <= log.end < |log.entries|
                           && shown[start].values == log.entries[log.start].values
                           && shown[end].values == log.entries[log.end].values)
  {
    var m := new DrumMonitor(count);
    ghost var all := Monitor(NEW_LOG, 0);
    RunKeeps(all, count, calls);
    hide MonitorHistory.Valid, After, NoSingles, Recent;
    for i := 0 to |calls|
      invariant fresh(m) && fresh(m.history) && fresh(m.history.ring)
      invariant m.Valid() && m.history.ring.Length == count && Run(m.State(), count, calls[i..]) == Run(all, count, calls)
    {
      assert calls[i..][0] == calls[i] && calls[i..][1..] == calls[i + 1..];
      m.Take(calls[i]);
    }
    var buffer := new Entry[count](_ => EMPTY);
    m.history.CopyTo(buffer);
    shown := buffer[..];
    marked, start, end := m.history.triggerStartPos != NONE, NONE, NONE;
    m.history.MarkedIff();
    if marked {
      start, end := m.history.TriggerWindow();
    }
  }
}
