/** The monitor's history: a ring of samples with a protected trigger window, gaps where samples
    were missing, and the time between entries. */
module History {
  import opened Bytes

  const NONE := -1
  const MIN_INTERVAL_US := 200
  const W16 := 0x1_0000
  const W32 := 0x1_0000_0000

  datatype Entry = Entry(timeUntilPreviousUs: nat, isGap: bool, values: seq<nat>)

  const EMPTY := Entry(0, false, [0, 0, 0])

  /** All entries accepted so far, and the indices of those marked as start and end of a trigger. */
  datatype Log = Log(entries: seq<Entry>, start: int, end: int)

  const NEW_LOG := Log([], NONE, NONE)

  /** The next entry would overwrite the start of the trigger. */
  predicate Full(h: Log, n: nat) {
    h.start != NONE && |h.entries| - h.start == n
  }

  function Add(h: Log, n: nat, e: Entry): Log {
    if Full(h, n) then h else h.(entries := h.entries + [e])
  }

  /** Number of values since the last gap. */
  function Values(entries: seq<Entry>): nat {
    if entries == [] || entries[|entries| - 1].isGap then 0 else 1 + Values(entries[..|entries| - 1])
  }

  /** The 16-bit counter of values since the last gap is 1. */
  predicate Single(entries: seq<Entry>): (b: bool)
    ensures b ==> entries != [] && Values(entries) > 0
    ensures Values(entries) == 1 ==> b
  {
    Values(entries) % W16 == 1
  }

  /** Sensor values are kept in 8 bits. */
  function Convert(values: seq<nat>): seq<nat>
    requires |values| == 3
  {
    [values[0] / 4 % 256, values[1] / 4 % 256, values[2] / 4 % 256]
  }

  /** The gap before a sample, when sensor values were missing; a single point is doubled first. */
  function AddGap(h: Log, n: nat): Log {
    if Single(h.entries) then
      var last := h.entries[|h.entries| - 1];
      var h1 := Add(h, n, Entry(MIN_INTERVAL_US / 2, false, last.values));
      Add(h1, n, Entry(MIN_INTERVAL_US / 2, true, [0, 0, 0]))
    else Add(h, n, Entry(MIN_INTERVAL_US, true, [0, 0, 0]))
  }

  /** The log when the value of a sample is added. */
  function BeforeValue(h: Log, n: nat, elapsed: nat): Log {
    if elapsed > 2 * MIN_INTERVAL_US then AddGap(h, n) else h
  }

  /** A sample after `elapsed` microseconds. */
  function AddSample(h: Log, n: nat, elapsed: nat, values: seq<nat>): Log
    requires |values| == 3
  {
    if elapsed < MIN_INTERVAL_US then h
    else
      var time := if elapsed > 2 * MIN_INTERVAL_US then elapsed - MIN_INTERVAL_US else elapsed;
      Add(BeforeValue(h, n, elapsed), n, Entry(time % W16, false, Convert(values)))
  }

  // Gaps

  /** No gap ends a run of exactly one value. */
  predicate NoSingles(entries: seq<Entry>) {
    entries == [] ||
    var n := |entries| - 1;
    NoSingles(entries[..n]) && (entries[n].isGap ==> Values(entries[..n]) != 1)
  }

  lemma {:induction false} NoSinglesAt(entries: seq<Entry>, i: nat)
    requires NoSingles(entries) && i < |entries| && entries[i].isGap
    ensures Values(entries[..i]) != 1
  {
    var n := |entries| - 1;
    if i < n {
      NoSinglesAt(entries[..n], i);
      assert entries[..n][..i] == entries[..i];
    }
  }

  /** Between two gaps there are no values or at least two. */
  lemma {:induction false} BetweenGaps(entries: seq<Entry>, i: nat, j: nat)
    requires NoSingles(entries) && i < j < |entries| && entries[i].isGap && entries[j].isGap
    requires forall k :: i < k < j ==> !entries[k].isGap
    ensures j - i - 1 != 1
  {
    NoSinglesAt(entries, j);
    ValuesAre(entries[..j], i);
  }

  lemma {:induction false} ValuesAre(entries: seq<Entry>, i: nat)
    requires i < |entries| && entries[i].isGap && forall k :: i < k < |entries| ==> !entries[k].isGap
    ensures Values(entries) == |entries| - i - 1
    decreases |entries|
  {
    if i < |entries| - 1 {
      ValuesAre(entries[..|entries| - 1], i);
    }
  }

  lemma AddMore(entries: seq<Entry>, e: Entry)
    ensures Values(entries + [e]) == if e.isGap then 0 else 1 + Values(entries)
    ensures NoSingles(entries + [e]) <==> NoSingles(entries) && (e.isGap ==> Values(entries) != 1)
    ensures Total(entries + [e]) == Total(entries) + e.timeUntilPreviousUs
  {
    assert (entries + [e])[..|entries|] == entries;
  }

  lemma SampleNoSingles(h: Log, n: nat, elapsed: nat, values: seq<nat>)
    requires |values| == 3 && NoSingles(h.entries)
    ensures NoSingles(AddSample(h, n, elapsed, values).entries)
  {
    hide NoSingles, Values, Total, Convert;
    if elapsed >= MIN_INTERVAL_US {
      var h1 := if elapsed > 2 * MIN_INTERVAL_US then AddGap(h, n) else h;
      if elapsed > 2 * MIN_INTERVAL_US {
        GapNoSingles(h, n);
      }
      hide AddGap;
      AddMore(h1.entries, Entry((elapsed - MIN_INTERVAL_US) % W16, false, Convert(values)));
      AddMore(h1.entries, Entry(elapsed % W16, false, Convert(values)));
    }
  }

  lemma GapNoSingles(h: Log, n: nat)
    requires NoSingles(h.entries)
    ensures NoSingles(AddGap(h, n).entries)
  {
    hide NoSingles, Values, Total, Single;
    var gap := Entry(MIN_INTERVAL_US, true, [0, 0, 0]);
    if Single(h.entries) {
      var last := h.entries[|h.entries| - 1];
      var e, gap2 := Entry(MIN_INTERVAL_US / 2, false, last.values), Entry(MIN_INTERVAL_US / 2, true, [0, 0, 0]);
      AddMore(h.entries, e);
      AddMore(h.entries + [e], gap2);
      AddMore(h.entries, gap2);
    } else {
      AddMore(h.entries, gap);
    }
  }

  // Time

  /** Time covered by a stretch of entries. */
  function Total(entries: seq<Entry>): nat {
    if entries == [] then 0 else Total(entries[..|entries| - 1]) + entries[|entries| - 1].timeUntilPreviousUs
  }

  /** The time of a sample fits the 16 bits of an entry, what goes to a gap apart. */
  predicate Fits(elapsed: nat) {
    elapsed < W16 || (elapsed > 2 * MIN_INTERVAL_US && elapsed - MIN_INTERVAL_US < W16)
  }

  /** A sample that is accepted accounts for all the time since the previous one exactly if that
      time fits. */
  lemma SampleTime(h: Log, n: nat, elapsed: nat, values: seq<nat>)
    requires |values| == 3 && elapsed >= MIN_INTERVAL_US && !Full(BeforeValue(h, n, elapsed), n)
    ensures Total(AddSample(h, n, elapsed, values).entries) == Total(h.entries) + elapsed <==> Fits(elapsed)
  {
    hide Values, NoSingles, Convert, Total;
    var before := BeforeValue(h, n, elapsed);
    var time := if elapsed > 2 * MIN_INTERVAL_US then elapsed - MIN_INTERVAL_US else elapsed;
    if elapsed > 2 * MIN_INTERVAL_US {
      GapTime(h, n);
    }
    AddMore(before.entries, Entry(time % W16, false, Convert(values)));
  }

  lemma GapTime(h: Log, n: nat)
    requires !Full(AddGap(h, n), n)
    ensures Total(AddGap(h, n).entries) == Total(h.entries) + MIN_INTERVAL_US
  {
    hide Values, NoSingles, Total, Single;
    if Single(h.entries) {
      var last := h.entries[|h.entries| - 1];
      var e, gap := Entry(MIN_INTERVAL_US / 2, false, last.values), Entry(MIN_INTERVAL_US / 2, true, [0, 0, 0]);
      AddMore(h.entries, e);
      AddMore(h.entries + [e], gap);
    } else {
      AddMore(h.entries, Entry(MIN_INTERVAL_US, true, [0, 0, 0]));
    }
  }

  // Whole runs

  datatype Call = Sample(now: nat, values: seq<nat>) | MarkStart | MarkEnd | Reset

  /** The log and the time of the last sample that was taken. */
  datatype Monitor = Monitor(log: Log, last: nat)

  /** Time since the last sample, on the 32-bit clock. */
  function Elapsed(m: Monitor, now: nat): nat {
    (now % W32 - m.last % W32) % W32
  }

  function After(m: Monitor, n: nat, c: Call): Monitor
    requires c.Sample? ==> |c.values| == 3
  {
    match c
    case Sample(now, values) =>
      if Elapsed(m, now) < MIN_INTERVAL_US then m
      else Monitor(AddSample(m.log, n, Elapsed(m, now), values), now)
    case MarkStart => m.(log := SetStart(m.log))
    case MarkEnd => m.(log := SetEnd(m.log))
    case Reset => m.(log := m.log.(start := NONE, end := NONE))
  }

  function SetStart(h: Log): Log {
    if h.entries == [] then h else h.(start := |h.entries| - 1, end := |h.entries| - 1)
  }

  function SetEnd(h: Log): Log {
    if h.entries == [] then h else h.(end := |h.entries| - 1)
  }

  /** The start of a trigger is still in the ring, and the end is not before it. */
  predicate Protected(h: Log, n: nat) {
    && (h.start == NONE || 0 <= h.start < |h.entries|) && (h.end == NONE || 0 <= h.end < |h.entries|)
    && (h.start != NONE ==> h.start >= |h.entries| - n && h.start <= h.end)
  }

  predicate Shaped(calls: seq<Call>) {
    forall i :: 0 <= i < |calls| ==> calls[i].Sample? ==> |calls[i].values| == 3
  }

  function Run(m: Monitor, n: nat, calls: seq<Call>): Monitor
    requires Shaped(calls)
    decreases |calls|
  {
    if calls == [] then m else Run(After(m, n, calls[0]), n, calls[1..])
  }

  lemma AfterProtected(m: Monitor, n: nat, c: Call)
    requires (c.Sample? ==> |c.values| == 3) && n > 0 && Protected(m.log, n)
    ensures Protected(After(m, n, c).log, n) && m.log.entries <= After(m, n, c).log.entries
  {
    hide Values, Convert;
    if c.Sample? && Elapsed(m, c.now) > 2 * MIN_INTERVAL_US {
      GapProtected(m.log, n);
      hide AddGap;
    }
  }

  lemma GapProtected(h: Log, n: nat)
    requires n > 0 && Protected(h, n)
    ensures Protected(AddGap(h, n), n) && h.entries <= AddGap(h, n).entries
    ensures AddGap(h, n).start == h.start && AddGap(h, n).end == h.end
  {
  }

  /** Over any run no gap ends a run of one value, and no entry marked as the start of a trigger is
      overwritten while it is marked. */
  lemma {:induction false} RunKeeps(m: Monitor, n: nat, calls: seq<Call>)
    requires Shaped(calls) && n > 0 && Protected(m.log, n) && NoSingles(m.log.entries)
    ensures var m' := Run(m, n, calls); Protected(m'.log, n) && NoSingles(m'.log.entries) && m.log.entries <= m'.log.entries
    decreases |calls|
  {
    hide Protected, NoSingles;
    if calls != [] {
      var c := calls[0];
      AfterProtected(m, n, c);
      if c.Sample? {
        SampleNoSingles(m.log, n, Elapsed(m, c.now), c.values);
      }
      hide After;
      RunKeeps(After(m, n, c), n, calls[1..]);
    }
  }

  /** A call that takes a sample finds room, and a time that fits. */
  predicate Exact(m: Monitor, n: nat, c: Call) {
    c.Sample? ==>
      && m.last <= c.now < m.last + W32
      && (Elapsed(m, c.now) >= MIN_INTERVAL_US ==>
            Fits(Elapsed(m, c.now)) && !Full(BeforeValue(m.log, n, Elapsed(m, c.now)), n))
  }

  predicate ExactRun(m: Monitor, n: nat, calls: seq<Call>)
    requires Shaped(calls)
    decreases |calls|
  {
    calls == [] || (Exact(m, n, calls[0]) && ExactRun(After(m, n, calls[0]), n, calls[1..]))
  }

  lemma ElapsedIs(m: Monitor, now: nat)
    requires m.last <= now < m.last + W32
    ensures Elapsed(m, now) == now - m.last
  {
    var d := now - m.last;
    ModUnique(now % W32 - m.last % W32, W32, m.last / W32 - now / W32, d);
  }

  /** As long as the ring has room and intervals fit, the times of the entries recorded between two
      samples add up to the time that passed between them. */
  lemma {:induction false} RunTime(m: Monitor, n: nat, calls: seq<Call>)
    requires Shaped(calls) && ExactRun(m, n, calls)
    ensures var m' := Run(m, n, calls);
            m.last <= m'.last && Total(m'.log.entries) - Total(m.log.entries) == m'.last - m.last
    decreases |calls|
  {
    hide Total, AddSample, BeforeValue, Fits, Full;
    if calls != [] {
      var c := calls[0];
      if c.Sample? {
        ElapsedIs(m, c.now);
        if Elapsed(m, c.now) >= MIN_INTERVAL_US {
          SampleTime(m.log, n, Elapsed(m, c.now), c.values);
        }
      }
      RunTime(After(m, n, c), n, calls[1..]);
    }
  }
}
