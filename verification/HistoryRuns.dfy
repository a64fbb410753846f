/** What the history records of the samples of a run: each one with its values and at its time, and between them
    only gaps and doubled points. */
module HistoryRuns {
  import opened Bytes
  import opened History

  /** Three more entries do not reach the start of the trigger. */
  predicate Roomy(h: Log, n: nat) {
    h.start == NONE || |h.entries| - h.start + 3 <= n
  }

  /** The upper 8 of the 10 bits of a sensor value. */
  predicate IsByteOf(b: nat, value: nat) {
    4 * b <= value % 1024 < 4 * b + 4
  }

  predicate AreBytesOf(bytes: seq<nat>, values: seq<nat>)
    requires |values| == 3
  {
    |bytes| == 3 && forall i :: 0 <= i < 3 ==> IsByteOf(bytes[i], values[i])
  }

  lemma Converted(values: seq<nat>)
    requires |values| == 3
    ensures AreBytesOf(Convert(values), values)
  {
    forall i | 0 <= i < 3 ensures IsByteOf(Convert(values)[i], values[i]) {
      ByteOf(values[i]);
    }
  }

  lemma ByteOf(value: nat)
    ensures IsByteOf(value / 4 % 256, value)
  {
    var q, r := value / 4, value % 4;
    ModUnique(value, 1024, q / 256, q % 256 * 4 + r);
  }

  /** What stands between two samples more than 400 us apart: a gap of 200 us, or after a single value the value
      once more for 100 us and then a gap of 100 us. */
  function GapEntries(entries: seq<Entry>, elapsed: nat): seq<Entry> {
    if elapsed <= 400 then []
    else if entries != [] && Values(entries) % 0x1_0000 == 1 then
      [Entry(100, false, entries[|entries| - 1].values), Entry(100, true, [0, 0, 0])]
    else [Entry(200, true, [0, 0, 0])]
  }

  /** A sample adds its own entry, behind what fills the time before it; within 200 us it adds nothing. */
  lemma SampleAppends(h: Log, n: nat, elapsed: nat, values: seq<nat>)
    requires |values| == 3 && Roomy(h, n)
    ensures var h' := AddSample(h, n, elapsed, values);
            if elapsed < 200 then h' == h
            else
              && h'.start == h.start && h'.end == h.end
              && |h'.entries| == |h.entries| + |GapEntries(h.entries, elapsed)| + 1
              && h'.entries[..|h'.entries| - 1] == h.entries + GapEntries(h.entries, elapsed)
              && var e := h'.entries[|h'.entries| - 1];
                 !e.isGap && AreBytesOf(e.values, values)
                 && e.timeUntilPreviousUs == (if elapsed > 400 then elapsed - 200 else elapsed) % 0x1_0000
  {
    hide Values, Convert, AreBytesOf, Total;
    Converted(values);
    if elapsed >= 200 {
      GapAppends(h, n, elapsed);
      hide BeforeValue, GapEntries;
      var before := BeforeValue(h, n, elapsed);
      assert !Full(before, n);
    }
  }

  lemma GapAppends(h: Log, n: nat, elapsed: nat)
    requires Roomy(h, n)
    ensures BeforeValue(h, n, elapsed) == h.(entries := h.entries + GapEntries(h.entries, elapsed))
    ensures |GapEntries(h.entries, elapsed)| <= 2
  {
    hide Values;
    if elapsed <= 400 {
      assert h.entries + [] == h.entries;
    } else if Single(h.entries) {
      var last := h.entries[|h.entries| - 1];
      var e, gap := Entry(100, false, last.values), Entry(100, true, [0, 0, 0]);
      assert h.entries + [e] + [gap] == h.entries + [e, gap];
    }
  }

  // Whole runs

  const NEW_MONITOR := Monitor(NEW_LOG, 0)

  lemma {:induction false} RunSplit(m: Monitor, n: nat, calls: seq<Call>, k: nat)
    requires Shaped(calls) && k <= |calls|
    ensures Shaped(calls[..k]) && Shaped(calls[k..]) && Run(m, n, calls) == Run(Run(m, n, calls[..k]), n, calls[k..])
    ensures ExactRun(m, n, calls) ==> ExactRun(m, n, calls[..k]) && ExactRun(Run(m, n, calls[..k]), n, calls[k..])
    decreases k
  {
    hide After, Exact;
    if k == 0 {
      assert calls[0..] == calls && calls[..0] == [];
    } else {
      assert calls[1..][..k - 1] == calls[..k][1..] && calls[1..][k - 1..] == calls[k..];
      assert Shaped(calls[..k]) && Shaped(calls[1..]);
      RunSplit(After(m, n, calls[0]), n, calls[1..], k - 1);
    }
  }

  lemma {:induction false} RunMore(m: Monitor, n: nat, calls: seq<Call>)
    requires Shaped(calls) && n > 0 && Protected(m.log, n)
    ensures m.log.entries <= Run(m, n, calls).log.entries && Protected(Run(m, n, calls).log, n)
    decreases |calls|
  {
    hide Protected, After;
    if calls != [] {
      AfterProtected(m, n, calls[0]);
      RunMore(After(m, n, calls[0]), n, calls[1..]);
    }
  }

  lemma LastTaken(m: Monitor, n: nat, now: nat, values: seq<nat>)
    requires |values| == 3 && Exact(m, n, Sample(now, values)) && Elapsed(m, now) >= 200
    ensures var m' := After(m, n, Sample(now, values));
            && m'.last == now && m'.log.entries != []
            && var e := m'.log.entries[|m'.log.entries| - 1]; !e.isGap && AreBytesOf(e.values, values)
  {
    hide Values, Convert, AreBytesOf, BeforeValue;
    Converted(values);
  }

  lemma TotalOfPrefix(a: seq<Entry>, b: seq<Entry>)
    requires a <= b
    ensures Total(b[..|a|]) == Total(a)
  {
    assert b[..|a|] == a;
  }

  /** Every sample of a run is recorded with the upper bits of its values, at its time since the start: the times of
      the entries up to its own add up to it, as long as the ring has room and intervals fit. */
  lemma SampleRecorded(n: nat, calls: seq<Call>, k: nat)
    requires n > 0 && Shaped(calls) && ExactRun(NEW_MONITOR, n, calls) && k < |calls| && calls[k].Sample?
    requires Elapsed(Run(NEW_MONITOR, n, calls[..k]), calls[k].now) >= 200
    ensures Shaped(calls[..k]) && Shaped(calls[..k + 1])
    ensures var all, upto := Run(NEW_MONITOR, n, calls).log.entries, Run(NEW_MONITOR, n, calls[..k + 1]).log.entries;
            var i := |upto| - 1;
            && 0 <= i < |all| && !all[i].isGap && AreBytesOf(all[i].values, calls[k].values)
            && Total(all[..i + 1]) == calls[k].now
  {
    hide After, Run, Total, Exact, Protected, AreBytesOf;
    var m0 := NEW_MONITOR;
    RunSplit(m0, n, calls, k);
    RunSplit(m0, n, calls, k + 1);
    var m := Run(m0, n, calls[..k]);
    assert calls[..k + 1][..k] == calls[..k] && calls[..k + 1][k..] == [calls[k]];
    RunSplit(m0, n, calls[..k + 1], k);
    RunOne(m, n, calls[k]);
    LastTaken(m, n, calls[k].now, calls[k].values);
    NewProtected(n);
    RunMore(m0, n, calls[..k + 1]);
    RunMore(Run(m0, n, calls[..k + 1]), n, calls[k + 1..]);
    RunTime(m0, n, calls[..k + 1]);
    var upto, all := Run(m0, n, calls[..k + 1]).log.entries, Run(m0, n, calls).log.entries;
    TotalOfPrefix(upto, all);
    assert all[|upto| - 1] == all[..|upto|][|upto| - 1];
  }

  lemma NewProtected(n: nat)
    ensures Protected(NEW_MONITOR.log, n) && Total(NEW_MONITOR.log.entries) == 0
  {
  }

  lemma RunOne(m: Monitor, n: nat, c: Call)
    requires c.Sample? ==> |c.values| == 3
    ensures Run(m, n, [c]) == After(m, n, c) && (ExactRun(m, n, [c]) ==> Exact(m, n, c))
  {
    assert [c][1..] == [];
  }
}
