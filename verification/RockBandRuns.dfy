/** What the Rock Band reports of a run tell about the calls that were made: which note-on a hit shown comes
    from, when it ends, and when the buttons are the game pad's. */
module RockBandRuns {
  import opened Bytes
  import opened RockBand

  // The notes of the General MIDI percussion key map, by their names

  const ACOUSTIC_BASS_DRUM := 35
  const BASS_DRUM_1 := 36
  const SIDE_STICK := 37
  const ACOUSTIC_SNARE := 38
  const HAND_CLAP := 39
  const ELECTRIC_SNARE := 40
  const LOW_FLOOR_TOM := 41
  const CLOSED_HI_HAT := 42
  const HIGH_FLOOR_TOM := 43
  const PEDAL_HI_HAT := 44
  const LOW_TOM := 45
  const OPEN_HI_HAT := 46
  const LOW_MID_TOM := 47
  const HI_MID_TOM := 48
  const CRASH_CYMBAL_1 := 49
  const HIGH_TOM := 50
  const RIDE_CYMBAL_1 := 51
  const CHINESE_CYMBAL := 52
  const RIDE_BELL := 53
  const TAMBOURINE := 54
  const SPLASH_CYMBAL := 55
  const COWBELL := 56
  const CRASH_CYMBAL_2 := 57
  const RIDE_CYMBAL_2 := 59

  /** The instruments played by a pad; notes 22, 26, 31, 33 and 34 have no name. */
  function Instruments(p: nat): set<nat>
    requires p < NUM_PADS
  {
    if p == RED_PAD then {ACOUSTIC_SNARE, ELECTRIC_SNARE, SIDE_STICK, HAND_CLAP, 31, 34}
    else if p == YELLOW_PAD then {HIGH_TOM, HI_MID_TOM}
    else if p == BLUE_PAD then {LOW_MID_TOM, LOW_TOM}
    else if p == GREEN_PAD then {HIGH_FLOOR_TOM, LOW_FLOOR_TOM}
    else if p == YELLOW_CYMBAL then {CLOSED_HI_HAT, OPEN_HI_HAT, TAMBOURINE, 22, 26}
    else if p == BLUE_CYMBAL then {RIDE_CYMBAL_1, RIDE_CYMBAL_2, RIDE_BELL, COWBELL}
    else if p == GREEN_CYMBAL then {CRASH_CYMBAL_1, CRASH_CYMBAL_2, CHINESE_CYMBAL, SPLASH_CYMBAL}
    else if p == KICK then {ACOUSTIC_BASS_DRUM, BASS_DRUM_1, 33}
    else {PEDAL_HI_HAT}
  }

  lemma DrumMap(note: nat, p: nat)
    requires p < NUM_PADS
    ensures NoteToPad(note) == p <==> note in Instruments(p)
  {
  }

  /** A note-on for a pad. */
  predicate Strikes(c: Call, p: nat) {
    c.Note? && NoteToPad(c.note) == p
  }

  /** The report is sent. */
  predicate Sends(c: Call) {
    c.Refresh? && c.ready
  }

  // One call

  /** What a call does to the hit of a pad. */
  lemma StepHit(generic: bool, s: State, c: Call, p: nat)
    requires Good(s) && Allowed(s, c) && p < NUM_PADS
    ensures var h, h' := s.hits, Step(generic, s, c).hits;
            && |h'| == NUM_PADS
            && (!Active(h, p) ==> if Strikes(c, p) then h'[p] == Hit(c.now, c.velocity) else !Active(h', p))
            && (Active(h, p) ==> h'[p] == h[p] || h'[p] == NO_HIT)
            && (Active(h, p) && Strikes(c, p) ==> h' == h)
            && (Sends(c) ==> (Active(h', p) <==> Active(h, p) && (c.now - h[p].timeMs) % 0x1_0000_0000 <= 20))
            && (Active(h, p) && !Active(h', p) && !Sends(c) ==>
                  c.Note? && NoteToPad(c.note) >= 0 && Conflict(h, NoteToPad(c.note)))
  {
    hide Encode, Quiet, DrumFree, Arbitrated, Stuck;
    if c.Note? {
      var pad := NoteToPad(c.note);
      if pad >= 0 && !Active(s.hits, pad) {
        assert Fewer(Resolve(s.hits, pad), s.hits);
      }
    }
  }

  // Hits over a run

  /** The hit of a pad at the end of a run is that of call `n`, which found the pad up, and it has been held
      unchanged since. */
  ghost predicate HeldFrom(generic: bool, calls: seq<Call>, p: nat, n: nat) {
    && n < |calls| && p < NUM_PADS && Strikes(calls[n], p)
    && After(generic, calls[..n]).Some? && !Active(After(generic, calls[..n]).value.hits, p)
    && forall j :: n < j <= |calls| ==>
         && After(generic, calls[..j]).Some?
         && After(generic, calls[..j]).value.hits[p] == Hit(calls[n].now, calls[n].velocity)
  }

  /** Until it is released or given up, a hit carries the time and the velocity of the note-on that began it,
      whatever other note-ons come in between. */
  lemma {:induction false} HeldSince(generic: bool, calls: seq<Call>, p: nat) returns (n: nat)
    requires After(generic, calls).Some? && p < NUM_PADS && Active(After(generic, calls).value.hits, p)
    ensures HeldFrom(generic, calls, p, n)
    decreases |calls|
  {
    hide Good, Allowed, Step, After, HeldFrom;
    NothingAfter(generic);
    if calls == [] {
      assert false;
    } else {
      var last := |calls| - 1;
      RunNext(generic, calls, last);
      assert calls[..last + 1] == calls;
      var before := After(generic, calls[..last]).value;
      StepHit(generic, before, calls[last], p);
      if Active(before.hits, p) {
        n := HeldSince(generic, calls[..last], p);
        HeldOn(generic, calls, p, n);
      } else {
        n := last;
        HeldNow(generic, calls, p);
      }
    }
  }

  lemma HeldNow(generic: bool, calls: seq<Call>, p: nat)
    requires |calls| > 0 && p < NUM_PADS && Strikes(calls[|calls| - 1], p)
    requires After(generic, calls).Some? && After(generic, calls[..|calls| - 1]).Some?
    requires !Active(After(generic, calls[..|calls| - 1]).value.hits, p)
    requires After(generic, calls).value.hits[p] == Hit(calls[|calls| - 1].now, calls[|calls| - 1].velocity)
    ensures HeldFrom(generic, calls, p, |calls| - 1)
  {
    hide After;
    assert calls[..|calls|] == calls;
  }

  lemma HeldOn(generic: bool, calls: seq<Call>, p: nat, n: nat)
    requires |calls| > 0 && HeldFrom(generic, calls[..|calls| - 1], p, n)
    requires After(generic, calls).Some?
    requires After(generic, calls).value.hits[p] == After(generic, calls[..|calls| - 1]).value.hits[p]
    ensures HeldFrom(generic, calls, p, n)
  {
    hide After, Arbitrated, Quiet;
    var front := calls[..|calls| - 1];
    assert front[..n] == calls[..n];
    assert front[..|front|] == front && calls[..|calls|] == calls;
    forall j | n < j <= |calls|
      ensures After(generic, calls[..j]).Some?
      ensures After(generic, calls[..j]).value.hits[p] == Hit(calls[n].now, calls[n].velocity)
    {
      if j < |calls| {
        assert front[..j] == calls[..j];
      }
    }
  }

  // Reports over a run

  /** The calls that sent the reports. */
  lemma {:induction false} SentBy(generic: bool, calls: seq<Call>, i: nat) returns (k: nat)
    requires After(generic, calls).Some? && i < |Sent(generic, calls)|
    ensures k < |calls| && Sends(calls[k]) && After(generic, calls[..k]).Some?
    ensures After(generic, calls[..k + 1]) == Some(Sent(generic, calls)[i])
    ensures Sent(generic, calls[..k + 1]) == Sent(generic, calls)[..i + 1]
    decreases |calls|
  {
    hide Good, Allowed, Step, After;
    if calls != [] {
      var last := |calls| - 1;
      RunNext(generic, calls, last);
      assert calls[..last + 1] == calls;
      if i < |Sent(generic, calls[..last])| {
        k := SentBy(generic, calls[..last], i);
        assert calls[..last][..k + 1] == calls[..k + 1] && calls[..last][..k] == calls[..k];
      } else {
        k := last;
      }
    }
  }

  /** Every report of a Wii run shows a pad or cymbal that is down with the velocity of the note-on that hit
      it, at most 20 ms ago on the 32-bit clock, unless a cymbal overshadows the pad. */
  lemma ReportsTellNotes(calls: seq<Call>, i: nat, p: nat) returns (k: nat, n: nat)
    requires After(false, calls).Some? && i < |Sent(false, calls)| && p < KICK
    requires Active(Sent(false, calls)[i].hits, p)
    ensures k < |calls| && Sends(calls[k]) && After(false, calls[..k + 1]) == Some(Sent(false, calls)[i])
    ensures n < k && HeldFrom(false, calls[..k + 1], p, n) && (calls[k].now - calls[n].now) % 0x1_0000_0000 <= 20
    ensures var s := Sent(false, calls)[i];
            && |s.hits| == NUM_PADS
            && (At(s.report.velocities, SlotOf(s.hits, p)) == calls[n].velocity <==> !Overshadowed(s.hits, p))
  {
    hide After, Sent, Step, Allowed, Good, Says, At, SlotOf, Overshadowed;
    k := SentBy(false, calls, i);
    n := HeldSince(false, calls[..k + 1], p);
    WiiReportsSay(calls, i);
    RunNext(false, calls, k);
    HeldTill(calls[..k + 1], p, n);
    var before := After(false, calls[..k]).value;
    StepHit(false, before, calls[k], p);
  }

  lemma HeldTill(calls: seq<Call>, p: nat, n: nat)
    requires HeldFrom(false, calls, p, n) && Sends(calls[|calls| - 1])
    ensures n < |calls| - 1 && After(false, calls).Some?
    ensures After(false, calls).value.hits[p] == Hit(calls[n].now, calls[n].velocity)
    ensures After(false, calls[..|calls| - 1]).Some?
    ensures After(false, calls[..|calls| - 1]).value.hits[p] == Hit(calls[n].now, calls[n].velocity)
  {
    hide After;
    assert calls[..|calls|] == calls;
  }

  // The game pad's part of the report

  /** A call that leaves the game pad's input in the report: no new input, and no report of drum hits. */
  ghost predicate Leaves(generic: bool, calls: seq<Call>, j: nat)
    requires j < |calls|
  {
    && After(generic, calls[..j]).Some? && !calls[j].Input?
    && (Sends(calls[j]) ==> Quiet(After(generic, calls[..j]).value.hits))
  }

  predicate IsInput(r: Report, g: GamePad) {
    && r.hat == g.hat
    && r.buttons.blue == g.blue && r.buttons.red == g.red && r.buttons.green == g.green && r.buttons.yellow == g.yellow
    && r.buttons.select == g.select && r.buttons.start == g.start && r.buttons.home == g.home
  }

  /** Buttons and hat stay those of the last game pad input as long as no report of drum hits is sent. */
  lemma {:induction false} GamePadKept(generic: bool, calls: seq<Call>, m: nat)
    requires After(generic, calls).Some? && m < |calls| && calls[m].Input?
    requires forall j :: m < j < |calls| ==> Leaves(generic, calls, j)
    ensures IsInput(After(generic, calls).value.report, calls[m].pad)
    decreases |calls|
  {
    hide Good, Allowed, After, Leaves, NoteOn, Encode, VelocitiesOf, Quiet;
    var last := |calls| - 1;
    RunNext(generic, calls, last);
    assert calls[..last + 1] == calls;
    if m < last {
      forall j | m < j < last ensures Leaves(generic, calls[..last], j) {
        LeavesFront(generic, calls, j);
      }
      GamePadKept(generic, calls[..last], m);
      LeftAlone(generic, calls);
    }
  }

  lemma LeavesFront(generic: bool, calls: seq<Call>, j: nat)
    requires j < |calls| - 1 && Leaves(generic, calls, j)
    ensures Leaves(generic, calls[..|calls| - 1], j)
  {
    hide After, Quiet;
    assert calls[..|calls| - 1][..j] == calls[..j];
  }

  lemma LeftAlone(generic: bool, calls: seq<Call>)
    requires After(generic, calls).Some? && |calls| > 0 && Leaves(generic, calls, |calls| - 1)
    ensures var before, after := After(generic, calls[..|calls| - 1]).value.report, After(generic, calls).value.report;
            after.buttons == before.buttons && after.hat == before.hat
  {
    hide Good, Allowed, After, NoteOn, Encode, VelocitiesOf, Quiet;
    var last := |calls| - 1;
    RunNext(generic, calls, last);
    assert calls[..last + 1] == calls;
  }

  /** A report of drum hits holds nothing of the game pad: no select, start or home button, and a hat that only a
      cymbal moves; without drum hits all velocities are 0. */
  lemma DrumsReplaceGamePad(generic: bool, s: State, now: nat)
    requires Good(s)
    ensures var s' := Refreshed(generic, s, now);
            if Quiet(s.hits) then s'.report == s.report.(velocities := Velocities(0, 0, 0, 0))
            else
              && !s'.report.buttons.select && !s'.report.buttons.start && !s'.report.buttons.home
              && (s'.report.hat != HAT_CENTERED ==>
                    !generic && exists p :: YELLOW_CYMBAL <= p <= BLUE_CYMBAL && Active(s'.hits, p))
              && (s'.report.buttons.padHit && !generic ==> exists p :: IsPad(p) && Active(s'.hits, p))
              && (s'.report.buttons.cymbalHit ==> !generic && exists p :: IsCymbal(p) && Active(s'.hits, p))
  {
    hide Arbitrated;
    var s' := Refreshed(generic, s, now);
    if !Quiet(s.hits) {
      assert forall p :: 0 <= p < NUM_PADS ==> (IsPad(p) <==> p < YELLOW_CYMBAL);
    }
  }
}
