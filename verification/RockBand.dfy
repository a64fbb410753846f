/** The Rock Band drum controller: hits held for a while in a HID report whose buttons and hat must
    say which pads and cymbals are down. */
module RockBand {
  import opened Bytes

  const NUM_PADS := 9
  const RED_PAD := 0
  const YELLOW_PAD := 1
  const BLUE_PAD := 2
  const GREEN_PAD := 3
  const YELLOW_CYMBAL := 4
  const BLUE_CYMBAL := 5
  const GREEN_CYMBAL := 6
  const KICK := 7
  const HIHAT_PEDAL := 8

  const HAT_UP := 0
  const HAT_DOWN := 4
  const HAT_CENTERED := 8

  const HOLD_MS := 20
  const UINT32_MAX := 0xFFFF_FFFF
  const CLOCK := 0x1_0000_0000

  datatype Hit = Hit(timeMs: nat, velocity: nat)

  const NO_HIT := Hit(0, 0)

  datatype Buttons = Buttons(
    blue: bool, green: bool, red: bool, yellow: bool, kick: bool, hiHatPedal: bool,
    genericBlueCymbal: bool, genericGreenCymbal: bool, select: bool, start: bool,
    padHit: bool, cymbalHit: bool, home: bool)

  datatype Velocities = Velocities(yellow: nat, red: nat, green: nat, blue: nat)

  datatype Report = Report(buttons: Buttons, hat: nat, velocities: Velocities)

  const NO_BUTTONS := Buttons(false, false, false, false, false, false, false, false, false, false, false, false, false)
  const IDLE := Report(NO_BUTTONS, HAT_CENTERED, Velocities(0, 0, 0, 0))

  /** The pad a note of the General MIDI drum map stands for, -1 for none. */
  function NoteToPad(note: nat): (pad: int)
    ensures -1 <= pad < NUM_PADS
  {
    if note in {31, 34, 37, 38, 39, 40} then RED_PAD
    else if note in {48, 50} then YELLOW_PAD
    else if note in {45, 47} then BLUE_PAD
    else if note in {41, 43} then GREEN_PAD
    else if note in {22, 26, 42, 46, 54} then YELLOW_CYMBAL
    else if note in {51, 53, 56, 59} then BLUE_CYMBAL
    else if note in {49, 52, 55, 57} then GREEN_CYMBAL
    else if note in {33, 35, 36} then KICK
    else if note == 44 then HIHAT_PEDAL
    else -1
  }

  predicate IsPad(p: int) {
    RED_PAD <= p <= GREEN_PAD
  }

  predicate IsCymbal(p: int) {
    YELLOW_CYMBAL <= p <= GREEN_CYMBAL
  }

  // The hits held

  predicate Active(h: seq<Hit>, p: int) {
    0 <= p < |h| && h[p].timeMs > 0
  }

  function One(b: bool): nat {
    if b then 1 else 0
  }

  /** Number of active pads, cymbals and hits of any kind among the first `n`. */
  function Pads(h: seq<Hit>, n: nat): nat {
    if n == 0 then 0 else Pads(h, n - 1) + One(IsPad(n - 1) && Active(h, n - 1))
  }

  function Cymbals(h: seq<Hit>, n: nat): nat {
    if n == 0 then 0 else Cymbals(h, n - 1) + One(IsCymbal(n - 1) && Active(h, n - 1))
  }

  function Hits(h: seq<Hit>, n: nat): nat {
    if n == 0 then 0 else Hits(h, n - 1) + One(Active(h, n - 1))
  }

  /** No cymbals, no pads, or exactly one of each. */
  predicate Arbitrated(h: seq<Hit>) {
    var pads, cymbals := Pads(h, NUM_PADS), Cymbals(h, NUM_PADS);
    cymbals == 0 || pads == 0 || (pads == 1 && cymbals == 1)
  }

  /** Times are those of a 32-bit clock. */
  predicate Sound(h: seq<Hit>) {
    |h| == NUM_PADS && forall p :: 0 <= p < NUM_PADS ==> h[p].timeMs <= UINT32_MAX
  }

  /** A new hit would leave the hits ambiguous. */
  predicate Conflict(h: seq<Hit>, pad: nat)
    requires Sound(h) && pad < NUM_PADS
  {
    (IsPad(pad) || IsCymbal(pad)) && !Arbitrated(h[pad := Hit(1, 1)])
  }

  predicate NotLater(h: seq<Hit>, p: nat, q: nat)
    requires p < |h| && q < |h|
  {
    h[p].timeMs < h[q].timeMs || (h[p].timeMs == h[q].timeMs && p <= q)
  }

  /** A hit the search for the oldest one sees: it starts from the last reading of the clock. */
  predicate Early(h: seq<Hit>, p: int) {
    Active(h, p) && h[p].timeMs < UINT32_MAX
  }

  /** The oldest hit among the first `n` pads, the first one of several; pad 0 if it sees none. */
  function Oldest(h: seq<Hit>, n: nat): (p: nat)
    requires n <= |h| && |h| > 0
    ensures p < |h| && (p < n || p == 0) && (p == 0 || Early(h, p))
    ensures forall q :: 0 <= q < n && Early(h, q) ==> p < n && Early(h, p) && NotLater(h, p, q)
  {
    if n == 0 then 0
    else
      var p := Oldest(h, n - 1);
      if Early(h, n - 1) && (!Early(h, p) || h[n - 1].timeMs < h[p].timeMs) then n - 1 else p
  }

  function RemoveOldest(h: seq<Hit>): (h': seq<Hit>)
    requires Sound(h)
    ensures Sound(h') && Fewer(h', h)
  {
    h[Oldest(h, NUM_PADS) := NO_HIT]
  }

  /** Every hit of `h'` is one of `h`. */
  predicate Fewer(h': seq<Hit>, h: seq<Hit>) {
    |h'| == |h| == NUM_PADS && forall p :: 0 <= p < NUM_PADS ==> h'[p] == h[p] || h'[p] == NO_HIT
  }

  lemma {:induction false} FewerCount(h': seq<Hit>, h: seq<Hit>, n: nat)
    requires Fewer(h', h) && n <= NUM_PADS
    ensures Pads(h', n) <= Pads(h, n) && Cymbals(h', n) <= Cymbals(h, n) && Hits(h', n) <= Hits(h, n)
    ensures (exists p :: 0 <= p < n && Active(h, p) && !Active(h', p)) ==> Hits(h', n) < Hits(h, n)
    decreases n
  {
    if n > 0 {
      FewerCount(h', h, n - 1);
    }
  }

  lemma FewerArbitrated(h': seq<Hit>, h: seq<Hit>)
    requires Fewer(h', h) && Arbitrated(h)
    ensures Arbitrated(h')
  {
    FewerCount(h', h, NUM_PADS);
  }

  /** The hits that no removal ever reaches. */
  function LastTick(h: seq<Hit>): (h': seq<Hit>)
    requires Sound(h)
    ensures Sound(h') && Fewer(h', h)
  {
    seq(NUM_PADS, p requires 0 <= p < NUM_PADS => if p > 0 && h[p].timeMs == UINT32_MAX then h[p] else NO_HIT)
  }

  /** The hits that no removal reaches conflict with a new one. */
  predicate Stuck(h: seq<Hit>, pad: nat)
    requires Sound(h) && pad < NUM_PADS
  {
    Conflict(LastTick(h), pad)
  }

  lemma LastTickStays(h: seq<Hit>)
    requires Sound(h)
    ensures LastTick(RemoveOldest(h)) == LastTick(h)
  {
  }

  /** A conflict means that there is a hit to remove, unless only unreachable ones conflict. */
  lemma ConflictHasHit(h: seq<Hit>, pad: nat)
    requires Sound(h) && pad < NUM_PADS && Conflict(h, pad) && !Stuck(h, pad)
    ensures Active(h, Oldest(h, NUM_PADS)) && !Stuck(RemoveOldest(h), pad)
    ensures Hits(RemoveOldest(h), NUM_PADS) < Hits(h, NUM_PADS)
  {
    LastTickStays(h);
    if !Active(h, Oldest(h, NUM_PADS)) {
      assert forall q :: 0 <= q < NUM_PADS ==> !Early(h, q);
      assert Oldest(h, NUM_PADS) == 0;
      var h0, h1 := h[pad := Hit(1, 1)], LastTick(h)[pad := Hit(1, 1)];
      forall q | 0 <= q < NUM_PADS ensures Active(h0, q) == Active(h1, q) {
        assert !Early(h, q);
        assert LastTick(h)[q] == if q > 0 && h[q].timeMs == UINT32_MAX then h[q] else NO_HIT;
      }
      SameCount(h0, h1, NUM_PADS);
    }
    FewerCount(RemoveOldest(h), h, NUM_PADS);
  }

  /** Before the clock's last reading nothing is stuck. */
  lemma NeverStuck(h: seq<Hit>, pad: nat)
    requires Sound(h) && pad < NUM_PADS && forall p :: 0 < p < NUM_PADS ==> h[p].timeMs < UINT32_MAX
    ensures !Stuck(h, pad)
  {
    OnlyOne(LastTick(h)[pad := Hit(1, 1)], pad, NUM_PADS);
  }

  lemma {:induction false} OnlyOne(h: seq<Hit>, pad: nat, n: nat)
    requires n <= |h| && forall p :: 0 <= p < |h| && p != pad ==> !Active(h, p)
    ensures Pads(h, n) <= One(IsPad(pad)) && Cymbals(h, n) <= One(IsCymbal(pad))
    decreases n
  {
    if n > 0 {
      OnlyOneBelow(h, pad, n - 1);
      OnlyOne(h, pad, n - 1);
    }
  }

  lemma {:induction false} OnlyOneBelow(h: seq<Hit>, pad: nat, n: nat)
    requires n <= |h| && forall p :: 0 <= p < |h| && p != pad ==> !Active(h, p)
    ensures n <= pad ==> Pads(h, n) == 0 && Cymbals(h, n) == 0
    decreases n
  {
    if n > 0 {
      OnlyOneBelow(h, pad, n - 1);
    }
  }

  /** Removes the oldest hits until the new one fits. */
  function Resolve(h: seq<Hit>, pad: nat): (h': seq<Hit>)
    requires Sound(h) && pad < NUM_PADS && !Stuck(h, pad)
    ensures Sound(h') && Fewer(h', h) && !Conflict(h', pad)
    decreases Hits(h, NUM_PADS)
  {
    if Conflict(h, pad) then
      ConflictHasHit(h, pad);
      Resolve(RemoveOldest(h), pad)
    else h
  }

  /** The hits after removing the oldest one again and again. */
  function Removed(h: seq<Hit>, times: nat): (h': seq<Hit>)
    requires Sound(h)
    ensures Sound(h')
  {
    if times == 0 then h else RemoveOldest(Removed(h, times - 1))
  }

  /** The loop of removals ends exactly if nothing is stuck. */
  lemma {:induction false} ResolutionEnds(h: seq<Hit>, pad: nat)
    requires Sound(h) && pad < NUM_PADS
    ensures (exists times: nat :: !Conflict(Removed(h, times), pad)) <==> !Stuck(h, pad)
  {
    if Stuck(h, pad) {
      forall times: nat ensures Conflict(Removed(h, times), pad) {
        StuckStays(h, pad, times);
      }
    } else {
      var times := ResolvedAfter(h, h, pad, 0);
    }
  }

  lemma {:induction false} StuckStays(h: seq<Hit>, pad: nat, times: nat)
    requires Sound(h) && pad < NUM_PADS && Stuck(h, pad)
    ensures LastTick(Removed(h, times)) == LastTick(h) && Conflict(Removed(h, times), pad)
  {
    hide Arbitrated;
    if times > 0 {
      StuckStays(h, pad, times - 1);
      LastTickStays(Removed(h, times - 1));
    }
    var h' := Removed(h, times);
    if Arbitrated(h'[pad := Hit(1, 1)]) {
      FewerArbitrated(LastTick(h')[pad := Hit(1, 1)], h'[pad := Hit(1, 1)]);
    }
  }

  lemma {:induction false} ResolvedAfter(h: seq<Hit>, h': seq<Hit>, pad: nat, done: nat) returns (times: nat)
    requires Sound(h) && pad < NUM_PADS && h' == Removed(h, done) && !Stuck(h', pad)
    ensures !Conflict(Removed(h, times), pad)
    decreases Hits(h', NUM_PADS)
  {
    times := done;
    if Conflict(h', pad) {
      ConflictHasHit(h', pad);
      times := ResolvedAfter(h, RemoveOldest(h'), pad, done + 1);
    }
  }

  /** A note-on's loop ends. */
  predicate Playable(h: seq<Hit>, note: nat)
    requires Sound(h)
  {
    var pad := NoteToPad(note);
    pad < 0 || Active(h, pad) || !Stuck(h, pad)
  }

  /** A note-on: ignored while its pad is held. */
  function NoteOn(h: seq<Hit>, note: nat, velocity: nat, now: nat): seq<Hit>
    requires Sound(h) && Playable(h, note)
  {
    var pad := NoteToPad(note);
    if pad < 0 || Active(h, pad) then h else Resolve(h, pad)[pad := Hit(now, velocity)]
  }

  /** Age of a hit on a 32-bit clock. */
  function Age(now: nat, timeMs: nat): nat {
    (now - timeMs) % CLOCK
  }

  /** The hits that are still held. */
  function Expire(h: seq<Hit>, now: nat): (h': seq<Hit>)
    requires Sound(h)
    ensures Sound(h') && Fewer(h', h)
    ensures forall p :: 0 <= p < NUM_PADS ==> (Active(h', p) <==> Active(h, p) && Age(now, h[p].timeMs) <= HOLD_MS)
  {
    seq(NUM_PADS, p requires 0 <= p < NUM_PADS => if Active(h, p) && Age(now, h[p].timeMs) > HOLD_MS then NO_HIT else h[p])
  }

  // The hits removed

  /** Whatever is removed is older than everything kept. */
  lemma {:induction false} EvictedAreOldest(h: seq<Hit>, pad: nat, e: nat, k: nat)
    requires Sound(h) && pad < NUM_PADS && !Stuck(h, pad) && e < NUM_PADS && k < NUM_PADS
    requires Active(h, e) && !Active(Resolve(h, pad), e) && Active(Resolve(h, pad), k)
    ensures h[e].timeMs < h[k].timeMs || (h[e].timeMs == h[k].timeMs && e < k)
    decreases Hits(h, NUM_PADS)
  {
    hide Conflict, Oldest, Stuck;
    if Conflict(h, pad) {
      ConflictHasHit(h, pad);
      var p := Oldest(h, NUM_PADS);
      assert Active(RemoveOldest(h), k) && k != p;
      assert Early(h, k) ==> NotLater(h, p, k);
      if e != p {
        EvictedAreOldest(RemoveOldest(h), pad, e, k);
      }
    }
  }

  /** In true time that is so exactly if the clock did not wrap around between the two hits. */
  lemma EvictedTrulyOldest(h: seq<Hit>, trueTimes: seq<nat>, pad: nat, e: nat, k: nat)
    requires Sound(h) && pad < NUM_PADS && !Stuck(h, pad) && e < NUM_PADS && k < NUM_PADS
    requires Active(h, e) && !Active(Resolve(h, pad), e) && Active(Resolve(h, pad), k)
    requires |trueTimes| == NUM_PADS && h[e].timeMs == trueTimes[e] % CLOCK && h[k].timeMs == trueTimes[k] % CLOCK
    ensures trueTimes[e] <= trueTimes[k] <==> trueTimes[e] / CLOCK <= trueTimes[k] / CLOCK
  {
    EvictedAreOldest(h, pad, e, k);
  }

  /** Nothing is removed without need: with the last removed hit put back there is a conflict. */
  lemma {:induction false} EvictionNeeded(h: seq<Hit>, pad: nat) returns (e: nat)
    requires Sound(h) && pad < NUM_PADS && !Stuck(h, pad) && Conflict(h, pad)
    ensures e < NUM_PADS && Active(h, e) && !Active(Resolve(h, pad), e)
    ensures Conflict(Resolve(h, pad)[e := h[e]], pad)
    decreases Hits(h, NUM_PADS)
  {
    ConflictHasHit(h, pad);
    var h' := RemoveOldest(h);
    if Conflict(h', pad) {
      e := EvictionNeeded(h', pad);
    } else {
      e := Oldest(h, NUM_PADS);
      assert Resolve(h, pad) == h';
      assert h'[e := h[e]] == h;
    }
  }

  /** A note-on keeps the hits arbitrated. */
  lemma NoteOnArbitrated(h: seq<Hit>, note: nat, velocity: nat, now: nat)
    requires Sound(h) && Playable(h, note) && Arbitrated(h) && now <= UINT32_MAX
    ensures Sound(NoteOn(h, note, velocity, now)) && Arbitrated(NoteOn(h, note, velocity, now))
  {
    hide Resolve;
    var pad := NoteToPad(note);
    if pad >= 0 && !Active(h, pad) {
      var kept := Resolve(h, pad);
      var h' := kept[pad := Hit(now, velocity)];
      FewerArbitrated(kept, h);
      assert !Conflict(kept, pad);
      if now == 0 {
        SameCount(kept, h', NUM_PADS);
      } else {
        SameCount(kept[pad := Hit(1, 1)], h', NUM_PADS);
      }
      if !IsPad(pad) && !IsCymbal(pad) {
        PedalCount(kept, h', pad, NUM_PADS);
      }
    }
  }

  lemma {:induction false} SameCount(h: seq<Hit>, h': seq<Hit>, n: nat)
    requires n <= |h| == |h'| && forall p :: 0 <= p < |h| ==> Active(h, p) == Active(h', p)
    ensures Pads(h, n) == Pads(h', n) && Cymbals(h, n) == Cymbals(h', n)
    decreases n
  {
    if n > 0 {
      SameCount(h, h', n - 1);
    }
  }

  lemma {:induction false} PedalCount(h: seq<Hit>, h': seq<Hit>, pad: nat, n: nat)
    requires n <= |h| == |h'| && forall p :: 0 <= p < |h| && p != pad ==> h[p] == h'[p]
    requires !IsPad(pad) && !IsCymbal(pad)
    ensures Pads(h, n) == Pads(h', n) && Cymbals(h, n) == Cymbals(h', n)
    decreases n
  {
    if n > 0 {
      PedalCount(h, h', pad, n - 1);
    }
  }

  // The report

  /** The report of a set of hits. Two cymbals share the hat, and a pad and a cymbal of one colour
      share its button. */
  function Encode(generic: bool, h: seq<Hit>): Report
    requires |h| == NUM_PADS
  {
    Report(ButtonsOf(generic, h), HatOf(generic, h), VelocitiesOf(h))
  }

  function ButtonsOf(generic: bool, h: seq<Hit>): Buttons
    requires |h| == NUM_PADS
  {
    Buttons(
      Active(h, BLUE_PAD) || (!generic && Active(h, BLUE_CYMBAL)),
      Active(h, GREEN_PAD) || (!generic && Active(h, GREEN_CYMBAL)),
      Active(h, RED_PAD),
      Active(h, YELLOW_PAD) || (!generic && Active(h, YELLOW_CYMBAL)),
      Active(h, KICK), Active(h, HIHAT_PEDAL),
      generic && Active(h, BLUE_CYMBAL), generic && Active(h, GREEN_CYMBAL), false, false,
      if generic then Active(h, YELLOW_CYMBAL) else AnyPad(h),
      !generic && AnyCymbal(h),
      false)
  }

  predicate AnyPad(h: seq<Hit>) {
    Active(h, RED_PAD) || Active(h, YELLOW_PAD) || Active(h, BLUE_PAD) || Active(h, GREEN_PAD)
  }

  predicate AnyCymbal(h: seq<Hit>) {
    Active(h, YELLOW_CYMBAL) || Active(h, BLUE_CYMBAL) || Active(h, GREEN_CYMBAL)
  }

  function HatOf(generic: bool, h: seq<Hit>): nat {
    if generic then HAT_CENTERED
    else if Active(h, BLUE_CYMBAL) then HAT_DOWN
    else if Active(h, YELLOW_CYMBAL) then HAT_UP
    else HAT_CENTERED
  }

  /** A cymbal whose colour is taken by its pad goes to the red slot. */
  function VelocitiesOf(h: seq<Hit>): Velocities
    requires |h| == NUM_PADS
  {
    Velocities(
      ColourOf(h, YELLOW_PAD), RedOf(h), ColourOf(h, GREEN_PAD), ColourOf(h, BLUE_PAD))
  }

  function CymbalOf(pad: nat): nat {
    pad + 3
  }

  function ColourOf(h: seq<Hit>, pad: nat): nat
    requires |h| == NUM_PADS && YELLOW_PAD <= pad <= GREEN_PAD
  {
    if Audible(h, pad) then h[pad].velocity else if Active(h, CymbalOf(pad)) then h[CymbalOf(pad)].velocity else 0
  }

  /** A hit that takes its slot. */
  predicate Audible(h: seq<Hit>, pad: nat)
    requires |h| == NUM_PADS
  {
    Active(h, pad) && h[pad].velocity > 0
  }

  predicate SharesColour(h: seq<Hit>, pad: nat)
    requires |h| == NUM_PADS
  {
    Audible(h, pad) && Active(h, CymbalOf(pad))
  }

  function RedOf(h: seq<Hit>): nat
    requires |h| == NUM_PADS
  {
    if SharesColour(h, GREEN_PAD) then h[GREEN_CYMBAL].velocity
    else if SharesColour(h, BLUE_PAD) then h[BLUE_CYMBAL].velocity
    else if SharesColour(h, YELLOW_PAD) then h[YELLOW_CYMBAL].velocity
    else if Active(h, RED_PAD) then h[RED_PAD].velocity
    else 0
  }

  /** One pressed pad in the report, as the switch over the pads puts it. */
  function Show(generic: bool, r: Report, pad: nat, velocity: nat): Report
    requires pad < NUM_PADS
  {
    var b, v := r.buttons, r.velocities;
    if pad == RED_PAD then r.(buttons := b.(red := true), velocities := v.(red := velocity))
    else if pad == YELLOW_PAD then r.(buttons := b.(yellow := true), velocities := v.(yellow := velocity))
    else if pad == BLUE_PAD then r.(buttons := b.(blue := true), velocities := v.(blue := velocity))
    else if pad == GREEN_PAD then r.(buttons := b.(green := true), velocities := v.(green := velocity))
    else if pad == YELLOW_CYMBAL then
      var v' := if v.yellow == 0 then v.(yellow := velocity) else v.(red := velocity);
      if generic then r.(buttons := b.(padHit := true), velocities := v')
      else r.(buttons := b.(yellow := true), hat := HAT_UP, velocities := v')
    else if pad == BLUE_CYMBAL then
      var v' := if v.blue == 0 then v.(blue := velocity) else v.(red := velocity);
      if generic then r.(buttons := b.(genericBlueCymbal := true), velocities := v')
      else r.(buttons := b.(blue := true), hat := HAT_DOWN, velocities := v')
    else if pad == GREEN_CYMBAL then
      var v' := if v.green == 0 then v.(green := velocity) else v.(red := velocity);
      if generic then r.(buttons := b.(genericGreenCymbal := true), velocities := v')
      else r.(buttons := b.(green := true), velocities := v')
    else if pad == KICK then r.(buttons := b.(kick := true))
    else r.(buttons := b.(hiHatPedal := true))
  }

  /** The flags that tell pads from cymbals on the Wii. */
  function Flag(generic: bool, r: Report, pad: nat): Report {
    if generic then r
    else if IsPad(pad) then r.(buttons := r.buttons.(padHit := true))
    else if IsCymbal(pad) then r.(buttons := r.buttons.(cymbalHit := true))
    else r
  }

  /** The hits of the first `n` pads. */
  function Upto(h: seq<Hit>, n: nat): seq<Hit>
    requires n <= |h|
  {
    seq(|h|, p requires 0 <= p < |h| => if p < n then h[p] else NO_HIT)
  }

  /** One more pressed pad, in a pass over the pads in order. */
  lemma ShowNext(generic: bool, h: seq<Hit>, n: nat)
    requires Sound(h) && n < NUM_PADS
    ensures Encode(generic, Upto(h, n + 1))
            == if Active(h, n) then Flag(generic, Show(generic, Encode(generic, Upto(h, n)), n, h[n].velocity), n)
               else Encode(generic, Upto(h, n))
  {
    var before, after := Upto(h, n), Upto(h, n + 1);
    if !Active(h, n) {
      assert after == before[n := h[n]];
      assert forall p :: Active(after, p) == Active(before, p);
    } else {
      ShowButtons(generic, h, n);
      ShowVelocities(generic, h, n);
      hide ButtonsOf, HatOf, VelocitiesOf, Upto, Show;
    }
  }

  lemma ShowButtons(generic: bool, h: seq<Hit>, n: nat)
    requires Sound(h) && n < NUM_PADS && Active(h, n)
    ensures var r := Flag(generic, Show(generic, Encode(generic, Upto(h, n)), n, h[n].velocity), n);
            ButtonsOf(generic, Upto(h, n + 1)) == r.buttons && HatOf(generic, Upto(h, n + 1)) == r.hat
  {
    hide VelocitiesOf, Upto, Active;
    ActiveUpto(h, n);
    ActiveUpto(h, n + 1);
  }

  lemma ActiveUpto(h: seq<Hit>, n: nat)
    requires n <= |h|
    ensures forall p :: Active(Upto(h, n), p) <==> p < n && Active(h, p)
  {
  }

  lemma ShowVelocities(generic: bool, h: seq<Hit>, n: nat)
    requires Sound(h) && n < NUM_PADS && Active(h, n)
    ensures VelocitiesOf(Upto(h, n + 1))
            == Flag(generic, Show(generic, Encode(generic, Upto(h, n)), n, h[n].velocity), n).velocities
  {
    hide ButtonsOf, HatOf, Upto, Active;
    ActiveUpto(h, n);
    ActiveUpto(h, n + 1);
    UptoIs(h, n);
    UptoIs(h, n + 1);
  }

  lemma UptoIs(h: seq<Hit>, n: nat)
    requires n <= |h|
    ensures forall p :: 0 <= p < |h| ==> Upto(h, n)[p] == if p < n then h[p] else NO_HIT
  {
  }

  // What a report says

  /** Whether a pad is down, read from the buttons and the hat alone. */
  predicate Down(generic: bool, b: Buttons, hat: nat, p: nat) {
    if p == KICK then b.kick
    else if p == HIHAT_PEDAL then b.hiHatPedal
    else if generic then
      if IsPad(p) then Coloured(b, p)
      else if p == YELLOW_CYMBAL then b.padHit
      else if p == BLUE_CYMBAL then b.genericBlueCymbal
      else p == GREEN_CYMBAL && b.genericGreenCymbal
    else if IsPad(p) then b.padHit && Coloured(b, p) && (!b.cymbalHit || p == TheOnePad(b, hat))
    else IsCymbal(p) && b.cymbalHit && Coloured(b, p - 3) && (!b.padHit || p == TheOneCymbal(hat))
  }

  predicate Coloured(b: Buttons, pad: nat) {
    if pad == RED_PAD then b.red else if pad == YELLOW_PAD then b.yellow else if pad == BLUE_PAD then b.blue else b.green
  }

  /** With one pad and one cymbal, the hat tells the cymbal, and the other colour is the pad's; if
      there is no other colour, it is the cymbal's too. */
  function TheOneCymbal(hat: nat): nat {
    if hat == HAT_UP then YELLOW_CYMBAL else if hat == HAT_DOWN then BLUE_CYMBAL else GREEN_CYMBAL
  }

  function TheOnePad(b: Buttons, hat: nat): nat {
    var pad := TheOneCymbal(hat) - 3;
    if b.red then RED_PAD
    else if b.yellow && pad != YELLOW_PAD then YELLOW_PAD
    else if b.blue && pad != BLUE_PAD then BLUE_PAD
    else if b.green && pad != GREEN_PAD then GREEN_PAD
    else pad
  }

  /** The counts, pad by pad. */
  lemma Counted(h: seq<Hit>)
    requires |h| == NUM_PADS
    ensures Pads(h, NUM_PADS) == One(Active(h, 0)) + One(Active(h, 1)) + One(Active(h, 2)) + One(Active(h, 3))
    ensures Cymbals(h, NUM_PADS) == One(Active(h, 4)) + One(Active(h, 5)) + One(Active(h, 6))
  {
    assert Pads(h, 1) == One(Active(h, 0)) && Cymbals(h, 1) == 0;
    assert Pads(h, 2) == Pads(h, 1) + One(Active(h, 1)) && Cymbals(h, 2) == 0;
    assert Pads(h, 3) == Pads(h, 2) + One(Active(h, 2)) && Cymbals(h, 3) == 0;
    assert Pads(h, 4) == Pads(h, 3) + One(Active(h, 3)) && Cymbals(h, 4) == 0;
    assert Pads(h, 5) == Pads(h, 4) && Cymbals(h, 5) == One(Active(h, 4));
    assert Pads(h, 6) == Pads(h, 4) && Cymbals(h, 6) == Cymbals(h, 5) + One(Active(h, 5));
    assert Pads(h, 7) == Pads(h, 4) && Cymbals(h, 7) == Cymbals(h, 6) + One(Active(h, 6));
    assert Pads(h, 8) == Pads(h, 4) && Cymbals(h, 8) == Cymbals(h, 7);
  }

  /** The main result on reports: arbitrated hits can be read back from the buttons and the hat. */
  lemma Determined(generic: bool, h: seq<Hit>, p: nat)
    requires |h| == NUM_PADS && p < NUM_PADS && (generic || Arbitrated(h))
    ensures var r := Encode(generic, h); Down(generic, r.buttons, r.hat, p) == Active(h, p)
  {
    Counted(h);
    hide Pads, Cymbals, VelocitiesOf;
  }

  /** And no others: a Wii report of any other hits is also the report of different ones. */
  lemma Ambiguous(h: seq<Hit>) returns (h': seq<Hit>)
    requires Sound(h) && !Arbitrated(h)
    ensures Sound(h') && exists p :: 0 <= p < NUM_PADS && Active(h, p) != Active(h', p)
    ensures ButtonsOf(false, h) == ButtonsOf(false, h') && HatOf(false, h) == HatOf(false, h')
  {
    Counted(h);
    hide Pads, Cymbals, VelocitiesOf;
    var c := if Active(h, YELLOW_CYMBAL) && !Active(h, YELLOW_PAD) then YELLOW_CYMBAL
             else if Active(h, BLUE_CYMBAL) && !Active(h, BLUE_PAD) then BLUE_CYMBAL
             else if Active(h, GREEN_CYMBAL) && !Active(h, GREEN_PAD) then GREEN_CYMBAL
             else if Active(h, YELLOW_CYMBAL) then YELLOW_CYMBAL
             else if Active(h, BLUE_CYMBAL) then BLUE_CYMBAL
             else GREEN_CYMBAL;
    h' := h[c - 3 := if Active(h, c - 3) then NO_HIT else Hit(1, 1)];
    assert Active(h, c - 3) != Active(h', c - 3);
  }

  /** Where a pad's velocity is found. */
  datatype Slot = Yellow | Red | Green | Blue

  function SlotOf(h: seq<Hit>, p: nat): Slot
    requires |h| == NUM_PADS && (IsPad(p) || IsCymbal(p))
  {
    if p == RED_PAD || (IsCymbal(p) && Audible(h, p - 3)) then Red
    else if p == YELLOW_PAD || p == YELLOW_CYMBAL then Yellow
    else if p == BLUE_PAD || p == BLUE_CYMBAL then Blue
    else Green
  }

  function At(v: Velocities, s: Slot): nat {
    match s
    case Yellow => v.yellow
    case Red => v.red
    case Green => v.green
    case Blue => v.blue
  }

  /** A pad hit with velocity 0 while its cymbal is down: the cymbal takes its slot. */
  predicate Overshadowed(h: seq<Hit>, p: nat)
    requires |h| == NUM_PADS
  {
    YELLOW_PAD <= p <= GREEN_PAD && Active(h, p) && h[p].velocity == 0 && Audible(h, CymbalOf(p))
  }

  /** The velocity of every pressed pad and cymbal is there, except that of an overshadowed pad. */
  lemma VelocityPresent(generic: bool, h: seq<Hit>, p: nat)
    requires |h| == NUM_PADS && Arbitrated(h) && (IsPad(p) || IsCymbal(p)) && Active(h, p)
    ensures At(Encode(generic, h).velocities, SlotOf(h, p)) == h[p].velocity <==> !Overshadowed(h, p)
  {
    Counted(h);
    hide Pads, Cymbals, ButtonsOf, HatOf;
  }

  /** No two of them share a slot, except a pad hit with velocity 0 and its cymbal. */
  lemma SlotsDiffer(h: seq<Hit>, p: nat, q: nat)
    requires |h| == NUM_PADS && Arbitrated(h) && p < q
    requires (IsPad(p) || IsCymbal(p)) && (IsPad(q) || IsCymbal(q)) && Active(h, p) && Active(h, q)
    ensures SlotOf(h, p) == SlotOf(h, q) <==> YELLOW_PAD <= p <= GREEN_PAD && q == CymbalOf(p) && h[p].velocity == 0
  {
    Counted(h);
    hide Pads, Cymbals;
  }

  // The transport

  /** Input of a USB game pad, which shares the report. */
  datatype GamePad = GamePad(hat: nat, blue: bool, red: bool, green: bool, yellow: bool, select: bool, start: bool, home: bool)

  function Merge(r: Report, g: GamePad): Report {
    r.(hat := g.hat, buttons := r.buttons.(
         blue := g.blue, red := g.red, green := g.green, yellow := g.yellow,
         select := g.select, start := g.start, home := g.home))
  }

  /** What no game pad sets. */
  predicate DrumFree(b: Buttons) {
    !b.kick && !b.hiHatPedal && !b.padHit && !b.cymbalHit && !b.genericBlueCymbal && !b.genericGreenCymbal
  }

  datatype State = State(hits: seq<Hit>, report: Report)

  const NO_HITS: seq<Hit> := [NO_HIT, NO_HIT, NO_HIT, NO_HIT, NO_HIT, NO_HIT, NO_HIT, NO_HIT, NO_HIT]
  const START := State(NO_HITS, IDLE)

  /** Kept by every call: the hits are arbitrated, and without hits nothing of the drums is in the report. */
  predicate Good(s: State) {
    Sound(s.hits) && Arbitrated(s.hits) && (Quiet(s.hits) ==> DrumFree(s.report.buttons))
  }

  /** The report to send next: that of the hits still held if there were any, else the game pad's. */
  function Refreshed(generic: bool, s: State, now: nat): State
    requires Sound(s.hits)
  {
    var held := Expire(s.hits, now);
    State(held, if Quiet(s.hits) then s.report.(velocities := VelocitiesOf(held)) else Encode(generic, held))
  }

  class Transport {
    const generic: bool
    const hits: array<Hit>
    var report: Report

    ghost function Value(): State
      reads this, hits
    {
      State(hits[..], report)
    }

    ghost predicate Valid()
      reads this, hits
    {
      Good(Value())
    }

    constructor (generic: bool)
      ensures Valid() && fresh(hits) && this.generic == generic && Value() == START
    {
      this.generic := generic;
      hits := new Hit[NUM_PADS](_ => NO_HIT);
      report := IDLE;
      new;
      QuietArbitrated(hits[..]);
    }

    method OnGamePad(g: GamePad)
      requires Valid()
      modifies this`report
      ensures Valid() && report == Merge(old(report), g)
    {
      hide Arbitrated;
      report := report.(hat := g.hat, buttons := report.buttons.(
                  blue := g.blue, red := g.red, green := g.green, yellow := g.yellow,
                  select := g.select, start := g.start, home := g.home));
    }

    /** A hit that is over is cleared. */
    method IsPadHit(p: nat, now: nat) returns (pressed: bool, released: bool)
      requires hits.Length == NUM_PADS && p < NUM_PADS
      modifies hits
      ensures forall q :: 0 <= q < NUM_PADS && q != p ==> hits[q] == old(hits[q])
      ensures pressed == (old(hits[p].timeMs) > 0 && Age(now, old(hits[p].timeMs)) <= HOLD_MS)
      ensures released == (old(hits[p].timeMs) > 0 && !pressed)
      ensures hits[p] == if released then NO_HIT else old(hits[p])
    {
      var time := hits[p].timeMs;
      if time == 0 {
        return false, false;
      }
      if Age(now, time) > HOLD_MS {
        hits[p] := NO_HIT;
        return false, true;
      }
      return true, false;
    }

    /** Clears the hits that are over and shows the others. */
    method Collect(now: nat) returns (shown: Report, drum: bool)
      requires hits.Length == NUM_PADS && Sound(hits[..])
      modifies hits
      ensures hits[..] == Expire(old(hits[..]), now) && shown == Encode(generic, hits[..])
      ensures drum == !Quiet(old(hits[..]))
    {
      ghost var before := hits[..];
      ghost var held := Expire(before, now);
      shown, drum := IDLE, false;
      QuietShown(generic, Upto(held, 0));
      assert QuietBelow(before, 0);
      hide Encode, Show, Flag, QuietBelow, Upto, Expire;
      for p := 0 to NUM_PADS
        invariant forall q :: 0 <= q < NUM_PADS ==> hits[q] == if q < p then held[q] else before[q]
        invariant shown == Encode(generic, Upto(held, p))
        invariant drum == !QuietBelow(before, p)
      {
        ShowNext(generic, held, p);
        QuietNext(before, p);
        HeldAt(before, now, p);
        var pressed, released := IsPadHit(p, now);
        if pressed {
          shown := Flag(generic, Show(generic, shown, p, hits[p].velocity), p);
        }
        drum := drum || pressed || released;
      }
      UptoAll(held);
      assert hits[..] == held;
    }

    /** Sends the report of the hits held; without any, the game pad's stays. */
    method Update(now: nat, ready: bool) returns (sent: bool)
      requires Valid()
      modifies this`report, hits
      ensures Valid() && sent == ready
      ensures Value() == if ready then Refreshed(generic, old(Value()), now) else old(Value())
    {
      if !ready {
        return false;
      }
      RefreshedGood(generic, Value(), now);
      hide ButtonsOf, VelocitiesOf, HatOf, Expire, Good, Quiet;
      var shown, drum := Collect(now);
      if drum {
        report := shown;
      } else {
        report := report.(velocities := shown.velocities);
      }
      return true;
    }

    /** The oldest hit is given up. */
    method RemoveOldestHit()
      requires hits.Length == NUM_PADS && Sound(hits[..])
      modifies hits
      ensures hits[..] == RemoveOldest(old(hits[..]))
    {
      ghost var h := hits[..];
      var oldest, time := 0, UINT32_MAX;
      for p := 0 to NUM_PADS
        invariant oldest == Oldest(h, p)
        invariant time == if oldest < p && Early(h, oldest) then h[oldest].timeMs else UINT32_MAX
      {
        if 0 < hits[p].timeMs < time {
          oldest, time := p, hits[p].timeMs;
        }
      }
      hits[oldest] := NO_HIT;
    }

    method HasConflict(pad: nat) returns (conflict: bool)
      requires hits.Length == NUM_PADS && Sound(hits[..]) && pad < NUM_PADS && !Active(hits[..], pad)
      ensures conflict == Conflict(hits[..], pad)
    {
      if !IsPad(pad) && !IsCymbal(pad) {
        return false;
      }
      var pads, cymbals := 0, 0;
      for i := 0 to NUM_PADS
        invariant pads == Pads(hits[..], i) && cymbals == Cymbals(hits[..], i)
      {
        if hits[i].timeMs > 0 && IsPad(i) {
          pads := pads + 1;
        } else if hits[i].timeMs > 0 && IsCymbal(i) {
          cymbals := cymbals + 1;
        }
      }
      OneMore(hits[..], pad, NUM_PADS);
      if IsPad(pad) && cymbals == 0 {
        return false;
      } else if IsCymbal(pad) && pads == 0 {
        return false;
      } else if IsPad(pad) && pads == 0 && cymbals == 1 {
        return false;
      } else if IsCymbal(pad) && cymbals == 0 && pads == 1 {
        return false;
      }
      return true;
    }

    method SendNoteOn(note: nat, velocity: nat, now: nat)
      requires Valid() && Playable(hits[..], note) && now <= UINT32_MAX
      modifies hits
      ensures Valid() && hits[..] == NoteOn(old(hits[..]), note, velocity, now)
      ensures var pad := NoteToPad(note);
              if pad < 0 || old(hits[..])[pad].timeMs > 0 then hits[..] == old(hits[..])
              else
                && hits[pad] == Hit(now, velocity)
                && forall p :: 0 <= p < NUM_PADS && p != pad ==> hits[p] == old(hits[..])[p] || hits[p] == NO_HIT
    {
      ghost var h := hits[..];
      NoteOnGood(Value(), note, velocity, now);
      hide Good;
      var pad := NoteToPad(note);
      if pad < 0 || hits[pad].timeMs > 0 {
        return;
      }
      var conflict := HasConflict(pad);
      while conflict
        invariant Sound(hits[..]) && Fewer(hits[..], h) && conflict == Conflict(hits[..], pad) && !Stuck(hits[..], pad)
        invariant Resolve(h, pad) == Resolve(hits[..], pad)
        decreases Hits(hits[..], NUM_PADS)
      {
        ConflictHasHit(hits[..], pad);
        RemoveOldestHit();
        conflict := HasConflict(pad);
      }
      hits[pad] := Hit(now, velocity);
      assert hits[..] == Resolve(h, pad)[pad := Hit(now, velocity)];
    }

    /** Any call; `sent` tells whether it sent the report. */
    method Handle(c: Call) returns (sent: bool)
      requires Valid() && Allowed(Value(), c)
      modifies this`report, hits
      ensures Valid() && Value() == Step(generic, old(Value()), c)
      ensures sent == (c.Refresh? && c.ready)
    {
      hide NoteOn, Refreshed, Merge, Arbitrated, Playable;
      sent := false;
      match c
      case Note(note, velocity, now) =>
        SendNoteOn(note, velocity, now);
      case Refresh(now, ready) =>
        sent := Update(now, ready);
      case Input(pad) =>
        OnGamePad(pad);
    }
  }

  /** No hit among the first `n` pads. */
  predicate QuietBelow(h: seq<Hit>, n: nat) {
    forall p :: 0 <= p < n ==> !Active(h, p)
  }

  predicate Quiet(h: seq<Hit>) {
    QuietBelow(h, |h|)
  }

  lemma QuietArbitrated(h: seq<Hit>)
    requires |h| == NUM_PADS && Quiet(h)
    ensures Arbitrated(h)
  {
    Counted(h);
  }

  lemma QuietShown(generic: bool, h: seq<Hit>)
    requires |h| == NUM_PADS && Quiet(h)
    ensures Encode(generic, h) == IDLE
  {
  }

  lemma UptoAll(h: seq<Hit>)
    ensures Upto(h, |h|) == h
  {
  }

  lemma QuietNext(h: seq<Hit>, n: nat)
    ensures QuietBelow(h, n + 1) == (QuietBelow(h, n) && !Active(h, n))
  {
  }

  lemma HeldAt(h: seq<Hit>, now: nat, p: nat)
    requires Sound(h) && p < NUM_PADS
    ensures Active(Expire(h, now), p) == (Active(h, p) && Age(now, h[p].timeMs) <= HOLD_MS)
    ensures Expire(h, now)[p] == if Active(h, p) && Age(now, h[p].timeMs) > HOLD_MS then NO_HIT else h[p]
  {
  }

  lemma {:induction false} OneMore(h: seq<Hit>, pad: nat, n: nat)
    requires n <= |h| && pad < |h| && !Active(h, pad)
    ensures var h' := h[pad := Hit(1, 1)];
            && Pads(h', n) == Pads(h, n) + One(IsPad(pad) && pad < n)
            && Cymbals(h', n) == Cymbals(h, n) + One(IsCymbal(pad) && pad < n)
    decreases n
  {
    if n > 0 {
      OneMore(h, pad, n - 1);
    }
  }

  lemma RefreshedGood(generic: bool, s: State, now: nat)
    requires Good(s)
    ensures Good(Refreshed(generic, s, now))
  {
    var held := Expire(s.hits, now);
    FewerArbitrated(held, s.hits);
    if Quiet(held) {
      QuietShown(generic, held);
    }
  }

  /** No note-on silences everything. */
  lemma NoteOnGood(s: State, note: nat, velocity: nat, now: nat)
    requires Good(s) && Playable(s.hits, note) && now <= UINT32_MAX
    ensures Good(s.(hits := NoteOn(s.hits, note, velocity, now)))
  {
    NoteOnArbitrated(s.hits, note, velocity, now);
    var pad := NoteToPad(note);
    if pad >= 0 && !Active(s.hits, pad) {
      hide Arbitrated, Stuck, NoteToPad;
      var kept := Resolve(s.hits, pad);
      var h' := NoteOn(s.hits, note, velocity, now);
      if Quiet(h') {
        assert forall p :: 0 <= p < NUM_PADS && p != pad ==> kept[p] == h'[p] && !Active(h', p);
        ResolvedNotQuiet(s.hits, pad);
      }
    }
  }

  lemma {:induction false} ResolvedNotQuiet(h: seq<Hit>, pad: nat)
    requires Sound(h) && pad < NUM_PADS && !Stuck(h, pad) && !Active(h, pad) && Quiet(Resolve(h, pad))
    ensures Quiet(h)
    decreases Hits(h, NUM_PADS)
  {
    if Conflict(h, pad) {
      ConflictHasHit(h, pad);
      ResolvedNotQuiet(RemoveOldest(h), pad);
      var p := Oldest(h, NUM_PADS);
      assert forall q :: 0 <= q < NUM_PADS && q != p ==> h[q] == RemoveOldest(h)[q] && !Active(RemoveOldest(h), q);
      OneFits(h, p, pad);
    }
  }

  /** Any two hits are arbitrated. */
  lemma OneFits(h: seq<Hit>, p: nat, pad: nat)
    requires |h| == NUM_PADS && p < NUM_PADS && pad < NUM_PADS && p != pad
    requires forall q :: 0 <= q < NUM_PADS && q != p ==> !Active(h, q)
    ensures Arbitrated(h[pad := Hit(1, 1)])
  {
    OnlyOne(h, p, NUM_PADS);
    assert !Active(h, pad);
    OneMore(h, pad, NUM_PADS);
  }

  // Whole runs

  datatype Call = Note(note: nat, velocity: nat, now: nat) | Refresh(now: nat, ready: bool) | Input(pad: GamePad)

  /** The clock has 32 bits, and a note-on's loop ends. */
  predicate Allowed(s: State, c: Call)
    requires Good(s)
  {
    c.Note? ==> c.now <= UINT32_MAX && Playable(s.hits, c.note)
  }

  function Step(generic: bool, s: State, c: Call): (s': State)
    requires Good(s) && Allowed(s, c)
    ensures Good(s')
  {
    match c
    case Note(note, velocity, now) => NoteOnGood(s, note, velocity, now); s.(hits := NoteOn(s.hits, note, velocity, now))
    case Refresh(now, ready) => RefreshedGood(generic, s, now); if ready then Refreshed(generic, s, now) else s
    case Input(pad) => s.(report := Merge(s.report, pad))
  }

  /** The state after a run of calls, none if a note-on's loop does not end. */
  function After(generic: bool, calls: seq<Call>): (r: Option<State>)
    ensures r.Some? ==> Good(r.value)
  {
    if calls == [] then StartGood(); Some(START)
    else
      var n := |calls| - 1;
      var before := After(generic, calls[..n]);
      if before.Some? && Allowed(before.value, calls[n]) then Some(Step(generic, before.value, calls[n])) else None
  }

  /** The reports sent over a run, each with the hits held. */
  function Sent(generic: bool, calls: seq<Call>): seq<State>
    requires After(generic, calls).Some?
  {
    if calls == [] then []
    else
      var n := |calls| - 1;
      Sent(generic, calls[..n]) + if calls[n].Refresh? && calls[n].ready then [After(generic, calls).value] else []
  }

  lemma StartGood()
    ensures Good(START)
  {
    QuietArbitrated(NO_HITS);
  }

  lemma {:induction false} EndsBefore(generic: bool, calls: seq<Call>, k: nat)
    requires After(generic, calls).Some? && k <= |calls|
    ensures After(generic, calls[..k]).Some?
    decreases |calls|
  {
    if k < |calls| {
      EndsBefore(generic, calls[..|calls| - 1], k);
      assert calls[..|calls| - 1][..k] == calls[..k];
    } else {
      assert calls[..k] == calls;
    }
  }

  /** A report says which pads are down. */
  predicate Says(generic: bool, s: State) {
    forall p :: 0 <= p < NUM_PADS ==> Down(generic, s.report.buttons, s.report.hat, p) == Active(s.hits, p)
  }

  predicate NoColour(b: Buttons) {
    !b.red && !b.yellow && !b.blue && !b.green
  }

  /** The report sent by any call after any run of notes, refreshes and game pad input says exactly
      what is down: on the Wii always, on a generic game pad if and only if there was a drum hit or no
      button of the game pad has a pad's colour. */
  lemma ReportSays(generic: bool, calls: seq<Call>, now: nat)
    requires After(generic, calls).Some?
    ensures var s := After(generic, calls).value;
            Says(generic, Refreshed(generic, s, now)) <==> !generic || !Quiet(s.hits) || NoColour(s.report.buttons)
  {
    hide After;
    var s := After(generic, calls).value;
    var s' := Refreshed(generic, s, now);
    RefreshedGood(generic, s, now);
    if Quiet(s.hits) {
      QuietSays(generic, s, s');
    } else {
      forall p | 0 <= p < NUM_PADS
        ensures Down(generic, s'.report.buttons, s'.report.hat, p) == Active(s'.hits, p)
      {
        Determined(generic, s'.hits, p);
      }
    }
  }

  lemma QuietSays(generic: bool, s: State, s': State)
    requires Good(s) && Quiet(s.hits) && |s'.hits| == NUM_PADS && Quiet(s'.hits)
    requires s'.report.buttons == s.report.buttons
    ensures Says(generic, s') <==> !generic || NoColour(s.report.buttons)
  {
    hide Arbitrated;
    var b := s'.report.buttons;
    if generic && !NoColour(b) {
      var p := if b.red then RED_PAD else if b.yellow then YELLOW_PAD else if b.blue then BLUE_PAD else GREEN_PAD;
      assert Down(generic, b, s'.report.hat, p) && !Active(s'.hits, p);
    }
  }

  /** On the Wii every report of every run says what is down, and with what velocity. */
  lemma {:induction false} WiiReportsSay(calls: seq<Call>, i: nat)
    requires After(false, calls).Some? && i < |Sent(false, calls)|
    ensures var s := Sent(false, calls)[i];
            && Good(s) && Says(false, s)
            && forall p :: 0 <= p < KICK && Active(s.hits, p) ==>
                 (At(s.report.velocities, SlotOf(s.hits, p)) == s.hits[p].velocity <==> !Overshadowed(s.hits, p))
    decreases |calls|
  {
    hide Says, Good, Overshadowed, SlotOf, At, Encode, VelocitiesOf;
    var n := |calls| - 1;
    if i < |Sent(false, calls[..n])| {
      WiiReportsSay(calls[..n], i);
    } else {
      ReportSays(false, calls[..n], calls[n].now);
      RefreshLoud(false, After(false, calls[..n]).value, calls[n].now);
    }
  }

  lemma RefreshLoud(generic: bool, s: State, now: nat)
    requires Good(s)
    ensures var s' := Refreshed(generic, s, now);
            && Good(s')
            && forall p :: 0 <= p < KICK && Active(s'.hits, p) ==>
                 (At(s'.report.velocities, SlotOf(s'.hits, p)) == s'.hits[p].velocity <==> !Overshadowed(s'.hits, p))
  {
    RefreshedGood(generic, s, now);
    var s' := Refreshed(generic, s, now);
    hide At, SlotOf, Overshadowed, VelocitiesOf;
    forall p | 0 <= p < KICK && Active(s'.hits, p)
      ensures At(s'.report.velocities, SlotOf(s'.hits, p)) == s'.hits[p].velocity <==> !Overshadowed(s'.hits, p)
    {
      VelocityPresent(generic, s'.hits, p);
    }
  }

  /** A game pad's red button on a generic game pad is taken for the red pad. */
  lemma GamePadTakenForPad(now: nat)
    ensures var calls := [Input(GamePad(HAT_CENTERED, false, true, false, false, false, false, false))];
            && After(true, calls).Some?
            && var s := Refreshed(true, After(true, calls).value, now);
               Down(true, s.report.buttons, s.report.hat, RED_PAD) && !Active(s.hits, RED_PAD)
  {
    StartGood();
    var c := Input(GamePad(HAT_CENTERED, false, true, false, false, false, false, false));
    assert [c][..0] == [];
    assert After(true, [c]) == Some(Step(true, START, c));
  }

  lemma FittingNote(h: seq<Hit>, note: nat, velocity: nat, now: nat)
    requires Sound(h) && NoteToPad(note) >= 0 && Arbitrated(h[NoteToPad(note) := Hit(1, 1)])
    requires !Active(h, NoteToPad(note))
    ensures Playable(h, note) && NoteOn(h, note, velocity, now) == h[NoteToPad(note) := Hit(now, velocity)]
  {
    var pad := NoteToPad(note);
    FewerArbitrated(LastTick(h)[pad := Hit(1, 1)], h[pad := Hit(1, 1)]);
  }

  lemma TwoPads(velocity: nat)
    ensures var h := NO_HITS[YELLOW_PAD := Hit(UINT32_MAX, velocity)];
            && Arbitrated(NO_HITS[YELLOW_PAD := Hit(1, 1)]) && Arbitrated(h[BLUE_PAD := Hit(1, 1)])
            && var h' := h[BLUE_PAD := Hit(UINT32_MAX, velocity)];
               Sound(h') && Stuck(h', GREEN_CYMBAL)
  {
    var h := NO_HITS[YELLOW_PAD := Hit(UINT32_MAX, velocity)];
    var h' := h[BLUE_PAD := Hit(UINT32_MAX, velocity)];
    assert LastTick(h') == h';
    Counted(NO_HITS[YELLOW_PAD := Hit(1, 1)]);
    Counted(h[BLUE_PAD := Hit(1, 1)]);
    Counted(h'[GREEN_CYMBAL := Hit(1, 1)]);
    hide Pads, Cymbals, LastTick;
  }

  /** Two pads hit at the clock's last reading are never removed, so the loop of a cymbal's note-on
      does not end. */
  lemma LastReadingHangs(velocity: nat)
    ensures var calls := [Note(48, velocity, UINT32_MAX), Note(45, velocity, UINT32_MAX)];
            && After(false, calls).Some? && !Playable(After(false, calls).value.hits, 49)
  {
    hide Stuck, After, Arbitrated, NoteToPad, Good, Sound;
    PadNotes();
    TwoPads(velocity);
    TwoNotes(48, 45, velocity, velocity, UINT32_MAX, UINT32_MAX);
  }

  /** The yellow and the blue pad, hit before and after the clock wrapped. */
  const WRAPPED: seq<Hit> := NO_HITS[YELLOW_PAD := Hit(CLOCK - 5, 1)][BLUE_PAD := Hit(3, 1)]

  lemma WrappedResolved()
    ensures Sound(WRAPPED) && LastTick(WRAPPED) == NO_HITS && !Stuck(WRAPPED, GREEN_CYMBAL)
    ensures Resolve(WRAPPED, GREEN_CYMBAL) == NO_HITS[YELLOW_PAD := Hit(CLOCK - 5, 1)]
  {
    var h, kept := WRAPPED, NO_HITS[YELLOW_PAD := Hit(CLOCK - 5, 1)];
    assert LastTick(h) == NO_HITS;
    assert Early(h, BLUE_PAD) && NotLater(h, BLUE_PAD, YELLOW_PAD) && !NotLater(h, YELLOW_PAD, BLUE_PAD);
    assert RemoveOldest(h) == kept;
    Counted(NO_HITS[GREEN_CYMBAL := Hit(1, 1)]);
    Counted(h[GREEN_CYMBAL := Hit(1, 1)]);
    Counted(kept[GREEN_CYMBAL := Hit(1, 1)]);
    hide Pads, Cymbals, LastTick, Oldest;
  }

  /** A note-on that gives up nothing, as the next call of a run. */
  lemma FittingCall(calls: seq<Call>, s: State, note: nat, velocity: nat, now: nat)
    requires After(false, calls) == Some(s) && NoteToPad(note) >= 0 && now <= UINT32_MAX
    requires !Active(s.hits, NoteToPad(note)) && Arbitrated(s.hits[NoteToPad(note) := Hit(1, 1)])
    ensures After(false, calls + [Note(note, velocity, now)])
            == Some(s.(hits := s.hits[NoteToPad(note) := Hit(now, velocity)]))
  {
    FittingNote(s.hits, note, velocity, now);
    hide Arbitrated, NoteOn, NoteToPad, Stuck;
    assert (calls + [Note(note, velocity, now)])[..|calls|] == calls;
  }

  lemma NothingAfter(generic: bool)
    ensures After(generic, []) == Some(START) && Good(START)
  {
    StartGood();
    hide Good;
  }

  lemma TwoFit(p: nat, q: nat, hit: Hit)
    requires p < NUM_PADS && q < NUM_PADS && p != q
    ensures !Active(NO_HITS, p) && Arbitrated(NO_HITS[p := Hit(1, 1)])
    ensures !Active(NO_HITS[p := hit], q) && Arbitrated(NO_HITS[p := hit][q := Hit(1, 1)])
  {
    var h := NO_HITS[p := hit];
    assert forall k :: 0 <= k < NUM_PADS && k != p ==> h[k] == NO_HITS[k] && !Active(h, k);
    OneFits(NO_HITS, q, p);
    OneFits(h, p, q);
  }

  lemma PadNotes()
    ensures NoteToPad(48) == YELLOW_PAD && NoteToPad(45) == BLUE_PAD
    ensures NoteToPad(46) == YELLOW_CYMBAL && NoteToPad(49) == GREEN_CYMBAL
  {
  }

  /** Two notes that give up nothing. */
  lemma TwoNotes(note: nat, other: nat, v: nat, w: nat, from: nat, to: nat)
    requires NoteToPad(note) >= 0 && NoteToPad(other) >= 0 && NoteToPad(note) != NoteToPad(other)
    requires from <= UINT32_MAX && to <= UINT32_MAX
    ensures After(false, [Note(note, v, from), Note(other, w, to)])
            == Some(State(NO_HITS[NoteToPad(note) := Hit(from, v)][NoteToPad(other) := Hit(to, w)], IDLE))
  {
    hide NoteToPad, Arbitrated, After, Good, Active;
    var p, q := NoteToPad(note), NoteToPad(other);
    var h := NO_HITS[p := Hit(from, v)];
    TwoFit(p, q, Hit(from, v));
    NothingAfter(false);
    FittingCall([], START, note, v, from);
    assert [] + [Note(note, v, from)] == [Note(note, v, from)];
    FittingCall([Note(note, v, from)], State(h, IDLE), other, w, to);
    assert [Note(note, v, from)] + [Note(other, w, to)] == [Note(note, v, from), Note(other, w, to)];
  }

  /** The clock wraps around between the hits of two pads, 8 ms apart: a cymbal's note-on gives up the newer
      one and keeps the older. */
  lemma WrapKeepsOlder(velocity: nat)
    ensures var calls := [Note(48, 1, CLOCK - 5), Note(45, 1, 3), Note(49, velocity, 4)];
            && After(false, calls[..2]) == Some(State(WRAPPED, IDLE))
            && After(false, calls)
               == Some(State(NO_HITS[YELLOW_PAD := Hit(CLOCK - 5, 1)][GREEN_CYMBAL := Hit(4, velocity)], IDLE))
  {
    var calls := [Note(48, 1, CLOCK - 5), Note(45, 1, 3), Note(49, velocity, 4)];
    PadNotes();
    TwoNotes(48, 45, 1, 1, CLOCK - 5, 3);
    WrappedNote(velocity);
    assert calls[..2] == [Note(48, 1, CLOCK - 5), Note(45, 1, 3)];
    hide NoteOn, Playable, Arbitrated, Sound, DrumFree, Quiet;
    assert calls[..|calls| - 1] == calls[..2] && calls[2] == Note(49, velocity, 4);
  }

  lemma WrappedNote(velocity: nat)
    ensures Sound(WRAPPED) && Playable(WRAPPED, 49)
    ensures NoteOn(WRAPPED, 49, velocity, 4) == NO_HITS[YELLOW_PAD := Hit(CLOCK - 5, 1)][GREEN_CYMBAL := Hit(4, velocity)]
  {
    WrappedResolved();
    hide Resolve, Stuck;
    assert !Active(WRAPPED, GREEN_CYMBAL) && NoteToPad(49) == GREEN_CYMBAL;
  }

  /** A pad hit with velocity 0 and then its cymbal: the report shows the cymbal's velocity in the slot of
      both. */
  lemma CymbalOvershadows(velocity: nat)
    requires velocity > 0
    ensures var calls := [Note(48, 0, 1), Note(46, velocity, 2)];
            && After(false, calls).Some?
            && var s := Refreshed(false, After(false, calls).value, 3);
               && s.hits == NO_HITS[YELLOW_PAD := Hit(1, 0)][YELLOW_CYMBAL := Hit(2, velocity)]
               && Overshadowed(s.hits, YELLOW_PAD) && s.report.velocities == Velocities(velocity, 0, 0, 0)
  {
    hide After, Arbitrated, NoteToPad, Good, Sound;
    PadNotes();
    TwoNotes(48, 46, 0, velocity, 1, 2);
    OvershadowedHits(velocity);
  }

  lemma OvershadowedHits(velocity: nat)
    requires velocity > 0
    ensures var h := NO_HITS[YELLOW_PAD := Hit(1, 0)][YELLOW_CYMBAL := Hit(2, velocity)];
            && Sound(h) && Expire(h, 3) == h && !Quiet(h)
            && Overshadowed(h, YELLOW_PAD) && VelocitiesOf(h) == Velocities(velocity, 0, 0, 0)
  {
    var h := NO_HITS[YELLOW_PAD := Hit(1, 0)][YELLOW_CYMBAL := Hit(2, velocity)];
    assert Expire(h, 3) == h && !QuietBelow(h, NUM_PADS) by { assert Active(h, YELLOW_PAD); }
  }

  /** Before the clock's last reading every note-on ends. */
  predicate EarlyClock(c: Call) {
    c.Note? ==> c.now < UINT32_MAX
  }

  lemma {:induction false} EarlyRunsEnd(generic: bool, calls: seq<Call>)
    requires forall i :: 0 <= i < |calls| ==> EarlyClock(calls[i])
    ensures After(generic, calls).Some?
    ensures forall p :: 0 <= p < NUM_PADS ==> After(generic, calls).value.hits[p].timeMs < UINT32_MAX
  {
    if calls == [] {
      NothingAfter(generic);
    } else {
      var n := |calls| - 1;
      EarlyRunsEnd(generic, calls[..n]);
      hide Good, Allowed, Step;
      EarlyStep(generic, After(generic, calls[..n]).value, calls[n]);
    }
  }

  lemma EarlyStep(generic: bool, s: State, c: Call)
    requires Good(s) && EarlyClock(c) && forall p :: 0 <= p < NUM_PADS ==> s.hits[p].timeMs < UINT32_MAX
    ensures Allowed(s, c) && Good(Step(generic, s, c))
    ensures forall p :: 0 <= p < NUM_PADS ==> Step(generic, s, c).hits[p].timeMs < UINT32_MAX
  {
    hide Arbitrated, Quiet, DrumFree, Encode, VelocitiesOf, Stuck, Resolve;
    if c.Note? {
      var pad := NoteToPad(c.note);
      if pad >= 0 && !Active(s.hits, pad) {
        NeverStuck(s.hits, pad);
        assert Fewer(Resolve(s.hits, pad), s.hits);
      }
    }
  }

  /** One more call of a run that ends. */
  lemma RunNext(generic: bool, calls: seq<Call>, i: nat)
    requires After(generic, calls).Some? && i < |calls|
    ensures var c, before, after := calls[i], After(generic, calls[..i]), After(generic, calls[..i + 1]);
            && before.Some? && Good(before.value) && Allowed(before.value, c)
            && after == Some(Step(generic, before.value, c))
            && Sent(generic, calls[..i + 1])
               == Sent(generic, calls[..i]) + if c.Refresh? && c.ready then [after.value] else []
  {
    hide Good, Allowed, Step;
    EndsBefore(generic, calls, i + 1);
    assert calls[..i + 1][..i] == calls[..i];
  }

  function ReportsOf(states: seq<State>): (r: seq<Report>)
    ensures |r| == |states| && forall i :: 0 <= i < |r| ==> r[i] == states[i].report
  {
    seq(|states|, i requires 0 <= i < |states| => states[i].report)
  }

  lemma ReportsMore(states: seq<State>, s: State)
    ensures ReportsOf(states + [s]) == ReportsOf(states) + [s.report] && ReportsOf(states + []) == ReportsOf(states)
  {
    assert states + [] == states;
  }

  method Begin(generic: bool) returns (t: Transport)
    ensures fresh(t) && fresh(t.hits) && t.Valid() && t.generic == generic
    ensures After(generic, []) == Some(t.Value()) && Sent(generic, []) == []
  {
    hide Good;
    t := new Transport(generic);
  }

  /** A transport driven by any run of calls sends what the run says. */
  method Drive(generic: bool, calls: seq<Call>) returns (reports: seq<Report>)
    requires After(generic, calls).Some?
    ensures reports == ReportsOf(Sent(generic, calls))
  {
    var t := Begin(generic);
    reports := [];
    assert calls[..0] == [] && reports == ReportsOf([]);
    hide *;
    for i := 0 to |calls|
      invariant fresh(t) && fresh(t.hits) && t.Valid() && t.generic == generic
      invariant After(generic, calls[..i]) == Some(t.Value())
      invariant reports == ReportsOf(Sent(generic, calls[..i]))
    {
      RunNext(generic, calls, i);
      ReportsMore(Sent(generic, calls[..i]), Step(generic, t.Value(), calls[i]));
      var sent := t.Handle(calls[i]);
      if sent {
        reports := reports + [t.report];
      }
    }
    assert calls[..|calls|] == calls;
  }
}
