/** The pad's state machine, with the true time beside the 32-bit clock it reads. */
module SensingPad {
  import opened Bytes
  import opened Sensing

  datatype LastEvent = NoEvent | WasHit | WasChoked

  /** Zones that trigger by their own level: all, or the piezo only. */
  function Piezos(s: Settings): nat {
    if s.switches then 1 else s.zones
  }

  function PinCount(s: Settings): nat {
    if s.sharedPin && s.zones == 3 then 2 else s.zones
  }

  /** What the pins say about the zones. */
  function Read(s: Settings, sensors: seq<nat>, pins: seq<nat>): (r: seq<nat>)
    requires WfSettings(s) && |sensors| == 3 && |pins| == PinCount(s)
    ensures |r| == 3
  {
    if s.sharedPin && s.zones == 3 then
      if pins[1] >= s.minimum[2] then [pins[0], 0, pins[1]] else [pins[0], pins[1], 0]
    else pins + sensors[|pins|..]
  }

  /** A piezo at its level, or a choke. */
  predicate Triggers(s: Settings, sensors: seq<nat>, levels: seq<nat>, touched: bool)
    requires WfSettings(s) && |sensors| == 3 && |levels| == 3
  {
    (exists z :: 0 <= z < Piezos(s) && sensors[z] >= levels[z]) || Choked(s, sensors, touched)
  }

  /** The levels of the piezos at some time of the decay. */
  function LevelsAt(s: Settings, peaks: seq<nat>, since: nat): (levels: seq<nat>)
    requires WfSettings(s) && |peaks| == 3 && since < s.decayTimeMs * 1000
    ensures |levels| == 3
  {
    seq(3, z requires 0 <= z < 3 =>
      if z < s.zones then DecayLevel(peaks[z], s.minimum[z], since, s.decayTimeMs * 1000) else s.minimum[z])
  }

  /** A scan has seen a hit, not only a choke. */
  predicate Loud(s: Settings, peaks: seq<nat>)
    requires WfSettings(s) && |peaks| == 3
  {
    exists z :: 0 <= z < Piezos(s) && peaks[z] > 0
  }

  /** `z` has the largest value; the preferred index wins a tie, then the first one. */
  predicate Largest(values: seq<nat>, preferred: nat, z: nat)
    requires preferred < |values|
  {
    && z < |values|
    && (forall j :: 0 <= j < |values| ==> values[j] <= values[z])
    && (values[preferred] == values[z] ==> z == preferred)
    && (z != preferred ==> forall j :: 0 <= j < z ==> values[j] < values[z])
  }

  method FindMaxValueIndex(values: seq<nat>, preferred: nat) returns (z: nat)
    requires preferred < |values|
    ensures Largest(values, preferred, z)
  {
    z := preferred;
    for i := 0 to |values|
      invariant z < |values| && values[preferred] <= values[z] && (z == preferred || z < i)
      invariant forall j :: 0 <= j < i ==> values[j] <= values[z]
      invariant values[preferred] == values[z] ==> z == preferred
      invariant z != preferred ==> forall j :: 0 <= j < z ==> values[j] < values[z]
    {
      if values[i] > values[z] {
        z := i;
      }
    }
  }

  /** Velocities weighted by the preference for the head (negative) or the rim. */
  function Weighted(s: Settings, values: seq<nat>): (r: seq<nat>)
    requires WfSettings(s) && |values| == s.zones
    ensures |r| == |values|
    ensures forall j :: 0 <= j < |values| ==> (r[j] == 0 <==> values[j] == 0)
  {
    var extra := MAX_PREFERENCE_MULT * (if s.headRimBias < 0 then -s.headRimBias else s.headRimBias);
    if s.zones == 1 || s.headRimBias == 0 then values
    else
      var z := Preferred(s);
      values[z := values[z] + values[z] * extra / 100]
  }

  function Preferred(s: Settings): nat {
    if s.zones == 1 || s.headRimBias < 0 then 0 else 1
  }

  function ScaledPeaks(s: Settings, peaks: seq<nat>): (r: seq<nat>)
    requires WfSettings(s) && |peaks| == 3
    ensures |r| == s.zones && forall z :: 0 <= z < s.zones ==> r[z] <= MAX_SENSOR_VALUE
  {
    seq(s.zones, z requires 0 <= z < s.zones => Scale(peaks[z], s.minimum[z], s.maximum[z]))
  }

  /** The zone that was hit. */
  predicate HitZone(s: Settings, peaks: seq<nat>, z: nat)
    requires WfSettings(s) && |peaks| == 3
  {
    if s.switches then
      if forall j :: 1 <= j < s.zones ==> peaks[j] == 0 then z == 0
      else 1 <= z < s.zones && Largest(peaks[1..s.zones], 0, z - 1)
    else Largest(Weighted(s, ScaledPeaks(s, peaks)), Preferred(s), z)
  }

  /** The zone with the loudest peak: the peak of the preferred zone, the head with a negative bias, counts 5 %
      more for every step of the bias, and it wins a tie; then the first zone wins. */
  ghost predicate Loudest(s: Settings, scaled: seq<nat>, z: nat)
    requires |scaled| == s.zones
  {
    && z < s.zones
    && (s.zones > 1 ==>
          var preferred := if s.headRimBias < 0 then 0 else 1;
          var percent := if s.headRimBias < 0 then 100 - 5 * s.headRimBias else 100 + 5 * s.headRimBias;
          if z == preferred then forall j :: 0 <= j < s.zones && j != z ==> scaled[j] * 100 <= scaled[z] * percent
          else
            && scaled[preferred] * percent < scaled[z] * 100
            && forall j :: 0 <= j < s.zones && j != preferred ==>
                 scaled[j] <= scaled[z] && (j < z ==> scaled[j] < scaled[z]))
  }

  lemma PreferredInside(s: Settings)
    requires WfSettings(s)
    ensures Preferred(s) < s.zones
  {
  }

  /** Weighing the velocities in whole numbers finds the loudest zone. */
  lemma LoudestIsHit(s: Settings, peaks: seq<nat>, z: nat)
    requires WfSettings(s) && |peaks| == 3 && !s.switches
    ensures HitZone(s, peaks, z) <==> Loudest(s, ScaledPeaks(s, peaks), z)
  {
    hide ScaledPeaks;
    var scaled := ScaledPeaks(s, peaks);
    if s.zones > 1 {
      var p := Preferred(s);
      var percent := if s.headRimBias < 0 then 100 - 5 * s.headRimBias else 100 + 5 * s.headRimBias;
      WeightOf(s, scaled);
      var weighted := Weighted(s, scaled);
      hide Weighted;
      assert forall j :: 0 <= j < s.zones && j != p ==> weighted[j] == scaled[j];
      forall j | 0 <= j < s.zones && j != p
        ensures scaled[j] <= weighted[p] <==> scaled[j] * 100 <= scaled[p] * percent
      {
        WholePercent(scaled[p], percent, scaled[j]);
      }
    }
  }

  lemma WeightOf(s: Settings, values: seq<nat>)
    requires WfSettings(s) && |values| == s.zones > 1
    ensures var p := Preferred(s);
            var percent := if s.headRimBias < 0 then 100 - 5 * s.headRimBias else 100 + 5 * s.headRimBias;
            Weighted(s, values) == values[p := values[p] * percent / 100]
  {
    var p := Preferred(s);
    var percent := if s.headRimBias < 0 then 100 - 5 * s.headRimBias else 100 + 5 * s.headRimBias;
    assert values[p] * percent == values[p] * 100 + values[p] * (percent - 100);
    if s.headRimBias == 0 {
      assert values[p := values[p]] == values;
    }
  }

  lemma WholePercent(value: nat, percent: nat, other: nat)
    ensures other <= value * percent / 100 <==> other * 100 <= value * percent
  {
  }

  // What the caller sees of the sensors

  /** A piezo's pin reaches its threshold. */
  predicate Struck(s: Settings, pins: seq<nat>)
    requires WfSettings(s) && |pins| == PinCount(s)
  {
    exists z :: 0 <= z < Piezos(s) && pins[z] > 0 && pins[z] >= s.minimum[z]
  }

  /** The choke sensor is active: the touch sensor, or the switch of the edge or the cup. Of two switches on a
      shared pin the cup's is the one with the higher threshold. */
  predicate Pressed(s: Settings, pins: seq<nat>, touched: bool)
    requires WfSettings(s) && |pins| == PinCount(s)
  {
    s.cymbal &&
    if s.choke == TouchSensor then touched
    else if s.choke == SwitchEdge && s.sharedPin && s.zones == 3 then
      s.minimum[1] == 0 || s.minimum[1] <= pins[1] < s.minimum[2]
    else if s.choke == SwitchEdge then s.zones > 1 && pins[1] >= s.minimum[1]
    else s.choke == SwitchCup && s.zones == 3 && pins[if s.sharedPin then 1 else 2] >= s.minimum[2]
  }

  /** A piezo that is always at its threshold. */
  predicate AlwaysAtThreshold(s: Settings)
    requires WfSettings(s)
  {
    exists z :: 0 <= z < Piezos(s) && s.minimum[z] == 0
  }

  lemma ChokedIs(s: Settings, sensors: seq<nat>, pins: seq<nat>, touched: bool)
    requires WfSettings(s) && |sensors| == 3 && |pins| == PinCount(s)
    ensures Choked(s, Read(s, sensors, pins), touched) == Pressed(s, pins, touched)
  {
    var r := Read(s, sensors, pins);
    if s.sharedPin && s.zones == 3 {
      assert r[1] == if pins[1] >= s.minimum[2] then 0 else pins[1];
    } else {
      assert forall j :: 0 <= j < s.zones ==> r[j] == pins[j];
    }
  }

  /** A trigger, as the pins tell it. */
  lemma TriggersMean(s: Settings, sensors: seq<nat>, pins: seq<nat>, levels: seq<nat>, touched: bool)
    requires WfSettings(s) && |sensors| == 3 && |pins| == PinCount(s) && |levels| == 3
    requires forall z :: 0 <= z < s.zones ==> levels[z] >= s.minimum[z]
    requires Triggers(s, Read(s, sensors, pins), levels, touched)
    ensures Pressed(s, pins, touched) || Struck(s, pins) || AlwaysAtThreshold(s)
  {
    ChokedIs(s, sensors, pins, touched);
    PiezosRead(s, sensors, pins);
    hide Read, Choked, Pressed;
    var r := Read(s, sensors, pins);
    if !Choked(s, r, touched) {
      var z :| 0 <= z < Piezos(s) && r[z] >= levels[z];
      assert pins[z] >= s.minimum[z];
    }
  }

  lemma PiezosRead(s: Settings, sensors: seq<nat>, pins: seq<nat>)
    requires WfSettings(s) && |sensors| == 3 && |pins| == PinCount(s)
    ensures Piezos(s) <= |pins| && forall z :: 0 <= z < Piezos(s) ==> Read(s, sensors, pins)[z] == pins[z]
  {
  }

  /** A scan is loud as soon as a piezo's pin reaches its threshold. */
  lemma LoudNext(s: Settings, before: seq<nat>, sensors: seq<nat>, pins: seq<nat>, after: seq<nat>)
    requires WfSettings(s) && |before| == |after| == |sensors| == 3 && |pins| == PinCount(s)
    requires forall z :: 0 <= z < s.zones ==> after[z] == Raise(s, z, before[z], Read(s, sensors, pins)[z])
    ensures Loud(s, after) <==> Loud(s, before) || Struck(s, pins)
  {
    PiezosRead(s, sensors, pins);
    hide Read;
    forall z | 0 <= z < Piezos(s)
      ensures after[z] > 0 <==> before[z] > 0 || (pins[z] > 0 && pins[z] >= s.minimum[z])
    {
      assert after[z] == Raise(s, z, before[z], pins[z]);
    }
  }

  lemma LoudAfter(s: Settings, window: seq<seq<nat>>, before: seq<nat>, sensors: seq<nat>, pins: seq<nat>, after: seq<nat>)
    requires WfSettings(s) && |before| == |after| == |sensors| == 3 && |pins| == PinCount(s) && Samples(window)
    requires forall z :: 0 <= z < s.zones ==> before[z] == Seen(s, window, z)
    requires Samples(window + [Read(s, sensors, pins)])
    requires forall z :: 0 <= z < s.zones ==> after[z] == Seen(s, window + [Read(s, sensors, pins)], z)
    ensures Loud(s, after) <==> Loud(s, before) || Struck(s, pins)
  {
    hide Read, Seen, Raise, Loud, Struck, Samples;
    forall z | 0 <= z < s.zones
      ensures after[z] == Raise(s, z, before[z], Read(s, sensors, pins)[z])
    {
      SeenNext(s, window, Read(s, sensors, pins), z);
    }
    LoudNext(s, before, sensors, pins, after);
  }

  lemma LoudAtFirst(s: Settings, sensors: seq<nat>, pins: seq<nat>, after: seq<nat>)
    requires WfSettings(s) && |after| == |sensors| == 3 && |pins| == PinCount(s)
    requires Samples([Read(s, sensors, pins)])
    requires forall z :: 0 <= z < s.zones ==> after[z] == Seen(s, [Read(s, sensors, pins)], z)
    ensures Loud(s, after) <==> Struck(s, pins)
  {
    assert [] + [Read(s, sensors, pins)] == [Read(s, sensors, pins)];
    assert !Loud(s, [0, 0, 0]);
    hide Read, Struck;
    LoudAfter(s, [], [0, 0, 0], sensors, pins, after);
  }

  lemma LevelsAbove(s: Settings, peaks: seq<nat>, since: nat)
    requires WfSettings(s) && |peaks| == 3 && since < s.decayTimeMs * 1000
    ensures forall z :: 0 <= z < s.zones ==> LevelsAt(s, peaks, since)[z] >= s.minimum[z]
  {
  }

  /** In a decay, a scan starts with a choke or a sample that reaches the line of its piezo. */
  lemma DecayTriggers(s: Settings, sensors: seq<nat>, peaks: seq<nat>, since: nat, touched: bool)
    requires WfSettings(s) && |sensors| == 3 && |peaks| == 3 && since < 1000 * s.decayTimeMs
    ensures Triggers(s, sensors, LevelsAt(s, peaks, since), touched) <==> (
              || Choked(s, sensors, touched)
              || exists z :: 0 <= z < Piezos(s) && Reaches(sensors[z], peaks[z], s.minimum[z], since, 1000 * s.decayTimeMs))
  {
    var levels := LevelsAt(s, peaks, since);
    forall z | 0 <= z < Piezos(s)
      ensures sensors[z] >= levels[z] <==> Reaches(sensors[z], peaks[z], s.minimum[z], since, 1000 * s.decayTimeMs)
    {
      ReachesLevel(sensors[z], peaks[z], s.minimum[z], since, 1000 * s.decayTimeMs);
    }
    hide DecayLevel, LevelsAt, Choked, Reaches;
  }

  /** Consecutive events are at least `gap` apart. */
  ghost predicate Spaced(events: seq<Event>, gap: nat) {
    forall i :: 0 < i < |events| ==> events[i].time >= events[i - 1].time + gap
  }

  /** Between two chokes there is a hit. */
  ghost predicate ChokesApart(events: seq<Event>) {
    forall i, j :: 0 <= i < j < |events| && events[i].kind == Choke && events[j].kind == Choke ==>
      exists k :: i < k < j && events[k].kind == Hit
  }

  ghost predicate NoDoubleChoke(events: seq<Event>) {
    forall i :: 0 < i < |events| ==> events[i].kind == Hit || events[i - 1].kind == Hit
  }

  lemma ChokesAreApart(events: seq<Event>)
    requires NoDoubleChoke(events)
    ensures ChokesApart(events)
  {
    forall i, j | 0 <= i < j < |events| && events[i].kind == Choke && events[j].kind == Choke
      ensures exists k :: i < k < j && events[k].kind == Hit
    {
      assert events[j - 1].kind == Hit;
    }
  }

  function MaskUs(s: Settings): nat {
    s.maskTimeMs * 1000
  }

  class Pad {
    const s: Settings
    var mode: Mode
    var hitTimeUs: nat
    var scanTimeEndUs: nat
    const sensors: array<nat>
    const peaks: array<nat>
    const velocities: array<nat>
    const hits: array<bool>
    var choked: bool
    var last: LastEvent
    /** True time of the last call and of the last detection; samples since then; all events. */
    ghost var now: nat
    ghost var detected: nat
    ghost var window: seq<seq<nat>>
    ghost var events: seq<Event>

    ghost predicate Shape() {
      && WfSettings(s)
      && sensors.Length == peaks.Length == velocities.Length == hits.Length == 3
      && sensors != peaks && sensors != velocities && peaks != velocities
    }

    /** The peaks are what the scan has seen. */
    ghost predicate Watching()
      requires Shape()
      reads this`window, peaks
    {
      Samples(window) && forall z :: 0 <= z < s.zones ==> peaks[z] == Seen(s, window, z)
    }

    ghost function LastTime(): nat
      requires events != []
      reads this`events
    {
      events[|events| - 1].time
    }

    /** The last event, when there was one, is at least the mask time past. */
    ghost predicate MaskOver(time: nat)
      reads this`events
    {
      events != [] ==> time >= LastTime() + MaskUs(s)
    }

    ghost predicate Timed()
      reads this`mode, this`now, this`hitTimeUs, this`scanTimeEndUs, this`detected, this`events
    {
      match mode
      case PeakDetect => MaskOver(now)
      case Decay => MaskOver(now) && events != [] && scanTimeEndUs == LastTime() % W32
      case Scan => hitTimeUs == detected % W32 && detected <= now && MaskOver(detected)
      case Mask => events != [] && LastTime() <= now && scanTimeEndUs == LastTime() % W32
    }

    ghost predicate Remembers()
      reads this`last, this`events
    {
      last == if events == [] then NoEvent else if events[|events| - 1].kind == Hit then WasHit else WasChoked
    }

    ghost predicate Valid()
      reads this, peaks
    {
      Shape() && Watching() && Timed() && Remembers()
      && Spaced(events, MaskUs(s) + s.scanTimeUs) && NoDoubleChoke(events)
    }

    constructor (settings: Settings)
      requires WfSettings(settings)
      ensures Valid() && s == settings && events == [] && mode == PeakDetect && now == 0
      ensures fresh(sensors) && fresh(peaks) && fresh(velocities) && fresh(hits)
    {
      s := settings;
      mode, hitTimeUs, scanTimeEndUs, choked, last := PeakDetect, 0, 0, false, NoEvent;
      sensors := new nat[3](_ => 0);
      peaks := new nat[3](_ => 0);
      velocities := new nat[3](_ => 0);
      hits := new bool[3](_ => false);
      now, detected, window, events := 0, 0, [], [];
    }

    method ResetHitInfo()
      requires Shape()
      modifies velocities, hits, this`choked
      ensures !choked && NoHits()
    {
      for z := 0 to s.zones
        invariant forall j :: 0 <= j < z ==> !hits[j] && velocities[j] == 0
      {
        hits[z], velocities[z] := false, 0;
      }
      choked := false;
    }

    method ReadInputValues(pins: seq<nat>)
      requires Shape() && |pins| == PinCount(s)
      modifies sensors
      ensures sensors[..] == Read(s, old(sensors[..]), pins)
      ensures s.zones < 3 || !s.sharedPin ==>
                forall z :: 0 <= z < 3 ==> sensors[z] == if z < s.zones then pins[z] else old(sensors[z])
      ensures s.zones == 3 && s.sharedPin ==>
                && sensors[0] == pins[0]
                && if pins[1] < s.minimum[2] then sensors[1] == pins[1] && sensors[2] == 0
                   else sensors[1] == 0 && sensors[2] == pins[1]
    {
      var i := 0;
      while i < |pins|
        invariant 0 <= i <= |pins|
        invariant i > 0 ==> sensors[0] == pins[0]
        invariant !(s.sharedPin && s.zones == 3) ==> forall j :: 0 <= j < 3 ==> sensors[j] == if j < i then pins[j] else old(sensors[j])
        invariant s.sharedPin && i == 2 ==> sensors[..] == Read(s, old(sensors[..]), pins)
      {
        if s.sharedPin && i == 1 {
          var index := if pins[1] >= s.minimum[2] then 2 else 1;
          sensors[index], sensors[3 - index] := pins[1], 0;
        } else {
          sensors[i] := pins[i];
        }
        i := i + 1;
      }
    }

    method UpdateMaxSensorValue()
      requires Shape()
      modifies peaks
      ensures forall z :: 0 <= z < s.zones ==> peaks[z] == Raise(s, z, old(peaks[z]), sensors[z])
    {
      for z := 0 to s.zones
        invariant forall j :: 0 <= j < 3 ==> peaks[j] == if j < z then Raise(s, j, old(peaks[j]), sensors[j]) else old(peaks[j])
      {
        if s.switches && z > 0 {
          if sensors[z] >= s.minimum[z] {
            peaks[z] := (peaks[z] + 1) % W16;
          }
        } else if sensors[z] > peaks[z] && sensors[z] >= s.minimum[z] {
          peaks[z] := sensors[z];
        }
      }
    }

    /** Looks for a trigger at the given levels, and starts a scan with it. */
    method DetectPeak(t: nat, levels: seq<nat>, touched: bool) returns (found: bool)
      requires Shape() && Watching() && |levels| == 3
      modifies this`hitTimeUs, this`detected, this`window, peaks
      ensures found == Triggers(s, sensors[..], levels, touched)
      ensures Watching() && window == if found then [sensors[..]] else old(window)
      ensures found ==> hitTimeUs == t % W32 && detected == t
      ensures !found ==> peaks[..] == old(peaks[..]) && hitTimeUs == old(hitTimeUs) && detected == old(detected)
    {
      found := false;
      for z := 0 to Piezos(s)
        invariant found == exists j :: 0 <= j < z && sensors[j] >= levels[j]
      {
        found := found || sensors[z] >= levels[z];
      }
      found := found || Choked(s, sensors[..], touched);
      if !found {
        return;
      }
      hitTimeUs, detected := t % W32, t;
      for z := 0 to s.zones
        invariant hitTimeUs == t % W32 && detected == t
        invariant forall j :: 0 <= j < z ==> peaks[j] == 0
      {
        peaks[z] := 0;
      }
      window := [];
      Sample();
      assert [] + [sensors[..]] == [sensors[..]];
    }

    /** The sample just read counts for the peaks. */
    method Sample()
      requires Shape() && Samples(window) && forall z :: 0 <= z < s.zones ==> peaks[z] == Seen(s, window, z)
      modifies this`window, peaks
      ensures Watching() && window == old(window) + [sensors[..]]
    {
      forall z | 0 <= z < s.zones
        ensures Samples(window + [sensors[..]])
        ensures Seen(s, window + [sensors[..]], z) == Raise(s, z, peaks[z], sensors[z])
      {
        SeenNext(s, window, sensors[..], z);
      }
      UpdateMaxSensorValue();
      window := window + [sensors[..]];
    }

    /** The zone with the loudest peak, or the switch pressed most often. */
    method DetermineHitZone() returns (z: nat)
      requires Shape()
      ensures z < s.zones && HitZone(s, peaks[..], z)
      ensures !s.switches ==> Loudest(s, ScaledPeaks(s, peaks[..]), z)
    {
      hide Weighted, ScaledPeaks, Preferred, Loudest;
      if s.switches {
        if s.zones == 1 {
          return 0;
        }
        var counters := peaks[1..s.zones];
        var i := FindMaxValueIndex(counters, 0);
        z := if counters[i] > 0 then i + 1 else 0;
        assert peaks[..][1..s.zones] == counters;
        assert HitZone(s, peaks[..], z) by { SwitchZone(s, peaks[..], i); }
      } else {
        assert Preferred(s) < s.zones by { PreferredInside(s); }
        z := FindMaxValueIndex(Weighted(s, ScaledPeaks(s, peaks[..])), Preferred(s));
        hide Largest;
        assert HitZone(s, peaks[..], z);
        hide HitZone;
        LoudestIsHit(s, peaks[..], z);
      }
    }

    method HandleChoked(t: nat) returns (next: Mode)
      requires Remembers()
      modifies this`choked, this`last, this`events
      ensures next == if old(last) == WasChoked then PeakDetect else Mask
      ensures Remembers() && events == if next == Mask then old(events) + [Event(Choke, t)] else old(events)
      ensures choked == if next == Mask then true else old(choked)
    {
      if last == WasChoked {
        return PeakDetect;
      }
      choked, last := true, WasChoked;
      events := events + [Event(Choke, t)];
      return Mask;
    }

    /** A zone was hit, alone. */
    ghost predicate HitAt(z: nat)
      requires Shape()
      reads peaks, velocities, hits
    {
      && z < s.zones && HitZone(s, peaks[..], z) && peaks[z] > 0
      && (!s.switches ==> Loudest(s, ScaledPeaks(s, peaks[..]), z))
      && (forall j :: 0 <= j < s.zones ==> hits[j] == (j == z))
      && 1 <= velocities[z] <= 127 && VelocitiesAt(z)
    }

    /** Every piezo has the velocity of its peak, or the zone hit by a switch that of the only piezo. */
    ghost predicate VelocitiesAt(z: nat)
      requires Shape()
      reads peaks, velocities
    {
      forall j :: 0 <= j < s.zones ==>
        if !s.switches then Velocity(peaks[j], s.minimum[j], s.maximum[j], velocities[j])
        else if j == z then Velocity(peaks[0], s.minimum[0], s.maximum[0], velocities[j])
        else velocities[j] == 0
    }

    ghost predicate NoHits()
      requires Shape()
      reads hits, velocities
    {
      forall j :: 0 <= j < s.zones ==> !hits[j] && velocities[j] == 0
    }

    /** What a scan comes to: whether it was loud, the zone, and the velocities. */
    method Judge() returns (z: nat, loud: bool)
      requires Shape() && Watching() && NoHits()
      modifies velocities
      ensures loud == Loud(s, peaks[..]) && z < s.zones
      ensures loud ==> HitZone(s, peaks[..], z) && (!s.switches ==> Loudest(s, ScaledPeaks(s, peaks[..]), z))
      ensures loud ==> peaks[z] > 0 && 1 <= velocities[z] <= 127 && VelocitiesAt(z)
      ensures !loud ==> forall j :: 0 <= j < s.zones ==> velocities[j] == 0
    {
      hide Scale, Curve, Seen, HitZone, Loud, Loudest, Velocity;
      ghost var seen := peaks[..];
      PeaksLoud(s, window, seen);
      z, loud := 0, false;
      if s.switches {
        loud := peaks[0] > 0;
        if loud {
          z := DetermineHitZone();
          velocities[z] := Curve(Scale(peaks[0], s.minimum[0], s.maximum[0]));
          VelocityIs(peaks[0], s.minimum[0], s.maximum[0]);
          Audible(s, seen, 0, velocities[z]);
          if z > 0 {
            SwitchPressed(s, seen, z);
          }
        }
      } else {
        SetVelocities();
        z := DetermineHitZone();
        ZoneLoud(s, window, seen, z);
        loud := peaks[z] > 0;
        if loud {
          Audible(s, seen, z, velocities[z]);
        } else {
          Silent(s, seen, velocities[..]);
        }
      }
    }

    /** The end of a scan: a hit if a piezo was loud, else a choke. */
    method EndScan(t: nat) returns (next: Mode, ghost zone: nat)
      requires Shape() && Watching() && Remembers() && NoHits() && !choked
      modifies this`scanTimeEndUs, this`choked, this`last, this`events, velocities, hits
      ensures Watching() && Remembers() && scanTimeEndUs == t % W32
      ensures if Loud(s, peaks[..]) then HitAt(zone) && !choked else NoHits() && choked == (next == Mask)
      ensures next == if !Loud(s, peaks[..]) && old(last) == WasChoked then PeakDetect else Mask
      ensures events == if Loud(s, peaks[..]) then old(events) + [Event(Hit, t)]
                        else if next == Mask then old(events) + [Event(Choke, t)] else old(events)
    {
      hide Seen, HitZone, Loud, Loudest, ScaledPeaks, Velocity;
      scanTimeEndUs := t % W32;
      var z, loud := Judge();
      zone := z;
      if !loud {
        next := HandleChoked(t);
        return;
      }
      hits[z] := true;
      last := WasHit;
      events := events + [Event(Hit, t)];
      next := Mask;
    }

    /** Peak detection, at the thresholds or at the level the decay has reached. */
    method InDetect(t: nat, levels: seq<nat>, touched: bool)
      requires Valid() && (mode == PeakDetect || mode == Decay) && t >= now && |levels| == 3
      modifies this`mode, this`hitTimeUs, this`detected, this`window, this`now, peaks
      ensures Valid() && now == t
      ensures mode == if Triggers(s, sensors[..], levels, touched) then Scan else old(mode)
      ensures mode == Scan ==> window == [sensors[..]] && detected == t
      ensures mode != Scan ==> window == old(window) && peaks[..] == old(peaks[..])
    {
      hide Watching, Seen, Triggers, Spaced, NoDoubleChoke;
      var found := DetectPeak(t, levels, touched);
      now := t;
      if found {
        mode := Scan;
      }
    }

    method InScan(t: nat) returns (ghost zone: nat)
      requires Valid() && mode == Scan && t >= now && NoHits() && !choked
      modifies this`mode, this`scanTimeEndUs, this`choked, this`last, this`window, this`events, this`now, peaks, velocities, hits
      ensures Valid() && now == t && window == old(window) + [sensors[..]]
      ensures var over := Between(hitTimeUs, t % W32) >= s.scanTimeUs;
              if !over then mode == Scan && NoHits() && !choked && events == old(events)
              else
                && (if Loud(s, peaks[..]) then HitAt(zone) && !choked else NoHits() && choked == (mode == Mask))
                && mode == (if !Loud(s, peaks[..]) && old(last) == WasChoked then PeakDetect else Mask)
                && events == if Loud(s, peaks[..]) then old(events) + [Event(Hit, t)]
                             else if mode == Mask then old(events) + [Event(Choke, t)] else old(events)
    {
      hide Watching, Seen, Loud, HitAt, Between, Spaced, NoDoubleChoke, NoHits, Remembers, Samples;
      zone := 0;
      if Between(hitTimeUs, t % W32) >= s.scanTimeUs {
        ScanEvents(t);
      }
      assert Samples(window) && forall z :: 0 <= z < s.zones ==> peaks[z] == Seen(s, window, z) by { WatchingMeans(); }
      Sample();
      now := t;
      if Between(hitTimeUs, t % W32) < s.scanTimeUs {
        return;
      }
      mode, zone := EndScan(t);
    }

    /** The end of a scan may add either event, but no second choke. */
    lemma ScanEvents(t: nat)
      requires Valid() && mode == Scan && t >= now && Between(hitTimeUs, t % W32) >= s.scanTimeUs
      ensures Spaced(events + [Event(Hit, t)], MaskUs(s) + s.scanTimeUs) && NoDoubleChoke(events + [Event(Hit, t)])
      ensures Spaced(events + [Event(Choke, t)], MaskUs(s) + s.scanTimeUs)
      ensures last != WasChoked ==> NoDoubleChoke(events + [Event(Choke, t)])
    {
      hide Watching, Between, Spaced, NoDoubleChoke;
      NotLonger(detected, t);
      EventsMore(events, Event(Hit, t), MaskUs(s) + s.scanTimeUs);
      EventsMore(events, Event(Choke, t), MaskUs(s) + s.scanTimeUs);
    }

    lemma WatchingMeans()
      requires Shape() && Watching()
      ensures Samples(window) && forall z :: 0 <= z < s.zones ==> peaks[z] == Seen(s, window, z)
    {
    }

    /** After the mask time comes the decay, if there is one. */
    method InMask(t: nat)
      requires Valid() && mode == Mask && t >= now
      modifies this`mode, this`now
      ensures Valid() && now == t
      ensures mode == if Between(scanTimeEndUs, t % W32) < MaskUs(s) then Mask
                      else if s.decayTimeMs > 0 then Decay else PeakDetect
    {
      hide Watching, Seen, Spaced, NoDoubleChoke, Between;
      NotLonger(LastTime(), t);
      now := t;
      if Between(scanTimeEndUs, t % W32) >= MaskUs(s) {
        mode := if s.decayTimeMs > 0 then Decay else PeakDetect;
      }
    }

    /** Microseconds since the decay began. */
    function DecayTime(t: nat): nat
      reads this`scanTimeEndUs
    {
      Between((scanTimeEndUs + MaskUs(s)) % W32, t % W32)
    }

    /** That is the true time since the mask time after the last event, on the 32-bit clock. */
    lemma DecayTimeIs(t: nat)
      requires Valid() && mode == Decay && t >= now
      ensures events != [] && LastTime() + 1000 * s.maskTimeMs <= t
      ensures DecayTime(t) == (t - LastTime() - 1000 * s.maskTimeMs) % W32
    {
      Offsets(LastTime(), 1000 * s.maskTimeMs, t);
    }

    /** The level of each piezo, falling from its last peak to its threshold. */
    method DecayLevels(since: nat) returns (levels: seq<nat>)
      requires Shape() && since < s.decayTimeMs * 1000
      ensures levels == LevelsAt(s, peaks[..], since)
      ensures forall z :: 0 <= z < s.zones ==> s.minimum[z] <= levels[z] <= Max(peaks[z], s.minimum[z])
    {
      hide DecayLevel;
      levels := s.minimum;
      for z := 0 to s.zones
        invariant |levels| == 3
        invariant forall j :: z <= j < 3 ==> levels[j] == s.minimum[j]
        invariant forall j :: 0 <= j < z ==> levels[j] == DecayLevel(peaks[j], s.minimum[j], since, s.decayTimeMs * 1000)
      {
        levels := levels[z := DecayLevel(peaks[z], s.minimum[z], since, s.decayTimeMs * 1000)];
      }
    }

    method InDecay(t: nat, touched: bool)
      requires Valid() && mode == Decay && t >= now
      modifies this`mode, this`hitTimeUs, this`detected, this`window, this`now, peaks
      ensures Valid() && now == t
      ensures mode == (if old(DecayTime(t)) >= s.decayTimeMs * 1000 then PeakDetect
                       else if Triggers(s, sensors[..], LevelsAt(s, old(peaks[..]), old(DecayTime(t))), touched) then Scan
                       else Decay)
      ensures mode == Scan ==> window == [sensors[..]] && detected == t
    {
      hide Watching, Seen, Spaced, NoDoubleChoke, Triggers, LevelsAt, Between, Remembers;
      var since := DecayTime(t);
      if since >= s.decayTimeMs * 1000 {
        now, mode := t, PeakDetect;
      } else {
        var levels := DecayLevels(since);
        InDetect(t, levels, touched);
      }
    }

    /** Forgets the last event and takes a sample. */
    method Refresh(pins: seq<nat>)
      requires Valid() && |pins| == PinCount(s)
      modifies sensors, velocities, hits, this`choked
      ensures Valid() && !choked && NoHits() && sensors[..] == Read(s, old(sensors[..]), pins)
    {
      hide Watching, Spaced, NoDoubleChoke, Read, Timed, Remembers, NoHits, WfSettings;
      ResetHitInfo();
      ReadInputValues(pins);
    }

    lemma ShapeOf()
      requires Valid()
      ensures Shape() && |s.minimum| == 3
    {
    }

    /** One call for one sample. */
    method Sense(t: nat, pins: seq<nat>, touched: bool, connected: bool) returns (ghost zone: nat)
      requires Valid() && t >= now && |pins| == PinCount(s)
      modifies this`mode, this`hitTimeUs, this`scanTimeEndUs, this`choked, this`last
      modifies this`now, this`detected, this`window, this`events, sensors, peaks, velocities, hits
      ensures Valid()
      ensures !connected ==> mode == old(mode) && events == old(events) && now == old(now)
                             && detected == old(detected) && peaks[..] == old(peaks[..])
      ensures connected ==> now == t && sensors[..] == Read(s, old(sensors[..]), pins)
      ensures connected && old(mode) == PeakDetect ==>
                mode == (if Triggers(s, sensors[..], s.minimum, touched) then Scan else PeakDetect)
      ensures connected && old(mode) == Mask ==>
                mode == (if Between(scanTimeEndUs, t % W32) < s.maskTimeMs * 1000 then Mask
                         else if s.decayTimeMs > 0 then Decay else PeakDetect)
      ensures connected && old(mode) == Decay ==>
                mode == (if old(DecayTime(t)) >= s.decayTimeMs * 1000 then PeakDetect
                         else if Triggers(s, sensors[..], LevelsAt(s, old(peaks[..]), old(DecayTime(t))), touched) then Scan
                         else Decay)
      ensures connected && old(mode) != Scan ==> NoHits() && !choked && events == old(events)
      ensures connected && old(mode) != Scan && mode == Scan ==> window == [sensors[..]] && detected == t
      ensures connected && old(mode) == Scan ==>
                window == old(window) + [sensors[..]] && detected == old(detected) && hitTimeUs == old(hitTimeUs)
      ensures connected && old(mode) == Scan && mode == Scan ==> NoHits() && !choked && events == old(events)
      ensures connected && old(mode) == Scan ==> (mode == Scan <==> Between(hitTimeUs, t % W32) < s.scanTimeUs)
      ensures connected && old(mode) == Scan && mode != Scan ==>
                if Loud(s, peaks[..]) then HitAt(zone) && !choked && mode == Mask && events == old(events) + [Event(Hit, t)]
                else NoHits() && choked == (mode == Mask) && (mode == PeakDetect <==> old(last) == WasChoked)
                     && (mode == PeakDetect || mode == Mask)
                     && events == if choked then old(events) + [Event(Choke, t)] else old(events)
    {
      zone := 0;
      if !connected {
        return;
      }
      hide Watching, Seen, Spaced, NoDoubleChoke, Triggers, Loud, HitAt, Read, LevelsAt, Timed, Remembers, MaskOver;
      hide NoHits, Between, Samples, Valid, Shape;
      assert |s.minimum| == 3 by { ShapeOf(); }
      Refresh(pins);
      match mode
      case PeakDetect =>
        InDetect(t, s.minimum, touched);
      case Scan =>
        zone := InScan(t);
      case Mask =>
        InMask(t);
      case Decay =>
        InDecay(t, touched);
    }

    /** Whether a zone was hit by the last call. */
    method IsHit() returns (hit: bool)
      requires Shape()
      ensures hit <==> exists z :: 0 <= z < s.zones && hits[z]
    {
      hit := false;
      for z := 0 to s.zones
        invariant hit <==> exists j :: 0 <= j < z && hits[j]
      {
        hit := hit || hits[z];
      }
    }

    /** One call, and whether a scan has seen a piezo struck. */
    method SenseLoud(t: nat, pins: seq<nat>, touched: bool, connected: bool) returns (ghost zone: nat)
      requires Valid() && t >= now && |pins| == PinCount(s)
      modifies this`mode, this`hitTimeUs, this`scanTimeEndUs, this`choked, this`last
      modifies this`now, this`detected, this`window, this`events, sensors, peaks, velocities, hits
      ensures Valid() && now == if connected then t else old(now)
      ensures !connected ==> mode == old(mode) && events == old(events)
                             && detected == old(detected) && peaks[..] == old(peaks[..])
      ensures connected ==>
                || (HitAt(zone) && !choked && old(mode) == Scan != mode && Loud(s, peaks[..])
                    && events == old(events) + [Event(Hit, t)])
                || (NoHits() && choked && old(mode) == Scan != mode && !Loud(s, peaks[..])
                    && events == old(events) + [Event(Choke, t)])
                || (NoHits() && !choked && events == old(events))
      ensures connected && old(mode) != Scan && mode == Scan ==>
                && detected == t && (Loud(s, peaks[..]) <==> Struck(s, pins))
                && (Pressed(s, pins, touched) || Struck(s, pins) || AlwaysAtThreshold(s))
      ensures connected && old(mode) == Scan ==>
                && detected == old(detected) && (Loud(s, peaks[..]) <==> Loud(s, old(peaks[..])) || Struck(s, pins))
                && (mode != Scan ==> t - detected >= s.scanTimeUs)
    {
      hide Seen, Loud, Triggers, Choked, Read, HitAt, LevelsAt, Between, DecayTime, Spaced, NoDoubleChoke, Remembers;
      hide Struck, Pressed, AlwaysAtThreshold, Samples;
      ghost var sensors0, peaks0, mode0, detected0 := sensors[..], peaks[..], mode, detected;
      ghost var window0, levels := window, s.minimum;
      if mode == Decay && DecayTime(t) < s.decayTimeMs * 1000 {
        LevelsAbove(s, peaks0, DecayTime(t));
        levels := LevelsAt(s, peaks0, DecayTime(t));
      }
      zone := Sense(t, pins, touched, connected);
      if connected {
        if mode0 == Scan {
          NotLonger(detected0, t);
          LoudAfter(s, window0, peaks0, sensors0, pins, peaks[..]);
        } else if mode == Scan {
          LoudAtFirst(s, sensors0, pins, peaks[..]);
          TriggersMean(s, sensors0, pins, levels, touched);
        }
      }
    }

    /** One call, and what it reports: a hit flag or the choke flag. An event ends a scan, at least the scan time
        after it began; it is a hit exactly if a piezo was struck during the scan. */
    method SenseAndReport(t: nat, pins: seq<nat>, touched: bool, connected: bool) returns (reported: seq<Event>)
      requires Valid() && t >= now && |pins| == PinCount(s)
      modifies this`mode, this`hitTimeUs, this`scanTimeEndUs, this`choked, this`last
      modifies this`now, this`detected, this`window, this`events, sensors, peaks, velocities, hits
      ensures Valid() && now == (if connected then t else old(now))
      ensures events == old(events) + reported && (reported != [] ==> |reported| == 1 && reported[0].time == t)
      ensures connected && (exists z :: 0 <= z < s.zones && hits[z]) ==> reported == [Event(Hit, t)]
      ensures connected && NoHits() ==> reported == if choked then [Event(Choke, t)] else []
      ensures !connected ==> reported == [] && mode == old(mode) && detected == old(detected) && peaks[..] == old(peaks[..])
      ensures connected && old(mode) != Scan ==> reported == []
      ensures connected && old(mode) != Scan && mode == Scan ==>
                && detected == t && (Loud(s, peaks[..]) <==> Struck(s, pins))
                && (Pressed(s, pins, touched) || Struck(s, pins) || AlwaysAtThreshold(s))
      ensures connected && old(mode) == Scan ==>
                && detected == old(detected) && (Loud(s, peaks[..]) <==> Loud(s, old(peaks[..])) || Struck(s, pins))
                && (mode == Scan ==> reported == [])
                && (mode != Scan ==> t - detected >= s.scanTimeUs)
                && (reported != [] ==> reported[0].kind == if Loud(s, peaks[..]) then Hit else Choke)
    {
      assert Shape();
      hide Valid, Shape, Loud, Triggers, Choked, Read, HitZone, Loudest, LevelsAt, Between, DecayTime;
      hide Struck, Pressed, AlwaysAtThreshold;
      ghost var zone := SenseLoud(t, pins, touched, connected);
      reported := [];
      assert old(events) + [] == old(events);
      if connected {
        assert (HitAt(zone) && events == old(events) + [Event(Hit, t)])
            || (NoHits() && events == if choked then old(events) + [Event(Choke, t)] else old(events));
        assert HitAt(zone) ==> zone < s.zones && hits[zone];
        var hit := IsHit();
        if hit {
          reported := [Event(Hit, t)];
        } else if choked {
          reported := [Event(Choke, t)];
        }
      }
    }

    method SetVelocities()
      requires Shape()
      modifies velocities
      ensures forall z :: 0 <= z < s.zones ==> Velocity(peaks[z], s.minimum[z], s.maximum[z], velocities[z])
    {
      hide Scale, Curve, Velocity;
      for z := 0 to s.zones
        invariant forall j :: 0 <= j < z ==> Velocity(peaks[j], s.minimum[j], s.maximum[j], velocities[j])
      {
        velocities[z] := Curve(Scale(peaks[z], s.minimum[z], s.maximum[z]));
        VelocityIs(peaks[z], s.minimum[z], s.maximum[z]);
      }
    }
  }

  lemma Offsets(from: nat, offset: nat, to: nat)
    ensures Between((from % W32 + offset) % W32, to % W32) == (to - from - offset) % W32
  {
    var d := (from % W32 + offset) % W32;
    assert (to % W32 - d) % W32 == (to - from - offset) % W32;
  }

  /** Clock time never exceeds true time. */
  lemma NotLonger(from: nat, to: nat)
    requires from <= to
    ensures Between(from % W32, to % W32) <= to - from
  {
    BetweenIs(from, to);
  }

  lemma EventsMore(events: seq<Event>, e: Event, gap: nat)
    requires Spaced(events, gap) && NoDoubleChoke(events)
    ensures (events != [] ==> e.time >= events[|events| - 1].time + gap) ==> Spaced(events + [e], gap)
    ensures e.kind == Hit || events == [] || events[|events| - 1].kind == Hit ==> NoDoubleChoke(events + [e])
  {
  }

  lemma SwitchZone(s: Settings, peaks: seq<nat>, i: nat)
    requires WfSettings(s) && |peaks| == 3 && s.switches && s.zones > 1 && Largest(peaks[1..s.zones], 0, i)
    ensures i + 1 < s.zones && HitZone(s, peaks, if peaks[i + 1] > 0 then i + 1 else 0)
  {
    assert forall j :: 1 <= j < s.zones ==> peaks[j] == peaks[1..s.zones][j - 1];
  }

  lemma SwitchPressed(s: Settings, peaks: seq<nat>, z: nat)
    requires WfSettings(s) && |peaks| == 3 && HitZone(s, peaks, z) && s.switches && z > 0
    ensures peaks[z] > 0
  {
    var j :| 1 <= j < s.zones && peaks[j] != 0;
    assert peaks[1..s.zones][j - 1] <= peaks[1..s.zones][z - 1];
  }

  /** A peak at or above its threshold has a velocity. */
  lemma Audible(s: Settings, peaks: seq<nat>, z: nat, v: nat)
    requires WfSettings(s) && |peaks| == 3 && z < 3 && peaks[z] > 0 && peaks[z] >= s.minimum[z]
    requires Velocity(peaks[z], s.minimum[z], s.maximum[z], v)
    ensures 1 <= v <= 127
  {
  }

  lemma Silent(s: Settings, peaks: seq<nat>, velocities: seq<nat>)
    requires WfSettings(s) && |peaks| == |velocities| == 3 && !s.switches && !Loud(s, peaks)
    requires forall z :: 0 <= z < s.zones ==> Velocity(peaks[z], s.minimum[z], s.maximum[z], velocities[z])
    ensures forall z :: 0 <= z < s.zones ==> velocities[z] == 0
  {
  }

  /** Peaks that were seen are at or above their thresholds. */
  lemma PeaksLoud(s: Settings, window: seq<seq<nat>>, peaks: seq<nat>)
    requires WfSettings(s) && Samples(window) && |peaks| == 3
    requires forall z :: 0 <= z < s.zones ==> peaks[z] == Seen(s, window, z)
    ensures forall z :: 0 <= z < Piezos(s) ==> peaks[z] == 0 || peaks[z] >= s.minimum[z]
    ensures s.switches ==> Loud(s, peaks) == (peaks[0] > 0)
  {
    forall z | 0 <= z < Piezos(s)
      ensures peaks[z] == 0 || peaks[z] >= s.minimum[z]
    {
      PeakIsMaximum(window, z, s.minimum[z]);
    }
  }

  /** The zone chosen has a peak exactly if there is one at all, whatever the preference. */
  lemma ZoneLoud(s: Settings, window: seq<seq<nat>>, peaks: seq<nat>, z: nat)
    requires WfSettings(s) && Samples(window) && |peaks| == 3 && !s.switches
    requires forall z :: 0 <= z < s.zones ==> peaks[z] == Seen(s, window, z)
    requires z < s.zones && HitZone(s, peaks, z)
    ensures peaks[z] > 0 <==> Loud(s, peaks)
  {
    PeaksLoud(s, window, peaks);
    var scaled := ScaledPeaks(s, peaks);
    hide Scale, Seen;
    assert forall j :: 0 <= j < s.zones ==> (scaled[j] == 0 <==> peaks[j] == 0);
    var weighted := Weighted(s, scaled);
    hide Weighted;
    assert forall j :: 0 <= j < s.zones ==> (weighted[j] == 0 <==> peaks[j] == 0);
    if Loud(s, peaks) {
      var j :| 0 <= j < Piezos(s) && peaks[j] > 0;
      assert weighted[j] <= weighted[z];
    }
  }

  datatype Call = Call(t: nat, pins: seq<nat>, touched: bool, connected: bool)

  ghost predicate WfCalls(s: Settings, calls: seq<Call>) {
    && (forall i :: 0 <= i < |calls| ==> |calls[i].pins| == PinCount(s))
    && (forall i, j :: 0 <= i < j < |calls| ==> calls[i].t <= calls[j].t)
  }

  /** A piezo was struck in one of the calls from `i` on and before `k`. */
  ghost predicate SomeStruck(s: Settings, calls: seq<Call>, i: nat, k: nat)
    requires WfSettings(s) && WfCalls(s, calls) && k <= |calls|
  {
    exists m :: i <= m < k && calls[m].connected && Struck(s, calls[m].pins)
  }

  /** What starts a scan. */
  ghost predicate Starts(s: Settings, c: Call)
    requires WfSettings(s) && |c.pins| == PinCount(s)
  {
    c.connected && (Pressed(s, c.pins, c.touched) || Struck(s, c.pins) || AlwaysAtThreshold(s))
  }

  /** The event reported by call `j` for the scan that call `i` started: a hit if a piezo was struck meanwhile,
      and else a choke. */
  ghost predicate Explained(s: Settings, calls: seq<Call>, e: Event, i: nat, j: nat)
    requires WfSettings(s) && WfCalls(s, calls)
  {
    && i < j < |calls| && Starts(s, calls[i]) && calls[j].connected
    && e.time == calls[j].t && calls[j].t - calls[i].t >= s.scanTimeUs
    && (e.kind == Hit <==> SomeStruck(s, calls, i, j + 1))
  }

  ghost predicate HasScan(s: Settings, calls: seq<Call>, e: Event)
    requires WfSettings(s) && WfCalls(s, calls)
  {
    exists i, j :: Explained(s, calls, e, i, j)
  }

  ghost predicate AllExplained(s: Settings, calls: seq<Call>, events: seq<Event>)
    requires WfSettings(s) && WfCalls(s, calls)
  {
    forall e :: 0 <= e < |events| ==> HasScan(s, calls, events[e])
  }

  lemma SomeStruckNext(s: Settings, calls: seq<Call>, i: nat, k: nat)
    requires WfSettings(s) && WfCalls(s, calls) && i <= k < |calls|
    ensures SomeStruck(s, calls, i, k + 1)
       <==> (SomeStruck(s, calls, i, k) || (calls[k].connected && Struck(s, calls[k].pins)))
    ensures !SomeStruck(s, calls, k, k)
  {
    hide Struck, WfSettings;
  }

  /** Any run of a pad, as its caller sees it: every event is that of a scan that a call started; the events are
      at least the mask and the scan time apart in true time, however often the clock wraps around, and between
      two chokes there is a hit. */
  method Run(settings: Settings, calls: seq<Call>) returns (events: seq<Event>)
    requires WfSettings(settings) && WfCalls(settings, calls)
    ensures AllExplained(settings, calls, events)
    ensures forall i, j :: 0 <= i < j < |events| ==>
              events[j].time - events[i].time >= settings.maskTimeMs * 1000 + settings.scanTimeUs
    ensures ChokesApart(events)
  {
    var pad := new Pad(settings);
    events := [];
    assert AllExplained(settings, calls, events);
    ghost var from := 0;
    hide Pad.Watching, Pad.Timed, Pad.Remembers, Spaced, NoDoubleChoke, SomeStruck, Struck, Pressed, Loud;
    hide AlwaysAtThreshold, Explained, AllExplained;
    for k := 0 to |calls|
      invariant pad.Valid() && pad.s == settings && events == pad.events
      invariant fresh({pad, pad.sensors, pad.peaks, pad.velocities, pad.hits})
      invariant pad.now == 0 || exists i :: 0 <= i < k && pad.now == calls[i].t
      invariant pad.mode == Scan ==>
                  && from < k && Starts(settings, calls[from]) && pad.detected == calls[from].t
                  && (Loud(settings, pad.peaks[..]) <==> SomeStruck(settings, calls, from, k))
      invariant AllExplained(settings, calls, events)
    {
      ghost var before := pad.mode;
      var reported := pad.SenseAndReport(calls[k].t, calls[k].pins, calls[k].touched, calls[k].connected);
      if before != Scan {
        from := k;
      }
      SomeStruckNext(settings, calls, from, k);
      if reported != [] {
        Explain(settings, calls, events, reported[0], from, k);
        assert reported == [reported[0]];
      } else {
        assert events + reported == events;
      }
      events := events + reported;
    }
    PairsApart(events, MaskUs(settings) + settings.scanTimeUs);
    ChokesAreApart(events);
  }

  lemma Explain(s: Settings, calls: seq<Call>, events: seq<Event>, e: Event, i: nat, j: nat)
    requires WfSettings(s) && WfCalls(s, calls) && i < j < |calls| && Starts(s, calls[i]) && calls[j].connected
    requires e.time == calls[j].t && calls[j].t - calls[i].t >= s.scanTimeUs
    requires e.kind == Hit <==> SomeStruck(s, calls, i, j + 1)
    requires AllExplained(s, calls, events)
    ensures AllExplained(s, calls, events + [e])
  {
    assert Explained(s, calls, e, i, j);
    hide Explained;
    assert HasScan(s, calls, e);
    hide HasScan;
  }

  lemma PairsApart(events: seq<Event>, gap: nat)
    requires Spaced(events, gap)
    ensures forall i, j :: 0 <= i < j < |events| ==> events[j].time - events[i].time >= gap
  {
    forall i, j | 0 <= i < j < |events|
      ensures events[j].time - events[i].time >= gap
    {
      PairApart(events, gap, i, j);
    }
  }

  lemma {:induction false} PairApart(events: seq<Event>, gap: nat, i: nat, j: nat)
    requires Spaced(events, gap) && i < j < |events|
    ensures events[j].time - events[i].time >= gap
    decreases j
  {
    if i < j - 1 {
      PairApart(events, gap, i, j - 1);
    }
  }
}
