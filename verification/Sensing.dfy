/** Sensing of a drum pad or cymbal: peak detection, scan, mask and decay on a 32-bit clock. */
module Sensing {
  import opened Bytes

  const MAX_SENSOR_VALUE := 1023
  const MAX_PREFERENCE_MULT := 5
  const W16 := 0x1_0000
  const W32 := 0x1_0000_0000

  datatype Mode = PeakDetect | Scan | Mask | Decay
  datatype ChokeType = NoChoke | SwitchEdge | SwitchCup | TouchSensor
  datatype Kind = Hit | Choke

  /** A reported event, at its true time in microseconds. */
  datatype Event = Event(kind: Kind, time: nat)

  /** `switches` tells a pad with one piezo and switches from one with piezos only; `sharedPin` one
      whose two switches share a pin. */
  datatype Settings = Settings(
    cymbal: bool, switches: bool, sharedPin: bool, zones: nat, choke: ChokeType,
    minimum: seq<nat>, maximum: seq<nat>,
    scanTimeUs: nat, maskTimeMs: nat, decayTimeMs: nat, headRimBias: int)

  predicate WfSettings(s: Settings) {
    && 1 <= s.zones <= 3 && (s.sharedPin ==> s.switches && s.zones != 2)
    && |s.minimum| == 3 && |s.maximum| == 3
    && s.scanTimeUs < W16 && s.maskTimeMs < 256 && s.decayTimeMs < 256 && -128 <= s.headRimBias < 128
  }

  // Velocities

  /** Maps the range of a zone's thresholds to 1..1023. */
  function Scale(value: nat, min: nat, max: nat): (r: nat)
    ensures r <= MAX_SENSOR_VALUE
    ensures r == 0 <==> value == 0 || value < min
  {
    if value == 0 || value < min then 0
    else if value >= max then MAX_SENSOR_VALUE
    else
      Share(value - min, MAX_SENSOR_VALUE - 1, max - min);
      (value - min) * (MAX_SENSOR_VALUE - 1) / (max - min) + 1
  }

  lemma Share(a: nat, k: nat, b: nat)
    requires a < b
    ensures 0 <= a * k / b <= k
  {
    assert a * k <= b * k;
    DivMonotone(a * k, k, b);
  }

  lemma DivMonotone(n: nat, k: nat, b: nat)
    requires b > 0 && n <= b * k
    ensures 0 <= n / b <= k
  {
    var q := n / b;
    assert q >= k + 1 ==> b * q >= b * (k + 1);
  }

  /** A louder peak is never scaled lower. */
  lemma ScaleMonotone(v: nat, w: nat, min: nat, max: nat)
    requires v <= w
    ensures Scale(v, min, max) <= Scale(w, min, max)
  {
    if v > 0 && min <= v && w < max {
      var k, b := MAX_SENSOR_VALUE - 1, max - min;
      Quotients((v - min) * k, (w - min) * k, b);
    }
  }

  lemma Quotients(m: nat, n: nat, b: nat)
    requires m <= n && b > 0
    ensures m / b <= n / b
  {
    var p, q := m / b, n / b;
    assert p > q ==> b * p >= b * (q + 1);
  }

  /** The linear curve: 10 bits to 1..127. */
  function Curve(value: nat): (r: nat)
    requires value <= MAX_SENSOR_VALUE
    ensures r == 0 <==> value == 0
    ensures r <= 127
  {
    if value == 0 then 0
    else
      var r := (value - 1) / 8 + 1;
      if r == 128 then 127 else r
  }

  /** One velocity for every eight steps of the 1023, the last seven being one of their own cut to 127. */
  lemma CurveLaw(value: nat)
    requires 0 < value <= MAX_SENSOR_VALUE
    ensures var r := Curve(value); 8 * (r - 1) < value && (value <= 8 * r || r == 127)
  {
  }

  /** The scaled value is one more than the whole part of 1022 times the way from threshold to threshold. */
  lemma ScaleLaw(value: nat, min: nat, max: nat)
    requires value > 0 && min <= value
    ensures var r := Scale(value, min, max);
            if value >= max then r == 1023
            else (r - 1) * (max - min) <= (value - min) * 1022 < r * (max - min)
  {
    if value < max {
      Divided((value - min) * 1022, max - min);
    }
  }

  lemma Divided(n: nat, b: nat)
    requires b > 0
    ensures n / b * b <= n < (n / b + 1) * b
  {
    var q := n / b;
    assert n == b * q + n % b;
    assert b * q == q * b && (q + 1) * b == q * b + b;
  }

  /** The velocity of a peak, as the thresholds say: none below the lower one, 127 from the upper one on, and
      between them one step for every eight of the 1022 parts of the way. */
  ghost predicate Velocity(peak: nat, min: nat, max: nat, v: nat) {
    if peak == 0 || peak < min then v == 0
    else if peak >= max then v == 127
    else
      && 1 <= v <= 127 && (v - 1) * 8 * (max - min) <= (peak - min) * 1022
      && (v < 127 ==> (peak - min) * 1022 < v * 8 * (max - min))
  }

  lemma VelocityIs(peak: nat, min: nat, max: nat)
    ensures Velocity(peak, min, max, Curve(Scale(peak, min, max)))
  {
    if peak > 0 && min <= peak {
      ScaleLaw(peak, min, max);
      var r := Scale(peak, min, max);
      CurveLaw(r);
      hide Scale, Curve;
      var v := Curve(r);
      if peak < max {
        Multiples((v - 1) * 8, r - 1, max - min);
        if v < 127 {
          Multiples(r, v * 8, max - min);
        }
      }
    }
  }

  lemma Multiples(m: nat, n: nat, b: nat)
    ensures m <= n ==> m * b <= n * b
  {
  }

  /** There is only one such velocity; a peak at the lower threshold has velocity 1. */
  lemma OneVelocity(peak: nat, min: nat, max: nat, v: nat, w: nat)
    requires Velocity(peak, min, max, v) && Velocity(peak, min, max, w)
    ensures v == w && (0 < peak == min < max ==> v == 1)
  {
    if 0 < peak && min <= peak < max {
      if v < w {
        Multiples(v * 8, (w - 1) * 8, max - min);
      } else if w < v {
        Multiples(w * 8, (v - 1) * 8, max - min);
      }
      if peak == min && v > 1 {
        Multiples(8, (v - 1) * 8, max - min);
      }
    }
  }

  lemma CurveMonotone(v: nat, w: nat)
    requires v <= w <= MAX_SENSOR_VALUE
    ensures Curve(v) <= Curve(w)
  {
  }

  // What a scan has seen

  /** The highest sample at or above the threshold, 0 if there is none. */
  function Peak(window: seq<seq<nat>>, zone: nat, threshold: nat): nat
    requires zone < 3 && forall i :: 0 <= i < |window| ==> |window[i]| == 3
  {
    if window == [] then 0
    else
      var n := |window| - 1;
      var before := Peak(window[..n], zone, threshold);
      if window[n][zone] > before && window[n][zone] >= threshold then window[n][zone] else before
  }

  lemma {:induction false} PeakIsMaximum(window: seq<seq<nat>>, zone: nat, threshold: nat)
    requires zone < 3 && forall i :: 0 <= i < |window| ==> |window[i]| == 3
    ensures var p := Peak(window, zone, threshold);
            && (forall i :: 0 <= i < |window| && window[i][zone] >= threshold ==> window[i][zone] <= p)
            && (p != 0 ==> exists i :: 0 <= i < |window| && window[i][zone] >= threshold && window[i][zone] == p)
  {
    if window != [] {
      var n := |window| - 1;
      PeakIsMaximum(window[..n], zone, threshold);
      var before := Peak(window[..n], zone, threshold);
      if Peak(window, zone, threshold) == before != 0 {
        var i: nat :| i < n && window[..n][i][zone] >= threshold && window[..n][i][zone] == before;
        assert window[i][zone] >= threshold && window[i][zone] == before;
      }
      forall i | 0 <= i < |window| && window[i][zone] >= threshold
        ensures window[i][zone] <= Peak(window, zone, threshold)
      {
        if i < n {
          assert window[..n][i][zone] <= before;
        }
      }
    }
  }

  /** How often a switch was pressed. */
  function Presses(window: seq<seq<nat>>, zone: nat, threshold: nat): nat
    requires zone < 3 && forall i :: 0 <= i < |window| ==> |window[i]| == 3
  {
    if window == [] then 0
    else
      var n := |window| - 1;
      Presses(window[..n], zone, threshold) + (if window[n][zone] >= threshold then 1 else 0)
  }

  /** The samples in which a switch was pressed. */
  function PressedIn(window: seq<seq<nat>>, zone: nat, threshold: nat): set<nat>
    requires zone < 3 && forall i :: 0 <= i < |window| ==> |window[i]| == 3
  {
    set i: nat | i < |window| && window[i][zone] >= threshold
  }

  lemma {:induction false} PressesAreCounted(window: seq<seq<nat>>, zone: nat, threshold: nat)
    requires zone < 3 && forall i :: 0 <= i < |window| ==> |window[i]| == 3
    ensures Presses(window, zone, threshold) == |PressedIn(window, zone, threshold)|
  {
    if window == [] {
      assert PressedIn(window, zone, threshold) == {};
    } else {
      var n := |window| - 1;
      PressesAreCounted(window[..n], zone, threshold);
      var before := PressedIn(window[..n], zone, threshold);
      assert PressedIn(window, zone, threshold) == before + if window[n][zone] >= threshold then {n} else {};
      assert n !in before;
    }
  }

  ghost predicate Samples(window: seq<seq<nat>>) {
    forall i :: 0 <= i < |window| ==> |window[i]| == 3
  }

  /** What a zone's scan comes to: its highest sample, or a switch's presses in a 16-bit counter. */
  ghost function Seen(s: Settings, window: seq<seq<nat>>, zone: nat): nat
    requires WfSettings(s) && zone < 3 && Samples(window)
  {
    if s.switches && zone > 0 then Presses(window, zone, s.minimum[zone]) % W16 else Peak(window, zone, s.minimum[zone])
  }

  /** One more sample. */
  function Raise(s: Settings, zone: nat, seen: nat, sample: nat): nat
    requires WfSettings(s) && zone < 3
  {
    if s.switches && zone > 0 then if sample >= s.minimum[zone] then (seen + 1) % W16 else seen
    else if sample > seen && sample >= s.minimum[zone] then sample else seen
  }

  lemma SeenNext(s: Settings, window: seq<seq<nat>>, sample: seq<nat>, zone: nat)
    requires WfSettings(s) && zone < 3 && Samples(window) && |sample| == 3
    ensures Samples(window + [sample])
    ensures Seen(s, window + [sample], zone) == Raise(s, zone, Seen(s, window, zone), sample[zone])
  {
    assert (window + [sample])[..|window|] == window;
  }

  // Choking and decay

  predicate Choked(s: Settings, sensors: seq<nat>, touched: bool)
    requires WfSettings(s) && |sensors| == 3
  {
    s.cymbal &&
    match s.choke
    case NoChoke => false
    case TouchSensor => touched
    case SwitchEdge => s.zones > 1 && sensors[1] >= s.minimum[1]
    case SwitchCup => s.zones > 2 && sensors[2] >= s.minimum[2]
  }

  function Scaled(d: real, progress: real): real {
    d * progress
  }

  /** The trigger level at a progress between 0 and 1: it falls linearly from the last peak to the
      threshold, in whole steps. */
  function Level(peak: nat, threshold: nat, progress: real): (level: nat)
    requires 0.0 <= progress <= 1.0
    ensures threshold <= level <= Max(peak, threshold)
    ensures progress == 0.0 ==> level == Max(peak, threshold)
    ensures progress == 1.0 ==> level == threshold
  {
    if peak > threshold then
      var d := (peak - threshold) as real;
      Products(d, 0.0, progress);
      Products(d, progress, 1.0);
      (peak as real - Scaled(d, progress)).Floor
    else threshold
  }

  /** The trigger level `since` microseconds into a decay of `total`. */
  function DecayLevel(peak: nat, threshold: nat, since: nat, total: nat): (level: nat)
    requires since < total
    ensures threshold <= level <= Max(peak, threshold)
    ensures since == 0 ==> level == Max(peak, threshold)
  {
    Ratios(since as real, total as real, total as real);
    Level(peak, threshold, since as real / total as real)
  }

  /** The level is the whole part of the point reached on the straight line from the peak to the threshold. */
  lemma DecayLaw(peak: nat, threshold: nat, since: nat, total: nat)
    requires since < total && peak > threshold
    ensures var level := DecayLevel(peak, threshold, since, total);
            level * total <= peak * total - (peak - threshold) * since < (level + 1) * total
  {
    var d, p := (peak - threshold) as real, since as real / total as real;
    Ratios(since as real, total as real, total as real);
    var x := peak as real - Scaled(d, p);
    assert Level(peak, threshold, p) == x.Floor;
    Part(d, since as real, total as real);
    Less(peak as real, Scaled(d, p), total as real);
    AsReals(peak, total);
    AsReals(peak - threshold, since);
    hide Scaled, Level;
    Whole(x, peak * total - (peak - threshold) * since, total, DecayLevel(peak, threshold, since, total));
  }

  lemma Less(a: real, b: real, c: real)
    ensures Scaled(a - b, c) == Scaled(a, c) - Scaled(b, c)
  {
  }

  lemma Whole(x: real, m: int, total: nat, level: nat)
    requires total > 0 && Scaled(x, total as real) == m as real && level as real <= x < level as real + 1.0
    ensures level * total <= m < (level + 1) * total
  {
    Times(level as real, x, total as real);
    Times(x, level as real + 1.0, total as real);
    AsReals(level, total);
    AsReals(level + 1, total);
    hide Scaled;
    assert (level + 1) as real == level as real + 1.0;
  }

  lemma AsReals(a: nat, b: nat)
    ensures (a * b) as real == Scaled(a as real, b as real)
  {
  }

  /** A sample less than 1 below the line that falls from the peak to the threshold. */
  ghost predicate Reaches(sample: nat, peak: nat, threshold: nat, since: nat, total: nat) {
    if peak > threshold then (sample + 1) * total > peak * total - (peak - threshold) * since else sample >= threshold
  }

  /** In whole numbers, a sample reaches the level exactly if it is less than 1 below the line. */
  lemma ReachesLevel(sample: nat, peak: nat, threshold: nat, since: nat, total: nat)
    requires since < total
    ensures sample >= DecayLevel(peak, threshold, since, total) <==> Reaches(sample, peak, threshold, since, total)
  {
    if peak > threshold {
      DecayLaw(peak, threshold, since, total);
      hide DecayLevel;
      var level := DecayLevel(peak, threshold, since, total);
      Multiples(level + 1, sample + 1, total);
      Multiples(sample + 1, level, total);
    }
  }

  lemma Part(d: real, since: real, total: real)
    requires total > 0.0
    ensures Scaled(Scaled(d, since / total), total) == Scaled(d, since)
  {
    assert since / total * total == since;
    assert d * (since / total) * total == d * (since / total * total);
  }

  lemma Times(a: real, b: real, c: real)
    requires c > 0.0
    ensures a <= b ==> Scaled(a, c) <= Scaled(b, c)
    ensures a < b ==> Scaled(a, c) < Scaled(b, c)
  {
  }

  /** The level never rises during a decay. */
  lemma DecayFalls(peak: nat, threshold: nat, since: nat, later: nat, total: nat)
    requires since <= later < total
    ensures DecayLevel(peak, threshold, later, total) <= DecayLevel(peak, threshold, since, total)
  {
    hide Level;
    Ratios(since as real, later as real, total as real);
    Ratios(later as real, total as real, total as real);
    LevelFalls(peak, threshold, since as real / total as real, later as real / total as real);
  }

  lemma LevelFalls(peak: nat, threshold: nat, p: real, q: real)
    requires 0.0 <= p <= q <= 1.0
    ensures Level(peak, threshold, q) <= Level(peak, threshold, p)
  {
    if peak > threshold {
      var d := (peak - threshold) as real;
      Products(d, p, q);
      hide Scaled;
      Floors(peak as real - Scaled(d, q), peak as real - Scaled(d, p));
    }
  }

  lemma Floors(a: real, b: real)
    requires a <= b
    ensures a.Floor <= b.Floor
  {
  }

  lemma Ratios(a: real, b: real, c: real)
    requires a <= b && c > 0.0
    ensures a / c <= b / c
  {
    assert b / c - a / c == (b - a) / c;
  }

  lemma Products(d: real, p: real, q: real)
    requires d >= 0.0 && p <= q
    ensures Scaled(d, p) <= Scaled(d, q)
  {
  }

  // The clock

  /** Time between two readings of the 32-bit clock. */
  function Between(from: nat, to: nat): nat {
    (to - from) % W32
  }

  /** It never exceeds the true time, and is the true time while that is below 2^32. */
  lemma BetweenIs(from: nat, to: nat)
    requires from <= to
    ensures Between(from % W32, to % W32) <= to - from
    ensures Between(from % W32, to % W32) == (to - from) % 0x1_0000_0000
    ensures to - from < 0x1_0000_0000 ==> Between(from % W32, to % W32) == to - from
  {
    assert (to % W32 - from % W32) % W32 == (to - from) % W32;
  }
}
