/** The volume fades of `spa/examples/adapter-control.c`, over real numbers. */
module Fades {

  const UINT32: nat := 0x1_0000_0000
  const INT_MAX: nat := 0x7fff_ffff

  /** Conversion of a uint32_t to int. */
  function ToInt(x: nat): int
    requires x < UINT32
  {
    if x <= INT_MAX then x else x - UINT32
  }

  function GetRampSamples(samples: nat, time: nat): int
    requires samples < UINT32
  {
    var n := if samples > 0 then ToInt(samples)
             else if time > 0 then ToInt(time * 48000 % UINT32 / 1000)
             else -1;
    if n == 0 then -1 else n
  }

  function GetRampStepSamples(samples: nat, time: nat): int
    requires samples < UINT32
  {
    var n := if samples > 0 then ToInt(samples)
             else if time > 0 then ToInt(time / 1000 * 48 % UINT32)
             else -1;
    if n == 0 then -1 else n
  }

  /** When the settings give a positive ramp and step. */
  lemma RampPositiveIff(samples: nat, time: nat)
    requires samples < UINT32 && time < UINT32
    ensures GetRampSamples(samples, time) > 0 <==>
            0 < samples <= INT_MAX || (samples == 0 && time * 48000 % UINT32 >= 1000)
    ensures GetRampStepSamples(samples, time) > 0 <==>
            0 < samples <= INT_MAX || (samples == 0 && time >= 1000)
  {
  }

  /** The counts the settings stand for: samples as given; 48 for each unit of ramp
      time and for each whole thousand units of step time, as long as 32 bits hold
      the product; -1 without either; never 0. */
  lemma RampCounts(samples: nat, time: nat)
    requires samples < UINT32
    ensures 0 < samples <= INT_MAX ==>
              GetRampSamples(samples, time) == samples == GetRampStepSamples(samples, time)
    ensures samples == 0 && 0 < time * 48000 < UINT32 ==> GetRampSamples(samples, time) == 48 * time
    ensures samples == 0 && 0 < time / 1000 * 48 <= INT_MAX ==> GetRampStepSamples(samples, time) == 48 * (time / 1000)
    ensures samples == 0 && time == 0 ==> GetRampSamples(samples, time) == -1 == GetRampStepSamples(samples, time)
    ensures samples > INT_MAX ==>
              GetRampSamples(samples, time) == samples - UINT32 == GetRampStepSamples(samples, time)
    ensures GetRampSamples(samples, time) != 0 && GetRampStepSamples(samples, time) != 0
  {
    hide GetRampSamples, GetRampStepSamples;
    if samples > 0 {
      CountsOfSamples(samples, time);
    } else {
      RampOfTime(time);
      StepOfTime(time);
    }
  }

  lemma CountsOfSamples(samples: nat, time: nat)
    requires 0 < samples < UINT32
    ensures GetRampSamples(samples, time) == ToInt(samples) == GetRampStepSamples(samples, time)
  {
  }

  lemma RampOfTime(time: nat)
    ensures time * 48000 < UINT32 && time > 0 ==> GetRampSamples(0, time) == 48 * time
    ensures time == 0 ==> GetRampSamples(0, time) == -1
    ensures GetRampSamples(0, time) != 0
  {
    if time * 48000 < UINT32 {
      assert time * 48000 % UINT32 == time * 48000;
      assert time * 48000 / 1000 == 48 * time;
    }
  }

  lemma StepOfTime(time: nat)
    ensures 0 < time / 1000 * 48 <= INT_MAX ==> GetRampStepSamples(0, time) == 48 * (time / 1000)
    ensures time == 0 ==> GetRampStepSamples(0, time) == -1
    ensures GetRampStepSamples(0, time) != 0
  {
    var n := time / 1000 * 48;
    assert n <= INT_MAX ==> n % UINT32 == n;
  }

  datatype Scale = Linear | Cubic

  /** get_volume_at_scale. */
  function AtScale(scale: Scale, accum: real): real {
    if scale == Linear then accum else accum * accum * accum
  }

  /** Within the range of a fade the linear scale is the level itself and the
      cubic one lies between 0 and it, meeting it at the ends. */
  lemma ScaleKeepsRange(x: real)
    requires 0.0 <= x <= 1.0
    ensures AtScale(Linear, x) == x
    ensures 0.0 <= AtScale(Cubic, x) <= x
    ensures AtScale(Cubic, x) == x <==> x == 0.0 || x == 1.0
    ensures AtScale(Cubic, x / 2.0) == AtScale(Cubic, x) / 8.0
  {
    if 0.0 < x < 1.0 {
      var y := Times(x, x);
      Shrinks(x, x);
      Shrinks(y, x);
    }
  }

  lemma Shrinks(y: real, x: real)
    requires y > 0.0 && 0.0 < x < 1.0
    ensures 0.0 < Times(y, x) < y
  {
    var z := 1.0 - x;
    Positive(y, x);
    Positive(y, z);
    var p := y * z;
    assert p == y - y * x;
    assert 0.0 < y * x < y;
  }

  function Times(x: real, y: real): real {
    x * y
  }

  /** One entry of the control sequence. */
  datatype Point = Point(offset: int, volume: real)

  function Abs(x: int): nat {
    if x < 0 then -x else x
  }

  /** Ramp and step have the same sign; without settings both are -1. */
  predicate Steppable(ramp: int, step: int) {
    (ramp > 0 && step > 0) || (ramp < 0 && step < 0)
  }

  /** The number of steps: the quotient rounded up. */
  function Steps(ramp: int, step: int): nat
    requires ramp != 0 && step != 0
  {
    (Abs(ramp) + Abs(step) - 1) / Abs(step)
  }

  function StepSize(ramp: int, step: int): real
    requires ramp != 0
  {
    step as real / ramp as real
  }

  lemma StepsBounds(ramp: int, step: int)
    requires ramp != 0 && step != 0
    ensures Steps(ramp, step) >= 1
    ensures (Steps(ramp, step) - 1) * Abs(step) < Abs(ramp) <= Steps(ramp, step) * Abs(step)
  {
    RoundedUp(Abs(ramp), Abs(step));
  }

  lemma RoundedUp(a: int, b: int)
    requires a > 0 && b > 0
    ensures var n := (a + b - 1) / b; n >= 1 && (n - 1) * b < a <= n * b
  {
  }

  lemma SizeOfAbs(ramp: int, step: int)
    requires Steppable(ramp, step)
    ensures StepSize(ramp, step) == StepSize(Abs(ramp), Abs(step))
  {
    if ramp < 0 { SignsCancel(step as real, ramp as real); }
  }

  lemma SignsCancel(x: real, y: real)
    requires y != 0.0
    ensures x / y == -x / -y
  {
    var q := x / y;
    assert q * y == x;
    assert q * -y == -x;
  }

  lemma MulGrows(a: int, b: int, step: int)
    requires a <= b && step > 0
    ensures a * step <= b * step
  {
  }

  lemma Quotient(x: int, ramp: int)
    requires ramp > 0
    ensures x as real / ramp as real >= 1.0 <==> x >= ramp
  {
  }

  lemma StepSum(k: int, ramp: int, step: int)
    requires ramp > 0
    ensures k as real * StepSize(ramp, step) == (k * step) as real / ramp as real
  {
  }

  /** `k` steps reach full volume if and only if `k` is at least the step count. */
  lemma StepsReachOne(ramp: int, step: int, k: int)
    requires Steppable(ramp, step)
    ensures Steps(ramp, step) >= 1
    ensures k as real * StepSize(ramp, step) >= 1.0 <==> k >= Steps(ramp, step)
  {
    var n := Steps(ramp, step);
    StepsBounds(ramp, step);
    SizeOfAbs(ramp, step);
    var r, d := Abs(ramp), Abs(step);
    hide Steps, StepSize;
    StepSum(k, r, d);
    Quotient(k * d, r);
    if k >= n { MulGrows(n, k, d); } else { MulGrows(k, n - 1, d); }
  }

  // ---------------------------------------------------------------------
  // The two loops

  /** The accumulator after `k` additions of `s`. */
  function Level(a: real, s: real, k: nat): real {
    if k == 0 then a else Level(a, s, k - 1) + s
  }

  lemma {:induction false} LevelIsSum(a: real, s: real, k: nat)
    ensures Level(a, s, k) == a + k as real * s
  {
    if k > 0 { LevelIsSum(a, s, k - 1); }
  }

  /** And after `k` subtractions. */
  function Drop(a: real, s: real, k: nat): real {
    if k == 0 then a else Drop(a, s, k - 1) - s
  }

  lemma {:induction false} DropIsDifference(a: real, s: real, k: nat)
    ensures Drop(a, s, k) == a - k as real * s
  {
    if k > 0 { DropIsDifference(a, s, k - 1); }
  }

  /** The entries of `n` passes of fade_in from volume `a`. */
  function RisePoints(scale: Scale, a: real, s: real, step: int, n: nat): (r: seq<Point>)
    ensures |r| == n
  {
    seq(n, k requires 0 <= k < n => Point(k * step, AtScale(scale, Level(a, s, k))))
  }

  /** The entries of `n` passes of fade_out from volume `a`. */
  function FallPoints(scale: Scale, a: real, s: real, step: int, n: nat): (r: seq<Point>)
    ensures |r| == n
  {
    seq(n, k requires 0 <= k < n => Point(step + k * step, AtScale(scale, Drop(a, s, k))))
  }

  /** Entry `k` of a rise is at `k` steps, at the level `k` step sizes up; of a fall
      one step later, at the level `k` step sizes down. */
  lemma PointAt(scale: Scale, a: real, s: real, step: int, n: nat, k: nat)
    requires k < n
    ensures RisePoints(scale, a, s, step, n)[k] == Point(k * step, AtScale(scale, a + k as real * s))
    ensures FallPoints(scale, a, s, step, n)[k] == Point((k + 1) * step, AtScale(scale, a - k as real * s))
  {
    hide AtScale;
    LevelIsSum(a, s, k);
    DropIsDifference(a, s, k);
    assert (k + 1) * step == step + k * step;
  }

  /** The do-while loop of fade_in leaves after pass `n`. */
  ghost predicate RisesIn(a: real, s: real, n: nat) {
    && n >= 1 && Level(a, s, n) >= 1.0
    && forall k: nat :: 1 <= k < n ==> Level(a, s, k) < 1.0
  }

  /** The do-while loop of fade_out leaves after pass `n`. */
  ghost predicate FallsIn(a: real, s: real, n: nat) {
    && n >= 1 && Drop(a, s, n) <= 0.0
    && forall k: nat :: 1 <= k < n ==> Drop(a, s, k) > 0.0
  }

  lemma Positive(x: real, y: real)
    requires x > 0.0 && y > 0.0
    ensures x * y > 0.0
  {
  }

  /** Enough additions of `s` exceed any target. */
  lemma Archimedes(x: real, s: real) returns (k: nat)
    requires s > 0.0
    ensures k >= 1 && k as real * s >= x
  {
    var q := x / s;
    k := if q.Floor >= 0 then q.Floor + 1 else 1;
    assert q < k as real;
    Positive(k as real - q, s);
    assert q * s == x;
  }

  /** The loop of fade_in ends if and only if the step size is positive or its
      first pass reaches full volume. */
  predicate RiseEnds(a: real, s: real) {
    s > 0.0 || a + s >= 1.0
  }

  lemma RiseEndsIff(a: real, s: real)
    ensures RiseEnds(a, s) <==> exists k: nat :: k >= 1 && Level(a, s, k) >= 1.0
  {
    hide Level;
    LevelIsSum(a, s, 1);
    if s > 0.0 {
      var k := Archimedes(1.0 - a, s);
      LevelIsSum(a, s, k);
    } else {
      forall k: nat | k >= 1 ensures Level(a, s, k) <= a + s {
        LevelIsSum(a, s, k);
        NotAbove(k, s);
      }
    }
  }

  lemma NotAbove(k: nat, s: real)
    requires k >= 1 && s <= 0.0
    ensures k as real * s <= s
  {
    var z := k as real - 1.0;
    assert z * s <= 0.0;
  }

  /** So does the loop of fade_out, with silence in place of full volume. */
  predicate FallEnds(a: real, s: real) {
    s > 0.0 || a - s <= 0.0
  }

  lemma FallEndsIff(a: real, s: real)
    ensures FallEnds(a, s) <==> exists k: nat :: k >= 1 && Drop(a, s, k) <= 0.0
  {
    hide Drop;
    DropIsDifference(a, s, 1);
    if s > 0.0 {
      var k := Archimedes(a, s);
      DropIsDifference(a, s, k);
    } else {
      forall k: nat | k >= 1 ensures Drop(a, s, k) >= a - s {
        DropIsDifference(a, s, k);
        NotAbove(k, s);
      }
    }
  }

  lemma RiseBound(a: real, s: real) returns (k: nat)
    requires RiseEnds(a, s)
    ensures k >= 1 && Level(a, s, k) >= 1.0
  {
    RiseEndsIff(a, s);
    k :| k >= 1 && Level(a, s, k) >= 1.0;
  }

  lemma FallBound(a: real, s: real) returns (k: nat)
    requires FallEnds(a, s)
    ensures k >= 1 && Drop(a, s, k) <= 0.0
  {
    FallEndsIff(a, s);
    k :| k >= 1 && Drop(a, s, k) <= 0.0;
  }

  /** With same signs both loops end, from any level. */
  lemma PositiveStep(ramp: int, step: int)
    requires ramp != 0
    ensures StepSize(ramp, step) > 0.0 <==> Steppable(ramp, step)
  {
    if Steppable(ramp, step) { SizeOfAbs(ramp, step); }
  }

  datatype IoStatus = Ok | NeedData | HaveData | Stopped

  class Fader {
    const ramp: int
    const step: int
    const scale: Scale
    var volumeAccum: real
    var volumeOffs: int
    var startFadeIn: bool
    const native: bool
    var status: IoStatus

    predicate Ready()
      reads this
    {
      status == Ok || status == NeedData
    }

    /** fade_in outside native mode. */
    method FadeIn() returns (points: seq<Point>, ghost n: nat)
      requires ramp != 0 && RiseEnds(volumeAccum, StepSize(ramp, step))
      modifies this`volumeAccum, this`volumeOffs
      ensures RisesIn(old(volumeAccum), StepSize(ramp, step), n)
      ensures volumeAccum == Level(old(volumeAccum), StepSize(ramp, step), n)
      ensures points == RisePoints(scale, old(volumeAccum), StepSize(ramp, step), step, n)
      ensures volumeOffs == n * step
    {
      hide StepSize, AtScale;
      var stepSize := StepSize(ramp, step);
      ghost var a := volumeAccum;
      ghost var bound := RiseBound(a, stepSize);
      volumeOffs := 0;
      points, n := [], 0;
      while true
        invariant volumeAccum == Level(a, stepSize, n) && volumeOffs == n * step
        invariant points == RisePoints(scale, a, stepSize, step, n)
        invariant forall k: nat :: 1 <= k <= n ==> Level(a, stepSize, k) < 1.0
        invariant n < bound
        decreases bound - n
      {
        points := points + [Point(volumeOffs, AtScale(scale, volumeAccum))];
        volumeAccum := volumeAccum + stepSize;
        volumeOffs := volumeOffs + step;
        n := n + 1;
        if !(volumeAccum < 1.0) {
          break;
        }
      }
    }

    /** fade_out outside native mode. */
    method FadeOut() returns (points: seq<Point>, ghost n: nat)
      requires ramp != 0 && FallEnds(volumeAccum, StepSize(ramp, step))
      modifies this`volumeAccum, this`volumeOffs
      ensures FallsIn(old(volumeAccum), StepSize(ramp, step), n)
      ensures volumeAccum == Drop(old(volumeAccum), StepSize(ramp, step), n)
      ensures points == FallPoints(scale, old(volumeAccum), StepSize(ramp, step), step, n)
      ensures volumeOffs == step + n * step
    {
      hide StepSize, AtScale;
      var stepSize := StepSize(ramp, step);
      ghost var a := volumeAccum;
      ghost var bound := FallBound(a, stepSize);
      volumeOffs := step;
      points, n := [], 0;
      while true
        invariant volumeAccum == Drop(a, stepSize, n) && volumeOffs == step + n * step
        invariant points == FallPoints(scale, a, stepSize, step, n)
        invariant forall k: nat :: 1 <= k <= n ==> Drop(a, stepSize, k) > 0.0
        invariant n < bound
        decreases bound - n
      {
        points := points + [Point(volumeOffs, AtScale(scale, volumeAccum))];
        volumeAccum := volumeAccum - stepSize;
        volumeOffs := volumeOffs + step;
        n := n + 1;
        if !(volumeAccum > 0.0) {
          break;
        }
      }
    }

    /** do_fade: one fade, then the other direction. Outside native mode it
        waits until the control buffer was taken; in native mode the node ramps
        the volume itself. */
    method DoFade() returns (points: seq<Point>, ghost n: nat)
      requires !native && Ready() ==> ramp != 0
      requires !native && Ready() && startFadeIn ==> RiseEnds(volumeAccum, StepSize(ramp, step))
      requires !native && Ready() && !startFadeIn ==> FallEnds(volumeAccum, StepSize(ramp, step))
      modifies this
      ensures status == (if native || !old(Ready()) then old(status) else HaveData)
      ensures !native && !old(Ready()) ==>
                && points == [] && startFadeIn == old(startFadeIn)
                && volumeAccum == old(volumeAccum) && volumeOffs == old(volumeOffs)
      ensures native ==>
                && points == [] && startFadeIn == !old(startFadeIn)
                && volumeAccum == old(volumeAccum) && volumeOffs == old(volumeOffs)
      ensures !native && old(Ready()) ==>
                Fades(ramp, step, scale, State(old(volumeAccum), old(startFadeIn)),
                      State(volumeAccum, startFadeIn), points, n)
    {
      hide RisePoints, FallPoints, RisesIn, FallsIn, StepSize, Level, Drop;
      points, n := [], 0;
      if !native && status != Ok && status != NeedData {
        return;
      }
      if !native {
        if startFadeIn {
          points, n := FadeIn();
        } else {
          points, n := FadeOut();
        }
        status := HaveData;
      }
      startFadeIn := !startFadeIn;
    }
  }

  // ---------------------------------------------------------------------
  // Alternating runs

  datatype State = State(accum: real, fadeIn: bool)

  /** One fade takes `s` to `t` in `n` passes and emits `points`. */
  ghost predicate Fades(ramp: int, step: int, scale: Scale, s: State, t: State, points: seq<Point>, n: nat)
    requires ramp != 0
  {
    var d := StepSize(ramp, step);
    && t.fadeIn == !s.fadeIn
    && (s.fadeIn ==> RisesIn(s.accum, d, n) && t.accum == Level(s.accum, d, n)
                     && points == RisePoints(scale, s.accum, d, step, n))
    && (!s.fadeIn ==> FallsIn(s.accum, d, n) && t.accum == Drop(s.accum, d, n)
                      && points == FallPoints(scale, s.accum, d, step, n))
  }

  /** From silence the rise takes exactly the step count. */
  lemma RiseCount(ramp: int, step: int, n: nat)
    requires Steppable(ramp, step)
    requires RisesIn(0.0, StepSize(ramp, step), n)
    ensures n == Steps(ramp, step)
  {
    hide StepSize, Steps, Level;
    var m, s := Steps(ramp, step), StepSize(ramp, step);
    LevelIsSum(0.0, s, n);
    StepsReachOne(ramp, step, n);
    StepsReachOne(ramp, step, m);
    LevelIsSum(0.0, s, m);
  }

  /** Falling from the sum of `m` steps takes exactly `m` steps, down to exactly 0. */
  lemma FallCount(s: real, m: nat, n: nat)
    requires s > 0.0 && m >= 1 && FallsIn(Level(0.0, s, m), s, n)
    ensures n == m && Drop(Level(0.0, s, m), s, n) == 0.0
  {
    hide Level, Drop;
    var a := Level(0.0, s, m);
    LevelIsSum(0.0, s, m);
    DropIsDifference(a, s, m);
    DropIsDifference(a, s, n);
    if n < m { Positive(m as real - n as real, s); }
  }

  /** A run of fades from silence. */
  ghost predicate IsRun(ramp: int, step: int, scale: Scale, ss: seq<State>, ps: seq<seq<Point>>, ns: seq<nat>)
    requires ramp != 0
  {
    && |ss| == |ps| + 1 && |ns| == |ps| && ss[0] == State(0.0, true)
    && forall i :: 0 <= i < |ps| ==> Fades(ramp, step, scale, ss[i], ss[i + 1], ps[i], ns[i])
  }

  /** At exactly 0 before a rise, at exactly the sum of the steps before a fall. */
  ghost predicate AtHome(ramp: int, step: int, s: State)
    requires ramp != 0 && step != 0
  {
    s.accum == if s.fadeIn then 0.0 else Level(0.0, StepSize(ramp, step), Steps(ramp, step))
  }

  lemma DriftStep(ramp: int, step: int, scale: Scale, s: State, t: State, points: seq<Point>, n: nat)
    requires Steppable(ramp, step) && Fades(ramp, step, scale, s, t, points, n) && AtHome(ramp, step, s)
    ensures AtHome(ramp, step, t) && n == Steps(ramp, step)
  {
    PositiveStep(ramp, step);
    StepsBounds(ramp, step);
    hide StepSize, Steps, RisePoints, FallPoints, RisesIn, FallsIn, Level, Drop;
    if s.fadeIn {
      RiseCount(ramp, step, n);
    } else {
      FallCount(StepSize(ramp, step), Steps(ramp, step), n);
    }
  }

  /** No drift: before each fade the volume is exactly 0 or exactly the sum of
      the steps, whatever the number of fades, and every fade takes the same
      number of passes. */
  lemma {:induction false} NoDrift(ramp: int, step: int, scale: Scale, ss: seq<State>,
                                   ps: seq<seq<Point>>, ns: seq<nat>, i: nat)
    requires Steppable(ramp, step)
    requires IsRun(ramp, step, scale, ss, ps, ns) && i <= |ps|
    ensures ss[i].fadeIn <==> i % 2 == 0
    ensures AtHome(ramp, step, ss[i])
    ensures i > 0 ==> ns[i - 1] == Steps(ramp, step)
  {
    hide StepSize, Steps, RisePoints, FallPoints, RisesIn, FallsIn, Level, Drop;
    if i > 0 {
      NoDrift(ramp, step, scale, ss, ps, ns, i - 1);
      DriftStep(ramp, step, scale, ss[i - 1], ss[i], ps[i - 1], ns[i - 1]);
    }
  }

  /** Every fade repeats the one two before it, entry by entry. */
  lemma FadesRepeat(ramp: int, step: int, scale: Scale, ss: seq<State>, ps: seq<seq<Point>>, ns: seq<nat>, i: nat)
    requires Steppable(ramp, step)
    requires IsRun(ramp, step, scale, ss, ps, ns) && i + 2 < |ps|
    ensures ps[i + 2] == ps[i]
  {
    hide StepSize, Steps, RisePoints, FallPoints, RisesIn, FallsIn, Level, Drop;
    NoDrift(ramp, step, scale, ss, ps, ns, i);
    NoDrift(ramp, step, scale, ss, ps, ns, i + 1);
    NoDrift(ramp, step, scale, ss, ps, ns, i + 2);
    NoDrift(ramp, step, scale, ss, ps, ns, i + 3);
    assert Fades(ramp, step, scale, ss[i], ss[i + 1], ps[i], ns[i]);
    assert Fades(ramp, step, scale, ss[i + 2], ss[i + 3], ps[i + 2], ns[i + 2]);
  }

  /** Offsets strictly increase within a fade if and only if the step is
      positive. */
  lemma OffsetsIncreaseIff(scale: Scale, a: real, s: real, step: int, n: nat, i: nat, j: nat)
    requires i < j < n
    ensures RisePoints(scale, a, s, step, n)[i].offset < RisePoints(scale, a, s, step, n)[j].offset <==> step > 0
    ensures FallPoints(scale, a, s, step, n)[i].offset < FallPoints(scale, a, s, step, n)[j].offset <==> step > 0
  {
    ScaledLess(i, j, step);
  }

  lemma ScaledLess(i: int, j: int, step: int)
    requires i < j
    ensures i * step < j * step <==> step > 0
  {
    if step > 0 {
      MulGrows(i + 1, j, step);
      assert (i + 1) * step == i * step + step;
    } else {
      assert (j - i) * step <= 0;
      assert (j - i) * step == j * step - i * step;
    }
  }
}
