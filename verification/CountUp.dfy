/** The count-up animation behind every displayed number (hooks/useCountUp.ts).
    Each displayed value owns a small state machine: the shown `count`, the
    value and time the current animation started from, and the animation
    frame it has asked for. The browser's frame loop is made explicit: the
    scheduler's pending frames are a set of frame ids, `Tick` is a frame
    firing, `Retarget` is the effect re-running on a new target, `Unmount` is
    the effect's cleanup on teardown. */
module CountUp {
  import opened Wrappers

  /** Length of one animation when the caller gives none. */
  const DefaultDuration: real := 1200.0

  // ---------------------------------------------------------------------
  // The easing curve

  function Pow(x: real, n: nat): real {
    if n == 0 then 1.0 else x * Pow(x, n - 1)
  }

  /** `Math.min(progress / duration, 1)`. */
  function Percentage(progress: real, duration: real): (p: real)
    requires duration > 0.0
    ensures progress >= 0.0 ==> 0.0 <= p <= 1.0
    ensures progress >= duration ==> p == 1.0
    ensures progress < duration ==> p * duration == progress
  {
    var q := progress / duration;
    if q < 1.0 then q else 1.0
  }

  /** Progress through the animation never goes back as time passes. */
  lemma PercentageMonotone(t1: real, t2: real, duration: real)
    requires duration > 0.0 && t1 <= t2
    ensures Percentage(t1, duration) <= Percentage(t2, duration)
  {
    var q1, q2 := t1 / duration, t2 / duration;
    assert q1 * duration == t1 && q2 * duration == t2;
    assert (q2 - q1) * duration == t2 - t1;
    if q2 < q1 {
      MulNonNegative(q1 - q2, duration);
      assert (q1 - q2) * duration == t1 - t2;
    }
  }

  /** The ease-out quintic `1 - (1 - p)^5`. */
  function Eased(p: real): real {
    1.0 - Pow(1.0 - p, 5)
  }

  /** The value shown when the curve is at `eased`. */
  function Interpolate(from: real, to: real, eased: real): real {
    from + (to - from) * eased
  }

  /** `x` lies between `a` and `b`, in whichever order they come. */
  predicate Between(x: real, a: real, b: real) {
    (a <= x <= b) || (b <= x <= a)
  }

  lemma MulNonNegative(a: real, b: real)
    requires a >= 0.0 && b >= 0.0
    ensures a * b >= 0.0
  {
  }

  lemma {:induction false} PowUnit(x: real, n: nat)
    requires 0.0 <= x <= 1.0
    ensures 0.0 <= Pow(x, n) <= 1.0
  {
    if n > 0 {
      PowUnit(x, n - 1);
      var q := Pow(x, n - 1);
      MulNonNegative(x, q);
      MulNonNegative(1.0 - x, q);
      assert (1.0 - x) * q == q - x * q;
    }
  }

  lemma {:induction false} PowMonotone(x: real, y: real, n: nat)
    requires 0.0 <= x <= y
    ensures 0.0 <= Pow(x, n) <= Pow(y, n)
  {
    if n > 0 {
      PowMonotone(x, y, n - 1);
      var px, py := Pow(x, n - 1), Pow(y, n - 1);
      MulNonNegative(x, px);
      MulNonNegative(y - x, px);
      MulNonNegative(y, py - px);
      assert (y - x) * px == y * px - x * px;
      assert y * (py - px) == y * py - y * px;
    }
  }

  /** The curve starts at 0, ends at 1 and stays within [0, 1]. */
  lemma EasedBounds(p: real)
    requires 0.0 <= p <= 1.0
    ensures 0.0 <= Eased(p) <= 1.0
    ensures Eased(0.0) == 0.0 && Eased(1.0) == 1.0
  {
    PowUnit(1.0 - p, 5);
  }

  /** The curve never goes back. */
  lemma EasedMonotone(p1: real, p2: real)
    requires 0.0 <= p1 <= p2 <= 1.0
    ensures Eased(p1) <= Eased(p2)
  {
    PowMonotone(1.0 - p2, 1.0 - p1, 5);
  }

  lemma InterpolateBetween(from: real, to: real, eased: real)
    requires 0.0 <= eased <= 1.0
    ensures Between(Interpolate(from, to, eased), from, to)
    ensures eased == 0.0 ==> Interpolate(from, to, eased) == from
    ensures eased == 1.0 ==> Interpolate(from, to, eased) == to
  {
    var d := to - from;
    var moved := d * eased;
    assert d * (1.0 - eased) == d - moved;
    if from <= to {
      MulNonNegative(d, eased);
      MulNonNegative(d, 1.0 - eased);
    } else {
      assert (-d) * eased == -moved && (-d) * (1.0 - eased) == moved - d;
      MulNonNegative(-d, eased);
      MulNonNegative(-d, 1.0 - eased);
    }
  }

  /** What one animation frame computes: the value it shows and whether it
      asks for another frame. */
  datatype Frame = Frame(count: real, again: bool)

  function Step(startValue: real, endValue: real, progress: real, duration: real): Frame
    requires duration > 0.0
  {
    var eased := Eased(Percentage(progress, duration));
    if progress < duration then Frame(Interpolate(startValue, endValue, eased), true)
    else Frame(endValue, false)
  }

  /** A frame at elapsed time 0 shows exactly the start value, so a new
      animation never jumps. */
  lemma StepAtStart(startValue: real, endValue: real, duration: real)
    requires duration > 0.0
    ensures Step(startValue, endValue, 0.0, duration) == Frame(startValue, true)
  {
    assert Percentage(0.0, duration) == 0.0;
    EasedBounds(0.0);
  }

  /** Every frame shows a value between the start and the target. */
  lemma StepBetween(startValue: real, endValue: real, progress: real, duration: real)
    requires duration > 0.0 && progress >= 0.0
    ensures Between(Step(startValue, endValue, progress, duration).count, startValue, endValue)
  {
    var p := Percentage(progress, duration);
    EasedBounds(p);
    InterpolateBetween(startValue, endValue, Eased(p));
  }

  /** Once the duration has elapsed the frame shows the target exactly and
      asks for no further frame; before that it always asks for one. */
  lemma StepFinishes(startValue: real, endValue: real, progress: real, duration: real)
    requires duration > 0.0
    ensures Step(startValue, endValue, progress, duration).again <==> progress < duration
    ensures progress >= duration ==> Step(startValue, endValue, progress, duration).count == endValue
  {
  }

  /** Later frames of one animation are never further from the target. */
  lemma StepMonotone(startValue: real, endValue: real, t1: real, t2: real, duration: real)
    requires duration > 0.0 && 0.0 <= t1 <= t2
    ensures startValue <= endValue ==>
      Step(startValue, endValue, t1, duration).count <= Step(startValue, endValue, t2, duration).count
    ensures endValue <= startValue ==>
      Step(startValue, endValue, t2, duration).count <= Step(startValue, endValue, t1, duration).count
  {
    var p1 := Percentage(t1, duration);
    var p2 := Percentage(t2, duration);
    PercentageMonotone(t1, t2, duration);
    EasedMonotone(p1, p2);
    EasedBounds(p2);
    var e1 := Eased(p1);
    var e2 := Eased(p2);
    InterpolateBetween(startValue, endValue, e2);
    if startValue <= endValue {
      assert (endValue - startValue) * e1 <= (endValue - startValue) * e2;
    } else {
      assert (startValue - endValue) * e1 <= (startValue - endValue) * e2;
    }
  }

  /** `!startTimeRef.current`: both `null` and a start time of 0 count as unset. */
  predicate Unset(startTime: Option<real>) {
    startTime.None? || startTime.value == 0.0
  }

  // ---------------------------------------------------------------------
  // The hook's state

  class CountUp {
    /** The displayed value (the `count` state). */
    var count: real
    /** The hook's arguments of the latest render. */
    var endValue: real
    var duration: real
    /** `startValueRef` and `startTimeRef` (None is `null`). */
    var startValue: real
    var startTime: Option<real>
    /** `frameRef`: the id of the last frame requested, 0 for `null`. */
    var frame: nat
    /** The frames of this value that the browser still has to run. */
    var scheduled: set<nat>
    /** The id the next `requestAnimationFrame` call returns (ids start at 1). */
    var nextFrame: nat

    ghost predicate Valid()
      reads this
    {
      duration > 0.0 &&
      Between(count, startValue, endValue) &&
      (Unset(startTime) ==> count == startValue) &&
      0 < nextFrame && frame < nextFrame &&
      (scheduled == {} || (frame != 0 && scheduled == {frame}))
    }

    /** Whether a frame is waiting to run. */
    function Pending(): bool
      reads this
    {
      scheduled != {}
    }

    /** First render (count 0) followed by the mount effect, which starts an
        animation from 0 towards `endValue`. */
    constructor (endValue: real, duration: real)
      requires duration > 0.0
      ensures Valid()
      ensures count == 0.0 && startValue == 0.0 && startTime.None?
      ensures this.endValue == endValue && this.duration == duration
      ensures scheduled == {frame}
    {
      count := 0.0;
      this.endValue := endValue;
      this.duration := duration;
      startValue := 0.0;
      startTime := None;
      frame := 1;
      scheduled := {1};
      nextFrame := 2;
    }

    /** The hook called without a duration, as every animated number does. */
    constructor Default(endValue: real)
      ensures Valid()
      ensures count == 0.0 && startValue == 0.0 && startTime.None?
      ensures this.endValue == endValue && duration == DefaultDuration
      ensures scheduled == {frame}
    {
      count := 0.0;
      this.endValue := endValue;
      duration := DefaultDuration;
      startValue := 0.0;
      startTime := None;
      frame := 1;
      scheduled := {1};
      nextFrame := 2;
    }

    /** A render with a new target or duration: the old effect's cleanup
        cancels the pending frame, then the new effect restarts the
        animation from the value currently shown. A render with the same
        target and duration does not re-run the effect. */
    method Retarget(newEnd: real, newDuration: real)
      requires Valid() && newDuration > 0.0
      requires newEnd != endValue || newDuration != duration
      modifies this
      ensures Valid()
      ensures count == old(count) && startValue == old(count) && startTime.None?
      ensures endValue == newEnd && duration == newDuration
      ensures old(frame) !in scheduled
      ensures frame == old(nextFrame) && scheduled == {frame}
    {
      if frame != 0 {
        scheduled := scheduled - {frame};
      }
      endValue := newEnd;
      duration := newDuration;
      startValue := count;
      startTime := None;
      frame := nextFrame;
      scheduled := scheduled + {nextFrame};
      nextFrame := nextFrame + 1;
    }

    /** Teardown: the cleanup cancels the pending frame. */
    method Unmount()
      requires Valid()
      modifies this
      ensures Valid() && scheduled == {}
      ensures count == old(count) && startValue == old(startValue) && startTime == old(startTime)
      ensures endValue == old(endValue) && duration == old(duration) && frame == old(frame)
    {
      if frame != 0 {
        scheduled := scheduled - {frame};
      }
    }

    /** The frame `id` runs at `timestamp` (`animate`). Frame timestamps never
        go back, so the time is not before a start time already recorded. */
    method Tick(id: nat, timestamp: real)
      requires Valid() && id in scheduled
      requires Unset(startTime) || timestamp >= startTime.value
      modifies this
      ensures Valid()
      ensures startTime == if Unset(old(startTime)) then Some(timestamp) else old(startTime)
      ensures count == Step(startValue, endValue, timestamp - startTime.value, duration).count
      ensures Pending() == Step(startValue, endValue, timestamp - startTime.value, duration).again
      ensures Pending() ==> frame == old(nextFrame) && nextFrame == old(nextFrame) + 1 && id !in scheduled
      ensures !Pending() ==> frame == old(frame) && nextFrame == old(nextFrame)
      ensures Unset(old(startTime)) ==> count == old(count)
      ensures startValue == old(startValue) && endValue == old(endValue) && duration == old(duration)
    {
      scheduled := scheduled - {id};
      if Unset(startTime) {
        startTime := Some(timestamp);
      }
      var progress := timestamp - startTime.value;
      var percentage := Percentage(progress, duration);
      var eased := Eased(percentage);
      count := startValue + (endValue - startValue) * eased;
      if progress < duration {
        frame := nextFrame;
        scheduled := scheduled + {nextFrame};
        nextFrame := nextFrame + 1;
      } else {
        count := endValue;
      }
      StepBetween(startValue, endValue, progress, duration);
      if Unset(old(startTime)) || Unset(startTime) {
        StepAtStart(startValue, endValue, duration);
      }
    }
  }
}
