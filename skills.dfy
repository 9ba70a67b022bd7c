/**
 * A skill bar's count-up: once the bar scrolls into view, a 16 ms interval
 * adds `level / (2000 / 16)` to an accumulator, shows its floor, and on
 * reaching `level` shows exactly `level` and stops. The accumulator is kept
 * exactly, scaled by 125: `acc` stands for `125 * start`.
 */
module Skills {
  /** The animation length and the interval period, in milliseconds. */
  const Duration: nat := 2000
  const TickPeriod: nat := 16
  /** `duration / 16`, which is exactly 125: the number of increments the count-up is spread over. */
  const Steps: nat := 125

  /** The count-up is spread over exactly as many firings as fit in the duration. */
  lemma StepsFitDuration()
    ensures Duration / TickPeriod == Steps && Steps * TickPeriod == Duration
  {
  }

  /** The timer's state: the scaled accumulator, the shown `count`, and whether the interval is registered. */
  datatype Counter = Counter(acc: nat, count: nat, running: bool)

  /** When the bar comes into view: `start` is 0, `count` still 0, interval registered. */
  const Start: Counter := Counter(0, 0, true)

  /** One firing of the interval: `start += increment`, then snap to `level` and stop, or show `Math.floor(start)`. */
  function CountTick(level: nat, c: Counter): (r: Counter)
    ensures r.acc == c.acc + level && r.count <= level
    ensures r.running ==> r.count == r.acc / Steps && r.acc < Steps * level
    ensures !r.running ==> r.count == level
    ensures c.count <= c.acc / Steps && c.count <= level ==> c.count <= r.count
  {
    var acc := c.acc + level;
    if acc >= Steps * level then Counter(acc, level, false)
    else Counter(acc, acc / Steps, true)
  }

  /** The counter after `n` firings; a cleared interval fires no more. */
  function CounterAfter(level: nat, n: nat): Counter
  {
    if n == 0 then Start
    else
      var c := CounterAfter(level, n - 1);
      if c.running then CountTick(level, c) else c
  }

  /** The firing on which the count-up ends: the 125th, or the first when `level` is 0. */
  function FinishTick(level: nat): nat
  {
    if level == 0 then 1 else Steps
  }

  lemma MulStep(n: nat, level: nat)
    requires n >= 1
    ensures n * level == (n - 1) * level + level
  {
  }

  lemma MulBelow(n: nat, level: nat)
    requires n < Steps && level > 0
    ensures n * level < Steps * level
    ensures n * level / Steps < level
  {
  }

  lemma MulMonotone(m: nat, n: nat, level: nat)
    requires m <= n
    ensures m * level <= n * level
    ensures m * level / Steps <= n * level / Steps
  {
    assert n * level == m * level + (n - m) * level;
  }

  /**
   * The closed form: before the finishing firing the accumulator is `n * level`
   * and the count its floor `n * level / 125`; from then on the accumulator is
   * `125 * level`, the count exactly `level`, and the timer stopped.
   */
  lemma {:induction false} CounterClosedForm(level: nat, n: nat)
    ensures n < FinishTick(level) ==> CounterAfter(level, n) == Counter(n * level, n * level / Steps, true)
    ensures n >= FinishTick(level) ==> CounterAfter(level, n) == Counter(Steps * level, level, false)
  {
    if n > 0 {
      CounterClosedForm(level, n - 1);
      MulStep(n, level);
      if n < FinishTick(level) && level > 0 {
        MulBelow(n, level);
      }
    }
  }

  /** The count never exceeds `level`. */
  lemma CountBounded(level: nat, n: nat)
    ensures CounterAfter(level, n).count <= level
  {
    CounterClosedForm(level, n);
    if n < FinishTick(level) && level > 0 {
      MulBelow(n, level);
    }
  }

  /** While the timer runs, the count is the floor of the accumulator, which after the first firing is below `level`. */
  lemma CountIsFloorWhileRunning(level: nat, n: nat)
    ensures CounterAfter(level, n).running ==> CounterAfter(level, n).count == CounterAfter(level, n).acc / Steps
    ensures CounterAfter(level, n).running && n > 0 ==> CounterAfter(level, n).acc < Steps * level
  {
    CounterClosedForm(level, n);
    if n < FinishTick(level) && level > 0 {
      MulBelow(n, level);
    }
  }

  /** The count never decreases from one firing to a later one. */
  lemma CountMonotone(level: nat, m: nat, n: nat)
    requires m <= n
    ensures CounterAfter(level, m).count <= CounterAfter(level, n).count
  {
    CounterClosedForm(level, m);
    CounterClosedForm(level, n);
    if n < FinishTick(level) {
      MulMonotone(m, n, level);
    } else if m < FinishTick(level) && level > 0 {
      MulBelow(m, level);
    }
  }

  /** The timer stops exactly from the finishing firing on, and then the count is exactly `level`. */
  lemma FinishesOnTick(level: nat, n: nat)
    ensures !CounterAfter(level, n).running <==> n >= FinishTick(level)
    ensures !CounterAfter(level, n).running ==> CounterAfter(level, n).count == level
  {
    CounterClosedForm(level, n);
  }

  /** One skill bar: its `level` prop, the `count` state, the `useInView` flag and the effect's timer. */
  class SkillBar {
    const level: nat
    var count: nat
    var inView: bool
    /** The effect closure's `start`, scaled by 125. */
    var acc: nat
    var timerActive: bool
    /** Firings delivered since the bar came into view. */
    ghost var ticks: nat

    ghost predicate Valid()
      reads this
    {
      && (timerActive ==> inView)
      && (!inView ==> count == 0 && acc == 0 && ticks == 0)
      && (inView ==> acc == CounterAfter(level, ticks).acc && count == CounterAfter(level, ticks).count)
      && (timerActive ==> CounterAfter(level, ticks).running)
    }

    /** Mounting: `count` 0, not yet in view, so no timer. */
    constructor (level: nat)
      ensures Valid() && this.level == level && count == 0 && !inView && !timerActive
    {
      this.level := level;
      count, inView, acc, timerActive := 0, false, 0, false;
      ticks := 0;
    }

    /** The bar scrolls into view: the first time (`once: true`), the effect starts the count-up timer. */
    method EnterView()
      requires Valid()
      modifies this
      ensures Valid() && inView
      ensures !old(inView) ==> timerActive && acc == 0 && count == 0 && ticks == 0
      ensures old(inView) ==> acc == old(acc) && count == old(count) && timerActive == old(timerActive) && ticks == old(ticks)
    {
      if !inView {
        inView := true;
        acc := 0;
        timerActive := true;
      }
    }

    /** One firing of the interval. */
    method Tick()
      requires Valid() && timerActive
      modifies this
      ensures Valid() && ticks == old(ticks) + 1 && inView
      ensures Counter(acc, count, timerActive) == CountTick(level, Counter(old(acc), old(count), true))
      ensures count <= level && old(count) <= count
    {
      CountBounded(level, ticks + 1);
      CountMonotone(level, ticks, ticks + 1);
      acc := acc + level;
      if acc >= Steps * level {
        count := level;
        timerActive := false;
      } else {
        count := acc / Steps;
      }
      ticks := ticks + 1;
    }

    /** Unmounting: the effect's cleanup clears the interval. */
    method Unmount()
      requires Valid()
      modifies this
      ensures Valid() && !timerActive
      ensures count == old(count) && acc == old(acc) && inView == old(inView) && ticks == old(ticks)
    {
      timerActive := false;
    }
  }
}
