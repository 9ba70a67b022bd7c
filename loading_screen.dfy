/**
 * The loading screen's progress ticker: an interval whose `setProgress`
 * updater adds 2 per tick until the value is already at least 100, then
 * stops the interval and schedules the completion callback once.
 */
module Loading {
  /** The amount one tick adds. */
  const TickStep: int := 2
  /** The value at which the updater stops the interval. */
  const Full: int := 100
  /** The interval period and the completion delay, in milliseconds (time itself is not modelled). */
  const TickPeriod: nat := 20
  const CompletionDelay: nat := 500

  /** What one run of the updater produces: the new progress and whether it stopped the interval and scheduled completion. */
  datatype Update = Update(value: int, finished: bool)

  /** The `setProgress(prev => ...)` updater. */
  function Advance(prev: int): Update
  {
    if prev >= Full then Update(Full, true) else Update(prev + TickStep, false)
  }

  /**
   * The updater keeps an even progress within [0, 100]: it never goes
   * backwards, adds at most one step, and when it stops it leaves exactly 100.
   */
  lemma AdvanceKeepsRange(prev: int)
    ensures Advance(prev).finished ==> Advance(prev).value == Full
    ensures prev <= Full ==> prev <= Advance(prev).value <= prev + TickStep
    ensures 0 <= prev <= Full && prev % TickStep == 0 ==>
      0 <= Advance(prev).value <= Full && Advance(prev).value % TickStep == 0
  {
  }

  /** The progress after `n` ticks of the interval, starting from 0. */
  function ProgressAfter(n: nat): int
  {
    if n == 0 then 0 else Advance(ProgressAfter(n - 1)).value
  }

  /** Whether the `n`-th tick (counting from 1) is one that stops the interval and schedules completion. */
  predicate FinishesOn(n: nat)
    requires n >= 1
  {
    Advance(ProgressAfter(n - 1)).finished
  }

  /** The ticker's closed form: 2 per tick up to tick 50, then 100 for good. */
  lemma {:induction false} ProgressClosedForm(n: nat)
    ensures ProgressAfter(n) == if n <= 50 then 2 * n else Full
  {
    if n > 0 {
      ProgressClosedForm(n - 1);
    }
  }

  /** Progress is always even and within [0, 100]: it never overshoots. */
  lemma ProgressBounded(n: nat)
    ensures 0 <= ProgressAfter(n) <= Full
    ensures ProgressAfter(n) % 2 == 0
  {
    ProgressClosedForm(n);
  }

  /** Progress never decreases from one tick to a later one. */
  lemma ProgressMonotone(m: nat, n: nat)
    requires m <= n
    ensures ProgressAfter(m) <= ProgressAfter(n)
  {
    ProgressClosedForm(m);
    ProgressClosedForm(n);
  }

  /** Progress reaches exactly 100 on tick 50 and no earlier. */
  lemma ReachesFullOnTickFifty(n: nat)
    ensures ProgressAfter(n) == Full <==> n >= 50
  {
    ProgressClosedForm(n);
  }

  /** The stopping tick is the 51st: every earlier tick keeps the interval running. */
  lemma FinishesOnTickFiftyOne(n: nat)
    requires n >= 1
    ensures FinishesOn(n) <==> n >= 51
  {
    ProgressClosedForm(n - 1);
  }

  /**
   * The mounted component: its `progress` state, whether its interval is
   * registered, and its completion timeouts (scheduled and fired). Unmounting
   * clears only the interval; a completion timeout already scheduled still fires.
   */
  class LoadingScreen {
    var progress: int
    var intervalActive: bool
    /** Completion timeouts scheduled and not yet fired. */
    var pendingCompletions: nat
    /** Calls made to `onLoadingComplete`. */
    var completions: nat
    /** Ticks delivered so far. */
    ghost var ticks: nat

    ghost predicate Valid()
      reads this
    {
      && ticks <= 51
      && progress == ProgressAfter(ticks)
      && (intervalActive ==> ticks <= 50)
      && pendingCompletions + completions == (if ticks == 51 then 1 else 0)
    }

    /** Mounting: progress 0 and the 20 ms interval registered. */
    constructor ()
      ensures Valid() && progress == 0 && intervalActive
      ensures pendingCompletions == 0 && completions == 0 && ticks == 0
    {
      progress := 0;
      intervalActive := true;
      pendingCompletions, completions := 0, 0;
      ticks := 0;
    }

    /** One firing of the interval: run the updater; when it finishes, clear the interval and schedule completion. */
    method Tick()
      requires Valid() && intervalActive
      modifies this
      ensures Valid() && ticks == old(ticks) + 1
      ensures progress == Advance(old(progress)).value
      ensures intervalActive == !Advance(old(progress)).finished
      ensures pendingCompletions == old(pendingCompletions) + (if Advance(old(progress)).finished then 1 else 0)
      ensures completions == old(completions)
      ensures pendingCompletions + completions <= 1
    {
      ProgressClosedForm(ticks);
      ProgressClosedForm(ticks + 1);
      if progress >= Full {
        intervalActive := false;
        pendingCompletions := pendingCompletions + 1;
        progress := Full;
      } else {
        progress := progress + TickStep;
      }
      ticks := ticks + 1;
    }

    /** The 500 ms timeout firing: `onLoadingComplete` is called. */
    method FireCompletion()
      requires Valid() && pendingCompletions > 0
      modifies this
      ensures Valid() && completions == old(completions) + 1 && completions == 1
      ensures pendingCompletions == old(pendingCompletions) - 1
      ensures progress == old(progress) && intervalActive == old(intervalActive) && ticks == old(ticks)
    {
      pendingCompletions := pendingCompletions - 1;
      completions := completions + 1;
    }

    /** Unmounting: the effect's cleanup clears the interval, so no further tick can occur; a scheduled completion is kept. */
    method Unmount()
      requires Valid()
      modifies this
      ensures Valid() && !intervalActive
      ensures progress == old(progress) && ticks == old(ticks)
      ensures pendingCompletions == old(pendingCompletions) && completions == old(completions)
    {
      intervalActive := false;
    }
  }
}
