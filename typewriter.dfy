/**
 * The hero section's typing effect: a 100 ms interval whose callback, with a
 * mutable `index` starting at 0, shows successive prefixes of a fixed
 * greeting and clears its own timer once the whole greeting has been shown.
 */
module Typewriter {
  const FullText: string := "Hi! I'm Eddy"
  /** The interval period, in milliseconds (time itself is not modelled). */
  const TickPeriod: nat := 100

  /** The effect's state: the closure's `index`, the `text` state and whether the interval is still registered. */
  datatype Typing = Typing(index: nat, text: string, running: bool)

  /** On mount: `index` 0, empty text, interval registered. */
  const Start: Typing := Typing(0, "", true)

  /** One firing of the interval callback. */
  function TypeStep(t: Typing): (r: Typing)
    ensures IsPrefixOfFull(t.text) ==> IsPrefixOfFull(r.text)
    ensures r.running ==> IsPrefixOfFull(r.text) && |r.text| == r.index - 1
    ensures !r.running ==> r.text == t.text && r.index == t.index
  {
    if t.index <= |FullText| then Typing(t.index + 1, FullText[..t.index], true)
    else Typing(t.index, t.text, false)
  }

  /** The state after `n` firings; a cleared interval fires no more, so once stopped the state stays put. */
  function TypingAfter(n: nat): Typing
  {
    if n == 0 then Start
    else
      var t := TypingAfter(n - 1);
      if t.running then TypeStep(t) else t
  }

  /** `s` is a prefix of the greeting. */
  predicate IsPrefixOfFull(s: string)
  {
    |s| <= |FullText| && s == FullText[..|s|]
  }

  /**
   * The closed form: after `n <= |FullText| + 1` firings the index is `n` and
   * the text the first `n - 1` characters; the next firing stops the timer
   * with the whole greeting shown, and nothing changes after that.
   */
  lemma {:induction false} TypingClosedForm(n: nat)
    ensures n <= |FullText| + 1 ==>
      TypingAfter(n) == Typing(n, FullText[..if n == 0 then 0 else n - 1], true)
    ensures n > |FullText| + 1 ==> TypingAfter(n) == Typing(|FullText| + 1, FullText, false)
  {
    if n > 0 {
      TypingClosedForm(n - 1);
      if n == |FullText| + 2 {
        assert FullText[..|FullText|] == FullText;
      }
    }
  }

  /** The text shown is always a prefix of the greeting. */
  lemma TextIsPrefix(n: nat)
    ensures IsPrefixOfFull(TypingAfter(n).text)
  {
    TypingClosedForm(n);
  }

  /** The text never gets shorter from one firing to a later one. */
  lemma TextLengthMonotone(m: nat, n: nat)
    requires m <= n
    ensures |TypingAfter(m).text| <= |TypingAfter(n).text|
  {
    TypingClosedForm(m);
    TypingClosedForm(n);
  }

  /** After `|FullText| + 1` firings the whole greeting is shown and the timer is still registered. */
  lemma FullAfterLengthPlusOne()
    ensures TypingAfter(|FullText| + 1) == Typing(|FullText| + 1, FullText, true)
  {
    TypingClosedForm(|FullText| + 1);
    assert FullText[..|FullText|] == FullText;
  }

  /** The firing after that clears the timer and leaves the text as it was. */
  lemma StopsOnNextFiring()
    ensures !TypingAfter(|FullText| + 2).running
    ensures TypingAfter(|FullText| + 2).text == TypingAfter(|FullText| + 1).text
  {
    TypingClosedForm(|FullText| + 1);
    TypingClosedForm(|FullText| + 2);
  }

  /** The text is the whole greeting exactly from firing `|FullText| + 1` on. */
  lemma ShowsFullExactly(n: nat)
    ensures TypingAfter(n).text == FullText <==> n >= |FullText| + 1
  {
    TypingClosedForm(n);
  }

  /** The mounted typing effect: `text`, the closure's `index` and its interval. */
  class TypingEffect {
    var text: string
    var index: nat
    var intervalActive: bool
    /** Firings delivered so far. */
    ghost var ticks: nat

    function State(): Typing
      reads this
    {
      Typing(index, text, intervalActive)
    }

    ghost predicate Valid()
      reads this
    {
      && index == TypingAfter(ticks).index
      && text == TypingAfter(ticks).text
      && (intervalActive ==> TypingAfter(ticks).running)
    }

    /** Mounting: `text` is empty, `index` is 0 and the interval is registered. */
    constructor ()
      ensures Valid() && State() == Start && ticks == 0
    {
      text, index, intervalActive := "", 0, true;
      ticks := 0;
    }

    /** One firing of the interval: show the next prefix and advance `index`, or clear the timer. */
    method Tick()
      requires Valid() && intervalActive
      modifies this
      ensures Valid() && ticks == old(ticks) + 1
      ensures State() == TypeStep(old(State()))
      ensures IsPrefixOfFull(text) && |old(text)| <= |text|
    {
      TypingClosedForm(ticks);
      TypingClosedForm(ticks + 1);
      if index <= |FullText| {
        text := FullText[..index];
        index := index + 1;
      } else {
        intervalActive := false;
      }
      ticks := ticks + 1;
    }

    /** Unmounting: the cleanup clears the interval. */
    method Unmount()
      requires Valid()
      modifies this
      ensures Valid() && !intervalActive
      ensures text == old(text) && index == old(index) && ticks == old(ticks)
    {
      intervalActive := false;
    }
  }
}
