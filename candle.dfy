/**
 * The candle page of src/Components/Candle.jsx: a flame that is blown out
 * once, after which a timer moves the app on to the letter.
 *
 * Two versions are modelled. `CakeAsWritten` follows the source: the flame
 * sits inside `AnimatePresence`, which keeps it mounted, still carrying the
 * click handler of its last lit render, for the 0.3 s of its exit animation.
 * That handler's `isLit` is the captured `true`, so a second click in the
 * window schedules a second `onContinue`. `Cake` is the evidently intended
 * behaviour, where the handler tests the current `isLit`.
 */
module Candle {
  import App

  /** The candle as written, with the flame's mounting made explicit. */
  class CakeAsWritten {
    var isLit: bool
    /** The flame element is mounted: while lit, and during its exit animation. */
    var flameMounted: bool
    /** `onContinue` timeouts scheduled and not yet fired. */
    var pending: nat
    /** Calls of `onContinue` already made. */
    var continued: nat

    /** While lit the flame is mounted and nothing has been scheduled. */
    ghost predicate Valid()
      reads this
    {
      isLit ==> flameMounted && pending == 0 && continued == 0
    }

    /** `useState(true)`, with the flame rendered. */
    constructor ()
      ensures Valid()
      ensures isLit && flameMounted && pending == 0 && continued == 0
    {
      isLit, flameMounted, pending, continued := true, true, 0, 0;
    }

    /**
     * A click on the mounted flame runs `handleBlowOut` from the flame's last
     * render. That render was lit, so its `if (isLit)` test passes every time.
     */
    method ClickFlame()
      requires Valid() && flameMounted
      modifies this
      ensures Valid()
      ensures !isLit && flameMounted
      ensures pending == old(pending) + 1 && continued == old(continued)
    {
      // The captured `isLit` is `true`, so the branch of `handleBlowOut` runs.
      isLit := false;
      pending := pending + 1;
    }

    /** The 0.3 s exit animation ends and `AnimatePresence` unmounts the flame. */
    method ExitAnimationEnds()
      requires Valid() && !isLit && flameMounted
      modifies this
      ensures Valid()
      ensures !isLit && !flameMounted
      ensures pending == old(pending) && continued == old(continued)
    {
      flameMounted := false;
    }

    /** A 3000 ms timeout fires and calls `onContinue`. */
    method TimerFires()
      requires Valid() && pending > 0
      modifies this
      ensures Valid()
      ensures isLit == old(isLit) && flameMounted == old(flameMounted)
      ensures pending == old(pending) - 1 && continued == old(continued) + 1
    {
      pending := pending - 1;
      continued := continued + 1;
    }
  }

  /**
   * A double click on the flame, the second within its exit animation,
   * schedules two timers. Both call `handleNext`, so the app goes from the
   * candle page past the letter to page 10, where nothing is rendered.
   */
  method DoubleClickAsWritten() returns (scheduled: nat, page: int)
    ensures scheduled == 2
    ensures page == 10 && App.Rendered(page) == {}
  {
    var session := new App.Session();
    var k := 0;
    while k < 7
      invariant 0 <= k <= 7 && session.currentPage == 1 + k
    {
      session.HandleNext();
      k := k + 1;
    }
    var cake := new CakeAsWritten();
    cake.ClickFlame();
    cake.ClickFlame();
    cake.ExitAnimationEnds();
    scheduled := cake.pending;
    cake.TimerFires();
    session.HandleNext();
    cake.TimerFires();
    session.HandleNext();
    page := session.currentPage;
    App.RenderedExactlyOne(page);
  }

  /**
   * The candle as intended: `isLit`, with the timers it has scheduled.
   * `pending` counts the `onContinue` timeouts not yet fired, `continued`
   * the calls of `onContinue` already made.
   */
  class Cake {
    var isLit: bool
    var pending: nat
    var continued: nat

    /** While lit, nothing is scheduled; once out, exactly one timer was scheduled. */
    ghost predicate Valid()
      reads this
    {
      if isLit then pending == 0 && continued == 0 else pending + continued == 1
    }

    /** `useState(true)`. */
    constructor ()
      ensures Valid()
      ensures isLit && pending == 0 && continued == 0
    {
      isLit, pending, continued := true, 0, 0;
    }

    /**
     * `handleBlowOut` testing the current `isLit`: only a lit candle goes out
     * and schedules the move on, however often the flame is clicked.
     */
    method HandleBlowOut()
      requires Valid()
      modifies this
      ensures Valid()
      ensures !isLit
      ensures old(isLit) ==> pending == 1 && continued == 0
      ensures !old(isLit) ==> pending == old(pending) && continued == old(continued)
    {
      if isLit {
        isLit := false;
        pending := pending + 1;
      }
    }

    /** The 3000 ms timeout fires and calls `onContinue`. */
    method TimerFires()
      requires Valid() && pending > 0
      modifies this
      ensures Valid()
      ensures isLit == old(isLit)
      ensures pending == old(pending) - 1 && continued == old(continued) + 1
    {
      pending := pending - 1;
      continued := continued + 1;
    }
  }

  /** However the events interleave, `onContinue` is called at most once. */
  lemma AtMostOneContinue(c: Cake)
    requires c.Valid()
    ensures c.continued + c.pending <= 1
    ensures c.continued == 1 ==> !c.isLit && c.pending == 0
  {
  }
}
