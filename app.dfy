/**
 * The page sequencer of src/App.jsx: one integer `currentPage`, moved by
 * `handleNext` and `handlePrevious`, and a dispatch that renders the page
 * registered for the current value.
 */
module App {

  /** The nine page components, in dispatch order. */
  datatype Page = WarmWelcome | Welcome | Mystery | Riddle | Memory | Matching | Hidden | Candle | Letter

  /** The two callbacks App hands to a page. */
  datatype Callback = Continue | Previous

  /** The value of `currentPage` whose guard renders page `p`. */
  function PageIndex(p: Page): (i: int)
    ensures 1 <= i <= 9
  {
    match p
    case WarmWelcome => 1
    case Welcome => 2
    case Mystery => 3
    case Riddle => 4
    case Memory => 5
    case Matching => 6
    case Hidden => 7
    case Candle => 8
    case Letter => 9
  }

  /** The page registered for index `i`. */
  function PageAt(i: int): (p: Page)
    requires 1 <= i <= 9
    ensures PageIndex(p) == i
  {
    if i == 1 then WarmWelcome
    else if i == 2 then Welcome
    else if i == 3 then Mystery
    else if i == 4 then Riddle
    else if i == 5 then Memory
    else if i == 6 then Matching
    else if i == 7 then Hidden
    else if i == 8 then Candle
    else Letter
  }

  lemma PageAtIndex(p: Page)
    ensures PageAt(PageIndex(p)) == p
  {
  }

  /**
   * The components mounted for a value of `currentPage`: the JSX fragment is
   * nine independent `currentPage === k && <Component/>` guards.
   */
  function Rendered(current: int): set<Page>
  {
    (if current == 1 then {WarmWelcome} else {})
    + (if current == 2 then {Welcome} else {})
    + (if current == 3 then {Mystery} else {})
    + (if current == 4 then {Riddle} else {})
    + (if current == 5 then {Memory} else {})
    + (if current == 6 then {Matching} else {})
    + (if current == 7 then {Hidden} else {})
    + (if current == 8 then {Candle} else {})
    + (if current == 9 then {Letter} else {})
  }

  /** For 1..9 exactly one component is mounted; for any other value none is. */
  lemma RenderedExactlyOne(current: int)
    ensures forall p :: p in Rendered(current) <==> PageIndex(p) == current
    ensures 1 <= current <= 9 ==> Rendered(current) == {PageAt(current)} && |Rendered(current)| == 1
    ensures !(1 <= current <= 9) ==> Rendered(current) == {}
  {
    if current == 1 {
      assert Rendered(current) == {WarmWelcome};
    } else if current == 2 {
      assert Rendered(current) == {Welcome};
    } else if current == 3 {
      assert Rendered(current) == {Mystery};
    } else if current == 4 {
      assert Rendered(current) == {Riddle};
    } else if current == 5 {
      assert Rendered(current) == {Memory};
    } else if current == 6 {
      assert Rendered(current) == {Matching};
    } else if current == 7 {
      assert Rendered(current) == {Hidden};
    } else if current == 8 {
      assert Rendered(current) == {Candle};
    } else if current == 9 {
      assert Rendered(current) == {Letter};
    } else {
      assert Rendered(current) == {};
    }
  }

  /**
   * The callbacks a page can actually invoke: those it is given and wires to
   * a control. WarmWelcome is given no `onPrevious`; the Previous buttons of
   * Welcome and Mystery are commented out; Candle only destructures
   * `onContinue` and fires it from a timer; Letter takes no props at all.
   */
  function Invokes(p: Page): (cs: set<Callback>)
    ensures Previous in cs <==> p in {Riddle, Memory, Matching, Hidden}
    ensures Continue in cs <==> p != Letter
  {
    match p
    case WarmWelcome => {Continue}
    case Welcome => {Continue}
    case Mystery => {Continue}
    case Riddle => {Continue, Previous}
    case Memory => {Continue, Previous}
    case Matching => {Continue, Previous}
    case Hidden => {Continue, Previous}
    case Candle => {Continue}
    case Letter => {}
  }

  /** The new `currentPage` after a callback: `prev + 1` or `prev - 1`, unclamped. */
  function Step(current: int, c: Callback): (next: int)
    ensures c == Continue ==> next == current + 1
    ensures c == Previous ==> next == current - 1
  {
    match c
    case Continue => current + 1
    case Previous => current - 1
  }

  /** Some mounted page can invoke callback `c`. */
  predicate Enabled(current: int, c: Callback)
  {
    1 <= current <= 9 && c in Invokes(PageAt(current))
  }

  lemma EnabledMeansRenderedPageInvokes(current: int, c: Callback)
    ensures Enabled(current, c) <==> exists p :: p in Rendered(current) && c in Invokes(p)
  {
    RenderedExactlyOne(current);
  }

  /** The page index after the callbacks `cs`, fired in order from `start`. */
  function Run(start: int, cs: seq<Callback>): int
    decreases |cs|
  {
    if cs == [] then start else Run(Step(start, cs[0]), cs[1..])
  }

  /** Every callback of `cs` is one that the page mounted at its turn can invoke. */
  predicate Admissible(start: int, cs: seq<Callback>)
    decreases |cs|
  {
    cs == [] || (Enabled(start, cs[0]) && Admissible(Step(start, cs[0]), cs[1..]))
  }

  /** The session starts on page 1, whose only move is forward to page 2. */
  lemma FirstPageOnlyAdvances(c: Callback)
    ensures Enabled(1, c) <==> c == Continue
    ensures Enabled(1, c) ==> Step(1, c) == 2 && Rendered(Step(1, c)) == {Welcome}
  {
    RenderedExactlyOne(2);
  }

  /** Letter is terminal: no callback can be fired from page 9. */
  lemma LetterIsTerminal(c: Callback)
    ensures !Enabled(9, c)
    ensures Rendered(9) == {Letter}
  {
    RenderedExactlyOne(9);
  }

  /** One enabled move keeps the index inside [1, 9]. */
  lemma EnabledStepStaysInRange(current: int, c: Callback)
    requires Enabled(current, c)
    ensures 1 <= Step(current, c) <= 9
  {
  }

  /** Firing only callbacks that pages can invoke, the index never leaves [1, 9]. */
  lemma {:induction false} RunStaysInRange(start: int, cs: seq<Callback>)
    requires 1 <= start <= 9
    requires Admissible(start, cs)
    ensures 1 <= Run(start, cs) <= 9
    decreases |cs|
  {
    if cs != [] {
      EnabledStepStaysInRange(start, cs[0]);
      RunStaysInRange(Step(start, cs[0]), cs[1..]);
    }
  }

  /** A prefix of an admissible run is admissible, and `Run` composes. */
  lemma {:induction false} RunPrefix(start: int, cs: seq<Callback>, k: nat)
    requires Admissible(start, cs)
    requires k <= |cs|
    ensures Admissible(start, cs[..k])
    ensures Run(start, cs) == Run(Run(start, cs[..k]), cs[k..])
    ensures Admissible(Run(start, cs[..k]), cs[k..])
    decreases k
  {
    if k > 0 {
      assert cs[..k][0] == cs[0];
      assert cs[..k][1..] == cs[1..][..k - 1];
      RunPrefix(Step(start, cs[0]), cs[1..], k - 1);
      assert cs[1..][k - 1..] == cs[k..];
    }
  }

  /**
   * Once Mystery (page 3) is reached, pages 1 and 2 are never mounted again:
   * Mystery has no Previous, and Riddle's Previous leads back to 3.
   */
  lemma {:induction false} NeverBackBeforeMystery(start: int, cs: seq<Callback>)
    requires 3 <= start <= 9
    requires Admissible(start, cs)
    ensures 3 <= Run(start, cs) <= 9
    decreases |cs|
  {
    if cs != [] {
      NeverBackBeforeMystery(Step(start, cs[0]), cs[1..]);
    }
  }

  /** Every intermediate page of a run that passed Mystery is at least 3. */
  lemma NeverBackBeforeMysteryAtAnyPoint(start: int, cs: seq<Callback>, k: nat)
    requires 3 <= start <= 9
    requires Admissible(start, cs)
    requires k <= |cs|
    ensures WarmWelcome !in Rendered(Run(start, cs[..k]))
    ensures Welcome !in Rendered(Run(start, cs[..k]))
  {
    RunPrefix(start, cs, k);
    NeverBackBeforeMystery(start, cs[..k]);
    RenderedExactlyOne(Run(start, cs[..k]));
  }

  /** `n` Continue callbacks in a row. */
  function Continues(n: nat): (cs: seq<Callback>)
    ensures |cs| == n
    ensures forall i :: 0 <= i < n ==> cs[i] == Continue
  {
    seq(n, _ => Continue)
  }

  /** Pressing Continue from `start` walks forward one page at a time up to Letter. */
  lemma {:induction false} ContinueWalksForward(start: int, n: nat)
    requires 1 <= start && start + n <= 9
    ensures Admissible(start, Continues(n))
    ensures Run(start, Continues(n)) == start + n
    decreases n
  {
    if n > 0 {
      assert Continues(n)[1..] == Continues(n - 1);
      ContinueWalksForward(start + 1, n - 1);
    }
  }

  /** Eight Continues from the first page reach the final Letter page. */
  lemma EightContinuesReachLetter()
    ensures Admissible(1, Continues(8))
    ensures Rendered(Run(1, Continues(8))) == {Letter}
  {
    ContinueWalksForward(1, 8);
    RenderedExactlyOne(9);
  }

  /** The `currentPage` state of the App component. */
  class Session {
    var currentPage: int

    /** `useState(1)`. */
    constructor ()
      ensures currentPage == 1
    {
      currentPage := 1;
    }

    /** `handleNext`: `prev + 1`, with no upper bound. */
    method HandleNext()
      modifies this
      ensures currentPage == old(currentPage) + 1
    {
      currentPage := currentPage + 1;
    }

    /** `handlePrevious`: `prev - 1`, with no lower bound. */
    method HandlePrevious()
      modifies this
      ensures currentPage == old(currentPage) - 1
    {
      currentPage := currentPage - 1;
    }

    /** The mounted page invokes one of the callbacks it was given. */
    method Invoke(c: Callback)
      requires Enabled(currentPage, c)
      modifies this
      ensures currentPage == Step(old(currentPage), c)
      ensures 1 <= currentPage <= 9
      ensures |Rendered(currentPage)| == 1
    {
      match c {
        case Continue => HandleNext();
        case Previous => HandlePrevious();
      }
      RenderedExactlyOne(currentPage);
    }
  }
}
