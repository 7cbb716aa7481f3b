/**
 * The hidden-object hunt of src/Components/Hidden.jsx: a random spot inside
 * an 8% margin, a click classified by its pixel distance from the spot, a
 * sticky `found` flag and an attempt counter.
 */
module Hidden {
  import opened Wrappers

  /** `ITEM_EMOJIS`. */
  const ItemEmojis: seq<string> := ["\U{1F9C1}", "\U{2B50}", "\U{1F388}", "\U{1F370}", "\U{1F381}", "\U{1F31F}"]

  /** The placement margin, in percent of the scene. */
  const Margin: int := 8

  /** `Math.floor(Math.random() * (100 - margin * 2)) + margin`, for a draw `r` of `Math.random()`. */
  function PlaceCoordinate(r: real): (x: int)
    requires 0.0 <= r < 1.0
    ensures Margin <= x <= 100 - Margin - 1
  {
    (r * (100 - Margin * 2) as real).Floor + Margin
  }

  /** Every percentage in [8, 91] is produced by some draw. */
  lemma PlaceCoordinateCovers(x: int)
    requires Margin <= x <= 100 - Margin - 1
    ensures PlaceCoordinate((x - Margin) as real / 84.0) == x
  {
    var r := (x - Margin) as real / 84.0;
    assert r * 84.0 == (x - Margin) as real;
  }

  /** `Math.floor(Math.random() * ITEM_EMOJIS.length)`. */
  function PickItem(r: real): (k: int)
    requires 0.0 <= r < 1.0
    ensures 0 <= k < |ItemEmojis|
  {
    (r * |ItemEmojis| as real).Floor
  }

  /**
   * The squared pixel distance `handleSceneClick` takes the root of: the
   * click is converted to percent of the scene's box, its offset to the
   * hidden spot is scaled back to pixels by the box's width and height.
   */
  function SquaredDistance(clickX: real, clickY: real, width: real, height: real, hx: int, hy: int): (d2: real)
    requires width > 0.0 && height > 0.0
    ensures d2 >= 0.0
  {
    var pctX := clickX / width * 100.0;
    var pctY := clickY / height * 100.0;
    var dxPx := (pctX - hx as real) / 100.0 * width;
    var dyPx := (pctY - hy as real) / 100.0 * height;
    SquareNonNegative(dxPx);
    SquareNonNegative(dyPx);
    dxPx * dxPx + dyPx * dyPx
  }

  lemma SquareNonNegative(x: real)
    ensures x * x >= 0.0
  {
    if x < 0.0 {
      assert x * x == (-x) * (-x);
    }
  }

  /** A click exactly on the hidden spot's pixel is at distance zero. */
  lemma ClickOnSpotIsAtZero(width: real, height: real, hx: int, hy: int)
    requires width > 0.0 && height > 0.0
    ensures SquaredDistance(hx as real / 100.0 * width, hy as real / 100.0 * height, width, height, hx, hy) == 0.0
  {
    var cx := hx as real / 100.0 * width;
    assert cx / width == hx as real / 100.0;
    var cy := hy as real / 100.0 * height;
    assert cy / height == hy as real / 100.0;
  }

  /** `Math.max(28, rect.width * 0.08)`. */
  function Threshold(width: real): (t: real)
    ensures t >= 28.0 && t >= width * 0.08
    ensures t == 28.0 || t == width * 0.08
  {
    if 28.0 >= width * 0.08 then 28.0 else width * 0.08
  }

  /** The distance bands of the feedback. */
  datatype Band = Found | VeryClose | Close | Far

  /** The `if / else if` chain on the distance itself, as the source writes it. */
  function BandOfDistance(dist: real, t: real): Band
  {
    if dist <= t then Found
    else if dist <= t * 2.0 then VeryClose
    else if dist <= t * 4.0 then Close
    else Far
  }

  /** The same chain on squared distances, which needs no square root. */
  function BandOfSquare(d2: real, t: real): Band
  {
    if d2 <= t * t then Found
    else if d2 <= 4.0 * t * t then VeryClose
    else if d2 <= 16.0 * t * t then Close
    else Far
  }

  lemma ProductPositive(x: real, y: real)
    requires x > 0.0 && y > 0.0
    ensures x * y > 0.0
  {
  }

  /** For non-negative numbers, comparing squares is comparing the numbers. */
  lemma SquareComparison(a: real, b: real)
    requires a >= 0.0 && b >= 0.0
    ensures a <= b <==> a * a <= b * b
  {
    var ab := a * b;
    if a <= b {
      assert a * a <= ab by {
        assert ab - a * a == a * (b - a);
      }
      assert ab <= b * b by {
        assert b * b - ab == b * (b - a);
      }
    } else {
      assert b * b <= ab by {
        assert ab - b * b == b * (a - b);
      }
      assert ab < a * a by {
        ProductPositive(a, a - b);
        assert a * a - ab == a * (a - b);
      }
      assert b * b < a * a;
    }
  }

  /** Classifying by squared distance agrees with classifying by the distance. */
  lemma BandOfSquareAgrees(dist: real, t: real)
    requires dist >= 0.0 && t > 0.0
    ensures BandOfSquare(dist * dist, t) == BandOfDistance(dist, t)
  {
    SquareComparison(dist, t);
    SquareComparison(dist, t * 2.0);
    SquareComparison(dist, t * 4.0);
    assert (t * 2.0) * (t * 2.0) == 4.0 * t * t;
    assert (t * 4.0) * (t * 4.0) == 16.0 * t * t;
  }

  /** Rank of a band, nearest first. */
  function Rank(b: Band): nat
  {
    match b
    case Found => 0
    case VeryClose => 1
    case Close => 2
    case Far => 3
  }

  /** A farther click never gets a nearer band. */
  lemma BandsAreOrdered(d: real, e: real, t: real)
    requires 0.0 <= d <= e && t > 0.0
    ensures Rank(BandOfDistance(d, t)) <= Rank(BandOfDistance(e, t))
    ensures BandOfDistance(d, t) == Found <==> d <= t
    ensures BandOfDistance(d, t) == Far <==> d > 4.0 * t
  {
  }

  /** The spot itself is always found, whatever the scene's size. */
  lemma ClickOnSpotIsFound(width: real, height: real, hx: int, hy: int)
    requires width > 0.0 && height > 0.0
    ensures BandOfSquare(SquaredDistance(hx as real / 100.0 * width, hy as real / 100.0 * height, width, height, hx, hy),
                         Threshold(width)) == Found
  {
    ClickOnSpotIsAtZero(width, height, hx, hy);
  }

  /** The `message` state. */
  datatype Message = Prompt | FoundIt(item: string) | VeryCloseHint | CloseHint | NopeHint

  function Text(m: Message): string
  {
    match m
    case Prompt => "Click anywhere in the scene to search for the hidden item."
    case FoundIt(item) => "You found it! " + item + " \U{2014} great job \U{1F389}"
    case VeryCloseHint => "Very close! Try a nearby spot."
    case CloseHint => "Close! Keep searching around that area."
    case NopeHint => "Nope \U{2014} try a different spot."
  }

  function Feedback(b: Band, item: string): (m: Message)
    ensures m.FoundIt? <==> b == Found
  {
    match b
    case Found => FoundIt(item)
    case VeryClose => VeryCloseHint
    case Close => CloseHint
    case Far => NopeHint
  }

  class Hunt {
    var found: bool
    var message: Message
    var hiddenItem: string
    var hiddenX: int
    var hiddenY: int
    var attempts: nat
    /** The squared distance of the last click; the source keeps its rounded root. */
    var lastDistance: Option<real>

    ghost predicate Valid()
      reads this
    {
      && Margin <= hiddenX <= 100 - Margin - 1 && Margin <= hiddenY <= 100 - Margin - 1
      && hiddenItem in ItemEmojis
      && (found <==> message.FoundIt?)
      && (lastDistance.None? <==> attempts == 0)
      && (found ==> attempts > 0)
    }

    /** The `useState` initial values, before the mount effect places the item. */
    constructor ()
      ensures Valid()
      ensures !found && message == Prompt && hiddenItem == ItemEmojis[0]
      ensures hiddenX == 50 && hiddenY == 50 && attempts == 0 && lastDistance == None
    {
      found, message, hiddenItem := false, Prompt, ItemEmojis[0];
      hiddenX, hiddenY := 50, 50;
      attempts, lastDistance := 0, None;
    }

    /** `placeNewHiddenItem`, given the three `Math.random()` draws. */
    method PlaceNewHiddenItem(rx: real, ry: real, rItem: real)
      requires 0.0 <= rx < 1.0 && 0.0 <= ry < 1.0 && 0.0 <= rItem < 1.0
      modifies this
      ensures Valid()
      ensures hiddenX == PlaceCoordinate(rx) && hiddenY == PlaceCoordinate(ry)
      ensures hiddenItem == ItemEmojis[PickItem(rItem)]
      ensures !found && attempts == 0 && message == Prompt && lastDistance == None
    {
      hiddenX := PlaceCoordinate(rx);
      hiddenY := PlaceCoordinate(ry);
      hiddenItem := ItemEmojis[PickItem(rItem)];
      found := false;
      attempts := 0;
      message := Prompt;
      lastDistance := None;
    }

    /** `handleSceneClick`, for a click at (`clickX`, `clickY`) inside a `width` by `height` box. */
    method HandleSceneClick(clickX: real, clickY: real, width: real, height: real)
      requires Valid() && width > 0.0 && height > 0.0
      modifies this
      ensures Valid()
      ensures hiddenX == old(hiddenX) && hiddenY == old(hiddenY) && hiddenItem == old(hiddenItem)
      ensures old(found) ==>
        found && message == old(message) && attempts == old(attempts) && lastDistance == old(lastDistance)
      ensures !old(found) ==>
        var d2 := SquaredDistance(clickX, clickY, width, height, hiddenX, hiddenY);
        var band := BandOfSquare(d2, Threshold(width));
        && attempts == old(attempts) + 1
        && lastDistance == Some(d2)
        && message == Feedback(band, hiddenItem)
        && (found <==> band == Found)
    {
      if found {
        return;
      }
      var d2 := SquaredDistance(clickX, clickY, width, height, hiddenX, hiddenY);
      lastDistance := Some(d2);
      attempts := attempts + 1;
      var band := BandOfSquare(d2, Threshold(width));
      if band == Found {
        found := true;
      }
      message := Feedback(band, hiddenItem);
    }

    /** Continue is rendered once the item is found; New Spot until then. */
    predicate ContinueShown()
      reads this
    {
      found
    }

    predicate NewSpotShown()
      reads this
    {
      !found
    }
  }

  /**
   * Exactly one of Continue and New Spot is offered; Continue goes with the
   * found message and only after at least one measured click.
   */
  lemma ButtonsFollowTheSearch(h: Hunt)
    requires h.Valid()
    ensures h.ContinueShown() <==> !h.NewSpotShown()
    ensures h.ContinueShown() <==> h.message.FoundIt?
    ensures h.ContinueShown() ==> h.attempts > 0 && h.lastDistance.Some?
  {
  }
}
