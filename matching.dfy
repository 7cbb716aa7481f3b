/**
 * The matching-pairs game of src/Components/Matching.jsx: a 16-card deck made
 * of the eight icons twice, two optional selections, and the append-only
 * `matched` and `messages` lists.
 */
module Matching {
  import opened Wrappers

  /** An entry of the `icons` table. */
  datatype Icon = Icon(id: int, emoji: string, message: string)

  /** A dealt card: an icon with the `uid` drawn for it at setup. */
  datatype Card = Card(id: int, emoji: string, message: string, uid: real)

  /** The `icons` table, ids 1 to 8. */
  const Icons: seq<Icon> := [
    Icon(1, "\U{1F381}", "Gift matched! \U{1F381}"),
    Icon(2, "\U{1F36A}", "Cookies matched! \U{1F36A}"),
    Icon(3, "\U{2B50}", "Stars matched! \U{2B50}"),
    Icon(4, "\U{2764}\U{FE0F}", "Hearts matched! \U{2764}\U{FE0F}"),
    Icon(5, "\U{1F384}", "Christmas Tree matched! \U{1F384}"),
    Icon(6, "\U{1F514}", "Bells matched! \U{1F514}"),
    Icon(7, "\U{2603}\U{FE0F}", "Snowman matched! \U{2603}\U{FE0F}"),
    Icon(8, "\U{1F385}", "Santa matched! \U{1F385}")
  ]

  /** `[...icons, ...icons]`. */
  const Pairs: seq<Icon> := Icons + Icons

  /** The congratulation appended when pair `id` is matched. */
  function MessageOf(id: int): string
    requires 1 <= id <= 8
  {
    Icons[id - 1].message
  }

  /** `{ ...a, uid: Math.random() }`. */
  function Tag(icon: Icon, uid: real): (c: Card)
    ensures Strip(c) == icon && c.uid == uid
  {
    Card(icon.id, icon.emoji, icon.message, uid)
  }

  /** The icon a card was made from. */
  function Strip(c: Card): Icon
  {
    Icon(c.id, c.emoji, c.message)
  }

  /** A card whose fields come from the icon table entry for its id. */
  predicate WellFormed(c: Card)
  {
    1 <= c.id <= 8 && Strip(c) == Icons[c.id - 1]
  }

  /** Applies `f` to every element. */
  function MapSeq<T, U>(f: T -> U, s: seq<T>): (r: seq<U>)
    ensures |r| == |s|
    ensures forall k :: 0 <= k < |s| ==> r[k] == f(s[k])
  {
    seq(|s|, k requires 0 <= k < |s| => f(s[k]))
  }

  /** Exchanges two positions. */
  function Swap<T>(s: seq<T>, i: nat, j: nat): (r: seq<T>)
    requires i < |s| && j < |s|
    ensures |r| == |s| && r[i] == s[j] && r[j] == s[i]
    ensures forall k :: 0 <= k < |s| && k != i && k != j ==> r[k] == s[k]
  {
    s[i := s[j]][j := s[i]]
  }

  /** Exchanging the same two positions again restores the sequence. */
  lemma SwapTwiceRestores<T>(s: seq<T>, i: nat, j: nat)
    requires i < |s| && j < |s|
    ensures Swap(Swap(s, i, j), i, j) == s
  {
  }

  predicate SwapsWithin(swaps: seq<(nat, nat)>, n: nat)
  {
    forall k :: 0 <= k < |swaps| ==> swaps[k].0 < n && swaps[k].1 < n
  }

  /**
   * The `.sort(() => Math.random() - 0.5)` reordering. The comparator is
   * random, so the sort yields some permutation; every permutation is a
   * product of transpositions, so the model takes the random draws as a list
   * of index swaps applied in turn.
   */
  function Shuffle<T>(s: seq<T>, swaps: seq<(nat, nat)>): (r: seq<T>)
    requires SwapsWithin(swaps, |s|)
    ensures |r| == |s|
    decreases |swaps|
  {
    if swaps == [] then s else Shuffle(Swap(s, swaps[0].0, swaps[0].1), swaps[1..])
  }

  lemma SwapIsPermutation<T>(s: seq<T>, i: nat, j: nat)
    requires i < |s| && j < |s|
    ensures multiset(Swap(s, i, j)) == multiset(s)
  {
    if i != j {
      var t := s[i := s[j]];
      assert multiset(t) == multiset(s) - multiset{s[i]} + multiset{s[j]};
    }
  }

  /** Shuffling only reorders. */
  lemma {:induction false} ShuffleIsPermutation<T>(s: seq<T>, swaps: seq<(nat, nat)>)
    requires SwapsWithin(swaps, |s|)
    ensures multiset(Shuffle(s, swaps)) == multiset(s)
    decreases |swaps|
  {
    if swaps != [] {
      SwapIsPermutation(s, swaps[0].0, swaps[0].1);
      ShuffleIsPermutation(Swap(s, swaps[0].0, swaps[0].1), swaps[1..]);
    }
  }

  /** Shuffling commutes with a field projection. */
  lemma {:induction false} ShuffleCommutesWithMap<T, U>(f: T -> U, s: seq<T>, swaps: seq<(nat, nat)>)
    requires SwapsWithin(swaps, |s|)
    ensures MapSeq(f, Shuffle(s, swaps)) == Shuffle(MapSeq(f, s), swaps)
    decreases |swaps|
  {
    if swaps != [] {
      var (i, j) := swaps[0];
      assert MapSeq(f, Swap(s, i, j)) == Swap(MapSeq(f, s), i, j);
      ShuffleCommutesWithMap(f, Swap(s, i, j), swaps[1..]);
    }
  }

  /** The 16 cards before shuffling, each paired with its uid. */
  function Tagged(uids: seq<real>): (r: seq<Card>)
    requires |uids| == 16
    ensures |r| == 16
    ensures MapSeq(Strip, r) == Pairs
    ensures forall k :: 0 <= k < 16 ==> r[k].uid == uids[k]
  {
    seq(16, k requires 0 <= k < 16 => Tag(Pairs[k], uids[k]))
  }

  /** The deck dealt on mount, from the uid draws and the shuffle's swaps. */
  function Deck(uids: seq<real>, swaps: seq<(nat, nat)>): (deck: seq<Card>)
    requires |uids| == 16 && SwapsWithin(swaps, 16)
    ensures |deck| == 16
  {
    Shuffle(Tagged(uids), swaps)
  }

  function Ids(cards: seq<Card>): seq<int>
  {
    MapSeq((c: Card) => c.id, cards)
  }

  /** With uids removed, the deck is a permutation of `[...icons, ...icons]`. */
  lemma DeckIsPermutationOfPairs(uids: seq<real>, swaps: seq<(nat, nat)>)
    requires |uids| == 16 && SwapsWithin(swaps, 16)
    ensures multiset(MapSeq(Strip, Deck(uids, swaps))) == multiset(Pairs)
  {
    ShuffleCommutesWithMap(Strip, Tagged(uids), swaps);
    assert MapSeq(Strip, Tagged(uids)) == Pairs;
    ShuffleIsPermutation(MapSeq(Strip, Tagged(uids)), swaps);
  }

  /** In a duplicate-free list every element occurs once. */
  lemma {:induction false} DistinctMultiplicity(s: seq<int>, x: int)
    requires Distinct(s)
    ensures multiset(s)[x] == if x in s then 1 else 0
  {
    if s != [] {
      assert s == [s[0]] + s[1..];
      assert Distinct(s[1..]);
      DistinctMultiplicity(s[1..], x);
    }
  }

  /** Each pair id 1..8 occurs on exactly two of the 16 cards, and no other id occurs. */
  lemma DeckHoldsEachIdTwice(uids: seq<real>, swaps: seq<(nat, nat)>, id: int)
    requires |uids| == 16 && SwapsWithin(swaps, 16)
    ensures multiset(Ids(Deck(uids, swaps)))[id] == if 1 <= id <= 8 then 2 else 0
  {
    var f := (c: Card) => c.id;
    var ids := [1, 2, 3, 4, 5, 6, 7, 8];
    ShuffleCommutesWithMap(f, Tagged(uids), swaps);
    assert MapSeq(f, Tagged(uids)) == ids + ids;
    ShuffleIsPermutation(MapSeq(f, Tagged(uids)), swaps);
    DistinctMultiplicity(ids, id);
    assert multiset(ids + ids) == multiset(ids) + multiset(ids);
  }

  /** Every dealt card carries the emoji and message of its icon. */
  lemma DeckCardsWellFormed(uids: seq<real>, swaps: seq<(nat, nat)>, c: Card)
    requires |uids| == 16 && SwapsWithin(swaps, 16)
    requires c in Deck(uids, swaps)
    ensures WellFormed(c)
  {
    ShuffleIsPermutation(Tagged(uids), swaps);
    assert c in multiset(Tagged(uids));
    var k :| 0 <= k < 16 && Tagged(uids)[k] == c;
    TaggedWellFormed(uids, k);
  }

  lemma IconIds()
    ensures forall i :: 0 <= i < 8 ==> Icons[i].id == i + 1
  {
  }

  /** Position `k` of the doubled table holds icon `k mod 8`, tagged. */
  lemma TaggedWellFormed(uids: seq<real>, k: int)
    requires |uids| == 16 && 0 <= k < 16
    ensures WellFormed(Tagged(uids)[k])
  {
    var i := if k < 8 then k else k - 8;
    assert Pairs[k] == Icons[i];
    IconIds();
  }

  predicate Distinct(s: seq<int>)
  {
    forall i, j :: 0 <= i < j < |s| ==> s[i] != s[j]
  }

  /** A card is face-up while it is one of the selections or its pair has been matched. */
  predicate IsFlipped(c: Card, first: Option<Card>, second: Option<Card>, matched: seq<int>)
  {
    first == Some(c) || second == Some(c) || c.id in matched
  }

  lemma {:induction false} DistinctElementsCount(s: seq<int>)
    requires Distinct(s)
    ensures |set x | x in s| == |s|
  {
    if s != [] {
      assert Distinct(s[1..]);
      DistinctElementsCount(s[1..]);
      assert (set x | x in s) == {s[0]} + (set x | x in s[1..]);
    }
  }

  lemma SubsetSize<T>(a: set<T>, b: set<T>)
    requires a <= b
    ensures |a| <= |b|
  {
    assert b == a + (b - a);
  }

  /** A duplicate-free list of pair ids from 1..8 has at most eight entries. */
  lemma AtMostEightMatches(matched: seq<int>)
    requires Distinct(matched)
    requires forall k :: 0 <= k < |matched| ==> 1 <= matched[k] <= 8
    ensures |matched| <= 8
  {
    DistinctElementsCount(matched);
    var range := {1, 2, 3, 4, 5, 6, 7, 8};
    SubsetSize((set x | x in matched), range);
  }

  /** The component's state after mount. */
  class Game {
    var cards: seq<Card>
    var firstChoice: Option<Card>
    var secondChoice: Option<Card>
    var matched: seq<int>
    var messages: seq<string>
    /** The 800 ms clearing timeouts scheduled and not yet fired. */
    var pendingClears: nat

    ghost predicate Valid()
      reads this
    {
      && |cards| == 16
      && (forall c :: c in cards ==> WellFormed(c))
      && (firstChoice.None? ==> secondChoice.None?)
      && (firstChoice.Some? ==> firstChoice.value in cards)
      && (secondChoice.Some? ==> secondChoice.value in cards && pendingClears > 0)
      && Distinct(matched)
      && |messages| == |matched|
      && (forall k :: 0 <= k < |matched| ==> 1 <= matched[k] <= 8 && messages[k] == MessageOf(matched[k]))
    }

    /** Mount: the setup effect deals the shuffled deck; nothing is selected or matched. */
    constructor (uids: seq<real>, swaps: seq<(nat, nat)>)
      requires |uids| == 16 && SwapsWithin(swaps, 16)
      ensures Valid()
      ensures cards == Deck(uids, swaps)
      ensures firstChoice == None && secondChoice == None
      ensures matched == [] && messages == [] && pendingClears == 0
    {
      cards := Deck(uids, swaps);
      firstChoice, secondChoice := None, None;
      matched, messages := [], [];
      pendingClears := 0;
      new;
      forall c | c in cards
        ensures WellFormed(c)
      {
        DeckCardsWellFormed(uids, swaps, c);
      }
    }

    /**
     * A click on a rendered card: the `!isFlipped(card) && handleClick(card)`
     * guard, `handleClick`, and the match-check effect that runs after the
     * render once both selections are set.
     */
    method Click(card: Card)
      requires Valid() && card in cards
      modifies this
      ensures Valid()
      ensures cards == old(cards)
      ensures old(IsFlipped(card, firstChoice, secondChoice, matched)) ==>
        firstChoice == old(firstChoice) && secondChoice == old(secondChoice)
        && matched == old(matched) && messages == old(messages) && pendingClears == old(pendingClears)
      ensures !old(IsFlipped(card, firstChoice, secondChoice, matched)) && old(firstChoice).None? ==>
        firstChoice == Some(card) && secondChoice == old(secondChoice)
        && matched == old(matched) && messages == old(messages) && pendingClears == old(pendingClears)
      ensures (!old(IsFlipped(card, firstChoice, secondChoice, matched)) && old(firstChoice).Some?
               && old(firstChoice).value.uid != card.uid) ==>
        firstChoice == old(firstChoice) && secondChoice == Some(card)
        && pendingClears == old(pendingClears) + 1
        && (card.id == old(firstChoice).value.id ==>
              matched == old(matched) + [card.id] && messages == old(messages) + [MessageOf(card.id)])
        && (card.id != old(firstChoice).value.id ==>
              matched == old(matched) && messages == old(messages))
      ensures old(firstChoice).Some? && old(firstChoice).value.uid == card.uid ==>
        firstChoice == old(firstChoice) && secondChoice == old(secondChoice)
        && matched == old(matched) && messages == old(messages) && pendingClears == old(pendingClears)
    {
      if !IsFlipped(card, firstChoice, secondChoice, matched) {
        if firstChoice.None? {
          firstChoice := Some(card);
        } else if firstChoice.value.uid != card.uid {
          // While both selections are still set, this replaces `secondChoice`.
          secondChoice := Some(card);
          if firstChoice.value.id == card.id {
            matched := matched + [firstChoice.value.id];
            messages := messages + [firstChoice.value.message];
          }
          pendingClears := pendingClears + 1;
        }
      }
    }

    /** One of the 800 ms timeouts fires: both selections become null. */
    method ClearTimeout()
      requires Valid() && pendingClears > 0
      modifies this
      ensures Valid()
      ensures firstChoice == None && secondChoice == None
      ensures pendingClears == old(pendingClears) - 1
      ensures cards == old(cards) && matched == old(matched) && messages == old(messages)
    {
      firstChoice, secondChoice := None, None;
      pendingClears := pendingClears - 1;
    }
  }
}
