/**
 * The memory gallery of src/Components/Memory.jsx: two cards of photos, an
 * optional selected card and a photo index that wraps around in both
 * directions.
 */
module Memory {
  import opened Wrappers

  /** A gallery entry: a bare image, or an object with `src` and `name`. */
  datatype Photo = Plain(url: string) | Named(src: string, name: string)

  /** An entry of the `cards` table (colour and subtitle are presentation only). */
  datatype Card = Card(id: int, title: string, photos: seq<Photo>, showNames: bool)

  /** The `cards` table; image imports are kept as their asset paths. */
  const Cards: seq<Card> := [
    Card(1, "Some Amazing Memories \U{1F4F8}", [
      Plain("Maraga/photo2.jpeg"),
      Plain("Maraga/photo3.jpeg"),
      Plain("Maraga/photo4.jpeg"),
      Plain("Maraga/photo5.jpeg"),
      Plain("Maraga/photo6.jpeg"),
      Plain("Maraga/photo7.jpeg"),
      Plain("Maraga/photo8.jpeg"),
      Plain("Maraga/photo9.jpeg"),
      Plain("Maraga/photo10.jpeg")
    ], false),
    Card(2, "In Attendance ", [
      Named("Inattendance/photo11.jpeg", "Ken"),
      Named("Inattendance/photo12.jpeg", "Ken"),
      Named("Inattendance/photo13.jpeg", "Victoria"),
      Named("Inattendance/photo14.jpeg", "Dr. Sam"),
      Named("Inattendance/photo15.jpeg", "Jorel"),
      Named("Inattendance/photo16.jpeg", "Joe"),
      Named("Inattendance/photo17.jpeg", "Mark"),
      Named("Inattendance/photo18.jpeg", "Kelsey"),
      Named("Inattendance/photo19.jpeg", "Kelsey"),
      Named("Inattendance/photo20.jpeg", "Antwin"),
      Named("Inattendance/photo21.jpeg", "Danny"),
      Named("Inattendance/photo22.jpeg", "Ethan"),
      Named("Inattendance/photo23.jpeg", "Dancun"),
      Named("Inattendance/photo24.jpeg", "Kyalo"),
      Named("Inattendance/photo25.jpeg", "Achilla"),
      Named("Inattendance/photo26.jpeg", "Person 16")
    ], true)
  ]

  /** Nine bare photos in the first card, sixteen named ones in the second. */
  lemma CardTable()
    ensures |Cards| == 2 && Cards[0].id == 1 && Cards[1].id == 2
    ensures |Cards[0].photos| == 9 && |Cards[1].photos| == 16
    ensures forall k :: 0 <= k < 9 ==> Cards[0].photos[k].Plain?
    ensures forall k :: 0 <= k < 16 ==> Cards[1].photos[k].Named?
    ensures !Cards[0].showNames && Cards[1].showNames
  {
  }

  /** `cards.find((c) => c.id === id)`: the first card with that id. */
  function Find(cards: seq<Card>, id: Option<int>): (r: Option<Card>)
    ensures r.Some? ==> r.value in cards && id == Some(r.value.id)
    ensures r.None? ==> forall c :: c in cards ==> id != Some(c.id)
  {
    if cards == [] then None
    else if id == Some(cards[0].id) then Some(cards[0])
    else Find(cards[1..], id)
  }

  /** `(prev + 1) % card.photos.length`; `prev` is never negative, so JavaScript's `%` is Dafny's. */
  function NextIndex(i: int, n: int): (j: int)
    requires 0 <= i < n
    ensures 0 <= j < n
    ensures j == if i == n - 1 then 0 else i + 1
  {
    (i + 1) % n
  }

  /** `prev === 0 ? card.photos.length - 1 : prev - 1`. */
  function PrevIndex(i: int, n: int): (j: int)
    requires 0 <= i < n
    ensures 0 <= j < n
  {
    if i == 0 then n - 1 else i - 1
  }

  /** Next and previous undo each other. */
  lemma NextPrevInverse(i: int, n: int)
    requires 0 <= i < n
    ensures PrevIndex(NextIndex(i, n), n) == i
    ensures NextIndex(PrevIndex(i, n), n) == i
  {
  }

  /** `k` presses of Next from index `i`. */
  function NextTimes(i: int, n: int, k: nat): (j: int)
    requires 0 <= i < n
    ensures 0 <= j < n
  {
    if k == 0 then i else NextIndex(NextTimes(i, n, k - 1), n)
  }

  /** Up to a full round, pressing Next `k` times moves `k` places round the cycle. */
  lemma {:induction false} NextTimesIsRotation(i: int, n: int, k: nat)
    requires 0 <= i < n && k <= n
    ensures NextTimes(i, n, k) == if i + k < n then i + k else i + k - n
  {
    if k > 0 {
      NextTimesIsRotation(i, n, k - 1);
    }
  }

  /** A full round of Next presses comes back to the starting photo. */
  lemma FullRoundReturns(i: int, n: int)
    requires 0 <= i < n
    ensures NextTimes(i, n, n) == i
  {
    NextTimesIsRotation(i, n, n);
  }

  /** `getPhotoSrc`: the `src` of an object entry, otherwise the entry itself. */
  function GetPhotoSrc(photo: Option<Photo>): (src: Option<string>)
    ensures photo.None? <==> src.None?
  {
    match photo
    case None => None
    case Some(Plain(url)) => Some(url)
    case Some(Named(s, _)) => Some(s)
  }

  /** `getPhotoName`: the `name` of an object entry, otherwise `null`. */
  function GetPhotoName(photo: Option<Photo>): (name: Option<string>)
    ensures name.Some? <==> photo.Some? && photo.value.Named?
  {
    match photo
    case Some(Named(_, n)) => Some(n)
    case _ => None
  }

  /** Between them the two helpers keep everything an entry holds. */
  lemma PhotoHelpersRecoverEntry(photo: Photo)
    ensures GetPhotoSrc(Some(photo)).Some?
    ensures photo == if GetPhotoName(Some(photo)).Some?
                     then Named(GetPhotoSrc(Some(photo)).value, GetPhotoName(Some(photo)).value)
                     else Plain(GetPhotoSrc(Some(photo)).value)
  {
  }

  /**
   * The gallery state: `selectedCard` and `currentPhotoIndex`, and the card
   * whose gallery view is still mounted while its exit animation runs.
   * `AnimatePresence mode="wait"` keeps the closed gallery on screen, with
   * the handlers of its last render, before the cards view comes back.
   */
  class Gallery {
    var selectedCard: Option<int>
    var currentPhotoIndex: int
    /** The `selectedCard` the exiting gallery view was rendered with. */
    var exitingCard: Option<int>

    /**
     * With a card open the index is one of its photos. With none open the
     * index is not negative, and while a closed gallery is still exiting it
     * is one of that gallery's photos.
     */
    ghost predicate Valid()
      reads this
    {
      match Find(Cards, selectedCard)
      case Some(card) => 0 <= currentPhotoIndex < |card.photos|
      case None =>
        && 0 <= currentPhotoIndex
        && (Find(Cards, exitingCard).Some? ==> currentPhotoIndex < |Find(Cards, exitingCard).value.photos|)
    }

    constructor ()
      ensures Valid()
      ensures selectedCard == None && currentPhotoIndex == 0 && exitingCard == None
    {
      selectedCard, currentPhotoIndex, exitingCard := None, 0, None;
    }

    /**
     * `handleCardClick`. Under `mode="wait"` the cards view, and with it this
     * handler, mounts only once an exiting gallery has gone.
     */
    method HandleCardClick(cardId: int)
      requires Valid() && exitingCard == None
      modifies this
      ensures Valid()
      ensures selectedCard == Some(cardId) && currentPhotoIndex == 0 && exitingCard == None
    {
      selectedCard := Some(cardId);
      currentPhotoIndex := 0;
    }

    /** `handleCloseGallery`: the gallery of the open card starts its exit. */
    method HandleCloseGallery()
      requires Valid()
      modifies this
      ensures Valid()
      ensures selectedCard == None && currentPhotoIndex == 0
      ensures exitingCard == if old(selectedCard).Some? then old(selectedCard) else old(exitingCard)
      ensures old(selectedCard).Some? ==> !CardsViewShown()
    {
      if selectedCard.Some? {
        exitingCard := selectedCard;
      }
      selectedCard := None;
      currentPhotoIndex := 0;
    }

    /** The exit animation of the closed gallery ends and the view unmounts. */
    method ExitAnimationEnds()
      requires Valid() && exitingCard.Some?
      modifies this
      ensures Valid()
      ensures selectedCard == old(selectedCard) && currentPhotoIndex == old(currentPhotoIndex)
      ensures exitingCard == None
      ensures selectedCard == None ==> CardsViewShown()
    {
      exitingCard := None;
    }

    /** `handleNextPhoto`: wraps forward; does nothing with no card open. */
    method HandleNextPhoto()
      requires Valid()
      modifies this
      ensures Valid()
      ensures selectedCard == old(selectedCard) && exitingCard == old(exitingCard)
      ensures currentPhotoIndex == match Find(Cards, selectedCard)
        case Some(card) => NextIndex(old(currentPhotoIndex), |card.photos|)
        case None => old(currentPhotoIndex)
    {
      var card := Find(Cards, selectedCard);
      if card.Some? {
        currentPhotoIndex := NextIndex(currentPhotoIndex, |card.value.photos|);
      }
    }

    /** `handlePrevPhoto`: wraps backward; does nothing with no card open. */
    method HandlePrevPhoto()
      requires Valid()
      modifies this
      ensures Valid()
      ensures selectedCard == old(selectedCard) && exitingCard == old(exitingCard)
      ensures currentPhotoIndex == match Find(Cards, selectedCard)
        case Some(card) => PrevIndex(old(currentPhotoIndex), |card.photos|)
        case None => old(currentPhotoIndex)
    {
      var card := Find(Cards, selectedCard);
      if card.Some? {
        currentPhotoIndex := PrevIndex(currentPhotoIndex, |card.value.photos|);
      }
    }

    /** A thumbnail click: `setCurrentPhotoIndex(index)` for one of the open card's photos. */
    method SelectThumbnail(index: int)
      requires Valid()
      requires Find(Cards, selectedCard).Some? && 0 <= index < |Find(Cards, selectedCard).value.photos|
      modifies this
      ensures Valid()
      ensures selectedCard == old(selectedCard) && exitingCard == old(exitingCard) && currentPhotoIndex == index
    {
      currentPhotoIndex := index;
    }

    /**
     * ▶ on the exiting gallery: its `handleNextPhoto` finds the card of the
     * stale `selectedCard`, and moves the index although no card is open.
     */
    method StaleNextPhoto()
      requires Valid() && selectedCard == None && Find(Cards, exitingCard).Some?
      modifies this
      ensures Valid()
      ensures selectedCard == None && exitingCard == old(exitingCard)
      ensures currentPhotoIndex == NextIndex(old(currentPhotoIndex), |Find(Cards, exitingCard).value.photos|)
    {
      var card := Find(Cards, exitingCard);
      currentPhotoIndex := NextIndex(currentPhotoIndex, |card.value.photos|);
    }

    /** ◀ on the exiting gallery, through the stale `selectedCard`. */
    method StalePrevPhoto()
      requires Valid() && selectedCard == None && Find(Cards, exitingCard).Some?
      modifies this
      ensures Valid()
      ensures selectedCard == None && exitingCard == old(exitingCard)
      ensures currentPhotoIndex == PrevIndex(old(currentPhotoIndex), |Find(Cards, exitingCard).value.photos|)
    {
      var card := Find(Cards, exitingCard);
      currentPhotoIndex := PrevIndex(currentPhotoIndex, |card.value.photos|);
    }

    /** A thumbnail of the exiting gallery: `setCurrentPhotoIndex(index)`. */
    method StaleSelectThumbnail(index: int)
      requires Valid() && selectedCard == None && Find(Cards, exitingCard).Some?
      requires 0 <= index < |Find(Cards, exitingCard).value.photos|
      modifies this
      ensures Valid()
      ensures selectedCard == None && exitingCard == old(exitingCard) && currentPhotoIndex == index
    {
      currentPhotoIndex := index;
    }

    /**
     * The cards view, with its card clicks and its Previous and Continue
     * buttons, is on screen: no card is selected and no gallery is exiting.
     */
    predicate CardsViewShown()
      reads this
    {
      selectedCard == None && exitingCard == None
    }

    /** `selectedCardData?.photos[currentPhotoIndex]`. */
    function CurrentPhoto(): (p: Option<Photo>)
      reads this
      requires Valid()
      ensures p.Some? <==> Find(Cards, selectedCard).Some?
    {
      match Find(Cards, selectedCard)
      case Some(card) => Some(card.photos[currentPhotoIndex])
      case None => None
    }
  }

  /**
   * The two views of `AnimatePresence mode="wait"` never share the screen:
   * while the cards view, with Previous and Continue, is shown there is no
   * photo, and a selected card or an exiting gallery hides it.
   */
  lemma ViewsAreExclusive(g: Gallery)
    requires g.Valid()
    ensures g.CardsViewShown() ==> g.CurrentPhoto() == None
    ensures Find(Cards, g.selectedCard).Some? ==> !g.CardsViewShown()
    ensures g.CurrentPhoto().Some? ==> !g.CardsViewShown()
  {
  }

  /**
   * Closing the first card and pressing ▶ before its gallery has gone leaves
   * no card selected with the index at 1; opening a card resets it.
   */
  method StaleArrowAfterClose() returns (selected: Option<int>, index: int, reopened: int)
    ensures selected == None && index == 1
    ensures reopened == 0
  {
    var g := new Gallery();
    g.HandleCardClick(1);
    g.HandleCloseGallery();
    CardTable();
    g.StaleNextPhoto();
    selected, index := g.selectedCard, g.currentPhotoIndex;
    g.ExitAnimationEnds();
    g.HandleCardClick(2);
    reopened := g.currentPhotoIndex;
  }
}
