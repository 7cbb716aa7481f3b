# Birthday present: a Dafny model

This project models the interactive core of a single-page React birthday
present. The app shows nine pages, one after the other:

1. warm welcome
2. welcome
3. scratch-off "mystery" card
4. door riddle
5. memory gallery
6. emoji matching game
7. hidden-item hunt
8. candle
9. letter

`App.jsx` keeps the page number. It hands the first page `onContinue`
only, and pages 2 to 9 both `onContinue` and `onPrevious`. The games decide
when those callbacks are reachable.

The model takes the source's own form, one Dafny module per component:

* **App** (`app.dfy`): the page number as a `Session` class. The dispatch
  table is a function from page number to the set of rendered pages. It is
  proved that:
  * exactly one page renders for numbers 1 to 9 and none otherwise;
  * the first page only goes forward and the letter page calls nothing;
  * any run of enabled callbacks stays in 1..9;
  * once past the welcome pages, a run never returns to them;
  * eight Continues lead from the first page to the letter.
* **Mystery** (`mystery.dfy`): a `ScratchCard` class over the canvas's RGBA
  byte `array`. The stride-4 counting loop is a method proved against a
  recursive definition. Scratching is proved never to uncover fewer pixels.
  The integer completion test used is proved equal to the source's
  real-valued "percent > 60".
* **Riddle** (`riddle.dfy`): JavaScript `trim`, ASCII lower-casing and the
  `includes` test, with lemmas:
  * trimming is idempotent and ignores whitespace padding;
  * lower-casing commutes with trimming;
  * the verdict ignores case and padding.

  A `Gate` class holds the form state. Its pending timers and animation
  steps are explicit events that may fire in any order.
* **Memory** (`memory.dfy`): the card table, `cards.find`, and the
  wrap-around photo index. Next and previous are proved to be inverses, and
  a full round of Next presses to return to the start. The two photo
  helpers are proved to lose nothing of an entry. A closed gallery stays
  mounted during its exit animation, and its arrows and thumbnails still
  move the index through the card it was rendered with.
* **Matching** (`matching.dfy`):
  * the deck: the sixteen doubled icons, tagged and then shuffled by a
    sequence of swaps, proved to be a permutation holding every pair id
    exactly twice;
  * a `Game` class: the click guard, `handleClick` and the match-check
    effect in one step, plus the 800 ms clearing timeout.
* **Hidden** (`hidden.dfy`): spot placement within the margins, and the
  distance bands compared on squared distances. These are proved to agree
  with the bands on the source's distance, and are ordered. A `Hunt` class
  holds the page's state.
* **Candle** (`candle.dfy`): as written, the flame stays clickable through its
  exit animation, and a double click schedules two moves on, past the letter.
  The intended candle blows out once and schedules exactly one move to the
  letter (see Findings).

Math.random draws, pointer positions, element sizes and the order in which
timers fire are parameters of the operations.

## Model

| member | source | states |
|---|---|---|
| App.PageIndex | src/App.jsx:26-50 | every page has a number from 1 to 9 in the dispatch table |
| App.PageAt | src/App.jsx:26-50 | the page dispatched at 1..9, and the table is a bijection with PageIndex |
| App.PageAtIndex | src/App.jsx:26-50 | looking a page up by its own number gives the page back |
| App.Rendered | src/App.jsx:26-50 | the set of pages the nine `currentPage ===` guards mount for a page number (its properties are in App.RenderedExactlyOne) |
| App.RenderedExactlyOne | src/App.jsx:26-50 | a page renders iff its number equals currentPage; exactly one renders for 1..9, none otherwise |
| App.Invokes | src/App.jsx:26-50 | Previous is wired to Riddle, Memory, Matching and Hidden only; every page except Letter can call Continue |
| App.Step | src/App.jsx:19-22 | Continue adds one to the page, Previous subtracts one |
| App.Enabled | src/App.jsx:26-50 | a callback can be invoked exactly when the page number is in 1..9 and the mounted page was given and invokes it |
| App.EnabledMeansRenderedPageInvokes | src/App.jsx:26-50 | a callback is available iff a rendered page invokes it |
| App.FirstPageOnlyAdvances | src/App.jsx:26 | on page 1 only Continue is available, and it leads to Welcome |
| App.LetterIsTerminal | src/App.jsx:48-49 | page 9 renders the letter and no callback is available there |
| App.EnabledStepStaysInRange | src/App.jsx:19-50 | an available callback keeps the page in 1..9 |
| App.RunStaysInRange | src/App.jsx:19-50 | any run of available callbacks from 1..9 stays in 1..9 |
| App.RunPrefix | src/App.jsx:19-50 | a run can be split at any point and each part is still a run |
| App.NeverBackBeforeMystery | src/App.jsx:30-50 | from the mystery page on, no run gets back below page 3 |
| App.NeverBackBeforeMysteryAtAnyPoint | src/App.jsx:26-32 | at no point of such a run is WarmWelcome or Welcome rendered |
| App.Continues | src/App.jsx:19 | a run of n Continue presses |
| App.ContinueWalksForward | src/App.jsx:19-50 | n Continue presses are available and move forward n pages while they stay within 9 |
| App.EightContinuesReachLetter | src/App.jsx:16-49 | eight Continues from the initial page end on the letter |
| App.Session.constructor | src/App.jsx:16 | the app starts on page 1 |
| App.Session.HandleNext | src/App.jsx:19 | the page number goes up by one, unclamped |
| App.Session.HandlePrevious | src/App.jsx:22 | the page number goes down by one, unclamped |
| App.Session.Invoke | src/App.jsx:19-50 | an available callback steps the page, which stays in 1..9 with exactly one page rendered |
| Mystery.ClearedBelow | src/Components/Mystery.jsx:74-76 | the number of alpha bytes (indices 3, 7, 11, ...) below a bound that are 0 |
| Mystery.Cleared | src/Components/Mystery.jsx:74-76 | the number of alpha bytes of the whole buffer that are 0 |
| Mystery.ClearedStride | src/Components/Mystery.jsx:74-76 | one loop iteration adds one exactly when the alpha byte is 0 |
| Mystery.ClearedTail | src/Components/Mystery.jsx:74 | bytes after the last full pixel are not counted |
| Mystery.CountCleared | src/Components/Mystery.jsx:71-76 | the stride-4 loop from index 3 counts the pixels whose alpha is 0 |
| Mystery.ClearedBelowBound | src/Components/Mystery.jsx:74-76 | at most one count per four bytes |
| Mystery.ClearedAtMostPixels | src/Components/Mystery.jsx:71-77 | the count never exceeds width × height |
| Mystery.Completes | src/Components/Mystery.jsx:77-80 | the completion test on integers, cleared·100 > 60·w·h (shown equal to the percent test by Mystery.CompletesIsPercentTest) |
| Mystery.CompletesIsPercentTest | src/Components/Mystery.jsx:77-80 | the integer test cleared·100 > 60·w·h equals percent > 60 |
| Mystery.PercentInRange | src/Components/Mystery.jsx:77 | the percentage lies between 0 and 100 |
| Mystery.ClearPixels | src/Components/Mystery.jsx:61-68 | erasing keeps the buffer length |
| Mystery.ScratchNeverUncovers | src/Components/Mystery.jsx:61-68 | erasing never lowers the cleared-pixel count |
| Mystery.ScratchIdempotent | src/Components/Mystery.jsx:61-68 | erasing the same disk twice is erasing it once |
| Mystery.ScratchCard.constructor | src/Components/Mystery.jsx:34-43 | canvas of the given width and height 200, every byte 255, not completed, not drawing |
| Mystery.ScratchCard.Scratch | src/Components/Mystery.jsx:61-68 | the buffer becomes the erased buffer |
| Mystery.ScratchCard.CheckCompletion | src/Components/Mystery.jsx:70-89 | completed becomes true when the test passes and never goes back to false; when it becomes true, more than 60% of a non-empty canvas is clear |
| Mystery.ScratchCard.HandlePointerDown | src/Components/Mystery.jsx:91-95 | drawing starts and the disk is erased |
| Mystery.ScratchCard.HandlePointerMove | src/Components/Mystery.jsx:97-101 | the disk is erased only while drawing |
| Mystery.ScratchCard.HandlePointerUp | src/Components/Mystery.jsx:103-106 | drawing stops and completion is checked |
| Mystery.ScratchCard.Valid | src/Components/Mystery.jsx:34-37 | the image data holds four bytes for each of the width × height pixels; CheckCompletion relies on it for its percent clause |
| Mystery.ScratchCard.ContinueShown | src/Components/Mystery.jsx:175 | the buttons below the card are rendered exactly when completed is set |
| Riddle.IsWhitespace | src/Components/Riddle.jsx:83 | the characters `trim` removes: the JavaScript WhiteSpace and LineTerminator set |
| Riddle.TrimStart | src/Components/Riddle.jsx:83 | `trim` at the front: drops leading whitespace (characterised by Riddle.TrimStartRemovesPrefix) |
| Riddle.TrimEnd | src/Components/Riddle.jsx:83 | `trim` at the back: drops trailing whitespace (characterised by Riddle.TrimEndRemovesSuffix) |
| Riddle.Trim | src/Components/Riddle.jsx:83 | `String.prototype.trim` (characterised by Riddle.TrimShape) |
| Riddle.TrimStartRemovesPrefix | src/Components/Riddle.jsx:83 | trimming the start drops exactly the maximal whitespace prefix |
| Riddle.TrimEndRemovesSuffix | src/Components/Riddle.jsx:83 | trimming the end drops exactly the maximal whitespace suffix |
| Riddle.TrimShape | src/Components/Riddle.jsx:83 | trim is a slice with whitespace outside it and non-whitespace at both its ends |
| Riddle.TrimOfTrimmed | src/Components/Riddle.jsx:83 | a string without whitespace at its ends is its own trim |
| Riddle.TrimIdempotent | src/Components/Riddle.jsx:83 | trimming twice is trimming once |
| Riddle.TrimStartPadding | src/Components/Riddle.jsx:83 | leading whitespace does not change the start-trimmed string |
| Riddle.TrimEndPadding | src/Components/Riddle.jsx:83 | trailing whitespace does not change the end-trimmed string |
| Riddle.TrimIgnoresPadding | src/Components/Riddle.jsx:83 | whitespace padding on both sides does not change the trim |
| Riddle.Lower | src/Components/Riddle.jsx:83 | a lowered character is no capital letter and is whitespace iff the original was |
| Riddle.ToLower | src/Components/Riddle.jsx:83 | lower-casing works character by character and keeps the length |
| Riddle.TrimStartCommutesWithLower | src/Components/Riddle.jsx:83 | lower-casing and start-trimming commute |
| Riddle.TrimEndCommutesWithLower | src/Components/Riddle.jsx:83 | lower-casing and end-trimming commute |
| Riddle.Normalise | src/Components/Riddle.jsx:83 | the answer trimmed, then lower-cased (normalisation of a string answer) |
| Riddle.NormaliseIsTrimOfLower | src/Components/Riddle.jsx:83 | trim-then-lower equals lower-then-trim |
| Riddle.NormaliseIgnoresCase | src/Components/Riddle.jsx:83 | answers differing only in letter case normalise alike |
| Riddle.NormaliseIgnoresPadding | src/Components/Riddle.jsx:83 | whitespace padding does not change the normalised answer |
| Riddle.Includes | src/Components/Riddle.jsx:24 | `String.prototype.includes`: the word occurs at some position |
| Riddle.CorrectAnswer | src/Components/Riddle.jsx:23-24 | the normalised text includes both "deck" and "cards" |
| Riddle.IncludesInside | src/Components/Riddle.jsx:23-24 | a word placed anywhere inside a string is included |
| Riddle.AcceptedInEitherOrder | src/Components/Riddle.jsx:23-24 | any text containing "deck" and "cards" in either order is correct |
| Riddle.Classify | src/Components/Riddle.jsx:81-101 | empty iff the normalised answer is empty, accepted iff it contains both words, rejected otherwise |
| Riddle.ClassifyIgnoresCaseAndPadding | src/Components/Riddle.jsx:83-90 | the verdict does not depend on letter case or surrounding whitespace |
| Riddle.AcceptsPaddedCapitals | src/Components/Riddle.jsx:83-92 | " A Deck Of Cards " is accepted |
| Riddle.AcceptsSentence | src/Components/Riddle.jsx:23-24 | a sentence containing "deck of cards" is accepted |
| Riddle.RejectsCalendarAndBlank | src/Components/Riddle.jsx:84-99 | "a calendar" is rejected and a blank answer is the empty case |
| Riddle.Gate.constructor | src/Components/Riddle.jsx:14-17 | empty answer, idle, no message, no hub, nothing pending |
| Riddle.Gate.Type | src/Components/Riddle.jsx:137-139 | typing replaces the answer; only allowed while the input is shown and enabled |
| Riddle.Gate.SetStatus | src/Components/Riddle.jsx:42-43 | a change of status to correct schedules the door effect |
| Riddle.Gate.CheckAnswer | src/Components/Riddle.jsx:81-101 | each verdict sets its status and message and schedules its revert timer |
| Riddle.Gate.Fire | src/Components/Riddle.jsx:42-99 | each pending timer or animation step applies its update; the hub never disappears once shown |
| Riddle.Gate.Valid | src/Components/Riddle.jsx:42-99 | a wrong status has a revert timer pending, correct has the shake step pending, opening has the door-open step pending |
| Riddle.Gate.InputDisabled | src/Components/Riddle.jsx:139 | the input is disabled exactly while the status is opening or opened |
| Riddle.Gate.FormShown | src/Components/Riddle.jsx:134 | the answer form is rendered exactly while the hub is hidden |
| Riddle.Gate.ContinueShown | src/Components/Riddle.jsx:212 | Continue is rendered exactly once the hub is shown |
| Riddle.TransientStatusesHavePendingStep | src/Components/Riddle.jsx:42-99 | in any status but idle or opened a deferred step is pending; the form and Continue are never shown together |
| Memory.CardTable | src/Components/Memory.jsx:45-79 | card 1 has nine plain photos without names, card 2 sixteen named photos with names |
| Memory.Find | src/Components/Memory.jsx:105 | the result is a card with the sought id; no result means no card has it |
| Memory.NextIndex | src/Components/Memory.jsx:104-109 | the next index stays in range and wraps from the last photo to the first |
| Memory.PrevIndex | src/Components/Memory.jsx:111-118 | the previous index stays in range |
| Memory.NextPrevInverse | src/Components/Memory.jsx:104-118 | next and previous undo each other |
| Memory.NextTimes | src/Components/Memory.jsx:104-109 | repeated Next presses stay in range |
| Memory.NextTimesIsRotation | src/Components/Memory.jsx:104-109 | up to n presses, k presses move k places round the cycle |
| Memory.FullRoundReturns | src/Components/Memory.jsx:104-109 | as many presses as photos return to the starting photo |
| Memory.GetPhotoSrc | src/Components/Memory.jsx:123-125 | a source exists exactly when there is an entry |
| Memory.GetPhotoName | src/Components/Memory.jsx:128-130 | a name exists exactly for object entries |
| Memory.PhotoHelpersRecoverEntry | src/Components/Memory.jsx:123-130 | source and name together rebuild the entry |
| Memory.Gallery.constructor | src/Components/Memory.jsx:42-43 | no card selected, index 0 |
| Memory.Gallery.HandleCardClick | src/Components/Memory.jsx:94-97 | the card is selected and the index reset to 0; offered only once no gallery is exiting |
| Memory.Gallery.HandleCloseGallery | src/Components/Memory.jsx:99-102 | the selection is cleared and the index reset to 0; the closed card's gallery starts its exit, so the cards view is not yet shown |
| Memory.Gallery.HandleNextPhoto | src/Components/Memory.jsx:104-109 | the index advances with wrap-around when a card is found, otherwise nothing changes; selection and exiting gallery are untouched |
| Memory.Gallery.HandlePrevPhoto | src/Components/Memory.jsx:111-118 | the index goes back with wrap-around when a card is found, otherwise nothing changes; selection and exiting gallery are untouched |
| Memory.Gallery.SelectThumbnail | src/Components/Memory.jsx:294 | a thumbnail click shows that photo; selection and exiting gallery are untouched |
| Memory.Gallery.CurrentPhoto | src/Components/Memory.jsx:120 | `selectedCardData?.photos[currentPhotoIndex]`, as shown at line 243: a photo exists exactly when the selected id names a card |
| Memory.Gallery.Valid | src/Components/Memory.jsx:94-118 | with a card open the index names one of its photos; with none it is not negative, and while a closed gallery is exiting it names one of that gallery's photos |
| Memory.Gallery.ExitAnimationEnds | src/Components/Memory.jsx:142 | the exiting gallery unmounts; selection and index are unchanged, and with no card selected the cards view is shown |
| Memory.Gallery.CardsViewShown | src/Components/Memory.jsx:142-210 | the `!selectedCard` branch, with its Previous (193) and Continue (203), is on screen only once no gallery is exiting |
| Memory.ViewsAreExclusive | src/Components/Memory.jsx:142-143 | while the cards view is shown there is no photo, and a found selected card hides the cards view |
| Memory.Gallery.StaleNextPhoto | src/Components/Memory.jsx:262-266 | ▶ on the exiting gallery advances the index round the photos of the card it was rendered with, with no card selected |
| Memory.Gallery.StalePrevPhoto | src/Components/Memory.jsx:253-258 | ◀ on the exiting gallery moves the index back round that card's photos, with no card selected |
| Memory.Gallery.StaleSelectThumbnail | src/Components/Memory.jsx:289-294 | a thumbnail of the exiting gallery sets the index, with no card selected |
| Memory.StaleArrowAfterClose | src/Components/Memory.jsx:142-143 | closing card 1 and pressing ▶ before its gallery has gone leaves no card selected and the index at 1; opening a card resets it to 0 |
| Matching.Tag | src/Components/Matching.jsx:44 | tagging keeps the icon and adds the uid |
| Matching.MapSeq | src/Components/Matching.jsx:44 | mapping applies the function to every element |
| Matching.Swap | src/Components/Matching.jsx:45 | two positions exchange, the others stay |
| Matching.SwapTwiceRestores | src/Components/Matching.jsx:45 | a transposition undoes itself |
| Matching.Shuffle | src/Components/Matching.jsx:45 | shuffling keeps the length |
| Matching.SwapIsPermutation | src/Components/Matching.jsx:45 | a swap is a permutation |
| Matching.ShuffleIsPermutation | src/Components/Matching.jsx:45 | a shuffle is a permutation |
| Matching.ShuffleCommutesWithMap | src/Components/Matching.jsx:43-45 | mapping before or after shuffling gives the same deck |
| Matching.Tagged | src/Components/Matching.jsx:43-44 | stripping the uids gives back the doubled icons, and card k carries draw k |
| Matching.Deck | src/Components/Matching.jsx:43-46 | the dealt deck has sixteen cards |
| Matching.DeckIsPermutationOfPairs | src/Components/Matching.jsx:43-46 | without uids the deck is a permutation of the doubled icons |
| Matching.DeckHoldsEachIdTwice | src/Components/Matching.jsx:6-46 | every id 1..8 appears exactly twice in the deck, any other id never |
| Matching.TaggedWellFormed | src/Components/Matching.jsx:6-44 | every position of the doubled, tagged table holds its icon's emoji and message |
| Matching.DeckCardsWellFormed | src/Components/Matching.jsx:6-46 | every dealt card carries its icon's emoji and message |
| Matching.AtMostEightMatches | src/Components/Matching.jsx:52 | the matched list never exceeds eight pairs |
| Matching.IsFlipped | src/Components/Matching.jsx:70-76 | a card is face-up when it is one of the two selections or its id has been matched |
| Matching.Game.Valid | src/Components/Matching.jsx:49-76 | sixteen well-formed cards; a second selection only with a first and a clearing timeout pending; matched is duplicate-free, ids in 1..8, with one message per match |
| Matching.Game.constructor | src/Components/Matching.jsx:41-47 | the deck is dealt; nothing selected, matched or pending |
| Matching.Game.Click | src/Components/Matching.jsx:49-68 | a face-up card ignores the click; otherwise the first selection is set, or the second with a match recorded when ids agree and a clearing timeout scheduled; a second click on the first card does nothing |
| Matching.Game.ClearTimeout | src/Components/Matching.jsx:55-58 | both selections clear; matches and messages stay |
| Hidden.PlaceCoordinate | src/Components/Hidden.jsx:62-64 | a placed coordinate lies within the 8% margins, 8..91 |
| Hidden.PlaceCoordinateCovers | src/Components/Hidden.jsx:62-64 | every coordinate in 8..91 can be drawn |
| Hidden.PickItem | src/Components/Hidden.jsx:65 | the drawn item index is in the emoji table |
| Hidden.SquaredDistance | src/Components/Hidden.jsx:85-91 | the squared pixel distance is not negative |
| Hidden.ClickOnSpotIsAtZero | src/Components/Hidden.jsx:81-91 | a click exactly on the item is at distance 0 |
| Hidden.Threshold | src/Components/Hidden.jsx:96 | the threshold is the larger of 28 and 8% of the width |
| Hidden.SquareComparison | src/Components/Hidden.jsx:98-107 | for non-negatives, comparing squares is comparing values |
| Hidden.BandOfDistance | src/Components/Hidden.jsx:98-107 | the if/else chain: found within T, very close within 2T, close within 4T, nope beyond |
| Hidden.BandOfSquare | src/Components/Hidden.jsx:98-107 | the same chain on the squared distance against T², 4T² and 16T² |
| Hidden.BandOfSquareAgrees | src/Components/Hidden.jsx:98-107 | bands on the squared distance equal bands on the distance |
| Hidden.BandsAreOrdered | src/Components/Hidden.jsx:98-107 | a nearer click never gets a farther band; found iff within the threshold, far iff beyond four times it |
| Hidden.ClickOnSpotIsFound | src/Components/Hidden.jsx:81-99 | a click exactly on the item finds it |
| Hidden.Feedback | src/Components/Hidden.jsx:98-107 | the found message is given exactly in the found band |
| Hidden.Text | src/Components/Hidden.jsx:70-106 | the message strings the page shows |
| Hidden.Hunt.constructor | src/Components/Hidden.jsx:28-35 | the initial state: cupcake at 50,50, prompt, no attempts |
| Hidden.Hunt.PlaceNewHiddenItem | src/Components/Hidden.jsx:61-72 | a new spot and item are drawn and the search restarts |
| Hidden.Hunt.HandleSceneClick | src/Components/Hidden.jsx:75-108 | once found a click changes nothing; otherwise it counts an attempt, records the distance, gives the band's message and finds iff in the found band |
| Hidden.Hunt.Valid | src/Components/Hidden.jsx:28-108 | the item lies within the margins and is one of the six emojis; found iff the found message shows; a distance is recorded iff some click was measured; found only after a click |
| Hidden.Hunt.ContinueShown | src/Components/Hidden.jsx:234-257 | Continue is rendered exactly when found |
| Hidden.Hunt.NewSpotShown | src/Components/Hidden.jsx:234-246 | New Spot is rendered exactly while not found |
| Hidden.ButtonsFollowTheSearch | src/Components/Hidden.jsx:234-257 | exactly one of Continue and New Spot is rendered; Continue goes with the found message and a measured click |
| Candle.CakeAsWritten.Valid | src/Components/Candle.jsx:7-69 | while lit, the flame is mounted and nothing is scheduled |
| Candle.CakeAsWritten.constructor | src/Components/Candle.jsx:7 | the candle starts lit with the flame mounted and nothing scheduled |
| Candle.CakeAsWritten.ClickFlame | src/Components/Candle.jsx:25-30 | as written: a click on the mounted flame runs the lit render's handler, so every click schedules another timer |
| Candle.CakeAsWritten.ExitAnimationEnds | src/Components/Candle.jsx:61-69 | after the 0.3 s exit animation the flame unmounts |
| Candle.CakeAsWritten.TimerFires | src/Components/Candle.jsx:28-30 | a timeout calls onContinue |
| Candle.DoubleClickAsWritten | src/Components/Candle.jsx:25-69 | as written, a double click on the flame schedules two timers and handleNext takes the app from page 8 to page 10, where nothing renders |
| Candle.Cake.Valid | src/Components/Candle.jsx:25-32 | intended: while lit nothing is scheduled, once out exactly one timer was scheduled or has fired |
| Candle.Cake.constructor | src/Components/Candle.jsx:7 | the candle starts lit with nothing scheduled |
| Candle.Cake.HandleBlowOut | src/Components/Candle.jsx:25-32 | intended: with the current isLit tested, a lit candle goes out and schedules one move on and an unlit one changes nothing |
| Candle.Cake.TimerFires | src/Components/Candle.jsx:28-30 | the timeout calls onContinue once |
| Candle.AtMostOneContinue | src/Components/Candle.jsx:25-32 | intended: onContinue is called at most once, and only after the candle is out |

## Proof helpers

These lemmas state arithmetic or collection facts, not source behaviour; each serves the lemma named.

- `Mystery.ScaleKeepsOrder`: multiplying by a positive number keeps a comparison; serves `Mystery.CompletesIsPercentTest`.
- `Hidden.SquareNonNegative` and `Hidden.ProductPositive`: squares are non-negative and products of positives positive; serve `Hidden.SquaredDistance` and `Hidden.SquareComparison`.
- `Matching.DistinctMultiplicity`: in a duplicate-free list each value occurs at most once; serves `Matching.DeckHoldsEachIdTwice`.
- `Matching.DistinctElementsCount` and `Matching.SubsetSize`: a duplicate-free list has as many elements as values, and a subset is no larger; serve `Matching.AtMostEightMatches`.
- `Matching.IconIds`: the icon at position i has id i + 1; serves `Matching.TaggedWellFormed`.

## Left out

- Letter, Welcome and WarmWelcome are presentation only. Their callbacks appear in `App.Invokes`: WarmWelcome and Welcome offer Continue, Welcome's Previous is commented out, and Letter takes no callbacks.
- Animation (framer-motion), confetti and window-resize listeners are left out; they change no modelled state.
- Real time is not modelled. Timers and awaited animation steps are pending events that can fire in any order. Their durations (800, 1400, 500, 3000 ms) are not modelled.
- Math.random draws are parameters. `Matching.Shuffle` models the source's random-comparator sort as any sequence of swaps, which covers every reachable order. The sort's bias is not modelled.
- `Hidden.Hunt.HandleSceneClick`: stores the squared distance in `lastDistance`, not `Math.round` of its square root. IEEE floating point is modelled as exact reals.
- `Riddle.Lower` maps ASCII capitals only. JavaScript's full Unicode `toLowerCase` is not modelled.
- `Mystery.ScratchCard.Scratch` takes the set of pixels the disk erases. The canvas arc geometry and anti-aliasing are not modelled. The canvas width is given as a whole number.
- Matching cards are compared by value, not object identity. Uids are assumed distinct. `Math.random` collisions are not modelled.
- The `!sceneRef.current` guard in Hidden is not modelled: the scene element is taken to be mounted.
- Candle as written: the flame is the only child of `AnimatePresence`, which keeps it mounted with the click handler of its last lit render for the 0.3 s of its exit animation. A second click in that window passes the stale `if (isLit)` test and schedules a second timer, so `onContinue` runs twice and the app lands on page 10, where nothing renders. `Candle.CakeAsWritten` models this and `Candle.DoubleClickAsWritten` exhibits it. `Candle.Cake` models the intended behaviour, and `App.RunStaysInRange` covers only runs of callbacks a mounted page invokes. The exit animation's duration is not modelled: the window ends at an explicit `ExitAnimationEnds` event.
- `App.Enabled` says which callbacks a page can reach at all. Page-internal gating is in each page's own class: Mystery's `completed` (`Mystery.ScratchCard.ContinueShown`), the hub in Riddle, `found` in Hidden, and the cards view in Memory (`Memory.Gallery.CardsViewShown`). The App model does not combine them.
- The page number is not clamped by the source. `App.Session.HandleNext` and `App.Session.HandlePrevious` are unclamped. The range 1..9 is proved only for runs of available callbacks.
- The door animation's own duration is not modelled. A revert timer left from an earlier wrong answer can still set the status back to idle after the doors opened. The model allows this, as the source does.
- Photo image assets are modelled as their asset paths.
- `Memory.Gallery.Valid`: with no card selected the index is only bounded by the photos of a gallery still exiting. `AnimatePresence mode="wait"` (Memory.jsx:142) keeps the closed gallery (215-219) mounted with its last render's handlers, so ◀, ▶ (256, 264) and thumbnails (294) can move the index after the close. The exit's duration is not modelled; the window ends at `ExitAnimationEnds`. The cards view's own exit (Memory.jsx:149) is not modelled as a window: a card click mounts the gallery at once, so Previous and Continue pressed while the cards fade out are not modelled.

## Findings

| source | as written | input that shows it | evidently intended | confidence | as-written member | corrected member |
|---|---|---|---|---|---|---|
| src/Components/Candle.jsx:25-30 | `handleBlowOut` tests the `isLit` captured by the flame's last lit render, and `AnimatePresence` keeps that flame clickable for its 0.3 s exit animation | on page 8, click the flame twice within 0.3 s: two 3000 ms timers call `handleNext`, and the page becomes 10, where nothing renders | blowing out schedules exactly one move to the letter | not executed; read from the source text | Candle.DoubleClickAsWritten | Candle.AtMostOneContinue |
