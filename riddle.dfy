/**
 * The riddle gate of src/Components/Riddle.jsx: the answer is normalised
 * (trim, then lower-case), checked for the words "deck" and "cards", and a
 * status machine drives the door animation that finally shows the hub.
 */
module Riddle {

  /** The code points JavaScript's `trim` removes: WhiteSpace and LineTerminator. */
  predicate IsWhitespace(c: char)
  {
    c == '\t' || c == '\n' || c == '\U{000B}' || c == '\U{000C}' || c == '\r' || c == ' '
    || c == '\U{00A0}' || c == '\U{1680}' || ('\U{2000}' <= c <= '\U{200A}')
    || c == '\U{2028}' || c == '\U{2029}' || c == '\U{202F}' || c == '\U{205F}'
    || c == '\U{3000}' || c == '\U{FEFF}'
  }

  predicate AllWhitespace(s: string)
  {
    forall k :: 0 <= k < |s| ==> IsWhitespace(s[k])
  }

  /** Drops leading white space. */
  function TrimStart(s: string): string
  {
    if s != [] && IsWhitespace(s[0]) then TrimStart(s[1..]) else s
  }

  /** Drops trailing white space. */
  function TrimEnd(s: string): string
  {
    if s != [] && IsWhitespace(s[|s| - 1]) then TrimEnd(s[..|s| - 1]) else s
  }

  /** `String.prototype.trim`. */
  function Trim(s: string): string
  {
    TrimEnd(TrimStart(s))
  }

  /** `TrimStart` removes the longest white-space prefix `s[..n]`. */
  lemma {:induction false} TrimStartRemovesPrefix(s: string) returns (n: nat)
    ensures n <= |s| && TrimStart(s) == s[n..]
    ensures AllWhitespace(s[..n])
    ensures n == |s| || !IsWhitespace(s[n])
    decreases |s|
  {
    if s != [] && IsWhitespace(s[0]) {
      var m := TrimStartRemovesPrefix(s[1..]);
      n := m + 1;
      assert s[1..][m..] == s[n..];
      forall k | 0 <= k < n
        ensures IsWhitespace(s[..n][k])
      {
        if k > 0 {
          assert s[..n][k] == s[1..][..m][k - 1];
        }
      }
    } else {
      n := 0;
    }
  }

  /** `TrimEnd` removes the longest white-space suffix `s[m..]`. */
  lemma {:induction false} TrimEndRemovesSuffix(s: string) returns (m: nat)
    ensures m <= |s| && TrimEnd(s) == s[..m]
    ensures AllWhitespace(s[m..])
    ensures m == 0 || !IsWhitespace(s[m - 1])
    decreases |s|
  {
    if s != [] && IsWhitespace(s[|s| - 1]) {
      var init := s[..|s| - 1];
      m := TrimEndRemovesSuffix(init);
      assert init[..m] == s[..m];
      forall k | 0 <= k < |s| - m
        ensures IsWhitespace(s[m..][k])
      {
        if m + k < |s| - 1 {
          assert s[m..][k] == init[m..][k];
        }
      }
    } else {
      m := |s|;
    }
  }

  /** `trim` removes exactly a white-space prefix `s[..i]` and a white-space suffix `s[j..]`. */
  lemma TrimShape(s: string) returns (i: nat, j: nat)
    ensures i <= j <= |s| && Trim(s) == s[i..j]
    ensures AllWhitespace(s[..i]) && AllWhitespace(s[j..])
    ensures Trim(s) == [] || (!IsWhitespace(Trim(s)[0]) && !IsWhitespace(Trim(s)[|Trim(s)| - 1]))
  {
    i := TrimStartRemovesPrefix(s);
    var t := s[i..];
    var m := TrimEndRemovesSuffix(t);
    j := i + m;
    assert Trim(s) == t[..m] == s[i..j];
    assert s[j..] == t[m..];
    if m > 0 {
      assert Trim(s)[0] == s[i];
    }
  }

  /** Text without an outer white-space character is left unchanged by `trim`. */
  lemma TrimOfTrimmed(s: string)
    requires s == [] || (!IsWhitespace(s[0]) && !IsWhitespace(s[|s| - 1]))
    ensures Trim(s) == s
  {
  }

  lemma TrimIdempotent(s: string)
    ensures Trim(Trim(s)) == Trim(s)
  {
    var _, _ := TrimShape(s);
    TrimOfTrimmed(Trim(s));
  }

  lemma {:induction false} TrimStartPadding(p: string, s: string)
    requires AllWhitespace(p)
    ensures TrimStart(p + s) == TrimStart(s)
    decreases |p|
  {
    if p != [] {
      assert (p + s)[0] == p[0];
      assert IsWhitespace(p[0]);
      assert (p + s)[1..] == p[1..] + s;
      assert AllWhitespace(p[1..]) by {
        forall k | 0 <= k < |p[1..]|
          ensures IsWhitespace(p[1..][k])
        {
          assert p[1..][k] == p[k + 1];
        }
      }
      TrimStartPadding(p[1..], s);
    } else {
      assert p + s == s;
    }
  }

  lemma {:induction false} TrimEndPadding(s: string, q: string)
    requires AllWhitespace(q)
    ensures TrimEnd(s + q) == TrimEnd(s)
    decreases |q|
  {
    if q != [] {
      var init := q[..|q| - 1];
      assert (s + q)[|s + q| - 1] == q[|q| - 1];
      assert IsWhitespace(q[|q| - 1]);
      assert (s + q)[..|s + q| - 1] == s + init;
      assert AllWhitespace(init) by {
        forall k | 0 <= k < |init|
          ensures IsWhitespace(init[k])
        {
          assert init[k] == q[k];
        }
      }
      TrimEndPadding(s, init);
    } else {
      assert s + q == s;
    }
  }

  /** Surrounding white space never changes the trimmed text. */
  lemma TrimIgnoresPadding(p: string, s: string, q: string)
    requires AllWhitespace(p) && AllWhitespace(q)
    ensures Trim(p + s + q) == Trim(s)
  {
    assert p + s + q == p + (s + q);
    TrimStartPadding(p, s + q);
    var n := TrimStartRemovesPrefix(s);
    var t := s[n..];
    assert s + q == s[..n] + (t + q);
    TrimStartPadding(s[..n], t + q);
    if t == [] {
      assert t + q == q + [];
      TrimStartPadding(q, []);
    } else {
      assert (t + q)[0] == t[0];
      TrimEndPadding(t, q);
    }
  }

  /** `toLowerCase` on one character (ASCII letters; other code points are kept). */
  function Lower(c: char): (l: char)
    ensures IsWhitespace(l) <==> IsWhitespace(c)
    ensures !('A' <= l <= 'Z')
  {
    if 'A' <= c <= 'Z' then (c as int + 32) as char else c
  }

  function ToLower(s: string): (r: string)
    ensures |r| == |s|
    ensures forall k :: 0 <= k < |s| ==> r[k] == Lower(s[k])
  {
    seq(|s|, k requires 0 <= k < |s| => Lower(s[k]))
  }

  lemma {:induction false} TrimStartCommutesWithLower(s: string)
    ensures TrimStart(ToLower(s)) == ToLower(TrimStart(s))
    decreases |s|
  {
    if s != [] {
      assert ToLower(s)[1..] == ToLower(s[1..]);
      TrimStartCommutesWithLower(s[1..]);
    }
  }

  lemma {:induction false} TrimEndCommutesWithLower(s: string)
    ensures TrimEnd(ToLower(s)) == ToLower(TrimEnd(s))
    decreases |s|
  {
    if s != [] {
      assert ToLower(s)[..|s| - 1] == ToLower(s[..|s| - 1]);
      TrimEndCommutesWithLower(s[..|s| - 1]);
    }
  }

  /** `(answer || "").trim().toLowerCase()`. */
  function Normalise(answer: string): string
  {
    ToLower(Trim(answer))
  }

  /** Lower-casing first and trimming afterwards gives the same text. */
  lemma NormaliseIsTrimOfLower(answer: string)
    ensures Normalise(answer) == Trim(ToLower(answer))
  {
    TrimStartCommutesWithLower(answer);
    TrimEndCommutesWithLower(TrimStart(answer));
  }

  /** Two answers that differ only in letter case. */
  predicate SameUpToCase(s: string, t: string)
  {
    |s| == |t| && forall k :: 0 <= k < |s| ==> Lower(s[k]) == Lower(t[k])
  }

  /** Letter case never affects the normalised answer. */
  lemma NormaliseIgnoresCase(s: string, t: string)
    requires SameUpToCase(s, t)
    ensures Normalise(s) == Normalise(t)
  {
    NormaliseIsTrimOfLower(s);
    NormaliseIsTrimOfLower(t);
    assert ToLower(s) == ToLower(t);
  }

  /** Surrounding white space never affects the normalised answer. */
  lemma NormaliseIgnoresPadding(p: string, s: string, q: string)
    requires AllWhitespace(p) && AllWhitespace(q)
    ensures Normalise(p + s + q) == Normalise(s)
  {
    TrimIgnoresPadding(p, s, q);
  }

  /** `word` occurs in `s` starting at index `i`. */
  predicate IncludesAt(s: string, word: string, i: int)
  {
    0 <= i && i + |word| <= |s| && s[i..i + |word|] == word
  }

  /** `String.prototype.includes`. */
  predicate Includes(s: string, word: string)
  {
    exists i | 0 <= i <= |s| - |word| :: IncludesAt(s, word, i)
  }

  lemma IncludesInside(a: string, word: string, b: string)
    ensures Includes(a + word + b, word)
  {
    assert (a + word + b)[|a|..|a| + |word|] == word;
    assert IncludesAt(a + word + b, word, |a|);
  }

  /** `correctAnswer`. */
  predicate CorrectAnswer(ans: string)
  {
    Includes(ans, "deck") && Includes(ans, "cards")
  }

  /** Both words, in either order and with anything around them, are accepted. */
  lemma AcceptedInEitherOrder(a: string, b: string, c: string)
    ensures CorrectAnswer(a + "deck" + b + "cards" + c)
    ensures CorrectAnswer(a + "cards" + b + "deck" + c)
  {
    assert a + "deck" + b + "cards" + c == a + "deck" + (b + "cards" + c);
    assert a + "deck" + b + "cards" + c == (a + "deck" + b) + "cards" + c;
    IncludesInside(a, "deck", b + "cards" + c);
    IncludesInside(a + "deck" + b, "cards", c);
    assert a + "cards" + b + "deck" + c == a + "cards" + (b + "deck" + c);
    assert a + "cards" + b + "deck" + c == (a + "cards" + b) + "deck" + c;
    IncludesInside(a, "cards", b + "deck" + c);
    IncludesInside(a + "cards" + b, "deck", c);
  }

  /** What `checkAnswer` decides about the typed text. */
  datatype Verdict = EmptyAnswer | Accepted | Rejected

  function Classify(answer: string): (v: Verdict)
    ensures v == EmptyAnswer <==> Normalise(answer) == []
    ensures v == Accepted <==> CorrectAnswer(Normalise(answer))
    ensures v == Rejected <==> Normalise(answer) != [] && !CorrectAnswer(Normalise(answer))
  {
    var normalized := Normalise(answer);
    if normalized == [] then EmptyAnswer
    else if CorrectAnswer(normalized) then Accepted
    else Rejected
  }

  /** Neither case nor surrounding white space changes the verdict. */
  lemma ClassifyIgnoresCaseAndPadding(p: string, s: string, t: string, q: string)
    requires SameUpToCase(s, t)
    requires AllWhitespace(p) && AllWhitespace(q)
    ensures Classify(p + s + q) == Classify(t)
  {
    NormaliseIgnoresPadding(p, s, q);
    NormaliseIgnoresCase(s, t);
  }

  /** The intended answer, padded and in capitals, is accepted. */
  lemma AcceptsPaddedCapitals()
    ensures Classify(" A Deck Of Cards ") == Accepted
  {
    var x := "A Deck Of Cards";
    var s := "a deck of cards";
    assert " A Deck Of Cards " == " " + x + " ";
    TrimIgnoresPadding(" ", x, " ");
    TrimOfTrimmed(x);
    assert ToLower(x) == s by {
      forall k | 0 <= k < |x|
        ensures ToLower(x)[k] == s[k]
      {
      }
    }
    assert s == "a " + "deck" + " of " + "cards" + "";
    AcceptedInEitherOrder("a ", " of ", "");
  }

  /** A sentence that mentions both words is accepted. */
  lemma AcceptsSentence()
    ensures Classify("it has 13 hearts and is a deck of cards") == Accepted
  {
    var e := "it has 13 hearts and is a deck of cards";
    TrimOfTrimmed(e);
    assert ToLower(e) == e;
    assert e == "it has 13 hearts and is a " + "deck" + " of " + "cards" + "";
    AcceptedInEitherOrder("it has 13 hearts and is a ", " of ", "");
  }

  /** An answer without "deck" is rejected, and blank input counts as empty. */
  lemma RejectsCalendarAndBlank()
    ensures Classify("a calendar") == Rejected
    ensures Classify("   ") == EmptyAnswer
  {
    var w := "a calendar";
    TrimOfTrimmed(w);
    assert ToLower(w) == w;
    forall i | 0 <= i <= 6
      ensures !IncludesAt(w, "deck", i)
    {
      assert w[i] != 'd';
    }
    assert TrimStart("   ") == [];
  }

  /** The `status` values. */
  datatype Status = Idle | Wrong | Correct | Opening | Opened

  /**
   * Deferred work still to run: the two 1400 ms reverts of `checkAnswer`, and
   * the two points where the door animation of the effect resumes.
   */
  datatype Pending =
    | RevertStatus            // setTimeout(() => setStatus("idle"), 1400)
    | RevertStatusAndMessage  // setTimeout(() => { setStatus("idle"); setMessage("") }, 1400)
    | ShakeDone               // shaking finished: setStatus("opening"), then the pause and the opening
    | DoorsOpened             // doors open: setStatus("opened"); setShowHub(true)

  const PromptMessage: string := "Type your answer and press Enter."
  const CorrectMessage: string := "Correct! Opening the door..."
  const WrongMessage: string := "Not quite \U{2014} try again!"

  class Gate {
    var answer: string
    var status: Status
    var message: string
    var showHub: bool
    /** Deferred callbacks, in scheduling order; any of them may run next. */
    var pending: seq<Pending>

    /**
     * Each transient status still has the deferred step that moves it on:
     * a wrong verdict has a revert pending, and the door animation has its
     * next step pending while it runs.
     */
    ghost predicate Valid()
      reads this
    {
      && (status == Wrong ==> RevertStatus in pending || RevertStatusAndMessage in pending)
      && (status == Correct ==> ShakeDone in pending)
      && (status == Opening ==> DoorsOpened in pending)
    }

    constructor ()
      ensures Valid()
      ensures answer == "" && status == Idle && message == "" && !showHub && pending == []
    {
      answer, status, message, showHub, pending := "", Idle, "", false, [];
    }

    /** The text input is disabled exactly while the doors open or are open. */
    predicate InputDisabled()
      reads this
    {
      status == Opening || status == Opened
    }

    /** The answer form is rendered while the hub is hidden; Continue only once it is shown. */
    predicate FormShown()
      reads this
    {
      !showHub
    }

    predicate ContinueShown()
      reads this
    {
      showHub
    }

    /** `onChange` of the enabled input. */
    method Type(text: string)
      requires Valid() && FormShown() && !InputDisabled()
      modifies this
      ensures Valid()
      ensures answer == text
      ensures status == old(status) && message == old(message) && showHub == old(showHub) && pending == old(pending)
    {
      answer := text;
    }

    /**
     * `setStatus`: when the status changes to "correct" the door effect
     * starts a new animation run.
     */
    method SetStatus(s: Status)
      modifies this
      ensures status == s
      ensures pending == old(pending) + (if s == Correct && old(status) != Correct then [ShakeDone] else [])
      ensures answer == old(answer) && message == old(message) && showHub == old(showHub)
    {
      if s == Correct && status != Correct {
        pending := pending + [ShakeDone];
      }
      status := s;
    }

    /**
     * `checkAnswer`, on submitting the form. The Submit button itself is never
     * disabled, so this can also happen while the doors are opening.
     */
    method CheckAnswer()
      requires Valid() && FormShown()
      modifies this
      ensures Valid()
      ensures answer == old(answer) && showHub == old(showHub)
      ensures Classify(answer) == EmptyAnswer ==>
        status == Wrong && message == PromptMessage && pending == old(pending) + [RevertStatus]
      ensures Classify(answer) == Accepted ==>
        status == Correct && message == CorrectMessage
        && pending == old(pending) + (if old(status) != Correct then [ShakeDone] else [])
      ensures Classify(answer) == Rejected ==>
        status == Wrong && message == WrongMessage && pending == old(pending) + [RevertStatusAndMessage]
    {
      var normalized := Normalise(answer);
      if normalized == [] {
        SetStatus(Wrong);
        message := PromptMessage;
        pending := pending + [RevertStatus];
        return;
      }
      if CorrectAnswer(normalized) {
        SetStatus(Correct);
        message := CorrectMessage;
      } else {
        SetStatus(Wrong);
        message := WrongMessage;
        pending := pending + [RevertStatusAndMessage];
      }
    }

    /** The deferred callback `pending[k]` runs. */
    method Fire(k: nat)
      requires Valid() && k < |pending|
      modifies this
      ensures Valid()
      ensures answer == old(answer)
      ensures old(showHub) ==> showHub
      ensures old(pending[k]) == RevertStatus ==>
        status == Idle && message == old(message) && showHub == old(showHub)
        && pending == old(pending[..k] + pending[k + 1..])
      ensures old(pending[k]) == RevertStatusAndMessage ==>
        status == Idle && message == "" && showHub == old(showHub)
        && pending == old(pending[..k] + pending[k + 1..])
      ensures old(pending[k]) == ShakeDone ==>
        status == Opening && message == old(message) && showHub == old(showHub)
        && pending == old(pending[..k] + pending[k + 1..]) + [DoorsOpened]
      ensures old(pending[k]) == DoorsOpened ==>
        status == Opened && message == old(message) && showHub
        && pending == old(pending[..k] + pending[k + 1..])
    {
      var p := pending[k];
      pending := pending[..k] + pending[k + 1..];
      match p {
        case RevertStatus =>
          SetStatus(Idle);
        case RevertStatusAndMessage =>
          SetStatus(Idle);
          message := "";
        case ShakeDone =>
          SetStatus(Opening);
          pending := pending + [DoorsOpened];
        case DoorsOpened =>
          SetStatus(Opened);
          showHub := true;
      }
    }
  }

  /**
   * Only idle and opened are resting states: in any other status some
   * deferred step is still pending to move the page on.
   */
  lemma TransientStatusesHavePendingStep(g: Gate)
    requires g.Valid()
    ensures g.status != Idle && g.status != Opened ==> |g.pending| > 0
    ensures g.FormShown() <==> !g.ContinueShown()
  {
  }
}
