/**
 * The quiz screen (`PlayScreen`): a Fisher-Yates shuffle of the contacts, and the
 * game session the screen's handlers update (cursor, typed input, a tri-state
 * outcome and the score). The random swap index is an oracle argument; the
 * module-level `lastContactsLength` counter is a field of the session.
 */
module PlayScreen {
  import JsText
  import opened Wrappers
  import opened ContactStorage

  // ----- Fisher-Yates shuffle -----

  /** The swap oracle for a list of length `n`: `js[i]` is the index that
      `Math.floor(Math.random() * (i + 1))` picked at step `i`, so `js[i] <= i`. */
  predicate ValidSwaps(js: seq<nat>, n: nat)
  {
    |js| == n && forall i :: 0 < i < n ==> js[i] <= i
  }

  /** `[s[i], s[j]] = [s[j], s[i]]` on a sequence. */
  function Swap<T>(s: seq<T>, i: nat, j: nat): (r: seq<T>)
    requires i < |s| && j < |s|
    ensures |r| == |s|
  {
    s[i := s[j]][j := s[i]]
  }

  lemma SwapPermutes<T>(s: seq<T>, i: nat, j: nat)
    requires i < |s| && j < |s|
    ensures multiset(Swap(s, i, j)) == multiset(s)
  {
  }

  /** The loop from index `i` down to 1, each step swapping position `i` with `js[i]`. */
  function Passes<T>(s: seq<T>, i: int, js: seq<nat>): (r: seq<T>)
    requires i < |s| && ValidSwaps(js, |s|)
    ensures |r| == |s|
    decreases i
  {
    if i <= 0 then s else Passes(Swap(s, i, js[i]), i - 1, js)
  }

  /** The shuffle the source computes for `s` under oracle `js`. */
  function FisherYates<T>(s: seq<T>, js: seq<nat>): (r: seq<T>)
    requires ValidSwaps(js, |s|)
    ensures |r| == |s|
  {
    Passes(s, |s| - 1, js)
  }

  lemma {:induction false} PassesPermutes<T>(s: seq<T>, i: int, js: seq<nat>)
    requires i < |s| && ValidSwaps(js, |s|)
    ensures |Passes(s, i, js)| == |s|
    ensures multiset(Passes(s, i, js)) == multiset(s)
    decreases i
  {
    if i > 0 {
      SwapPermutes(s, i, js[i]);
      PassesPermutes(Swap(s, i, js[i]), i - 1, js);
    }
  }

  /** Whatever the oracle, the shuffle is a permutation of its input. */
  lemma FisherYatesPermutes<T>(s: seq<T>, js: seq<nat>)
    requires ValidSwaps(js, |s|)
    ensures |FisherYates(s, js)| == |s|
    ensures multiset(FisherYates(s, js)) == multiset(s)
  {
    PassesPermutes(s, |s| - 1, js);
  }

  /** On zero or one element the loop body never runs. */
  lemma FisherYatesShort<T>(s: seq<T>, js: seq<nat>)
    requires ValidSwaps(js, |s|) && |s| <= 1
    ensures FisherYates(s, js) == s
  {
  }

  /** One destructuring swap on the array. */
  method SwapInPlace<T>(a: array<T>, i: nat, j: nat)
    requires i < a.Length && j < a.Length
    modifies a
    ensures a[..] == Swap(old(a[..]), i, j)
  {
    var t := a[i];
    a[i] := a[j];
    a[j] := t;
  }

  /** `[...array]`: a fresh array holding the elements of `items`. */
  method CopyToArray<T>(items: seq<T>) returns (a: array<T>)
    ensures fresh(a) && a[..] == items
  {
    a := new T[|items|](k requires 0 <= k < |items| => items[k]);
  }

  /** `shuffle(array)`: copies the input, swaps in place from the last index down to 1,
      and returns the copy; the argument itself is a value and stays as it was. */
  method Shuffle<T>(items: seq<T>, js: seq<nat>) returns (result: seq<T>)
    requires ValidSwaps(js, |items|)
    ensures result == FisherYates(items, js)
    ensures |result| == |items| && multiset(result) == multiset(items)
  {
    var a := CopyToArray(items);
    var i := a.Length - 1;
    while i > 0
      invariant -1 <= i < a.Length == |items|
      invariant Passes(a[..], i, js) == FisherYates(items, js)
    {
      SwapInPlace(a, i, js[i]);
      i := i - 1;
    }
    result := a[..];
    FisherYatesPermutes(items, js);
  }

  // ----- answer comparison -----

  /** The characters `normalize` deletes: the class `[\s\-()]`. */
  predicate IsSeparator(c: char)
  {
    JsText.IsWhiteSpace(c) || c == '-' || c == '(' || c == ')'
  }

  /** `s.replace(/[\s\-()]/g, "")`. */
  function Normalize(s: string): (r: string)
    ensures |r| <= |s|
    ensures forall k :: 0 <= k < |r| ==> !IsSeparator(r[k])
  {
    if s == [] then []
    else (if IsSeparator(s[0]) then [] else [s[0]]) + Normalize(s[1..])
  }

  /** Normalising works character by character: it distributes over concatenation ... */
  lemma {:induction false} NormalizeAppend(a: string, b: string)
    ensures Normalize(a + b) == Normalize(a) + Normalize(b)
  {
    if a == [] {
      assert a + b == b;
    } else {
      assert (a + b)[0] == a[0] && (a + b)[1..] == a[1..] + b;
      NormalizeAppend(a[1..], b);
    }
  }

  /** ... deletes a single separator and keeps any other single character, ... */
  lemma NormalizeChar(c: char)
    ensures Normalize([c]) == if IsSeparator(c) then [] else [c]
  {
  }

  /** ... and leaves a string without separators as it is, so it is idempotent. */
  lemma {:induction false} NormalizeKeeps(s: string)
    requires forall k :: 0 <= k < |s| ==> !IsSeparator(s[k])
    ensures Normalize(s) == s
  {
    if s != [] {
      NormalizeKeeps(s[1..]);
    }
  }

  lemma NormalizeIdempotent(s: string)
    ensures Normalize(Normalize(s)) == Normalize(s)
  {
    NormalizeKeeps(Normalize(s));
  }

  // ----- progress text -----

  /** The decimal rendering of a number, as template literals produce it. */
  function DecimalString(n: nat): (r: string)
    ensures r != []
    ensures forall k :: 0 <= k < |r| ==> JsText.IsDigit(r[k])
    ensures r[0] == '0' ==> n == 0
  {
    if n < 10 then [JsText.DigitChar(n)] else DecimalString(n / 10) + [JsText.DigitChar(n % 10)]
  }

  /** The value of a string of decimal digits. */
  function DecimalValue(s: string): nat
    requires forall k :: 0 <= k < |s| ==> JsText.IsDigit(s[k])
  {
    if s == [] then 0 else 10 * DecimalValue(s[..|s| - 1]) + JsText.DigitValue(s[|s| - 1])
  }

  lemma {:induction false} DecimalRoundTrip(n: nat)
    ensures DecimalValue(DecimalString(n)) == n
  {
    if n >= 10 {
      DecimalRoundTrip(n / 10);
      var s := DecimalString(n);
      assert s[..|s| - 1] == DecimalString(n / 10);
    }
  }

  /** The header's `progress` text. */
  function ProgressText(deckLength: nat, index: nat): (r: string)
    ensures r == "0/0" <==> deckLength == 0
  {
    if deckLength == 0 then "0/0"
    else
      var r := DecimalString(index + 1) + "/" + DecimalString(deckLength);
      assert r[0] != '0';
      r
  }

  /** An empty deck shows "0/0"; otherwise the text is the one-based position, a single
      `/`, and the deck length, each reading back as its number. */
  lemma ProgressReadsBack(deckLength: nat, index: nat)
    ensures deckLength == 0 ==> ProgressText(deckLength, index) == "0/0"
    ensures deckLength > 0 ==>
      var r := ProgressText(deckLength, index);
      var p := |DecimalString(index + 1)|;
      && p < |r| && r[p] == '/'
      && (forall k :: 0 <= k < |r| && k != p ==> JsText.IsDigit(r[k]))
      && DecimalValue(r[..p]) == index + 1
      && DecimalValue(r[p + 1..]) == deckLength
  {
    if deckLength > 0 {
      var a, b := DecimalString(index + 1), DecimalString(deckLength);
      var r := ProgressText(deckLength, index);
      assert r[..|a|] == a;
      assert r[|a| + 1..] == b;
      DecimalRoundTrip(index + 1);
      DecimalRoundTrip(deckLength);
    }
  }

  // ----- the game session -----

  datatype GameState = Playing | Correct | Incorrect

  datatype Score = Score(correct: nat, total: nat)

  /** The dependencies `[gameVersion, contacts.length]` the deck was last computed for. */
  datatype DeckKey = DeckKey(version: nat, length: nat)

  class PlaySession {
    var deck: seq<Contact>
    var deckKey: Option<DeckKey>
    var version: nat
    var currentIndex: nat
    var userInput: string
    var state: GameState
    var score: Score
    var lastContactsLength: nat

    /** The score never counts more correct answers than answers. */
    ghost predicate Valid()
      reads this
    {
      score.correct <= score.total
    }

    /** A fresh mount of the screen; `lastContactsLength` is the module-level counter's
        value, which survives from earlier mounts. */
    constructor (lastContactsLength: nat)
      ensures Valid()
      ensures deck == [] && deckKey == None && version == 0 && currentIndex == 0
      ensures userInput == "" && state == Playing && score == Score(0, 0)
      ensures this.lastContactsLength == lastContactsLength
    {
      deck := [];
      deckKey := None;
      version := 0;
      currentIndex := 0;
      userInput := "";
      state := Playing;
      score := Score(0, 0);
      this.lastContactsLength := lastContactsLength;
    }

    /** One render with the current contact list: the memoised deck is recomputed when
        the version or the contact count changed, then the reset on a changed count. */
    method Render(contacts: seq<Contact>, js: seq<nat>)
      requires Valid() && ValidSwaps(js, |contacts|)
      modifies this
      ensures Valid()
      ensures var key := DeckKey(old(version), |contacts|);
        && deckKey == Some(key)
        && deck == (if old(deckKey) == Some(key) then old(deck)
                    else if |contacts| == 0 then [] else FisherYates(contacts, js))
      ensures lastContactsLength == |contacts|
      ensures if |contacts| != old(lastContactsLength) && |contacts| > 0
                 && old(currentIndex) >= |contacts|
              then currentIndex == 0 && userInput == "" && state == Playing
              else currentIndex == old(currentIndex) && userInput == old(userInput)
                   && state == old(state)
      ensures version == old(version) && score == old(score)
    {
      var key := DeckKey(version, |contacts|);
      if deckKey != Some(key) {
        if |contacts| == 0 {
          deck := [];
        } else {
          deck := Shuffle(contacts, js);
        }
        deckKey := Some(key);
      }
      if |contacts| != lastContactsLength {
        lastContactsLength := |contacts|;
        if |contacts| > 0 && currentIndex >= |contacts| {
          currentIndex := 0;
          userInput := "";
          state := Playing;
        }
      }
    }

    /** The keypad's `onChange`. */
    method SetInput(value: string)
      modifies this
      ensures userInput == value
      ensures deck == old(deck) && deckKey == old(deckKey) && version == old(version)
      ensures currentIndex == old(currentIndex) && state == old(state) && score == old(score)
      ensures lastContactsLength == old(lastContactsLength)
    {
      userInput := value;
    }

    /** `initGame`: a new version (so a new deck), back to the first card, score zeroed. */
    method InitGame()
      modifies this
      ensures Valid()
      ensures version == old(version) + 1
      ensures currentIndex == 0 && userInput == "" && state == Playing && score == Score(0, 0)
      ensures deck == old(deck) && deckKey == old(deckKey)
      ensures lastContactsLength == old(lastContactsLength)
    {
      version := version + 1;
      currentIndex := 0;
      userInput := "";
      state := Playing;
      score := Score(0, 0);
    }

    /** `handleShuffle`. */
    method HandleShuffle()
      modifies this
      ensures Valid()
      ensures version == old(version) + 1
      ensures currentIndex == 0 && userInput == "" && state == Playing && score == Score(0, 0)
      ensures deck == old(deck) && deckKey == old(deckKey)
      ensures lastContactsLength == old(lastContactsLength)
    {
      InitGame();
    }

    /** `handleCheck`: grades the typed input against the current card, once. */
    method HandleCheck()
      requires Valid()
      modifies this
      ensures Valid()
      ensures !(old(currentIndex) < |old(deck)| && old(state) == Playing) ==>
                state == old(state) && score == old(score)
      ensures old(currentIndex) < |old(deck)| && old(state) == Playing ==>
                var matched := Normalize(old(userInput)) == Normalize(old(deck)[old(currentIndex)].number);
                && state == (if matched then Correct else Incorrect)
                && score == Score(old(score).correct + (if matched then 1 else 0), old(score).total + 1)
      ensures old(currentIndex) == |old(deck)| - 1 && old(state) == Playing ==> IsGameFinished()
      ensures deck == old(deck) && deckKey == old(deckKey) && version == old(version)
      ensures currentIndex == old(currentIndex) && userInput == old(userInput)
      ensures lastContactsLength == old(lastContactsLength)
    {
      if !(currentIndex < |deck|) || state != Playing {
        return;
      }
      var isCorrect := Normalize(userInput) == Normalize(deck[currentIndex].number);
      state := if isCorrect then Correct else Incorrect;
      score := Score(score.correct + (if isCorrect then 1 else 0), score.total + 1);
    }

    /** `handleNext`: the next card, or a new game after the last one. */
    method HandleNext()
      requires Valid()
      modifies this
      ensures Valid()
      ensures old(currentIndex) < |old(deck)| - 1 ==>
                && currentIndex == old(currentIndex) + 1 && userInput == "" && state == Playing
                && score == old(score) && version == old(version)
      ensures !(old(currentIndex) < |old(deck)| - 1) ==>
                && currentIndex == 0 && userInput == "" && state == Playing
                && score == Score(0, 0) && version == old(version) + 1
      ensures !IsGameFinished()
      ensures deck == old(deck) && deckKey == old(deckKey)
      ensures lastContactsLength == old(lastContactsLength)
    {
      if currentIndex < |deck| - 1 {
        currentIndex := currentIndex + 1;
        userInput := "";
        state := Playing;
      } else {
        InitGame();
      }
    }

    /** `progress`. */
    function Progress(): (r: string)
      reads this
      ensures |deck| == 0 <==> r == "0/0"
    {
      ProgressText(|deck|, currentIndex)
    }

    /** `isGameFinished`: the last card has been graded. */
    function IsGameFinished(): (r: bool)
      reads this
      ensures r ==> |deck| > 0 && currentIndex < |deck| && state != Playing
      ensures |deck| == 0 ==> !r
    {
      currentIndex == |deck| - 1 && state != Playing
    }
  }
}
