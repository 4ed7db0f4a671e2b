/** The typewriter animation: a perpetual chain of ticks over a fixed word
    list. Each tick shows a prefix of the current word, chooses the delay
    before the next tick, and takes one of four guarded transitions on
    (word index, character index, deleting flag). */
module Typing {

  /** The word list of the page. */
  const Words: seq<string> := ["Matthias", "innovative", "curious", "driven"]

  const TypingDelay: nat := 120
  const DeletingDelay: nat := 60
  const FullWordPause: nat := 1500
  const NextWordPause: nat := 500

  /** The animation state: which word, how many of its characters are shown,
      and whether characters are being removed. */
  datatype Cursor = Cursor(wordIndex: nat, charIndex: nat, isDeleting: bool)

  /** The branch a tick takes. `Stall` is the fall-through when none of the
      four guards holds; it cannot happen from a state within bounds. */
  datatype Move = TypeChar | PauseFull | DeleteChar | PauseEmpty | Stall

  /** What one tick produces: the text written to the display element, the
      delay before the next tick, and whether the cursor blinks fast. */
  datatype Frame = Frame(text: string, delay: nat, fastBlink: bool)

  /** The word index names a word and the character index lies within it. */
  predicate InBounds(words: seq<string>, c: Cursor)
  {
    c.wordIndex < |words| && c.charIndex <= |words[c.wordIndex]|
  }

  /** `word.substring(0, end)`: an end past the word is clamped to its length. */
  function Substring(word: string, end: nat): (r: string)
    ensures r <= word
    ensures |r| == if end <= |word| then end else |word|
  {
    if end <= |word| then word[..end] else word
  }

  function MoveOf(words: seq<string>, c: Cursor): (m: Move)
    requires c.wordIndex < |words|
    ensures m == Stall <==> !c.isDeleting && c.charIndex > |words[c.wordIndex]|
    ensures InBounds(words, c) ==> m != Stall
  {
    var len := |words[c.wordIndex]|;
    if !c.isDeleting && c.charIndex < len then TypeChar
    else if !c.isDeleting && c.charIndex == len then PauseFull
    else if c.isDeleting && c.charIndex > 0 then DeleteChar
    else if c.isDeleting && c.charIndex == 0 then PauseEmpty
    else Stall
  }

  predicate IsPause(m: Move)
  {
    m == PauseFull || m == PauseEmpty
  }

  /** The state after one tick. */
  function Step(words: seq<string>, c: Cursor): (r: Cursor)
    requires c.wordIndex < |words|
    ensures r.wordIndex < |words|
    ensures InBounds(words, c) ==> InBounds(words, r)
  {
    match MoveOf(words, c)
    case TypeChar => c.(charIndex := c.charIndex + 1)
    case PauseFull => c.(isDeleting := true)
    case DeleteChar => c.(charIndex := c.charIndex - 1)
    case PauseEmpty => Cursor((c.wordIndex + 1) % |words|, c.charIndex, false)
    case Stall => c
  }

  /** What one tick shows, computed from the state before the tick. */
  function FrameOf(words: seq<string>, c: Cursor): (f: Frame)
    requires c.wordIndex < |words|
    ensures f.text <= words[c.wordIndex]
    ensures f.fastBlink <==> IsPause(MoveOf(words, c))
  {
    var m := MoveOf(words, c);
    var delay :=
      if m == PauseFull then FullWordPause
      else if m == PauseEmpty then NextWordPause
      else if c.isDeleting then DeletingDelay
      else TypingDelay;
    Frame(Substring(words[c.wordIndex], c.charIndex), delay, IsPause(m))
  }

  /** The four rows of the transition table, for a state within bounds. */
  lemma TransitionTable(words: seq<string>, c: Cursor)
    requires InBounds(words, c)
    ensures var len, s, f := |words[c.wordIndex]|, Step(words, c), FrameOf(words, c);
      && f.text == words[c.wordIndex][..c.charIndex]
      && (!c.isDeleting && c.charIndex < len ==>
            s == c.(charIndex := c.charIndex + 1) && f.delay == TypingDelay && !f.fastBlink)
      && (!c.isDeleting && c.charIndex == len ==>
            s == c.(isDeleting := true) && f.delay == FullWordPause && f.fastBlink)
      && (c.isDeleting && c.charIndex > 0 ==>
            s == c.(charIndex := c.charIndex - 1) && f.delay == DeletingDelay && !f.fastBlink)
      && (c.isDeleting && c.charIndex == 0 ==>
            s == Cursor((c.wordIndex + 1) % |words|, 0, false) && f.delay == NextWordPause && f.fastBlink)
  {
  }

  /** The cursor blinks fast exactly on the ticks that leave the character
      index where it was; every other tick moves it by one. */
  lemma PauseIffCharIndexKept(words: seq<string>, c: Cursor)
    requires InBounds(words, c)
    ensures FrameOf(words, c).fastBlink <==> Step(words, c).charIndex == c.charIndex
    ensures !FrameOf(words, c).fastBlink ==>
      Step(words, c).charIndex == c.charIndex + 1 || Step(words, c).charIndex + 1 == c.charIndex
  {
  }

  /** The frames of `k` consecutive ticks starting in state `c`. */
  function Run(words: seq<string>, c: Cursor, k: nat): (r: seq<Frame>)
    requires c.wordIndex < |words|
    ensures |r| == k
    ensures k > 0 ==> r[0] == FrameOf(words, c)
    decreases k
  {
    if k == 0 then [] else [FrameOf(words, c)] + Run(words, Step(words, c), k - 1)
  }

  /** The state after `k` consecutive ticks starting in state `c`. */
  function After(words: seq<string>, c: Cursor, k: nat): (r: Cursor)
    requires c.wordIndex < |words|
    ensures r.wordIndex < |words|
    decreases k
  {
    if k == 0 then c else After(words, Step(words, c), k - 1)
  }

  /** Bounds hold after any number of ticks. */
  lemma {:induction false} AfterInBounds(words: seq<string>, c: Cursor, k: nat)
    requires InBounds(words, c)
    ensures InBounds(words, After(words, c, k))
    decreases k
  {
    if k > 0 {
      AfterInBounds(words, Step(words, c), k - 1);
    }
  }

  /** Running `a` ticks and then `b` more is running `a + b` ticks. */
  lemma {:induction false} RunSplit(words: seq<string>, c: Cursor, a: nat, b: nat)
    requires c.wordIndex < |words|
    ensures Run(words, c, a + b) == Run(words, c, a) + Run(words, After(words, c, a), b)
    ensures After(words, c, a + b) == After(words, After(words, c, a), b)
    decreases a
  {
    if a > 0 {
      var s := Step(words, c);
      RunSplit(words, s, a - 1, b);
      assert a + b - 1 == (a - 1) + b;
      calc {
        Run(words, c, a + b);
        [FrameOf(words, c)] + Run(words, s, (a - 1) + b);
        [FrameOf(words, c)] + (Run(words, s, a - 1) + Run(words, After(words, s, a - 1), b));
        ([FrameOf(words, c)] + Run(words, s, a - 1)) + Run(words, After(words, s, a - 1), b);
      }
    }
  }

  /** Typing from character `i` of word `w`: the `k` ticks up to the long
      pause show the prefixes of length i .. len, one per tick, the last one
      followed by the long pause; the animation then deletes from the full word. */
  lemma {:induction false} TypingPhase(words: seq<string>, w: nat, i: nat, k: nat)
    requires w < |words| && i <= |words[w]| && k == |words[w]| - i + 1
    ensures After(words, Cursor(w, i, false), k) == Cursor(w, |words[w]|, true)
    ensures forall j :: 0 <= j < k ==>
      Run(words, Cursor(w, i, false), k)[j]
        == Frame(words[w][..i + j], if i + j < |words[w]| then TypingDelay else FullWordPause, i + j == |words[w]|)
    decreases k
  {
    var len, c := |words[w]|, Cursor(w, i, false);
    var r := Run(words, c, k);
    TransitionTable(words, c);
    if i < len {
      TypingPhase(words, w, i + 1, k - 1);
      var rest := Run(words, Cursor(w, i + 1, false), k - 1);
      assert r == [FrameOf(words, c)] + rest;
      forall j | 0 <= j < k
        ensures r[j] == Frame(words[w][..i + j], if i + j < len then TypingDelay else FullWordPause, i + j == len)
      {
        if j > 0 {
          assert r[j] == rest[j - 1];
          assert (i + 1) + (j - 1) == i + j;
        }
      }
    } else {
      assert r == [FrameOf(words, c)] + Run(words, Cursor(w, len, true), 0);
    }
  }

  /** Deleting from character `i` of word `w`: the `k` = i + 1 ticks up to the
      short pause show the prefixes of length i .. 0, one per tick, the empty
      one followed by the short pause; the animation then types the next word
      (wrapping to the first) from its start. */
  lemma {:induction false} DeletingPhase(words: seq<string>, w: nat, i: nat, k: nat)
    requires w < |words| && i <= |words[w]| && k == i + 1
    ensures After(words, Cursor(w, i, true), k) == Cursor((w + 1) % |words|, 0, false)
    ensures forall j :: 0 <= j < k ==>
      Run(words, Cursor(w, i, true), k)[j]
        == Frame(words[w][..i - j], if j < i then DeletingDelay else NextWordPause, j == i)
    decreases k
  {
    var c := Cursor(w, i, true);
    var r := Run(words, c, k);
    TransitionTable(words, c);
    if i > 0 {
      DeletingPhase(words, w, i - 1, k - 1);
      var rest := Run(words, Cursor(w, i - 1, true), k - 1);
      assert r == [FrameOf(words, c)] + rest;
      forall j | 0 <= j < k
        ensures r[j] == Frame(words[w][..i - j], if j < i then DeletingDelay else NextWordPause, j == i)
      {
        if j > 0 {
          assert r[j] == rest[j - 1];
          assert (i - 1) - (j - 1) == i - j;
        }
      }
    } else {
      assert r == [FrameOf(words, c)] + Run(words, Cursor((w + 1) % |words|, 0, false), 0);
    }
  }

  /** One full cycle over word `w`, from its empty prefix with typing on: the
      `k` = 2 * len + 2 ticks show the prefixes growing from "" to the whole
      word, then shrinking back to "", and leave the animation at the start of
      the next word. */
  lemma {:induction false} WordCycle(words: seq<string>, w: nat, k: nat)
    requires w < |words| && k == 2 * |words[w]| + 2
    ensures After(words, Cursor(w, 0, false), k) == Cursor((w + 1) % |words|, 0, false)
    ensures forall j :: 0 <= j <= |words[w]| ==>
      Run(words, Cursor(w, 0, false), k)[j]
        == Frame(words[w][..j], if j < |words[w]| then TypingDelay else FullWordPause, j == |words[w]|)
    ensures forall j :: |words[w]| < j < k ==>
      Run(words, Cursor(w, 0, false), k)[j]
        == Frame(words[w][..k - 1 - j], if j < k - 1 then DeletingDelay else NextWordPause, j == k - 1)
  {
    var len, c := |words[w]|, Cursor(w, 0, false);
    RunSplit(words, c, len + 1, len + 1);
    TypingPhase(words, w, 0, len + 1);
    DeletingPhase(words, w, len, len + 1);
    var typing := Run(words, c, len + 1);
    var deleting := Run(words, Cursor(w, len, true), len + 1);
    var r := Run(words, c, k);
    assert r == typing + deleting;
    forall j | 0 <= j <= len
      ensures r[j] == Frame(words[w][..j], if j < len then TypingDelay else FullWordPause, j == len)
    {
      assert r[j] == typing[j];
    }
    forall j | len < j < k
      ensures r[j] == Frame(words[w][..k - 1 - j], if j < k - 1 then DeletingDelay else NextWordPause, j == k - 1)
    {
      assert r[j] == deleting[j - (len + 1)];
    }
  }

  /** On the page's own word list, started as the page starts it (`start`),
      the first `k` = 18 ticks spell out "Matthias" and take it back, and the
      next tick starts on "innovative". */
  lemma FirstWordOfPage(start: Cursor, k: nat)
    requires start == Cursor(0, 0, false) && k == 18
    ensures Run(Words, start, k)[0] == Frame("", TypingDelay, false)
    ensures Run(Words, start, k)[8] == Frame("Matthias", FullWordPause, true)
    ensures Run(Words, start, k)[9] == Frame("Matthias", DeletingDelay, false)
    ensures Run(Words, start, k)[17] == Frame("", NextWordPause, true)
    ensures After(Words, start, k) == Cursor(1, 0, false)
  {
    assert Words[0] == "Matthias";
    WordCycle(Words, 0, k);
    assert Words[0][..8] == "Matthias";
  }

  /** A cycle over word `w` that starts after `a` ticks ends after `b` =
      a + 2 * len + 2 ticks, at the start of the next word. */
  lemma CycleAfter(words: seq<string>, start: Cursor, w: nat, a: nat, b: nat)
    requires start.wordIndex < |words| && w < |words|
    requires After(words, start, a) == Cursor(w, 0, false) && b == a + 2 * |words[w]| + 2
    ensures After(words, start, b) == Cursor((w + 1) % |words|, 0, false)
  {
    RunSplit(words, start, a, b - a);
    WordCycle(words, w, b - a);
  }

  /** On the page's own word list, one cycle over each of the four words
      takes 18 + 22 + 16 + 14 = `k` ticks and brings the animation back to
      its starting state, so it repeats forever; the second, third and fourth
      words start after `a`, `b` and `c` ticks. */
  lemma PageLoop(start: Cursor, a: nat, b: nat, c: nat, k: nat)
    requires start == Cursor(0, 0, false) && a == 18 && b == 40 && c == 56 && k == 70
    ensures After(Words, start, a) == Cursor(1, 0, false)
    ensures After(Words, start, b) == Cursor(2, 0, false)
    ensures After(Words, start, c) == Cursor(3, 0, false)
    ensures After(Words, start, k) == start
  {
    assert |Words| == 4;
    assert |Words[0]| == 8 && |Words[1]| == 10 && |Words[2]| == 7 && |Words[3]| == 6;
    assert After(Words, start, 0) == start;
    CycleAfter(Words, start, 0, 0, a);
    CycleAfter(Words, start, 1, a, b);
    CycleAfter(Words, start, 2, b, c);
    CycleAfter(Words, start, 3, c, k);
  }

  /** The animation of the page: the three variables the ticks update, the
      text of the display element and the cursor's fast-blink class. */
  class Typewriter {
    const words: seq<string>
    var wordIndex: nat
    var charIndex: nat
    var isDeleting: bool
    /** The text content of the display element. */
    var shown: string
    /** Whether the cursor element carries the fast-blink class. */
    var fastBlink: bool

    function State(): Cursor
      reads this
    {
      Cursor(wordIndex, charIndex, isDeleting)
    }

    ghost predicate Valid()
      reads this
    {
      |words| > 0 && InBounds(words, State())
    }

    /** Page load: the first word, nothing shown, typing. */
    constructor (words: seq<string>)
      requires |words| > 0
      ensures Valid()
      ensures this.words == words && State() == Cursor(0, 0, false)
      ensures shown == "" && !fastBlink
    {
      this.words := words;
      wordIndex, charIndex, isDeleting := 0, 0, false;
      shown, fastBlink := "", false;
    }

    /** One tick: shows the current prefix, takes the transition, and returns
        the text shown and the delay before the next tick. */
    method Tick() returns (text: string, delay: nat)
      requires Valid()
      modifies this
      ensures Valid()
      ensures State() == Step(words, old(State()))
      ensures Frame(text, delay, fastBlink) == FrameOf(words, old(State()))
      ensures shown == text
    {
      var currentWord := words[wordIndex];
      text := Substring(currentWord, charIndex);
      shown := text;

      delay := if isDeleting then DeletingDelay else TypingDelay;
      fastBlink := false;

      if !isDeleting && charIndex < |currentWord| {
        charIndex := charIndex + 1;
      } else if !isDeleting && charIndex == |currentWord| {
        fastBlink := true;
        isDeleting := true;
        delay := FullWordPause;
      } else if isDeleting && charIndex > 0 {
        charIndex := charIndex - 1;
      } else if isDeleting && charIndex == 0 {
        fastBlink := true;
        isDeleting := false;
        wordIndex := (wordIndex + 1) % |words|;
        delay := NextWordPause;
      }
    }
  }
}
