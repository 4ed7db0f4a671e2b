/** The project modal: a carousel of slides built from a project card, shown
    in an overlay that locks the page's scroll position while it is open.
    The two delayed steps of the page (the slide swap after a fade-out and
    the hiding of the modal after its fade-out), and the fade-in cue after
    opening, are kept as pending timers that the event loop fires later. */
module ProjectModal {
  import opened Wrappers

  /** Delay of the content swap after a fade-out, in milliseconds. */
  const SwapDelay: nat := 200
  /** Delay of hiding the modal after its fade-out, in milliseconds. */
  const CloseDelay: nat := 180
  /** Delay of the fade-in cue after opening, in milliseconds. */
  const FadeInDelay: nat := 10

  datatype Image = Image(src: string, alt: string)

  /** What a project card offers: the inner markup of its `.slide` elements in
      document order, the inner markup of its first paragraph, its first image. */
  datatype Card = Card(slideMarkup: seq<string>, paragraph: Option<string>, image: Option<Image>)

  /** One slide: the markup of a `.slide` element, or, when a card has none,
      a caption made from its paragraph or a picture made from its image. */
  datatype Content = Markup(html: string) | Caption(html: string) | Picture(image: Image)

  datatype Key = Escape | ArrowLeft | ArrowRight | OtherKey

  /** A callback waiting for its delay to elapse. A swap carries the content
      chosen when it was scheduled. */
  datatype Timer = SwapIn(content: Content) | FadeInCue | FinishClose
  {
    function Delay(): (d: nat)
      ensures SwapIn? ==> d == SwapDelay
      ensures FadeInCue? ==> d == FadeInDelay
      ensures FinishClose? ==> d == CloseDelay
    {
      match this
      case SwapIn(_) => SwapDelay
      case FadeInCue => FadeInDelay
      case FinishClose => CloseDelay
    }
  }

  /** The slides of a card without `.slide` elements: its caption, if it has
      a paragraph, then its picture, if it has an image. */
  function FallbackSlides(card: Card): (r: seq<Content>)
    ensures |r| <= 2
    ensures |r| == (if card.paragraph.Some? then 1 else 0) + (if card.image.Some? then 1 else 0)
    ensures card.paragraph.Some? ==> r[0] == Caption(card.paragraph.value)
    ensures card.image.Some? ==> r[|r| - 1] == Picture(card.image.value)
  {
    (if card.paragraph.Some? then [Caption(card.paragraph.value)] else [])
      + (if card.image.Some? then [Picture(card.image.value)] else [])
  }

  /** The slide list of a card: its `.slide` elements, in order, when it has
      any; otherwise the fallback. */
  function BuildSlides(card: Card): (r: seq<Content>)
    ensures card.slideMarkup != [] ==>
      |r| == |card.slideMarkup| && forall i :: 0 <= i < |r| ==> r[i] == Markup(card.slideMarkup[i])
    ensures card.slideMarkup == [] ==> r == FallbackSlides(card)
  {
    if card.slideMarkup != [] then
      seq(|card.slideMarkup|, i requires 0 <= i < |card.slideMarkup| => Markup(card.slideMarkup[i]))
    else
      FallbackSlides(card)
  }

  /** A card yields no slide exactly when it has no `.slide` element, no
      paragraph and no image. */
  lemma EmptyCardIff(card: Card)
    ensures BuildSlides(card) == [] <==>
      card.slideMarkup == [] && card.paragraph.None? && card.image.None?
  {
  }

  /** JavaScript's `%` on integers: the remainder takes the sign of the
      dividend (it truncates toward zero, unlike Dafny's `%`). */
  function JsRem(a: int, n: int): (r: int)
    requires n > 0
    ensures a >= 0 ==> 0 <= r < n && r == a % n
    ensures a < 0 ==> -n < r <= 0
    ensures a < 0 ==> r == if a % n == 0 then 0 else a % n - n
  {
    if a >= 0 then a % n
    else
      var q, m := (-a) / n, (-a) % n;
      if m == 0 then
        ModUnique(a, -q, 0, n);
        0
      else
        ModUnique(a, -q - 1, n - m, n);
        -m
  }

  /** The slide index `renderSlide` settles on: `(index + n) % n`. For every
      index the page passes (never below -n) it is the index taken modulo n. */
  function WrapIndex(index: int, n: nat): (r: nat)
    requires n > 0 && index + n >= 0
    ensures r < n
    ensures r == index % n
  {
    ModShift(index, index + n, 1, n);
    JsRem(index + n, n)
  }

  /** An index already in range is kept; one step past either end wraps to
      the other end. */
  lemma WrapIndexEnds(n: nat, i: int)
    requires n > 0
    ensures 0 <= i < n ==> WrapIndex(i, n) == i
    ensures WrapIndex(-1, n) == n - 1
    ensures WrapIndex(n, n) == 0
  {
    if 0 <= i < n {
      ModUnique(i, 0, i, n);
    }
    ModUnique(-1, -1, n - 1, n);
    ModUnique(n, 1, 0, n);
  }

  /** The page never passes an index below -n, and it must not: below -n
      the expression yields a negative "index" exactly when `index + n` is not
      a multiple of n (at -2n it yields 0); one step below -n already does so
      for every n > 1. */
  lemma WrapNeedsLowerBound(n: nat, index: int)
    requires n > 0 && index + n < 0
    ensures JsRem(index + n, n) < 0 <==> (index + n) % n != 0
    ensures n > 1 && index == -(n as int) - 1 ==> JsRem(index + n, n) == -1
  {
    if n > 1 && index == -(n as int) - 1 {
      ModUnique(-1, -1, n - 1, n);
    }
  }

  /** The slide the next button shows. */
  function NextSlide(current: nat, n: nat): (r: nat)
    requires current < n
    ensures r < n
    ensures r == if current == n - 1 then 0 else current + 1
    ensures r == (current + 1) % n
  {
    WrapIndex(current + 1, n)
  }

  /** The slide the previous button shows. */
  function PrevSlide(current: nat, n: nat): (r: nat)
    requires current < n
    ensures r < n
    ensures r == if current == 0 then n - 1 else current - 1
    ensures r == (current - 1) % n
  {
    WrapIndex(current - 1, n)
  }

  /** Previous undoes next, and next undoes previous. */
  lemma PrevNextInverse(current: nat, n: nat)
    requires current < n
    ensures PrevSlide(NextSlide(current, n), n) == current
    ensures NextSlide(PrevSlide(current, n), n) == current
  {
  }

  /** The slide shown after `k` presses of the next button. */
  function NextPresses(current: nat, n: nat, k: nat): (r: nat)
    requires current < n
    ensures r < n
    decreases k
  {
    if k == 0 then current else NextPresses(NextSlide(current, n), n, k - 1)
  }

  /** The slide shown after `k` presses of the previous button. */
  function PrevPresses(current: nat, n: nat, k: nat): (r: nat)
    requires current < n
    ensures r < n
    decreases k
  {
    if k == 0 then current else PrevPresses(PrevSlide(current, n), n, k - 1)
  }

  /** `k` presses of next advance the slide by k, modulo the slide count. */
  lemma {:induction false} NextPressesAdvance(current: nat, n: nat, k: nat)
    requires current < n
    ensures NextPresses(current, n, k) == (current + k) % n
    decreases k
  {
    if k > 0 {
      var s := NextSlide(current, n);
      NextPressesAdvance(s, n, k - 1);
      ModOfSum(current + 1, k - 1, current + k, n);
    }
  }

  /** `k` presses of previous move the slide back by k, modulo the slide count. */
  lemma {:induction false} PrevPressesRetreat(current: nat, n: nat, k: nat)
    requires current < n
    ensures PrevPresses(current, n, k) == (current - k) % n
    decreases k
  {
    if k > 0 {
      var s := PrevSlide(current, n);
      PrevPressesRetreat(s, n, k - 1);
      ModOfDiff(current - 1, k - 1, current - k, n);
    }
  }

  /** n presses of either button come back to the slide one started on. */
  lemma FullTurn(current: nat, n: nat)
    requires current < n
    ensures NextPresses(current, n, n) == current
    ensures PrevPresses(current, n, n) == current
  {
    NextPressesAdvance(current, n, n);
    PrevPressesRetreat(current, n, n);
    ModShift(current, current + n, 1, n);
    ModShift(current, current - n, -1, n);
    ModUnique(current, 0, current, n);
  }

  /** `d * n >= n` for a positive factor d. */
  lemma MulAtLeast(d: int, n: int)
    requires d >= 1 && n > 0
    ensures d * n >= n
  {
  }

  /** The remainder is determined by any quotient-remainder decomposition. */
  lemma ModUnique(a: int, q: int, r: int, n: int)
    requires n > 0 && 0 <= r < n && a == q * n + r
    ensures a % n == r
  {
    var q', r' := a / n, a % n;
    assert (q - q') * n == r' - r;
    if q - q' >= 1 {
      MulAtLeast(q - q', n);
    } else if q' - q >= 1 {
      MulAtLeast(q' - q, n);
    }
  }

  /** Adding a multiple of n does not change the remainder. */
  lemma ModShift(x: int, y: int, q: int, n: nat)
    requires n > 0 && y == x + q * n
    ensures y % n == x % n
  {
    assert y == (x / n + q) * n + x % n;
    ModUnique(y, x / n + q, x % n, n);
  }

  /** `(a % n + b) % n == (a + b) % n`. */
  lemma ModOfSum(a: int, b: int, c: int, n: nat)
    requires n > 0 && a + b == c
    ensures (a % n + b) % n == c % n
  {
    ModShift(a % n + b, c, a / n, n);
  }

  /** `(a % n - b) % n == (a - b) % n`. */
  lemma ModOfDiff(a: int, b: int, c: int, n: nat)
    requires n > 0 && a - b == c
    ensures (a % n - b) % n == c % n
  {
    ModShift(a % n - b, c, a / n, n);
  }

  /** The modal and everything it writes: the slide list and index of the
      page's closure, the modal's `open` class and `aria-hidden` attribute,
      the scroll lock of the body, the body's content and fade classes, and
      the timers not yet fired. */
  class Modal {
    var currentSlides: seq<Content>
    var currentSlide: nat
    /** The modal carries the `open` class. */
    var open: bool
    /** The modal's `aria-hidden` attribute is "true". */
    var ariaHidden: bool
    /** The scroll offset captured when the background was last locked. */
    var lockedScrollY: nat
    /** The window's vertical scroll offset. */
    var scrollY: nat
    /** The document body carries the lock: the `modal-open` class and the
        fixed-position styles. */
    var bodyLocked: bool
    /** The content of the modal body; `None` when it is empty. */
    var bodyContent: Option<Content>
    var fadeIn: bool
    var fadeOut: bool
    /** Callbacks scheduled and not yet fired; none is ever cancelled. */
    var pending: seq<Timer>

    /** The slide index names a slide whenever there are slides. */
    ghost predicate IndexOk()
      reads this
    {
      currentSlides != [] ==> currentSlide < |currentSlides|
    }

    /** An open modal shows something, has locked the page and is not
        hidden from assistive technology; a closed one is the opposite. A
        locked page has nothing left to scroll, so its offset reads 0. */
    ghost predicate ViewOk()
      reads this
    {
      && bodyLocked == open && ariaHidden == !open && (open ==> bodyContent.Some?)
      && (bodyLocked ==> scrollY == 0)
    }

    ghost predicate Valid()
      reads this
    {
      IndexOk() && ViewOk()
    }

    /** `renderSlide(index, animate)` took effect: the same slides, the index
        wrapped into range, and either the content shown at once or a
        fade-out with the swap scheduled. */
    twostate predicate Rendered(index: int, animate: bool)
      reads this
    {
      && currentSlides == old(currentSlides)
      && open == old(open) && ariaHidden == old(ariaHidden) && bodyLocked == old(bodyLocked)
      && lockedScrollY == old(lockedScrollY) && scrollY == old(scrollY)
      && if old(currentSlides) == [] then
           && currentSlide == old(currentSlide) && bodyContent == old(bodyContent)
           && fadeIn == old(fadeIn) && fadeOut == old(fadeOut) && pending == old(pending)
         else
           && index + |currentSlides| >= 0
           && currentSlide == WrapIndex(index, |currentSlides|)
           && if animate then
                && bodyContent == old(bodyContent) && !fadeIn && fadeOut
                && pending == old(pending) + [SwapIn(currentSlides[currentSlide])]
              else
                && bodyContent == Some(currentSlides[currentSlide]) && fadeIn && fadeOut == old(fadeOut)
                && pending == old(pending)
    }

    /** `closeModal()` took effect: the body fades out and the hiding is
        scheduled; nothing else changes yet. */
    twostate predicate CloseStarted()
      reads this
    {
      && currentSlides == old(currentSlides) && currentSlide == old(currentSlide)
      && open == old(open) && ariaHidden == old(ariaHidden) && bodyLocked == old(bodyLocked)
      && lockedScrollY == old(lockedScrollY) && scrollY == old(scrollY)
      && bodyContent == old(bodyContent)
      && !fadeIn && fadeOut && pending == old(pending) + [FinishClose]
    }

    /** The page after load, scrolled to `scrollY`, with the modal closed. */
    constructor (scrollY: nat)
      ensures Valid()
      ensures this.scrollY == scrollY && lockedScrollY == 0
      ensures !open && ariaHidden && !bodyLocked
      ensures currentSlides == [] && currentSlide == 0 && bodyContent == None
      ensures !fadeIn && !fadeOut && pending == []
    {
      currentSlides, currentSlide := [], 0;
      open, ariaHidden := false, true;
      lockedScrollY, this.scrollY := 0, scrollY;
      bodyLocked := false;
      bodyContent := None;
      fadeIn, fadeOut := false, false;
      pending := [];
    }

    /** Remembers the scroll offset and freezes the body in place. The fixed
        body leaves the document nothing to scroll, so the window's offset
        becomes 0 (the body is shifted up by the remembered offset instead). */
    method LockBackgroundScroll()
      modifies this`lockedScrollY, this`scrollY, this`bodyLocked
      ensures lockedScrollY == old(scrollY) && scrollY == 0 && bodyLocked
    {
      lockedScrollY := scrollY;
      scrollY := 0;
      bodyLocked := true;
    }

    /** Releases the body and scrolls back to the remembered offset. */
    method UnlockBackgroundScroll()
      modifies this`scrollY, this`bodyLocked
      ensures scrollY == lockedScrollY && !bodyLocked
    {
      bodyLocked := false;
      scrollY := lockedScrollY;
    }

    /** Shows slide `index`, wrapped into range; a no-op without slides. */
    method RenderSlide(index: int, animate: bool)
      requires currentSlides != [] ==> index + |currentSlides| >= 0
      modifies this
      ensures Rendered(index, animate)
    {
      if |currentSlides| == 0 {
        return;
      }
      var n := |currentSlides|;
      currentSlide := WrapIndex(index, n);
      var newContent := currentSlides[currentSlide];
      if !animate {
        bodyContent := Some(newContent);
        fadeIn := true;
        return;
      }
      fadeIn := false;
      fadeOut := true;
      pending := pending + [SwapIn(newContent)];
    }

    /** The click on a project card. */
    method OpenModalWithCard(card: Card)
      requires Valid()
      modifies this
      ensures Valid()
      ensures currentSlides == BuildSlides(card)
      ensures currentSlides == [] ==>
        && currentSlide == old(currentSlide) && open == old(open)
        && ariaHidden == old(ariaHidden) && bodyLocked == old(bodyLocked)
        && lockedScrollY == old(lockedScrollY) && scrollY == old(scrollY)
        && bodyContent == old(bodyContent) && fadeIn == old(fadeIn) && fadeOut == old(fadeOut)
        && pending == old(pending)
      ensures currentSlides != [] ==>
        && currentSlide == 0 && open && !ariaHidden && bodyLocked
        && lockedScrollY == old(scrollY) && scrollY == 0
        && bodyContent == Some(currentSlides[0]) && fadeIn && fadeOut == old(fadeOut)
        && pending == old(pending) + [FadeInCue]
    {
      currentSlides := BuildSlides(card);
      if |currentSlides| == 0 {
        return;
      }
      RenderSlide(0, false);
      open := true;
      ariaHidden := false;
      LockBackgroundScroll();
      pending := pending + [FadeInCue];
    }

    /** The close button, the overlay and Escape: fade out now, hide later. */
    method CloseModal()
      requires Valid()
      modifies this
      ensures Valid()
      ensures CloseStarted()
    {
      fadeIn := false;
      fadeOut := true;
      pending := pending + [FinishClose];
    }

    /** The previous button. */
    method Prev()
      requires Valid()
      modifies this
      ensures Valid()
      ensures Rendered(old(currentSlide) - 1, true)
      ensures old(currentSlides) != [] ==> currentSlide == PrevSlide(old(currentSlide), |currentSlides|)
    {
      RenderSlide(currentSlide - 1, true);
    }

    /** The next button. */
    method Next()
      requires Valid()
      modifies this
      ensures Valid()
      ensures Rendered(old(currentSlide) + 1, true)
      ensures old(currentSlides) != [] ==> currentSlide == NextSlide(old(currentSlide), |currentSlides|)
    {
      RenderSlide(currentSlide + 1, true);
    }

    /** A key press anywhere on the page; ignored while the modal is closed. */
    method KeyDown(key: Key)
      requires Valid()
      modifies this
      ensures Valid()
      ensures !old(open) || key == OtherKey ==> unchanged(this)
      ensures old(open) && key == Escape ==> CloseStarted()
      ensures old(open) && key == ArrowLeft ==> Rendered(old(currentSlide) - 1, true)
      ensures old(open) && key == ArrowRight ==> Rendered(old(currentSlide) + 1, true)
    {
      if !open {
        return;
      }
      if key == Escape {
        CloseModal();
      }
      if key == ArrowLeft {
        Prev();
      }
      if key == ArrowRight {
        Next();
      }
    }

    /** Removes the `i`-th pending timer, which has just fired. */
    method Dequeue(i: nat)
      requires i < |pending|
      modifies this`pending
      ensures pending == old(pending[..i] + pending[i + 1..])
    {
      pending := pending[..i] + pending[i + 1..];
    }

    /** The swap scheduled by an animated render fires: its content replaces
        the body's and the body fades in. */
    method FireSwap(i: nat)
      requires Valid() && i < |pending| && pending[i].SwapIn?
      modifies this
      ensures Valid()
      ensures pending == old(pending[..i] + pending[i + 1..])
      ensures bodyContent == Some(old(pending[i].content)) && fadeIn && !fadeOut
      ensures currentSlides == old(currentSlides) && currentSlide == old(currentSlide)
      ensures open == old(open) && ariaHidden == old(ariaHidden) && bodyLocked == old(bodyLocked)
      ensures lockedScrollY == old(lockedScrollY) && scrollY == old(scrollY)
    {
      var content := pending[i].content;
      Dequeue(i);
      bodyContent := Some(content);
      fadeOut := false;
      fadeIn := true;
    }

    /** The fade-in cue scheduled on opening fires. */
    method FireFadeIn(i: nat)
      requires Valid() && i < |pending| && pending[i].FadeInCue?
      modifies this
      ensures Valid()
      ensures pending == old(pending[..i] + pending[i + 1..])
      ensures fadeIn && fadeOut == old(fadeOut) && bodyContent == old(bodyContent)
      ensures currentSlides == old(currentSlides) && currentSlide == old(currentSlide)
      ensures open == old(open) && ariaHidden == old(ariaHidden) && bodyLocked == old(bodyLocked)
      ensures lockedScrollY == old(lockedScrollY) && scrollY == old(scrollY)
    {
      Dequeue(i);
      fadeIn := true;
    }

    /** The hiding scheduled by a close fires: the modal is hidden and
        emptied, and the page is unlocked at the offset captured on opening. */
    method FireClose(i: nat)
      requires Valid() && i < |pending| && pending[i].FinishClose?
      modifies this
      ensures Valid()
      ensures pending == old(pending[..i] + pending[i + 1..])
      ensures !open && ariaHidden && !bodyLocked
      ensures !fadeOut && fadeIn == old(fadeIn) && bodyContent == None
      ensures currentSlides == [] && currentSlide == 0
      ensures lockedScrollY == old(lockedScrollY) && scrollY == old(lockedScrollY)
    {
      Dequeue(i);
      open := false;
      ariaHidden := true;
      fadeOut := false;
      bodyContent := None;
      currentSlides := [];
      currentSlide := 0;
      UnlockBackgroundScroll();
    }
  }

  /** A visit: open a card scrolled to `y`, let the fade-in cue fire, press
      ArrowRight and let the swap fire, then press Escape and let the hiding
      fire. The second slide is shown in between, and at the end the modal
      is hidden and empty and the page is back at `y`. */
  method OpenNextEscape(card: Card, y: nat)
    returns (shown: Option<Content>, finalScroll: nat, finalOpen: bool, finalContent: Option<Content>)
    requires |BuildSlides(card)| >= 2
    ensures shown == Some(BuildSlides(card)[1])
    ensures finalScroll == y && !finalOpen && finalContent == None
  {
    var slides := BuildSlides(card);
    var m := new Modal(y);
    m.OpenModalWithCard(card);
    assert m.open && m.currentSlide == 0 && m.lockedScrollY == y && m.pending == [FadeInCue];
    m.FireFadeIn(0);
    assert m.pending == [] && m.currentSlides == slides;
    m.KeyDown(ArrowRight);
    assert m.currentSlide == NextSlide(0, |slides|) == 1;
    assert m.pending == [SwapIn(slides[1])];
    m.FireSwap(0);
    shown := m.bodyContent;
    assert m.open && m.lockedScrollY == y && m.pending == [];
    m.KeyDown(Escape);
    assert m.pending == [FinishClose] && m.lockedScrollY == y;
    m.FireClose(0);
    finalScroll, finalOpen, finalContent := m.scrollY, m.open, m.bodyContent;
  }

  /** Opening a second card while the page is still locked (focus is not
      trapped in the modal, and a close only takes effect after its fade)
      captures the offset of the locked page, 0, so the final close scrolls
      to the top instead of back to `y`. */
  method ReopenWhileLocked(first: Card, second: Card, y: nat) returns (finalOpen: bool, finalScroll: nat)
    requires BuildSlides(first) != [] && BuildSlides(second) != []
    ensures !finalOpen && finalScroll == 0
  {
    var m := new Modal(y);
    m.OpenModalWithCard(first);
    assert m.lockedScrollY == y && m.scrollY == 0;
    m.OpenModalWithCard(second);
    assert m.open && m.lockedScrollY == 0;
    m.KeyDown(Escape);
    assert m.pending == [FadeInCue, FadeInCue, FinishClose];
    m.FireClose(2);
    finalOpen, finalScroll := m.open, m.scrollY;
  }

  /** Opening a card with nothing to show leaves a closed modal closed and
      the page where it was. */
  method OpenEmptyCard(card: Card, y: nat) returns (isOpen: bool, locked: bool, scroll: nat)
    requires BuildSlides(card) == []
    ensures !isOpen && !locked && scroll == y
  {
    var m := new Modal(y);
    m.OpenModalWithCard(card);
    isOpen, locked, scroll := m.open, m.bodyLocked, m.scrollY;
  }

  /** Timers are never cancelled: ArrowRight followed at once by Escape lets
      the hiding (after 180 ms) fire before the swap (after 200 ms), so the
      hidden modal's body is filled again with the second slide. */
  method SwapAfterClose(card: Card, y: nat) returns (finalOpen: bool, finalContent: Option<Content>, finalScroll: nat)
    requires |BuildSlides(card)| >= 2
    ensures !finalOpen && finalScroll == y
    ensures finalContent == Some(BuildSlides(card)[1])
  {
    var slides := BuildSlides(card);
    var m := new Modal(y);
    m.OpenModalWithCard(card);
    assert m.open && m.currentSlide == 0 && m.lockedScrollY == y && m.pending == [FadeInCue];
    m.FireFadeIn(0);
    assert m.pending == [] && m.currentSlides == slides;
    m.KeyDown(ArrowRight);
    assert m.currentSlide == NextSlide(0, |slides|) == 1;
    assert m.open && m.lockedScrollY == y && m.pending == [SwapIn(slides[1])];
    m.KeyDown(Escape);
    assert m.pending == [SwapIn(BuildSlides(card)[1]), FinishClose];
    assert FinishClose.Delay() < SwapIn(BuildSlides(card)[1]).Delay();
    m.FireClose(1);
    m.FireSwap(0);
    finalOpen, finalContent, finalScroll := m.open, m.bodyContent, m.scrollY;
  }
}
