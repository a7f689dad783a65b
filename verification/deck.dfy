/**
 The slide deck of `initializeSlides`: the `.slide` elements with their
 `data-slide` ordinals and `active` classes, the current slide number, and the
 text of the counter element, together with `showSlide`, the one operation
 that changes them.
 */
module Deck {

  datatype Option<T> = None | Some(value: T)

  /** One `.slide` element: its `data-slide` ordinal and whether it carries the `active` class. */
  datatype Slide = Slide(ordinal: int, active: bool)

  /** What the counter element displays, `shown / total`, as a pair rather than a string. */
  datatype Counter = Counter(shown: int, total: int)

  /** The closure state of `initializeSlides`. `totalSlides` is always `|slides|`. */
  datatype Presentation = Presentation(slides: seq<Slide>, current: int, counter: Counter)

  /* Some slide carries ordinal `n`. */
  predicate HasOrdinal(slides: seq<Slide>, n: int)
  {
    exists i :: 0 <= i < |slides| && slides[i].ordinal == n
  }

  /* Slide `i` is the first one, in document order, whose ordinal is `n`. */
  predicate IsFirstWithOrdinal(slides: seq<Slide>, i: int, n: int)
  {
    && 0 <= i < |slides|
    && slides[i].ordinal == n
    && forall j :: 0 <= j < i ==> slides[j].ordinal != n
  }

  /* The indices of the slides carrying the `active` class. */
  function ActiveSet(slides: seq<Slide>): set<nat>
  {
    set i: nat | i < |slides| && slides[i].active
  }

  /* Both sequences list the same slides with the same ordinals, whatever their flags. */
  predicate SameOrdinals(a: seq<Slide>, b: seq<Slide>)
  {
    && |a| == |b|
    && forall i :: 0 <= i < |a| ==> a[i].ordinal == b[i].ordinal
  }

  /** The counter agrees with the state: it shows `currentSlide / totalSlides`. */
  predicate CounterAgrees(p: Presentation)
  {
    p.counter == Counter(p.current, |p.slides|)
  }

  /** `currentSlide` is a slide number of the deck. */
  predicate InRange(p: Presentation)
  {
    1 <= p.current <= |p.slides|
  }

  /**
   What showing slide `n` on `p` must produce, stated independently of how
   `ShowSlide` computes it: the same slides, where only the first one with
   ordinal `n` is active; when that slide exists, `currentSlide` is `n` and the
   counter shows it, otherwise both are left as they were.
   */
  predicate ShowsSlide(p: Presentation, n: int, r: Presentation)
  {
    && SameOrdinals(p.slides, r.slides)
    && (forall i :: 0 <= i < |r.slides| ==> (r.slides[i].active <==> IsFirstWithOrdinal(p.slides, i, n)))
    && (if HasOrdinal(p.slides, n)
        then r.current == n && r.counter == Counter(n, |p.slides|)
        else r.current == p.current && r.counter == p.counter)
  }

  /** The first slide, in document order, whose `data-slide` ordinal is `n`, if there is one. */
  function FindOrdinal(slides: seq<Slide>, n: int): (r: Option<nat>)
    ensures r.Some? <==> HasOrdinal(slides, n)
    ensures r.Some? ==> IsFirstWithOrdinal(slides, r.value, n)
  {
    if |slides| == 0 then None
    else if slides[0].ordinal == n then Some(0)
    else
      match FindOrdinal(slides[1..], n)
      case None =>
        assert forall i :: 1 <= i < |slides| ==> slides[i] == slides[1..][i - 1];
        None
      case Some(k) =>
        assert slides[k + 1] == slides[1..][k];
        Some(k + 1)
  }

  /* Remove the `active` class from every slide. */
  function Deactivate(slides: seq<Slide>): (r: seq<Slide>)
    ensures SameOrdinals(slides, r)
    ensures ActiveSet(r) == {}
  {
    seq(|slides|, i requires 0 <= i < |slides| => slides[i].(active := false))
  }

  /** `updateSlideCounter`: display the current slide number over the number of slides. */
  function UpdateCounter(p: Presentation): (r: Presentation)
    ensures CounterAgrees(r)
    ensures r.slides == p.slides && r.current == p.current
  {
    p.(counter := Counter(p.current, |p.slides|))
  }

  /**
   `showSlide(n)`: deactivate every slide, then, only if some slide carries
   ordinal `n`, activate the first such slide, set `currentSlide` to `n` and
   refresh the counter.
   */
  function ShowSlide(p: Presentation, n: int): (r: Presentation)
    ensures ShowsSlide(p, n, r)
  {
    var cleared := Deactivate(p.slides);
    match FindOrdinal(p.slides, n)
    case None => p.(slides := cleared)
    case Some(i) =>
      UpdateCounter(Presentation(cleared[i := cleared[i].(active := true)], n, p.counter))
  }

  /**
   The state right after `initializeSlides` returns: `currentSlide` is 1 and the
   counter shows it, while the slides keep whatever `active` classes the page
   had; nothing is activated.
   */
  function Init(slides: seq<Slide>): (r: Presentation)
    ensures r.slides == slides
    ensures r.current == 1
    ensures CounterAgrees(r)
  {
    UpdateCounter(Presentation(slides, 1, Counter(0, 0)))
  }
}
