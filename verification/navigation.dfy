/**
 The event handlers `initializeSlides` registers: the previous and next
 buttons and the `keydown` listener, and the replay of a sequence of events.
 */
module Navigation {
  import opened Deck

  /** An input the handlers react to: a click on either button, or a key press with its `key` value. */
  datatype Event = PrevClick | NextClick | KeyDown(key: string)

  /** The previous-button handler: show the slide before the current one unless it is slide 1. */
  function Previous(p: Presentation): (r: Presentation)
    ensures p.current <= 1 ==> r == p
    ensures p.current > 1 ==> ShowsSlide(p, p.current - 1, r)
  {
    if p.current > 1 then ShowSlide(p, p.current - 1) else p
  }

  /** The next-button handler: show the slide after the current one unless it is the last. */
  function Next(p: Presentation): (r: Presentation)
    ensures p.current >= |p.slides| ==> r == p
    ensures p.current < |p.slides| ==> ShowsSlide(p, p.current + 1, r)
  {
    if p.current < |p.slides| then ShowSlide(p, p.current + 1) else p
  }

  /**
   The `keydown` listener. It does not call the button handlers: it repeats
   their guards itself, ArrowLeft showing the previous slide unless the current
   one is slide 1, ArrowRight the next slide unless the current one is the last.
   */
  function Key(p: Presentation, key: string): (r: Presentation)
    ensures key == "ArrowLeft" && p.current > 1 ==> ShowsSlide(p, p.current - 1, r)
    ensures key == "ArrowLeft" && p.current <= 1 ==> r == p
    ensures key == "ArrowRight" && p.current < |p.slides| ==> ShowsSlide(p, p.current + 1, r)
    ensures key == "ArrowRight" && p.current >= |p.slides| ==> r == p
    ensures key != "ArrowLeft" && key != "ArrowRight" ==> r == p
  {
    if key == "ArrowLeft" then
      if p.current > 1 then ShowSlide(p, p.current - 1) else p
    else if key == "ArrowRight" then
      if p.current < |p.slides| then ShowSlide(p, p.current + 1) else p
    else p
  }

  /** Dispatch one event to its handler. */
  function Step(p: Presentation, e: Event): (r: Presentation)
    ensures SameOrdinals(p.slides, r.slides)
    ensures InRange(p) ==> InRange(r)
    ensures CounterAgrees(p) ==> CounterAgrees(r)
    ensures r.current == p.current || r.current == p.current - 1 || r.current == p.current + 1
  {
    match e
    case PrevClick => Previous(p)
    case NextClick => Next(p)
    case KeyDown(k) => Key(p, k)
  }

  /** The state after the handlers have run on `events`, in order. */
  function Run(p: Presentation, events: seq<Event>): Presentation
    decreases |events|
  {
    if |events| == 0 then p else Run(Step(p, events[0]), events[1..])
  }

  /** `k` copies of one event. */
  function Repeat(e: Event, k: nat): (r: seq<Event>)
    ensures |r| == k
    ensures forall i :: 0 <= i < k ==> r[i] == e
  {
    if k == 0 then [] else [e] + Repeat(e, k - 1)
  }
}
