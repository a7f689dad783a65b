/**
 Properties of the slide navigation over single events and over arbitrary
 finite sequences of events.
 */
module NavigationProperties {
  import opened Deck
  import opened Navigation

  /** The page numbers its slides 1..N in document order. */
  predicate Canonical(slides: seq<Slide>)
  {
    forall i :: 0 <= i < |slides| ==> slides[i].ordinal == i + 1
  }

  /** Exactly one slide is active, and it is the one numbered `currentSlide`. */
  predicate Displays(p: Presentation)
  {
    && InRange(p)
    && forall i :: 0 <= i < |p.slides| ==> (p.slides[i].active <==> i == p.current - 1)
  }

  /* The events that are key presses other than the two arrow keys. */
  predicate IgnoredKeys(events: seq<Event>)
  {
    forall i :: 0 <= i < |events| ==> events[i].KeyDown? && events[i].key != "ArrowLeft" && events[i].key != "ArrowRight"
  }

  // ---------------------------------------------------------------------------
  // showSlide
  // ---------------------------------------------------------------------------

  /** The relation `ShowsSlide` leaves no choice: there is one state that shows slide `n`. */
  lemma ShowsSlideDeterministic(p: Presentation, n: int, r1: Presentation, r2: Presentation)
    requires ShowsSlide(p, n, r1) && ShowsSlide(p, n, r2)
    ensures r1 == r2
  {
    assert |r1.slides| == |r2.slides|;
    forall i | 0 <= i < |r1.slides|
      ensures r1.slides[i] == r2.slides[i]
    {
      assert r1.slides[i].ordinal == p.slides[i].ordinal == r2.slides[i].ordinal;
      assert r1.slides[i].active == IsFirstWithOrdinal(p.slides, i, n) == r2.slides[i].active;
    }
    assert r1.slides == r2.slides;
  }

  /**
   After `showSlide(n)` no slide other than the first one with ordinal `n` is
   active; when that slide exists it is the only active one and
   `currentSlide` is `n`, and when it does not, every slide is inactive and
   `currentSlide` and the counter are untouched.
   */
  lemma ShowSlideActivatesFirstMatch(p: Presentation, n: int)
    ensures forall i :: IsFirstWithOrdinal(p.slides, i, n) ==> ActiveSet(ShowSlide(p, n).slides) == {i}
    ensures HasOrdinal(p.slides, n) ==> ShowSlide(p, n).current == n
    ensures !HasOrdinal(p.slides, n) ==>
              && ActiveSet(ShowSlide(p, n).slides) == {}
              && ShowSlide(p, n).current == p.current
              && ShowSlide(p, n).counter == p.counter
  {
    var r := ShowSlide(p, n);
    forall i | IsFirstWithOrdinal(p.slides, i, n)
      ensures ActiveSet(r.slides) == {i}
    {
      forall j | j in ActiveSet(r.slides)
        ensures j == i
      {
        assert IsFirstWithOrdinal(p.slides, j, n);
      }
    }
    assert forall j :: j in ActiveSet(r.slides) ==> IsFirstWithOrdinal(p.slides, j, n);
  }

  /** On a canonically numbered deck every in-range request succeeds and displays slide `n`. */
  lemma CanonicalShow(p: Presentation, n: int)
    requires Canonical(p.slides)
    requires 1 <= n <= |p.slides|
    ensures Displays(ShowSlide(p, n))
    ensures ShowSlide(p, n).current == n
    ensures CounterAgrees(ShowSlide(p, n))
  {
    assert p.slides[n - 1].ordinal == n;
    assert IsFirstWithOrdinal(p.slides, n - 1, n);
    ShowSlideActivatesFirstMatch(p, n);
  }

  // ---------------------------------------------------------------------------
  // Single events
  // ---------------------------------------------------------------------------

  /** The arrow keys produce exactly the transitions of the buttons; any other key changes nothing. */
  lemma KeysMatchButtons(p: Presentation, key: string)
    ensures Step(p, KeyDown("ArrowLeft")) == Step(p, PrevClick)
    ensures Step(p, KeyDown("ArrowRight")) == Step(p, NextClick)
    ensures key != "ArrowLeft" && key != "ArrowRight" ==> Step(p, KeyDown(key)) == p
  {
  }

  /**
   On a canonically numbered deck an event either changes nothing or moves
   to a neighbouring slide that it then displays alone, with the counter
   refreshed.
   */
  lemma CanonicalStep(p: Presentation, e: Event)
    requires Canonical(p.slides) && InRange(p)
    ensures Step(p, e) == p || (Displays(Step(p, e)) && CounterAgrees(Step(p, e)))
    ensures Displays(p) ==> Displays(Step(p, e))
  {
    var r := Step(p, e);
    if r != p {
      if r.current == p.current - 1 {
        CanonicalShow(p, p.current - 1);
      } else if r.current == p.current + 1 {
        CanonicalShow(p, p.current + 1);
      } else {
        // Same current slide: the guard must have failed, or the request
        // would have moved to a neighbour.
        assert r.current == p.current;
        if p.current > 1 { CanonicalShow(p, p.current - 1); }
        if p.current < |p.slides| { CanonicalShow(p, p.current + 1); }
      }
    }
  }

  /* Two decks with the same ordinals and the same active slides are the same deck. */
  lemma SameDeck(a: seq<Slide>, b: seq<Slide>)
    requires SameOrdinals(a, b) && ActiveSet(a) == ActiveSet(b)
    ensures a == b
  {
    forall i | 0 <= i < |a|
      ensures a[i] == b[i]
    {
      assert a[i].active <==> i in ActiveSet(a);
      assert b[i].active <==> i in ActiveSet(b);
    }
  }

  /** On a deck numbered 1..N that shows its current slide, Previous followed by Next returns to exactly the same state. */
  lemma PreviousThenNext(p: Presentation)
    requires Canonical(p.slides) && Displays(p) && CounterAgrees(p)
    requires p.current > 1
    ensures Next(Previous(p)) == p
  {
    var q := Previous(p);
    CanonicalShow(p, p.current - 1);
    assert q.current == p.current - 1 && SameOrdinals(p.slides, q.slides);
    var r := Next(q);
    assert r == ShowSlide(q, p.current);
    CanonicalShow(q, p.current);
    assert SameOrdinals(q.slides, r.slides);
    SameDeck(r.slides, p.slides);
  }

  /** On a deck numbered 1..N that shows its current slide, Next followed by Previous returns to exactly the same state. */
  lemma NextThenPrevious(p: Presentation)
    requires Canonical(p.slides) && Displays(p) && CounterAgrees(p)
    requires p.current < |p.slides|
    ensures Previous(Next(p)) == p
  {
    var q := Next(p);
    CanonicalShow(p, p.current + 1);
    assert q.current == p.current + 1 && SameOrdinals(p.slides, q.slides);
    var r := Previous(q);
    assert r == ShowSlide(q, p.current);
    CanonicalShow(q, p.current);
    assert SameOrdinals(q.slides, r.slides);
    SameDeck(r.slides, p.slides);
  }

  // ---------------------------------------------------------------------------
  // Sequences of events
  // ---------------------------------------------------------------------------

  /** Previous/Next/key events never leave the deck's range: the state clamps at both ends. */
  lemma {:induction false} RunClampsToRange(p: Presentation, events: seq<Event>)
    requires InRange(p)
    ensures InRange(Run(p, events))
    decreases |events|
  {
    if |events| > 0 {
      RunClampsToRange(Step(p, events[0]), events[1..]);
    }
  }

  /** From the initial state of a non-empty deck, any sequence of events keeps `1 <= currentSlide <= totalSlides`. */
  lemma InitRunInRange(slides: seq<Slide>, events: seq<Event>)
    requires |slides| >= 1
    ensures 1 <= Run(Init(slides), events).current <= |slides|
  {
    RunClampsToRange(Init(slides), events);
    RunKeepsSlides(Init(slides), events);
  }

  /** Events change only `active` flags: the slides and their ordinals stay as they were. */
  lemma {:induction false} RunKeepsSlides(p: Presentation, events: seq<Event>)
    ensures SameOrdinals(p.slides, Run(p, events).slides)
    decreases |events|
  {
    if |events| > 0 {
      RunKeepsSlides(Step(p, events[0]), events[1..]);
    }
  }

  /** The counter shows `(currentSlide, totalSlides)` after initialisation and after every event. */
  lemma {:induction false} RunCounterAgrees(p: Presentation, events: seq<Event>)
    requires CounterAgrees(p)
    ensures CounterAgrees(Run(p, events))
    decreases |events|
  {
    if |events| > 0 {
      RunCounterAgrees(Step(p, events[0]), events[1..]);
    }
  }

  /** Corollary: from initialisation the counter is always in step with `currentSlide`. */
  lemma InitRunCounterAgrees(slides: seq<Slide>, events: seq<Event>)
    ensures CounterAgrees(Run(Init(slides), events))
  {
    RunCounterAgrees(Init(slides), events);
  }

  /**
   On a canonically numbered deck a sequence of events either changes nothing
   at all or leaves exactly one active slide, the one numbered `currentSlide`.
   */
  lemma {:induction false} CanonicalRun(p: Presentation, events: seq<Event>)
    requires Canonical(p.slides) && InRange(p)
    ensures Run(p, events) == p || Displays(Run(p, events))
    decreases |events|
  {
    if |events| > 0 {
      var q := Step(p, events[0]);
      CanonicalStep(p, events[0]);
      if Displays(q) {
        RunDisplays(q, events[1..]);
      }
      CanonicalRun(q, events[1..]);
    }
  }

  /* Once a canonical deck displays its current slide, it keeps doing so. */
  lemma {:induction false} RunDisplays(p: Presentation, events: seq<Event>)
    requires Canonical(p.slides) && Displays(p)
    ensures Displays(Run(p, events))
    decreases |events|
  {
    if |events| > 0 {
      var q := Step(p, events[0]);
      CanonicalStep(p, events[0]);
      RunDisplays(q, events[1..]);
    }
  }

  /** Key presses other than the arrows, in any number, change nothing. */
  lemma {:induction false} IgnoredKeysChangeNothing(p: Presentation, events: seq<Event>)
    requires IgnoredKeys(events)
    ensures Run(p, events) == p
    decreases |events|
  {
    if |events| > 0 {
      assert IgnoredKeys(events[1..]) by {
        forall i | 0 <= i < |events[1..]|
          ensures events[1..][i] == events[i + 1]
        {
        }
      }
      IgnoredKeysChangeNothing(Step(p, events[0]), events[1..]);
    }
  }

  /** `k` presses of Next on a canonical deck reach `min(currentSlide + k, totalSlides)`; they never wrap. */
  lemma {:induction false} NextRepeatedClamps(p: Presentation, k: nat)
    requires Canonical(p.slides) && InRange(p)
    ensures Run(p, Repeat(NextClick, k)).current == if p.current + k <= |p.slides| then p.current + k else |p.slides|
    decreases k
  {
    if k > 0 {
      var q := Step(p, NextClick);
      if p.current < |p.slides| {
        CanonicalShow(p, p.current + 1);
      }
      assert Repeat(NextClick, k)[1..] == Repeat(NextClick, k - 1);
      NextRepeatedClamps(q, k - 1);
    }
  }

  /** `k` presses of Previous on a canonical deck reach `max(currentSlide - k, 1)`; they never wrap. */
  lemma {:induction false} PreviousRepeatedClamps(p: Presentation, k: nat)
    requires Canonical(p.slides) && InRange(p)
    ensures Run(p, Repeat(PrevClick, k)).current == if p.current - k >= 1 then p.current - k else 1
    decreases k
  {
    if k > 0 {
      var q := Step(p, PrevClick);
      if p.current > 1 {
        CanonicalShow(p, p.current - 1);
      }
      assert Repeat(PrevClick, k)[1..] == Repeat(PrevClick, k - 1);
      PreviousRepeatedClamps(q, k - 1);
    }
  }

  /**
   Five canonically numbered slides: four presses of Next reach slide 5, a
   fifth stays there, and one press of Previous then returns to slide 4.
   */
  lemma FiveSlideWalk(slides: seq<Slide>)
    requires |slides| == 5 && Canonical(slides)
    ensures Run(Init(slides), Repeat(NextClick, 4)).current == 5
    ensures Run(Init(slides), Repeat(NextClick, 5)).current == 5
    ensures Run(Run(Init(slides), Repeat(NextClick, 5)), [PrevClick]).current == 4
  {
    var p := Init(slides);
    NextRepeatedClamps(p, 4);
    NextRepeatedClamps(p, 5);
    var q := Run(p, Repeat(NextClick, 5));
    RunClampsToRange(p, Repeat(NextClick, 5));
    RunKeepsSlides(p, Repeat(NextClick, 5));
    PreviousRepeatedClamps(q, 1);
    assert Repeat(PrevClick, 1) == [PrevClick];
  }

  // ---------------------------------------------------------------------------
  // Edge cases of the page
  // ---------------------------------------------------------------------------

  /**
   With no slides at all, initialisation puts `currentSlide` at 1, outside
   the range 1..0, the counter reads `1 / 0`, and no event ever moves it.
   */
  lemma {:induction false} EmptyDeckStuckOutOfRange(events: seq<Event>)
    ensures !InRange(Init([]))
    ensures Init([]).counter == Counter(1, 0)
    ensures Run(Init([]), events) == Init([])
    decreases |events|
  {
    if |events| > 0 {
      assert Step(Init([]), events[0]) == Init([]);
      EmptyDeckStuckOutOfRange(events[1..]);
    }
  }

  /**
   A gap in the numbering blanks the deck: with ordinals 1 and 3, Next from
   slide 1 asks for slide 2, finds none, deactivates every slide and stays on
   slide 1.
   */
  lemma GapBlanksDeck()
    ensures var p := Init([Slide(1, true), Slide(3, false)]);
            && Next(p).current == 1
            && ActiveSet(Next(p).slides) == {}
            && ActiveSet(p.slides) == {0}
  {
    var p := Init([Slide(1, true), Slide(3, false)]);
    assert !HasOrdinal(p.slides, 2);
    ShowSlideActivatesFirstMatch(p, 2);
    assert 0 in ActiveSet(p.slides);
  }
}
