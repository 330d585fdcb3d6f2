/** The home-page poster carousel (components/poster-carousel.tsx): the
    active posters in display order, a current slide moved by the arrows, the
    indicators and a timer that pauses while the mouse is over it. The index
    arithmetic here is shared with the poster slider. */
module PosterCarousel {
  import opened Common
  import opened Schema
  import opened Seqs
  import PostersApi

  // ----- index arithmetic -----

  /** `(i + 1) % n`. */
  function Next(i: nat, n: nat): (r: nat)
    requires n >= 1
    ensures i < n ==> r < n
    ensures i < n - 1 ==> r == i + 1
    ensures i == n - 1 ==> r == 0
  {
    (i + 1) % n
  }

  /** `i === 0 ? n - 1 : i - 1`. */
  function Prev(i: nat, n: nat): (r: nat)
    requires n >= 1
    ensures i < n ==> r < n
    ensures i == 0 ==> r == n - 1
    ensures i > 0 ==> r == i - 1
  {
    if i == 0 then n - 1 else i - 1
  }

  /** Previous undoes next and next undoes previous. */
  lemma PrevNext(i: nat, n: nat)
    requires i < n
    ensures Prev(Next(i, n), n) == i && Next(Prev(i, n), n) == i
  {
  }

  /** `k` steps forward. */
  function Advance(i: nat, n: nat, k: nat): (r: nat)
    requires n >= 1
  {
    if k == 0 then i else Next(Advance(i, n, k - 1), n)
  }

  /** Up to one full turn, `k` steps forward land `k` slides further on,
      wrapping past the last slide once. */
  lemma {:induction false} AdvanceWraps(i: nat, n: nat, k: nat)
    requires i < n && k <= n
    ensures Advance(i, n, k) == if i + k < n then i + k else i + k - n
  {
    if k > 0 {
      AdvanceWraps(i, n, k - 1);
    }
  }

  /** `n` steps forward go round once and come back to the start. */
  lemma FullTurn(i: nat, n: nat)
    requires i < n
    ensures Advance(i, n, n) == i
  {
    AdvanceWraps(i, n, n);
  }

  // ----- the slides -----

  predicate IsActive(p: Poster)
  {
    p.isActive
  }

  /** `posters.filter(p => p.isActive).sort((a, b) => a.displayOrder - b.displayOrder)`:
      `sort` is stable, so posters with the same display order keep the order
      they were given in. */
  function ActivePosters(posters: seq<Poster>): (r: seq<Poster>)
    ensures multiset(r) == multiset(Filter(posters, IsActive))
    ensures SortedBy(r, PostersApi.OrderLe)
  {
    PostersApi.OrderLeIsPreorder();
    SortBySorted(Filter(posters, IsActive), PostersApi.OrderLe);
    SortBy(Filter(posters, IsActive), PostersApi.OrderLe)
  }

  /** The slides are exactly the active posters: every slide is active, and
      each active poster is a slide as often as it is given. */
  lemma SlidesAreActive(posters: seq<Poster>)
    ensures forall i :: 0 <= i < |ActivePosters(posters)| ==> ActivePosters(posters)[i].isActive
    ensures forall p :: p in posters && p.isActive ==> p in ActivePosters(posters)
  {
    var r := ActivePosters(posters);
    assert forall i :: 0 <= i < |r| ==> r[i] in multiset(Filter(posters, IsActive));
    forall p | p in posters && p.isActive
      ensures p in r
    {
      var k :| 0 <= k < |posters| && posters[k] == p;
      assert p in multiset(Filter(posters, IsActive));
    }
  }

  /** Among posters with the same display order the slides keep the given order. */
  lemma SlidesStable(posters: seq<Poster>, d: int)
    ensures Filter(ActivePosters(posters), (p: Poster) => p.displayOrder == d)
         == Filter(Filter(posters, IsActive), (p: Poster) => p.displayOrder == d)
  {
    SortByStable(Filter(posters, IsActive), PostersApi.OrderLe, (p: Poster) => p.displayOrder == d);
  }

  /** What the component shows: the placeholder, or one slide with or
      without arrows and indicators. */
  datatype View = Placeholder | Slide(poster: Poster, index: nat, controls: bool)

  class Carousel {
    const slides: seq<Poster>
    var currentIndex: nat
    var isPaused: bool

    /** The index always names a slide when there is one. */
    ghost predicate Valid()
      reads this
    {
      slides == [] || currentIndex < |slides|
    }

    constructor (posters: seq<Poster>)
      ensures Valid() && slides == ActivePosters(posters) && currentIndex == 0 && !isPaused
    {
      slides := ActivePosters(posters);
      currentIndex := 0;
      isPaused := false;
    }

    /** The rendered view: no slide is read when there is none, and the
        arrows and indicators appear only for more than one slide. */
    function Render(): (v: View)
      requires Valid()
      reads this
      ensures slides == [] <==> v.Placeholder?
      ensures v.Slide? ==> v.poster == slides[currentIndex] && v.index == currentIndex
                           && (v.controls <==> |slides| > 1)
    {
      if slides == [] then Placeholder else Slide(slides[currentIndex], currentIndex, |slides| > 1)
    }

    /** The left arrow, shown only for more than one slide. */
    method GoToPrevious()
      requires Valid() && |slides| > 1
      modifies this
      ensures Valid() && currentIndex == Prev(old(currentIndex), |slides|) && isPaused == old(isPaused)
    {
      currentIndex := if currentIndex == 0 then |slides| - 1 else currentIndex - 1;
    }

    /** The right arrow, shown only for more than one slide. */
    method GoToNext()
      requires Valid() && |slides| > 1
      modifies this
      ensures Valid() && currentIndex == Next(old(currentIndex), |slides|) && isPaused == old(isPaused)
    {
      currentIndex := (currentIndex + 1) % |slides|;
    }

    /** Indicator `k`; the indicators offer exactly the slide numbers. */
    method GoToSlide(k: nat)
      requires Valid() && k < |slides|
      modifies this
      ensures Valid() && currentIndex == k && isPaused == old(isPaused)
    {
      currentIndex := k;
    }

    /** One firing of the timer. The interval exists only while not paused
        and with more than one slide; otherwise nothing happens. */
    method Tick()
      requires Valid()
      modifies this
      ensures Valid() && isPaused == old(isPaused)
      ensures !isPaused && |slides| > 1 ==> currentIndex == Next(old(currentIndex), |slides|)
      ensures isPaused || |slides| <= 1 ==> currentIndex == old(currentIndex)
    {
      if !isPaused && |slides| > 1 {
        currentIndex := (currentIndex + 1) % |slides|;
      }
    }

    method MouseEnter()
      modifies this
      ensures isPaused && currentIndex == old(currentIndex)
    {
      isPaused := true;
    }

    method MouseLeave()
      modifies this
      ensures !isPaused && currentIndex == old(currentIndex)
    {
      isPaused := false;
    }
  }

  /** Going forward once and back once returns to the same slide. */
  method ForwardBack(c: Carousel)
    requires c.Valid() && |c.slides| > 1
    modifies c
    ensures c.currentIndex == old(c.currentIndex)
  {
    c.GoToNext();
    c.GoToPrevious();
    PrevNext(old(c.currentIndex), |c.slides|);
  }

  /** While the pointer rests on the carousel, the timer moves nothing. */
  method PausedStaysPut(c: Carousel)
    requires c.Valid()
    modifies c
    ensures c.currentIndex == old(c.currentIndex) && c.isPaused
  {
    c.MouseEnter();
    c.Tick();
    c.Tick();
  }
}
