/** The committee poster carousel (components/committee-carousel.tsx): the
    active committees that have a poster image, in display order; a current
    slide moved by the arrows, the dots and a timer that stops while the
    mouse is over it. */
module CommitteeCarousel {
  import opened Common
  import opened Schema
  import opened Seqs
  import Committees
  import PosterCarousel

  /** `committee.isActive && committee.posterImageUrl`: an empty URL is falsy. */
  predicate Shown(c: Committee)
  {
    c.isActive && c.posterImageUrl.Some? && c.posterImageUrl.value != ""
  }

  /** `activeCommittees`: filtered, then sorted stably by display order. */
  function ActiveCommittees(committees: seq<Committee>): (r: seq<Committee>)
    ensures multiset(r) == multiset(Filter(committees, Shown))
    ensures SortedBy(r, Committees.OrderLe)
    ensures forall i :: 0 <= i < |r| ==> Shown(r[i])
  {
    Committees.OrderLeIsPreorder();
    SortBySorted(Filter(committees, Shown), Committees.OrderLe);
    SortByKeeps(Filter(committees, Shown), Committees.OrderLe, Shown);
    SortBy(Filter(committees, Shown), Committees.OrderLe)
  }

  /** `Array.prototype.sort` is stable: among committees with the same
      display order the slides keep the order of the fetched list. */
  lemma SlidesStable(committees: seq<Committee>, d: int)
    ensures Filter(ActiveCommittees(committees), (c: Committee) => c.displayOrder == d)
         == Filter(Filter(committees, Shown), (c: Committee) => c.displayOrder == d)
  {
    SortByStable(Filter(committees, Shown), Committees.OrderLe, (c: Committee) => c.displayOrder == d);
  }

  /** Every slide also has a poster in the database's sense: the carousel
      shows a subset of what `getActiveCommittees` returns. */
  lemma SlidesHavePosters(committees: seq<Committee>)
    ensures forall i :: 0 <= i < |ActiveCommittees(committees)| ==> Committees.HasPoster(ActiveCommittees(committees)[i])
  {
  }

  /** `i === n - 1 ? 0 : i + 1`, the step of the arrows and of the timer. */
  function Next(i: nat, n: nat): (r: nat)
    requires n >= 1
  {
    if i == n - 1 then 0 else i + 1
  }

  /** On the slide numbers this is the same step as the poster carousel's
      `(i + 1) % n`. */
  lemma NextIsModular(i: nat, n: nat)
    requires i < n
    ensures Next(i, n) == PosterCarousel.Next(i, n) && Next(i, n) < n
  {
  }

  /** The left arrow's step is the poster carousel's, and undoes `Next`. */
  lemma PrevUndoesNext(i: nat, n: nat)
    requires i < n
    ensures PosterCarousel.Prev(Next(i, n), n) == i && Next(PosterCarousel.Prev(i, n), n) == i
  {
  }

  /** One drawn slide: its committee, and whether it is the opaque one. */
  datatype SlideView = SlideView(committee: Committee, isOpaque: bool)

  /** What the component draws: the "No committee images available" panel, or
      every slide stacked with one of them opaque, plus, for more than one
      slide, the arrows and one dot per slide, the current one highlighted. */
  datatype View = NoImages | Deck(slides: seq<SlideView>, controls: bool, dots: seq<bool>)

  class Carousel {
    const slides: seq<Committee>
    var currentIndex: nat
    var isAutoPlaying: bool

    ghost predicate Valid()
      reads this
    {
      slides == [] || currentIndex < |slides|
    }

    constructor (committees: seq<Committee>)
      ensures Valid() && slides == ActiveCommittees(committees) && currentIndex == 0 && isAutoPlaying
    {
      slides := ActiveCommittees(committees);
      currentIndex := 0;
      isAutoPlaying := true;
    }

    /** The rendered view. */
    function Render(): (v: View)
      requires Valid()
      reads this
      ensures slides == [] <==> v.NoImages?
      ensures v.Deck? ==> |v.slides| == |slides|
                          && (forall i :: 0 <= i < |slides| ==> v.slides[i].committee == slides[i])
                          && (forall i :: 0 <= i < |slides| ==> (v.slides[i].isOpaque <==> i == currentIndex))
      ensures v.Deck? ==> (v.controls <==> |slides| > 1)
      ensures v.Deck? ==> (v.controls ==> |v.dots| == |slides|) && (!v.controls ==> v.dots == [])
      ensures v.Deck? ==> forall i :: 0 <= i < |v.dots| ==> (v.dots[i] <==> i == currentIndex)
    {
      if slides == [] then NoImages
      else
        var s, k := slides, currentIndex;
        var drawn := seq(|s|, i requires 0 <= i < |s| => SlideView(s[i], i == k));
        var dots := if |s| > 1 then seq(|s|, i => i == k) else [];
        Deck(drawn, |slides| > 1, dots)
    }

    /** With at least one slide, exactly one drawn slide is opaque, and with
        more than one the highlighted dot is the opaque slide's. */
    lemma ExactlyOneOpaque()
      requires Valid() && slides != []
      ensures Render().Deck?
      ensures exists i :: 0 <= i < |Render().slides| && Render().slides[i].isOpaque
      ensures forall i, j :: (0 <= i < |Render().slides| && 0 <= j < |Render().slides|
                             && Render().slides[i].isOpaque && Render().slides[j].isOpaque) ==> i == j
      ensures forall i :: 0 <= i < |Render().dots| ==> (Render().dots[i] <==> Render().slides[i].isOpaque)
    {
      var v := Render();
      assert v.slides[currentIndex].isOpaque;
    }

    method GoToPrevious()
      requires Valid() && |slides| > 1
      modifies this
      ensures Valid() && currentIndex == PosterCarousel.Prev(old(currentIndex), |slides|)
      ensures isAutoPlaying == old(isAutoPlaying)
    {
      currentIndex := if currentIndex == 0 then |slides| - 1 else currentIndex - 1;
    }

    method GoToNext()
      requires Valid() && |slides| > 1
      modifies this
      ensures Valid() && currentIndex == Next(old(currentIndex), |slides|)
      ensures isAutoPlaying == old(isAutoPlaying)
    {
      currentIndex := if currentIndex == |slides| - 1 then 0 else currentIndex + 1;
    }

    method GoToSlide(k: nat)
      requires Valid() && k < |slides|
      modifies this
      ensures Valid() && currentIndex == k && isAutoPlaying == old(isAutoPlaying)
    {
      currentIndex := k;
    }

    /** One firing of the timer, which runs only while auto-playing with more
        than one slide. */
    method Tick()
      requires Valid()
      modifies this
      ensures Valid() && isAutoPlaying == old(isAutoPlaying)
      ensures isAutoPlaying && |slides| > 1 ==> currentIndex == Next(old(currentIndex), |slides|)
      ensures !isAutoPlaying || |slides| <= 1 ==> currentIndex == old(currentIndex)
    {
      if isAutoPlaying && |slides| > 1 {
        currentIndex := if currentIndex == |slides| - 1 then 0 else currentIndex + 1;
      }
    }

    method MouseEnter()
      modifies this
      ensures !isAutoPlaying && currentIndex == old(currentIndex)
    {
      isAutoPlaying := false;
    }

    method MouseLeave()
      modifies this
      ensures isAutoPlaying && currentIndex == old(currentIndex)
    {
      isAutoPlaying := true;
    }
  }
}
