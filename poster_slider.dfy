/** The home-page hero slider (components/poster-slider.tsx): it fetches the
    public posters once, keeps the active ones in the order received, and
    shows one of them at a time, moved by the arrows, the dots and a timer. */
module PosterSlider {
  import opened Common
  import opened Schema
  import opened Seqs
  import PosterCarousel

  /** What the component shows. */
  datatype View = Loading | Welcome | Slide(poster: Poster, index: nat, controls: bool)

  class Slider {
    var posters: seq<Poster>
    var currentIndex: nat
    var loading: bool

    /** Before the answer arrives there is nothing to show; afterwards the
        index names a poster whenever there is one. */
    ghost predicate Valid()
      reads this
    {
      && (loading ==> posters == [] && currentIndex == 0)
      && (posters == [] || currentIndex < |posters|)
    }

    constructor ()
      ensures Valid() && loading && posters == [] && currentIndex == 0
    {
      posters := [];
      currentIndex := 0;
      loading := true;
    }

    /** The end of `fetchPosters`. `data` is the list an ok answer carried;
        None is an answer that was not ok or a request that threw. Either way
        loading ends. */
    method FetchDone(data: Option<seq<Poster>>)
      requires Valid() && loading
      modifies this
      ensures Valid() && !loading && currentIndex == 0
      ensures data.Some? ==> posters == Filter(data.value, PosterCarousel.IsActive)
      ensures data.None? ==> posters == []
    {
      if data.Some? {
        posters := Filter(data.value, PosterCarousel.IsActive);
      }
      loading := false;
    }

    /** The rendered view: the loading panel first, the welcome text when no
        poster is active, otherwise the current poster; arrows and dots only
        for more than one poster. */
    function Render(): (v: View)
      requires Valid()
      reads this
      ensures loading <==> v.Loading?
      ensures v.Welcome? <==> !loading && posters == []
      ensures v.Slide? ==> v.poster == posters[currentIndex] && v.index == currentIndex
                           && (v.controls <==> |posters| > 1)
    {
      if loading then Loading
      else if posters == [] then Welcome
      else Slide(posters[currentIndex], currentIndex, |posters| > 1)
    }

    /** The left arrow. */
    method GoToPrevious()
      requires Valid() && |posters| > 1
      modifies this
      ensures Valid() && posters == old(posters) && loading == old(loading)
      ensures currentIndex == PosterCarousel.Prev(old(currentIndex), |posters|)
    {
      currentIndex := if currentIndex == 0 then |posters| - 1 else currentIndex - 1;
    }

    /** The right arrow. */
    method GoToNext()
      requires Valid() && |posters| > 1
      modifies this
      ensures Valid() && posters == old(posters) && loading == old(loading)
      ensures currentIndex == PosterCarousel.Next(old(currentIndex), |posters|)
    {
      currentIndex := (currentIndex + 1) % |posters|;
    }

    /** Dot `k`; the dots offer exactly the poster numbers. */
    method GoToSlide(k: nat)
      requires Valid() && !loading && k < |posters|
      modifies this
      ensures Valid() && posters == old(posters) && loading == old(loading) && currentIndex == k
    {
      currentIndex := k;
    }

    /** One firing of the five-second timer, which exists only for more than
        one poster. */
    method Tick()
      requires Valid()
      modifies this
      ensures Valid() && posters == old(posters) && loading == old(loading)
      ensures |posters| > 1 ==> currentIndex == PosterCarousel.Next(old(currentIndex), |posters|)
      ensures |posters| <= 1 ==> currentIndex == old(currentIndex)
    {
      if |posters| > 1 {
        currentIndex := (currentIndex + 1) % |posters|;
      }
    }
  }

  /** Each shown poster is an active poster the answer carried, in the order
      the answer carried them, and none of the active ones is dropped. */
  lemma ShownAreActive(data: seq<Poster>)
    ensures IsSubseq(Filter(data, PosterCarousel.IsActive), data)
    ensures forall i :: 0 <= i < |Filter(data, PosterCarousel.IsActive)| ==> Filter(data, PosterCarousel.IsActive)[i].isActive
    ensures forall i :: 0 <= i < |data| && data[i].isActive ==> data[i] in Filter(data, PosterCarousel.IsActive)
  {
    FilterIsSubseq(data, PosterCarousel.IsActive);
  }

  /** With the timer running, as many ticks as there are posters bring the
      slider back to the poster it started on. */
  method TimerCycles(s: Slider)
    requires s.Valid() && |s.posters| > 1
    modifies s
    ensures s.Valid() && s.posters == old(s.posters) && s.currentIndex == old(s.currentIndex)
  {
    var n := |s.posters|;
    var k := 0;
    while k < n
      invariant 0 <= k <= n
      invariant s.Valid() && s.posters == old(s.posters) && s.loading == old(s.loading)
      invariant s.currentIndex == PosterCarousel.Advance(old(s.currentIndex), n, k)
    {
      s.Tick();
      k := k + 1;
    }
    PosterCarousel.FullTurn(old(s.currentIndex), n);
  }
}
