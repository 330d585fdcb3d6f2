/** The public events page (app/events/page.tsx): two queries over the event
    table, upcoming events soonest first and the twenty most recent past
    events latest first. A failing query shows an empty list. */
module EventsPage {
  import opened Common
  import opened Schema
  import opened Seqs
  import V1Api
  import EventsApi

  const PastLimit := 20

  /** `startDatetime: { lt: new Date() }`. */
  predicate Past(e: Event, now: int)
  {
    e.startDatetime < now
  }

  /** `getUpcomingEvents`: the same filter and order as the token-protected
      listing, without a window. */
  function UpcomingEvents(rows: seq<Event>, now: int, dbUp: bool): (r: seq<Event>)
    ensures !dbUp ==> r == []
    ensures dbUp ==> r == V1Api.UpcomingSoonestFirst(rows, now)
    ensures forall i :: 0 <= i < |r| ==> r[i].startDatetime >= now
    ensures forall i, j :: 0 <= i < j < |r| ==> r[i].startDatetime <= r[j].startDatetime
  {
    if !dbUp then []
    else
      var r := V1Api.UpcomingSoonestFirst(rows, now);
      assert forall i, j :: 0 <= i < j < |r| ==> V1Api.EarlierStart(r[i], r[j]);
      r
  }

  /** Every past event, latest first. */
  function PastLatestFirst(rows: seq<Event>, now: int): (r: seq<Event>)
    ensures multiset(r) == multiset(Filter(rows, e => Past(e, now)))
    ensures forall i, j :: 0 <= i < j < |r| ==> r[i].startDatetime >= r[j].startDatetime
    ensures forall i :: 0 <= i < |r| ==> r[i].startDatetime < now
  {
    var p := Filter(rows, e => Past(e, now));
    EventsApi.LatestFirstIsPreorder();
    SortBySorted(p, EventsApi.LatestFirst);
    SortByKeeps(p, EventsApi.LatestFirst, (e: Event) => e.startDatetime < now);
    SortBy(p, EventsApi.LatestFirst)
  }

  /** `getPastEvents`: `take: 20` of the past events, latest first. */
  function PastEvents(rows: seq<Event>, now: int, dbUp: bool): (r: seq<Event>)
    ensures !dbUp ==> r == []
    ensures dbUp ==> r == Prefix(PastLatestFirst(rows, now), PastLimit)
    ensures |r| <= PastLimit
  {
    if !dbUp then [] else Prefix(PastLatestFirst(rows, now), PastLimit)
  }

  /** The two conditions split the table: each event meets exactly one. */
  lemma UpcomingOrPast(rows: seq<Event>, now: int)
    ensures |Filter(rows, e => V1Api.Upcoming(e, now))| + |Filter(rows, e => Past(e, now))| == |rows|
  {
    FilterComplement(rows, e => V1Api.Upcoming(e, now), e => Past(e, now));
  }

  /** No event is shown in both lists. */
  lemma NoEventInBoth(rows: seq<Event>, now: int, dbUp: bool)
    ensures forall i, j :: 0 <= i < |UpcomingEvents(rows, now, dbUp)| && 0 <= j < |PastEvents(rows, now, dbUp)| ==>
              UpcomingEvents(rows, now, dbUp)[i] != PastEvents(rows, now, dbUp)[j]
  {
    var u := UpcomingEvents(rows, now, dbUp);
    var p := PastEvents(rows, now, dbUp);
    assert forall j :: 0 <= j < |p| ==> p[j].startDatetime < now by {
      if dbUp {
        assert forall j :: 0 <= j < |p| ==> p[j] == PastLatestFirst(rows, now)[j];
      }
    }
  }

  /** The past list is the twenty most recent past events: it holds all of
      them when there are at most twenty, and otherwise none that it leaves
      out started later than one it shows. */
  lemma MostRecentPast(rows: seq<Event>, now: int)
    ensures var all := PastLatestFirst(rows, now);
            var shown := PastEvents(rows, now, true);
            && (|all| <= PastLimit ==> multiset(shown) == multiset(Filter(rows, e => Past(e, now))))
            && |shown| == (if |all| <= PastLimit then |all| else PastLimit)
            && forall i, j :: 0 <= i < |shown| && |shown| <= j < |all| ==> shown[i].startDatetime >= all[j].startDatetime
  {
    var all := PastLatestFirst(rows, now);
    var shown := PastEvents(rows, now, true);
    assert forall i :: 0 <= i < |shown| ==> shown[i] == all[i];
  }
}
