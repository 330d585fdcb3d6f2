/** The event management page (app/admin/events/page.tsx): the search over
    the loaded events, the upcoming/past counts, the edit form and the request
    a save sends. Dates arrive as instants; `iso` is `toISOString`. */
module AdminEventsPage {
  import opened Common
  import opened Seqs
  import V1Api
  import Schema

  /** An event as the page receives it. */
  datatype PageEvent = PageEvent(
    id: nat, title: string, description: string, venue: string,
    startDatetime: int, endDatetime: Option<int>, imageUrl: Option<string>)

  /** `filterEvents`: title, venue or description contains the term, ignoring case. */
  function FilterEvents(events: seq<PageEvent>, term: string): (r: seq<PageEvent>)
    ensures term == "" ==> r == events
    ensures term != "" ==> forall i :: 0 <= i < |events| ==>
              (events[i] in r <== Hit(events[i], term))
    ensures term != "" ==> forall i :: 0 <= i < |r| ==> Hit(r[i], term)
    ensures IsSubseq(r, events)
  {
    Search(events, term, e => Hit(e, term))
  }

  predicate Hit(e: PageEvent, term: string)
  {
    IncludesCI(e.title, term) || IncludesCI(e.venue, term) || IncludesCI(e.description, term)
  }

  /** `isUpcoming`: the start is strictly after now. */
  predicate IsUpcoming(start: int, now: int)
  {
    start > now
  }

  /** An event starting exactly now is listed under Past here, while the
      public listings still show it as upcoming. */
  lemma StartingNowDiffers(e: Schema.Event, now: int)
    requires e.startDatetime == now
    ensures !IsUpcoming(e.startDatetime, now) && V1Api.Upcoming(e, now)
  {
  }

  function UpcomingCount(events: seq<PageEvent>, now: int): nat
  {
    |Filter(events, (e: PageEvent) => IsUpcoming(e.startDatetime, now))|
  }

  function PastCount(events: seq<PageEvent>, now: int): nat
  {
    |Filter(events, (e: PageEvent) => !IsUpcoming(e.startDatetime, now))|
  }

  /** The Upcoming and Past cards add up to the Total card. */
  lemma CountsAddUp(events: seq<PageEvent>, now: int)
    ensures UpcomingCount(events, now) + PastCount(events, now) == |events|
  {
    FilterComplement(events, (e: PageEvent) => IsUpcoming(e.startDatetime, now), (e: PageEvent) => !IsUpcoming(e.startDatetime, now));
  }

  // ----- the form -----

  datatype EventForm = EventForm(
    title: string, description: string, venue: string,
    startDatetime: string, endDatetime: string, imageUrl: string)

  const EmptyForm := EventForm("", "", "", "", "", "")

  const EventsApi := "/api/admin/events"

  /** The request a save sends: the form as its body. */
  datatype Request = Request(verb: string, url: string, body: EventForm)

  /** `handleSubmit`'s request: an edit goes to the event's own URL with PUT,
      a new event to the collection with POST. */
  function SaveRequest(form: EventForm, editing: Option<PageEvent>): (r: Request)
    ensures r.body == form
    ensures editing.None? ==> r.verb == "POST" && r.url == EventsApi
    ensures editing.Some? ==> r.verb == "PUT" && r.url == EventsApi + "/" + NatToDecimal(editing.value.id)
  {
    if editing.Some? then Request("PUT", EventsApi + "/" + NatToDecimal(editing.value.id), form)
    else Request("POST", EventsApi, form)
  }

  /** `new Date(d).toISOString().slice(0, 16)`, the value a
      `datetime-local` input takes. */
  function LocalInput(d: int, iso: int -> string): (r: string)
    ensures |r| <= 16 && r <= iso(d)
    ensures r == iso(d)[..if |iso(d)| < 16 then |iso(d)| else 16]
  {
    Prefix(iso(d), 16)
  }

  /** `handleEdit`'s form: the texts as they are, the start as a local input
      value, a missing end and a missing image URL as "". */
  function EditForm(e: PageEvent, iso: int -> string): (f: EventForm)
    ensures f.title == e.title && f.description == e.description && f.venue == e.venue
    ensures f.startDatetime == LocalInput(e.startDatetime, iso)
    ensures e.endDatetime.None? ==> f.endDatetime == ""
    ensures e.endDatetime.Some? ==> f.endDatetime == LocalInput(e.endDatetime.value, iso)
    ensures e.imageUrl.None? ==> f.imageUrl == ""
    ensures e.imageUrl.Some? ==> f.imageUrl == e.imageUrl.value
  {
    EventForm(e.title, e.description, e.venue, LocalInput(e.startDatetime, iso),
              if e.endDatetime.Some? then LocalInput(e.endDatetime.value, iso) else "",
              if e.imageUrl.Some? then e.imageUrl.value else "")
  }

  /** The page's state: `filtered` follows the events and the search term. */
  class Page {
    var events: seq<PageEvent>
    var searchTerm: string
    var filtered: seq<PageEvent>
    var form: EventForm
    var editing: Option<PageEvent>
    var showAddDialog: bool
    var showEditDialog: bool

    ghost predicate Valid()
      reads this
    {
      filtered == FilterEvents(events, searchTerm)
    }

    constructor ()
      ensures Valid() && events == [] && searchTerm == "" && form == EmptyForm && editing.None?
      ensures !showAddDialog && !showEditDialog
    {
      events := [];
      searchTerm := "";
      filtered := [];
      form := EmptyForm;
      editing := None;
      showAddDialog := false;
      showEditDialog := false;
    }

    /** `setEvents(data)` after a successful fetch. */
    method Loaded(rows: seq<PageEvent>)
      modifies this
      ensures Valid() && events == rows
      ensures searchTerm == old(searchTerm) && form == old(form) && editing == old(editing)
      ensures showAddDialog == old(showAddDialog) && showEditDialog == old(showEditDialog)
    {
      events := rows;
      filtered := FilterEvents(events, searchTerm);
    }

    method SetSearchTerm(term: string)
      modifies this
      ensures Valid() && searchTerm == term
      ensures events == old(events) && form == old(form) && editing == old(editing)
      ensures showAddDialog == old(showAddDialog) && showEditDialog == old(showEditDialog)
    {
      searchTerm := term;
      filtered := FilterEvents(events, searchTerm);
    }

    method ResetForm()
      requires Valid()
      modifies this
      ensures Valid() && form == EmptyForm && editing.None?
      ensures events == old(events) && searchTerm == old(searchTerm)
      ensures showAddDialog == old(showAddDialog) && showEditDialog == old(showEditDialog)
    {
      form := EmptyForm;
      editing := None;
    }

    /** The Add Event button: an empty form in the add dialog. */
    method OpenAdd()
      requires Valid()
      modifies this
      ensures Valid() && form == EmptyForm && editing.None? && showAddDialog
      ensures events == old(events) && searchTerm == old(searchTerm) && showEditDialog == old(showEditDialog)
    {
      ResetForm();
      showAddDialog := true;
    }

    method HandleEdit(e: PageEvent, iso: int -> string)
      requires Valid()
      modifies this
      ensures Valid() && editing == Some(e) && form == EditForm(e, iso) && showEditDialog
      ensures events == old(events) && searchTerm == old(searchTerm) && showAddDialog == old(showAddDialog)
    {
      editing := Some(e);
      form := EditForm(e, iso);
      showEditDialog := true;
    }

    /** `handleSubmit`: the request sent; an ok answer resets the form and
        closes both dialogs, any other answer leaves everything as it was. */
    method HandleSubmit(ok: bool) returns (req: Request)
      requires Valid()
      modifies this
      ensures req == SaveRequest(old(form), old(editing))
      ensures Valid() && events == old(events) && searchTerm == old(searchTerm)
      ensures ok ==> form == EmptyForm && editing.None? && !showAddDialog && !showEditDialog
      ensures !ok ==> form == old(form) && editing == old(editing)
                      && showAddDialog == old(showAddDialog) && showEditDialog == old(showEditDialog)
    {
      req := SaveRequest(form, editing);
      if ok {
        ResetForm();
        showAddDialog := false;
        showEditDialog := false;
      }
    }
  }
}
