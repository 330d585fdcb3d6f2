/** The committee management page (app/admin/committees/page.tsx): the search
    over the loaded committees, the add/edit form and how its handlers change
    it, the image upload into the form, and the requests the page sends. */
module AdminCommitteesPage {
  import opened Common
  import opened Schema
  import opened Seqs
  import Upload

  /** `filteredCommittees`: name or session year contains the term, ignoring
      case. There is no guard on the term: the empty term is contained in
      every text. */
  predicate Hit(c: Committee, term: string)
  {
    IncludesCI(c.name, term) || IncludesCI(c.sessionYear, term)
  }

  function FilterCommittees(committees: seq<Committee>, term: string): (r: seq<Committee>)
    ensures forall i :: 0 <= i < |r| ==> Hit(r[i], term) && r[i] in committees
    ensures forall i :: 0 <= i < |committees| && Hit(committees[i], term) ==> committees[i] in r
  {
    Filter(committees, (c: Committee) => Hit(c, term))
  }

  /** The empty term lists every committee, in order. */
  lemma EmptyTermShowsAll(committees: seq<Committee>)
    ensures FilterCommittees(committees, "") == committees
  {
    forall i | 0 <= i < |committees|
      ensures Hit(committees[i], "")
    {
      ContainsEmpty(Lower(committees[i].name));
    }
    FilterAll(committees, (c: Committee) => Hit(c, ""));
  }

  // ----- the form -----

  /** `formData`. An image URL None is `undefined`, which `JSON.stringify`
      leaves out of the body. */
  datatype CommitteeForm = CommitteeForm(
    name: string, description: string, sessionYear: string,
    committeeImageUrl: Option<string>, posterImageUrl: Option<string>,
    isActive: bool, displayOrder: int)

  /** The initial state of `formData`, which `resetForm` restores. */
  const InitialForm := CommitteeForm("", "", "", Some(""), Some(""), true, 0)

  /** `openEditModal`'s form: the committee's fields, with a missing
      description or image URL shown as "". */
  function EditForm(c: Committee): (f: CommitteeForm)
    ensures f.name == c.name && f.sessionYear == c.sessionYear
    ensures f.isActive == c.isActive && f.displayOrder == c.displayOrder
    ensures f.description == (if c.description.Some? then c.description.value else "")
    ensures f.committeeImageUrl == Some(if c.committeeImageUrl.Some? then c.committeeImageUrl.value else "")
    ensures f.posterImageUrl == Some(if c.posterImageUrl.Some? then c.posterImageUrl.value else "")
  {
    CommitteeForm(c.name, OrEmpty(c.description), c.sessionYear,
                  Some(OrEmpty(c.committeeImageUrl)), Some(OrEmpty(c.posterImageUrl)),
                  c.isActive, c.displayOrder)
  }

  /** `value || ""`. */
  function OrEmpty(o: Option<string>): string
  {
    if o.Some? then o.value else ""
  }

  /** Opening a committee that has every optional text shows those texts
      unchanged: nothing but a missing value is replaced. */
  lemma EditFormKeepsPresent(c: Committee)
    requires c.description.Some? && c.committeeImageUrl.Some? && c.posterImageUrl.Some?
    ensures EditForm(c) == CommitteeForm(c.name, c.description.value, c.sessionYear,
                                         c.committeeImageUrl, c.posterImageUrl, c.isActive, c.displayOrder)
  {
  }

  /** `parseInt(text) || 0`: the leading integer of the input, and 0 when it
      has none (NaN is falsy; so is 0, which gives 0 as well). */
  function DisplayOrderInput(text: string): (r: int)
    ensures ParseInt(text).None? ==> r == 0
    ensures ParseInt(text).Some? ==> r == ParseInt(text).value
  {
    match ParseInt(text)
    case Some(n) => if n != 0 then n else 0
    case None => 0
  }

  /** The input shows the display order as its decimal text, and reading that
      text back gives the same order. */
  lemma DisplayOrderReadsBack(n: nat)
    ensures DisplayOrderInput(NatToDecimal(n)) == n
  {
    ParseDecimal(n);
  }

  /** An input with no digit at all leaves the order at 0. */
  lemma NoDigitsIsZero(text: string)
    requires forall i :: 0 <= i < |text| ==> !IsDigit(text[i])
    ensures DisplayOrderInput(text) == 0
  {
  }

  // ----- the image upload -----

  datatype ImageKind = CommitteeImage | PosterImage

  /** A top-level key of the upload route's JSON answer, as the page reads it:
      None is `undefined`. Only `imageUrl`, `filename` and `error` are keys the
      route writes that this model carries; `url` is not written at all. */
  function AnswerField(reply: Upload.Reply, key: string): (r: Option<string>)
    ensures key == "imageUrl" ==> r == reply.imageUrl
    ensures key == "url" ==> r.None?
  {
    if key == "imageUrl" then reply.imageUrl
    else if key == "filename" then reply.filename
    else if key == "error" then reply.error
    else None
  }

  /** The form with one image field set and every other field kept. */
  function WithImage(form: CommitteeForm, kind: ImageKind, url: Option<string>): (f: CommitteeForm)
    ensures kind == CommitteeImage ==> f == form.(committeeImageUrl := url)
    ensures kind == PosterImage ==> f == form.(posterImageUrl := url)
  {
    match kind
    case CommitteeImage => form.(committeeImageUrl := url)
    case PosterImage => form.(posterImageUrl := url)
  }

  /** `response.ok` for the upload route's answers. */
  predicate ResponseOk(reply: Upload.Reply)
  {
    200 <= reply.status < 300
  }

  /** `handleImageUpload` as written: on an ok answer it stores `data.url`. */
  function UploadedAsWritten(form: CommitteeForm, kind: ImageKind, reply: Upload.Reply): CommitteeForm
  {
    if ResponseOk(reply) then WithImage(form, kind, AnswerField(reply, "url")) else form
  }

  /** As written, a successful upload leaves the image field `undefined`: the
      URL the route returned never reaches the form, and a save then sends no
      image URL at all. */
  lemma AsWrittenDropsUrl(form: CommitteeForm, kind: ImageKind, reply: Upload.Reply)
    requires ResponseOk(reply) && reply.imageUrl.Some?
    ensures kind == CommitteeImage ==> UploadedAsWritten(form, kind, reply).committeeImageUrl.None?
    ensures kind == PosterImage ==> UploadedAsWritten(form, kind, reply).posterImageUrl.None?
    ensures kind == CommitteeImage ==> UploadedAsWritten(form, kind, reply).committeeImageUrl != reply.imageUrl
  {
  }

  /** The same with the route's own answer to an accepted file. */
  lemma AsWrittenLosesRouteAnswer(form: CommitteeForm, file: Upload.UploadFile, timestamp: nat, random: seq<Upload.byte>)
    requires Upload.Check(Some(file)).None?
    ensures var f := Upload.Filename(timestamp, random, file.name);
            var reply := Upload.Reply(200, None, Some(Upload.ImageUrl(f)), Some(f));
            UploadedAsWritten(form, CommitteeImage, reply).committeeImageUrl != Some(Upload.ImageUrl(f))
  {
  }

  /** `handleImageUpload` reading the key the route writes, `imageUrl`. */
  function Uploaded(form: CommitteeForm, kind: ImageKind, reply: Upload.Reply): CommitteeForm
  {
    if ResponseOk(reply) then WithImage(form, kind, AnswerField(reply, "imageUrl")) else form
  }

  /** An ok answer puts the returned URL into the field of the chosen kind
      and changes no other field; any other answer changes nothing. */
  lemma UploadedUrlInForm(form: CommitteeForm, kind: ImageKind, reply: Upload.Reply)
    ensures ResponseOk(reply) && kind == CommitteeImage ==>
              Uploaded(form, kind, reply) == form.(committeeImageUrl := reply.imageUrl)
    ensures ResponseOk(reply) && kind == PosterImage ==>
              Uploaded(form, kind, reply) == form.(posterImageUrl := reply.imageUrl)
    ensures !ResponseOk(reply) ==> Uploaded(form, kind, reply) == form
    ensures var f := Uploaded(form, kind, reply);
            f.name == form.name && f.description == form.description && f.sessionYear == form.sessionYear
            && f.isActive == form.isActive && f.displayOrder == form.displayOrder
  {
  }

  /** With the route's own answer to an accepted file, the public URL of the
      stored file is what the form now holds. */
  lemma UploadReachesForm(form: CommitteeForm, kind: ImageKind, file: Upload.UploadFile, timestamp: nat, random: seq<Upload.byte>)
    ensures var f := Upload.Filename(timestamp, random, file.name);
            var reply := Upload.Reply(200, None, Some(Upload.ImageUrl(f)), Some(f));
            && (kind == CommitteeImage ==> Uploaded(form, kind, reply).committeeImageUrl == Some(Upload.ImageUrl(f)))
            && (kind == PosterImage ==> Uploaded(form, kind, reply).posterImageUrl == Some(Upload.ImageUrl(f)))
  {
  }

  // ----- requests -----

  const CommitteesApi := "/api/admin/committees"

  datatype Request = Request(verb: string, url: string, body: Option<CommitteeForm>)

  /** `handleAdd`'s request. */
  function AddRequest(form: CommitteeForm): (r: Request)
    ensures r.verb == "POST" && r.url == CommitteesApi && r.body == Some(form)
  {
    Request("POST", CommitteesApi, Some(form))
  }

  /** `handleEdit`'s request, to the selected committee's URL. */
  function EditRequest(id: nat, form: CommitteeForm): (r: Request)
    ensures r.verb == "PUT" && r.url == CommitteesApi + "/" + NatToDecimal(id) && r.body == Some(form)
  {
    Request("PUT", CommitteesApi + "/" + NatToDecimal(id), Some(form))
  }

  /** `handleDelete`'s request after the confirmation. */
  function DeleteRequest(id: nat): (r: Request)
    ensures r.verb == "DELETE" && r.url == CommitteesApi + "/" + NatToDecimal(id) && r.body.None?
  {
    Request("DELETE", CommitteesApi + "/" + NatToDecimal(id), None)
  }

  /** Edits of two different committees go to two different URLs. */
  lemma EditUrlsDistinct(a: nat, b: nat, form: CommitteeForm)
    requires a != b
    ensures EditRequest(a, form).url != EditRequest(b, form).url
  {
    ParseDecimal(a);
    ParseDecimal(b);
    var p := CommitteesApi + "/";
    assert EditRequest(a, form).url[|p|..] == NatToDecimal(a);
    assert EditRequest(b, form).url[|p|..] == NatToDecimal(b);
  }

  /** The page's state. The listing is computed from it at each render. */
  class Page {
    var committees: seq<Committee>
    var searchTerm: string
    var selected: Option<Committee>
    var form: CommitteeForm
    var isAddOpen: bool
    var isEditOpen: bool
    var isLoading: bool
    var isSubmitting: bool

    constructor ()
      ensures committees == [] && searchTerm == "" && selected.None? && form == InitialForm
      ensures !isAddOpen && !isEditOpen && isLoading && !isSubmitting
    {
      committees := [];
      searchTerm := "";
      selected := None;
      form := InitialForm;
      isAddOpen := false;
      isEditOpen := false;
      isLoading := true;
      isSubmitting := false;
    }

    function Listing(): (r: seq<Committee>)
      reads this
      ensures forall i :: 0 <= i < |r| ==> Hit(r[i], searchTerm) && r[i] in committees
    {
      FilterCommittees(committees, searchTerm)
    }

    /** The end of `fetchCommittees`: an ok answer replaces the committees. */
    method FetchDone(data: Option<seq<Committee>>)
      modifies this
      ensures !isLoading
      ensures data.Some? ==> committees == data.value
      ensures data.None? ==> committees == old(committees)
      ensures searchTerm == old(searchTerm) && selected == old(selected) && form == old(form)
      ensures isAddOpen == old(isAddOpen) && isEditOpen == old(isEditOpen) && isSubmitting == old(isSubmitting)
    {
      if data.Some? {
        committees := data.value;
      }
      isLoading := false;
    }

    method SetSearchTerm(term: string)
      modifies this
      ensures searchTerm == term && committees == old(committees) && form == old(form) && selected == old(selected)
      ensures isAddOpen == old(isAddOpen) && isEditOpen == old(isEditOpen)
    {
      searchTerm := term;
    }

    /** `resetForm`: the initial form, nothing else. */
    method ResetForm()
      modifies this
      ensures form == InitialForm
      ensures committees == old(committees) && searchTerm == old(searchTerm) && selected == old(selected)
      ensures isAddOpen == old(isAddOpen) && isEditOpen == old(isEditOpen) && isSubmitting == old(isSubmitting)
    {
      form := InitialForm;
    }

    method OpenEditModal(c: Committee)
      modifies this
      ensures selected == Some(c) && form == EditForm(c) && isEditOpen
      ensures committees == old(committees) && searchTerm == old(searchTerm) && isAddOpen == old(isAddOpen)
    {
      selected := Some(c);
      form := EditForm(c);
      isEditOpen := true;
    }

    /** Typing in either display-order input. */
    method SetDisplayOrder(text: string)
      modifies this
      ensures form == old(form).(displayOrder := DisplayOrderInput(text))
      ensures committees == old(committees) && selected == old(selected)
    {
      form := form.(displayOrder := DisplayOrderInput(text));
    }

    /** `handleImageUpload` once the upload has answered. */
    method HandleImageUploadCorrected(kind: ImageKind, reply: Upload.Reply)
      modifies this
      ensures form == Uploaded(old(form), kind, reply)
      ensures committees == old(committees) && selected == old(selected)
      ensures isAddOpen == old(isAddOpen) && isEditOpen == old(isEditOpen)
    {
      form := Uploaded(form, kind, reply);
    }

    /** `handleAdd`: the POST sent; on an ok answer the list is fetched again
        (`refetched`), the dialog closes and the form is reset; otherwise the
        form and dialog stay as they were. */
    method HandleAdd(ok: bool, refetched: Option<seq<Committee>>) returns (req: Request)
      modifies this
      ensures req == AddRequest(old(form)) && !isSubmitting
      ensures ok ==> form == InitialForm && !isAddOpen
                     && committees == (if refetched.Some? then refetched.value else old(committees))
      ensures !ok ==> form == old(form) && isAddOpen == old(isAddOpen) && committees == old(committees)
      ensures selected == old(selected) && isEditOpen == old(isEditOpen)
    {
      isSubmitting := true;
      req := AddRequest(form);
      if ok {
        FetchDone(refetched);
        isAddOpen := false;
        ResetForm();
      }
      isSubmitting := false;
    }

    /** `handleEdit`: nothing at all without a selected committee; otherwise
        the PUT sent, and on an ok answer the list fetched again, the dialog
        closed, the selection cleared and the form reset. */
    method HandleEdit(ok: bool, refetched: Option<seq<Committee>>) returns (req: Option<Request>)
      modifies this
      ensures old(selected).None? ==> req.None? && form == old(form) && committees == old(committees)
                                      && isEditOpen == old(isEditOpen) && isSubmitting == old(isSubmitting)
      ensures old(selected).Some? ==> req == Some(EditRequest(old(selected).value.id, old(form))) && !isSubmitting
      ensures old(selected).Some? && ok ==>
                form == InitialForm && !isEditOpen && selected.None?
                && committees == (if refetched.Some? then refetched.value else old(committees))
      ensures old(selected).Some? && !ok ==>
                form == old(form) && isEditOpen == old(isEditOpen) && selected == old(selected)
                && committees == old(committees)
      ensures isAddOpen == old(isAddOpen)
    {
      if selected.None? {
        return None;
      }
      isSubmitting := true;
      req := Some(EditRequest(selected.value.id, form));
      if ok {
        FetchDone(refetched);
        isEditOpen := false;
        selected := None;
        ResetForm();
      }
      isSubmitting := false;
    }
  }
}
