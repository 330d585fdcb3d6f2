/** The poster management page (app/admin/posters/page.tsx): the role check
    that sends non-admins away, the save that first uploads a newly chosen
    image, the visibility toggle, and the form's reset. */
module AdminPostersPage {
  import opened Common
  import opened Schema
  import Auth
  import Gates
  import Upload
  import Permissions

  // ----- role check -----

  datatype Effect = RedirectTo(path: string) | FetchPosters

  /** The page's first effect: a session without an admin role (including no
      session at all) is sent to the dashboard and nothing is fetched. */
  function OnSession(session: Option<Auth.SessionUser>): (e: Effect)
    ensures e.FetchPosters? <==> session.Some? && session.value.role.Some? && Permissions.IsAdmin(session.value.role.value)
    ensures e.RedirectTo? ==> e.path == "/dashboard"
  {
    if session.Some? && (session.value.role == Some(RoleSuperAdmin) || session.value.role == Some(RoleCommitteeAdmin))
    then FetchPosters
    else RedirectTo("/dashboard")
  }

  /** The page admits exactly the sessions the poster API admits. */
  lemma PageGateIsApiGate(session: Option<Auth.SessionUser>)
    ensures OnSession(session).FetchPosters? <==> Gates.TwoRoleGate(session)
  {
  }

  // ----- form and requests -----

  datatype PosterForm = PosterForm(
    title: string, description: string, linkUrl: string, displayOrder: int, isActive: bool)

  const EmptyForm := PosterForm("", "", "", 0, true)

  const PostersApi := "/api/admin/posters"

  /** A request body: none, `{ isActive }` alone, or the form with the image URL
      (None is `undefined`, which `JSON.stringify` leaves out). */
  datatype Body = NoBody | ActiveOnly(isActive: bool) | Save(form: PosterForm, imageUrl: Option<string>)

  datatype Request = Request(verb: string, url: string, body: Body)

  function PosterUrl(id: nat): string
  {
    PostersApi + "/" + NatToDecimal(id)
  }

  /** `editingPoster?.imageUrl || ""`: the URL the save starts from. */
  function KeptImageUrl(editing: Option<Poster>): (r: string)
    ensures editing.None? ==> r == ""
    ensures editing.Some? ==> r == editing.value.imageUrl
  {
    if editing.Some? && editing.value.imageUrl != "" then editing.value.imageUrl else ""
  }

  /** The save request: PUT to the poster's URL while editing, POST to the
      collection otherwise. */
  function SaveRequest(form: PosterForm, imageUrl: Option<string>, editing: Option<Poster>): (r: Request)
    ensures r.body == Save(form, imageUrl)
    ensures editing.Some? ==> r.verb == "PUT" && r.url == PosterUrl(editing.value.id)
    ensures editing.None? ==> r.verb == "POST" && r.url == PostersApi
  {
    if editing.Some? then Request("PUT", PosterUrl(editing.value.id), Save(form, imageUrl))
    else Request("POST", PostersApi, Save(form, imageUrl))
  }

  /** `toggleActive`: a PUT whose body holds nothing but the flipped flag. */
  function ToggleRequest(p: Poster): (r: Request)
    ensures r.verb == "PUT" && r.url == PosterUrl(p.id) && r.body == ActiveOnly(!p.isActive)
  {
    Request("PUT", PosterUrl(p.id), ActiveOnly(!p.isActive))
  }

  /** `handleDelete` after the confirmation. */
  function DeleteRequest(p: Poster): (r: Request)
    ensures r.verb == "DELETE" && r.url == PosterUrl(p.id) && r.body == NoBody
  {
    Request("DELETE", PosterUrl(p.id), NoBody)
  }

  /** `handleEdit`'s form: the poster's texts, with a missing description or
      link shown as "". */
  function EditForm(p: Poster): (f: PosterForm)
    ensures f.title == p.title && f.displayOrder == p.displayOrder && f.isActive == p.isActive
    ensures f.description == (if p.description.Some? then p.description.value else "")
    ensures f.linkUrl == (if p.linkUrl.Some? then p.linkUrl.value else "")
  {
    PosterForm(p.title, if p.description.Some? then p.description.value else "",
               if p.linkUrl.Some? then p.linkUrl.value else "", p.displayOrder, p.isActive)
  }

  /** `response.ok` for the upload route's answers. */
  predicate ResponseOk(reply: Upload.Reply)
  {
    200 <= reply.status < 300
  }

  /** The page's state. */
  class Page {
    var posters: seq<Poster>
    var loading: bool
    var showForm: bool
    var editing: Option<Poster>
    var form: PosterForm
    var posterImage: Option<Upload.UploadFile>
    var preview: string
    var isSubmitting: bool

    constructor ()
      ensures posters == [] && loading && !showForm && editing.None? && form == EmptyForm
      ensures posterImage.None? && preview == "" && !isSubmitting
    {
      posters := [];
      loading := true;
      showForm := false;
      editing := None;
      form := EmptyForm;
      posterImage := None;
      preview := "";
      isSubmitting := false;
    }

    /** The end of `fetchPosters`: an ok answer replaces the posters. */
    method FetchDone(data: Option<seq<Poster>>)
      modifies this
      ensures !loading
      ensures data.Some? ==> posters == data.value
      ensures data.None? ==> posters == old(posters)
      ensures showForm == old(showForm) && editing == old(editing) && form == old(form)
      ensures posterImage == old(posterImage) && preview == old(preview) && isSubmitting == old(isSubmitting)
    {
      if data.Some? {
        posters := data.value;
      }
      loading := false;
    }

    /** `resetForm`: default texts, no image and no preview, not editing, form closed. */
    method ResetForm()
      modifies this
      ensures form == EmptyForm && posterImage.None? && preview == "" && editing.None? && !showForm
      ensures posters == old(posters) && loading == old(loading) && isSubmitting == old(isSubmitting)
    {
      form := EmptyForm;
      posterImage := None;
      preview := "";
      editing := None;
      showForm := false;
    }

    /** `handleEdit`: the poster's texts in the form and its image as the
        preview; an image chosen earlier stays chosen. */
    method HandleEdit(p: Poster)
      modifies this
      ensures editing == Some(p) && form == EditForm(p) && preview == p.imageUrl && showForm
      ensures posterImage == old(posterImage) && posters == old(posters) && isSubmitting == old(isSubmitting)
    {
      editing := Some(p);
      form := EditForm(p);
      preview := p.imageUrl;
      showForm := true;
    }

    /** `handleImageChange`: a chosen file becomes the image to upload and its
        data URL (read by the browser, a parameter here) the preview. */
    method HandleImageChange(file: Option<Upload.UploadFile>, dataUrl: string)
      modifies this
      ensures file.Some? ==> posterImage == file && preview == dataUrl
      ensures file.None? ==> posterImage == old(posterImage) && preview == old(preview)
      ensures form == old(form) && editing == old(editing) && showForm == old(showForm) && posters == old(posters)
    {
      if file.Some? {
        posterImage := file;
        preview := dataUrl;
      }
    }

    /** `handleSubmit`. The image URL starts as the edited poster's; a newly
        chosen image is uploaded first (`upload` is the route's answer), and
        an upload that is not ok throws before anything is saved. `ok` is the
        save's answer and `refetched` what the list fetch then returns. */
    method HandleSubmit(upload: Upload.Reply, ok: bool, refetched: Option<seq<Poster>>) returns (sent: Option<Request>)
      modifies this
      ensures !isSubmitting
      ensures old(posterImage).Some? && !ResponseOk(upload) ==>
                sent.None? && form == old(form) && editing == old(editing) && posters == old(posters)
                && showForm == old(showForm) && posterImage == old(posterImage) && preview == old(preview)
      ensures old(posterImage).None? ==>
                sent == Some(SaveRequest(old(form), Some(KeptImageUrl(old(editing))), old(editing)))
      ensures old(posterImage).Some? && ResponseOk(upload) ==>
                sent == Some(SaveRequest(old(form), upload.imageUrl, old(editing)))
      ensures sent.Some? && ok ==>
                form == EmptyForm && posterImage.None? && preview == "" && editing.None? && !showForm
                && posters == (if refetched.Some? then refetched.value else old(posters))
      ensures sent.Some? && !ok ==>
                form == old(form) && editing == old(editing) && posters == old(posters)
                && showForm == old(showForm) && posterImage == old(posterImage) && preview == old(preview)
    {
      isSubmitting := true;
      var imageUrl: Option<string> := Some(KeptImageUrl(editing));
      if posterImage.Some? {
        if ResponseOk(upload) {
          imageUrl := upload.imageUrl;
        } else {
          isSubmitting := false;
          return None;
        }
      }
      var req := SaveRequest(form, imageUrl, editing);
      sent := Some(req);
      if ok {
        FetchDone(refetched);
        ResetForm();
      }
      isSubmitting := false;
    }
  }

  /** Saving an edit without choosing a new image sends the poster's own
      image URL back; creating without an image sends "". */
  lemma EditKeepsImage(p: Poster, form: PosterForm)
    ensures SaveRequest(form, Some(KeptImageUrl(Some(p))), Some(p)).body == Save(form, Some(p.imageUrl))
    ensures SaveRequest(form, Some(KeptImageUrl(None)), None).body == Save(form, Some(""))
  {
  }

  /** With the route's own answer to an accepted file, the save carries the
      public URL of the stored file. */
  lemma UploadedImageIsSaved(form: PosterForm, editing: Option<Poster>, file: Upload.UploadFile,
                             timestamp: nat, random: seq<Upload.byte>)
    ensures var f := Upload.Filename(timestamp, random, file.name);
            var reply := Upload.Reply(200, None, Some(Upload.ImageUrl(f)), Some(f));
            ResponseOk(reply) && SaveRequest(form, reply.imageUrl, editing).body == Save(form, Some(Upload.ImageUrl(f)))
  {
  }

  /** A file the upload route refuses never leads to a save. */
  lemma RefusedUploadAborts(file: Upload.UploadFile)
    requires Upload.Check(Some(file)).Some?
    ensures !ResponseOk(Upload.Check(Some(file)).value)
  {
  }
}
