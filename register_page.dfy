/** The sign-up form (app/register/page.tsx): client-side checks, the optional
    profile image upload, the registration request and the automatic sign-in.
    The three network calls are parameters holding their answers; the page
    records the requests it sends in `sent`, and `nav` is where it navigates. */
module RegisterPage {
  import opened Common
  import Upload
  import Register

  datatype Form = Form(
    name: string, email: string, password: string, confirmPassword: string, phone: string,
    firmName: string, business: string, locality: string, gotra: string)

  /** The JSON body of the registration request. */
  datatype Payload = Payload(
    name: string, email: string, password: string, phone: string,
    firmName: string, business: string, locality: string, gotra: string, profileImageUrl: string)

  datatype Request =
    | UploadImage(file: Upload.UploadFile)
    | PostRegister(payload: Payload)
    | SignIn(email: string, password: string)

  datatype Nav = Stay | ToLogin | ToDashboard

  /** What the upload endpoint answers: `ok` and, when ok, `imageUrl`. */
  datatype UploadAnswer = UploadAnswer(ok: bool, imageUrl: string)

  /** What the registration endpoint answers: `ok` and the body's `error`. */
  datatype RegisterAnswer = RegisterAnswer(ok: bool, error: Option<string>)

  const EmptyForm := Form("", "", "", "", "", "", "", "", "")

  const ClientAllowedTypes: seq<string> := ["image/jpeg", "image/jpg", "image/png", "image/webp"]
  const ClientMaxImageSize: nat := 5 * 1024 * 1024

  const MismatchError := "Passwords do not match"
  const ShortPasswordError := "Password must be at least 6 characters long"
  const UploadError := "Failed to upload profile image"
  const LoginAfterRegisterError := "Registration successful, but login failed. Please try logging in."

  /** The two checks made before anything is sent: a mismatch is reported
      before the length, which is counted in UTF-16 code units. */
  function ClientError(f: Form): (r: Option<string>)
    ensures r.None? <==> f.password == f.confirmPassword && Utf16Length(f.password) >= 6
    ensures f.password != f.confirmPassword ==> r == Some(MismatchError)
    ensures f.password == f.confirmPassword && Utf16Length(f.password) < 6 ==> r == Some(ShortPasswordError)
  {
    if f.password != f.confirmPassword then Some(MismatchError)
    else if Utf16Length(f.password) < 6 then Some(ShortPasswordError)
    else None
  }

  /** A password the client lets through also passes the server's length check. */
  lemma ClientLengthMatchesServer(f: Form)
    requires f.password == f.confirmPassword
    ensures ClientError(f).None? <==> !Register.ShortPassword(Str(f.password))
  {
  }

  function PayloadOf(f: Form, profileImageUrl: string): Payload
  {
    Payload(f.name, f.email, f.password, f.phone, f.firmName, f.business, f.locality, f.gotra, profileImageUrl)
  }

  /** `data.error || "Registration failed"`. */
  function RegisterMessage(error: Option<string>): (r: string)
    ensures error.Some? && error.value != "" ==> r == error.value
    ensures error.None? || error == Some("") ==> r == "Registration failed"
  {
    if error.Some? && error.value != "" then error.value else "Registration failed"
  }

  /** The image checks of `handleImageChange`. */
  predicate ClientImageOk(file: Upload.UploadFile)
  {
    file.mime in ClientAllowedTypes && file.size <= ClientMaxImageSize
  }

  /** The client accepts exactly the images the upload endpoint accepts. */
  lemma ClientImageMatchesServer(file: Upload.UploadFile)
    ensures ClientImageOk(file) <==> Upload.Check(Some(file)).None?
  {
  }

  predicate SendsRegister(s: seq<Request>)
  {
    exists r :: r in s && r.PostRegister?
  }

  predicate SendsSignIn(s: seq<Request>)
  {
    exists r :: r in s && r.SignIn?
  }

  /** What one submission does: the requests it sends, the error it leaves
      on screen and where it navigates (`nav0` is where the page was). */
  datatype Outcome = Outcome(sent: seq<Request>, error: string, nav: Nav)

  function Submit(f: Form, image: Option<Upload.UploadFile>, upload: UploadAnswer, register: RegisterAnswer,
                  signInFails: bool, nav0: Nav): (o: Outcome)
    // the client checks send nothing
    ensures ClientError(f).Some? ==> o == Outcome([], ClientError(f).value, nav0)
    // a chosen image is uploaded first, and a failed upload stops everything else
    ensures ClientError(f).None? && image.Some? ==> |o.sent| > 0 && o.sent[0] == UploadImage(image.value)
    ensures ClientError(f).None? && image.Some? && !upload.ok ==> o == Outcome([UploadImage(image.value)], UploadError, nav0)
  {
    if ClientError(f).Some? then Outcome([], ClientError(f).value, nav0)
    else if image.Some? && !upload.ok then Outcome([UploadImage(image.value)], UploadError, nav0)
    else
      var first := if image.Some? then [UploadImage(image.value)] else [];
      var reg := PostRegister(PayloadOf(f, if image.Some? then upload.imageUrl else ""));
      if !register.ok then
        Outcome(first + [reg], RegisterMessage(register.error), nav0)
      else
        var sent := first + [reg, SignIn(f.email, f.password)];
        if signInFails then Outcome(sent, LoginAfterRegisterError, ToLogin)
        else Outcome(sent, "", ToDashboard)
  }

  /** The requests a submission sends and where it ends up. */
  lemma SubmitRequests(f: Form, image: Option<Upload.UploadFile>, upload: UploadAnswer, register: RegisterAnswer,
                       signInFails: bool, nav0: Nav)
    ensures var o := Submit(f, image, upload, register, signInFails, nav0);
      // the registration carries the uploaded URL, or "" when no image was chosen
      && (SendsRegister(o.sent) <==> ClientError(f).None? && (image.None? || upload.ok))
      && (forall r :: r in o.sent && r.PostRegister? ==>
            r.payload == PayloadOf(f, if image.Some? then upload.imageUrl else ""))
      // sign-in follows only a successful registration, with the same credentials
      && (SendsSignIn(o.sent) <==> SendsRegister(o.sent) && register.ok)
      && (forall r :: r in o.sent && r.SignIn? ==> r.email == f.email && r.password == f.password)
      // the page moves only after the sign-in attempt
      && o.nav == if !SendsSignIn(o.sent) then nav0 else if signInFails then ToLogin else ToDashboard
  {
    if ClientError(f).None? && (image.None? || upload.ok) {
      SubmitRequestsSent(f, image, upload, register, signInFails, nav0);
    }
  }

  lemma SubmitRequestsSent(f: Form, image: Option<Upload.UploadFile>, upload: UploadAnswer, register: RegisterAnswer,
                           signInFails: bool, nav0: Nav)
    requires ClientError(f).None? && (image.None? || upload.ok)
    ensures var o := Submit(f, image, upload, register, signInFails, nav0);
      // the registration carries the uploaded URL, or "" when no image was chosen
      && (SendsRegister(o.sent) <==> ClientError(f).None? && (image.None? || upload.ok))
      && (forall r :: r in o.sent && r.PostRegister? ==>
            r.payload == PayloadOf(f, if image.Some? then upload.imageUrl else ""))
      // sign-in follows only a successful registration, with the same credentials
      && (SendsSignIn(o.sent) <==> SendsRegister(o.sent) && register.ok)
      && (forall r :: r in o.sent && r.SignIn? ==> r.email == f.email && r.password == f.password)
      // the page moves only after the sign-in attempt
      && o.nav == if !SendsSignIn(o.sent) then nav0 else if signInFails then ToLogin else ToDashboard
  {
    var o := Submit(f, image, upload, register, signInFails, nav0);
    var first := if image.Some? then [UploadImage(image.value)] else [];
    var reg := PostRegister(PayloadOf(f, if image.Some? then upload.imageUrl else ""));
    if !register.ok {
      assert o.sent == first + [reg];
      assert o.sent[|o.sent| - 1] == reg;
      assert !SendsSignIn(o.sent);
    } else {
      var sign := SignIn(f.email, f.password);
      assert o.sent == first + [reg, sign];
      assert o.sent[|o.sent| - 2] == reg && o.sent[|o.sent| - 1] == sign;
    }
  }

  class Page {
    var form: Form
    var isLoading: bool
    var isUploading: bool
    var error: string
    var profileImage: Option<Upload.UploadFile>
    var sent: seq<Request>
    var nav: Nav

    constructor ()
      ensures form == EmptyForm && !isLoading && !isUploading && error == ""
      ensures profileImage.None? && sent == [] && nav == Stay
    {
      form := EmptyForm;
      isLoading := false;
      isUploading := false;
      error := "";
      profileImage := None;
      sent := [];
      nav := Stay;
    }

    /** The submit button is enabled: `disabled={isLoading || isUploading}`. */
    predicate CanSubmit()
      reads this
    {
      !isLoading && !isUploading
    }

    /** `handleImageChange`: a rejected file leaves the earlier choice in place. */
    method HandleImageChange(file: Option<Upload.UploadFile>)
      modifies this
      ensures form == old(form) && sent == old(sent) && nav == old(nav)
      ensures isLoading == old(isLoading) && isUploading == old(isUploading)
      ensures file.None? ==> profileImage == old(profileImage) && error == old(error)
      ensures file.Some? && file.value.mime !in ClientAllowedTypes ==>
                profileImage == old(profileImage) && error == "Please select a valid image file (JPEG, PNG, or WebP)"
      ensures file.Some? && file.value.mime in ClientAllowedTypes && file.value.size > ClientMaxImageSize ==>
                profileImage == old(profileImage) && error == "Image size should be less than 5MB"
      ensures file.Some? && ClientImageOk(file.value) ==> profileImage == file && error == old(error)
    {
      if file.None? {
        return;
      }
      var f := file.value;
      if f.mime !in ClientAllowedTypes {
        error := "Please select a valid image file (JPEG, PNG, or WebP)";
        return;
      }
      if f.size > ClientMaxImageSize {
        error := "Image size should be less than 5MB";
        return;
      }
      profileImage := Some(f);
    }

    /** `removeImage`. */
    method RemoveImage()
      modifies this
      ensures profileImage.None?
      ensures form == old(form) && sent == old(sent) && nav == old(nav) && error == old(error)
      ensures isLoading == old(isLoading) && isUploading == old(isUploading)
    {
      profileImage := None;
    }

    /** The body of `handleSubmit` up to its `finally` block, as written:
        `isUploading` is set before the upload and cleared only after a
        successful one. */
    method SubmitSteps(upload: UploadAnswer, register: RegisterAnswer, signInFails: bool)
      modifies this
      ensures form == old(form) && profileImage == old(profileImage)
      ensures var o := Submit(form, profileImage, upload, register, signInFails, old(nav));
              sent == old(sent) + o.sent && error == o.error && nav == o.nav
      ensures isLoading == ClientError(form).None?
      ensures isUploading == if ClientError(form).None? && profileImage.Some? then !upload.ok else old(isUploading)
    {
      ghost var o := Submit(form, profileImage, upload, register, signInFails, nav);
      ghost var sent0 := sent;
      error := "";
      isLoading := true;
      if form.password != form.confirmPassword {
        error := MismatchError;
        isLoading := false;
        assert o == Outcome([], MismatchError, old(nav));
        return;
      }
      if Utf16Length(form.password) < 6 {
        error := ShortPasswordError;
        isLoading := false;
        assert o == Outcome([], ShortPasswordError, old(nav));
        return;
      }
      assert ClientError(form).None?;
      SendAfterChecks(upload, register, signInFails);
    }

    /** The part of `handleSubmit` after the client checks: the upload, the
        registration and the sign-in. */
    method SendAfterChecks(upload: UploadAnswer, register: RegisterAnswer, signInFails: bool)
      requires ClientError(form).None? && error == ""
      modifies this
      ensures form == old(form) && profileImage == old(profileImage) && isLoading == old(isLoading)
      ensures var o := Submit(form, profileImage, upload, register, signInFails, old(nav));
              sent == old(sent) + o.sent && error == o.error && nav == o.nav
      ensures isUploading == if profileImage.Some? then !upload.ok else old(isUploading)
    {
      ghost var o := Submit(form, profileImage, upload, register, signInFails, nav);
      ghost var sent0 := sent;
      var first: seq<Request> := [];
      var profileImageUrl := "";
      if profileImage.Some? {
        isUploading := true;
        first := [UploadImage(profileImage.value)];
        sent := sent + first;
        if !upload.ok {
          error := UploadError;                  // thrown; the reset below is skipped
          assert o == Outcome(first, UploadError, old(nav));
          return;
        }
        profileImageUrl := upload.imageUrl;
        isUploading := false;
      }
      var reg := PostRegister(PayloadOf(form, profileImageUrl));
      sent := sent + [reg];
      assert sent == sent0 + (first + [reg]);
      if !register.ok {
        error := RegisterMessage(register.error);
        assert o == Outcome(first + [reg], error, old(nav));
        return;
      }
      var sign := SignIn(form.email, form.password);
      sent := sent + [sign];
      assert sent == sent0 + (first + [reg, sign]);
      if signInFails {
        error := LoginAfterRegisterError;
        nav := ToLogin;
      } else {
        nav := ToDashboard;
      }
      assert o == Outcome(first + [reg, sign], error, nav);
    }

    /** `handleSubmit` as written: the `finally` block resets only `isLoading`.
        After a failed upload `isUploading` stays true, so the submit button
        stays disabled and the form cannot be sent again. */
    method HandleSubmitAsWritten(upload: UploadAnswer, register: RegisterAnswer, signInFails: bool)
      modifies this
      ensures form == old(form) && profileImage == old(profileImage) && !isLoading
      ensures var o := Submit(form, profileImage, upload, register, signInFails, old(nav));
              sent == old(sent) + o.sent && error == o.error && nav == o.nav
      ensures ClientError(form).None? && profileImage.Some? && !upload.ok ==> !CanSubmit()
    {
      SubmitSteps(upload, register, signInFails);
      isLoading := false;
    }

    /** `handleSubmit` with `isUploading` reset in the `finally` block as well:
        whatever happened, the form can be submitted again. */
    method HandleSubmit(upload: UploadAnswer, register: RegisterAnswer, signInFails: bool)
      modifies this
      ensures form == old(form) && profileImage == old(profileImage) && CanSubmit()
      ensures var o := Submit(form, profileImage, upload, register, signInFails, old(nav));
              sent == old(sent) + o.sent && error == o.error && nav == o.nav
    {
      SubmitSteps(upload, register, signInFails);
      isLoading := false;
      isUploading := false;
    }
  }

  /** A page that picks a valid image and submits while the upload endpoint
      fails can no longer be submitted. */
  method FailedUploadLocksForm(file: Upload.UploadFile, register: RegisterAnswer) returns (p: Page)
    requires ClientImageOk(file)
    ensures !p.CanSubmit() && p.error == UploadError
  {
    p := new Page();
    p.form := p.form.(password := "secret1", confirmPassword := "secret1");
    p.HandleImageChange(Some(file));
    p.HandleSubmitAsWritten(UploadAnswer(false, ""), register, false);
  }

  /** The same steps with the reset in place leave the form usable. */
  method FailedUploadRecovers(file: Upload.UploadFile, register: RegisterAnswer) returns (p: Page)
    requires ClientImageOk(file)
    ensures p.CanSubmit() && p.error == UploadError && p.sent == [UploadImage(file)]
  {
    p := new Page();
    p.form := p.form.(password := "secret1", confirmPassword := "secret1");
    p.HandleImageChange(Some(file));
    p.HandleSubmit(UploadAnswer(false, ""), register, false);
  }
}
