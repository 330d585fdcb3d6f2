/** The member dashboard (app/dashboard/page.tsx): which of the four screens
    is shown, and the membership status card whose icon, text, description
    and badge all follow from the profile's approval and active flags. */
module Dashboard {
  import opened Common
  import Auth

  /** The profile fields the status card reads. */
  datatype Profile = Profile(isApproved: bool, isActive: bool, membershipType: string)

  // ----- the status card -----

  datatype MemberStatus = Pending | ActiveMember | InactiveMember

  /** The three-way case every status helper tests, in the same order. */
  function StatusOf(p: Profile): (s: MemberStatus)
    ensures s == Pending <==> !p.isApproved
    ensures s == ActiveMember <==> p.isApproved && p.isActive
    ensures s == InactiveMember <==> p.isApproved && !p.isActive
  {
    if !p.isApproved then Pending else if p.isActive then ActiveMember else InactiveMember
  }

  datatype Icon = Clock | CheckCircle | AlertCircle

  /** `getStatusIcon`. */
  function StatusIcon(p: Profile): Icon
  {
    if !p.isApproved then Clock else if p.isActive then CheckCircle else AlertCircle
  }

  /** `getStatusText`. */
  function StatusText(p: Profile): string
  {
    if !p.isApproved then "Pending Admin Approval"
    else if p.isActive then "Active Member"
    else "Inactive Member"
  }

  const PendingDescription := "Your membership application is currently under review by our administrators. You will receive an email notification once your application is approved."
  const ActiveDescription := "Your membership is active and you have full access to all community features and services."
  const InactiveDescription := "Your membership is currently inactive. Please contact the administrators for assistance."

  /** `getStatusDescription`. */
  function StatusDescription(p: Profile): string
  {
    if !p.isApproved then PendingDescription
    else if p.isActive then ActiveDescription
    else InactiveDescription
  }

  /** The badge variant, written inline twice with the tests nested the
      other way round: approved first, then active. */
  function BadgeVariant(p: Profile): string
  {
    if p.isApproved then (if p.isActive then "default" else "secondary") else "destructive"
  }

  /** What each case shows, as one table. */
  function IconFor(s: MemberStatus): Icon
  {
    match s
    case Pending => Clock
    case ActiveMember => CheckCircle
    case InactiveMember => AlertCircle
  }

  function TextFor(s: MemberStatus): string
  {
    match s
    case Pending => "Pending Admin Approval"
    case ActiveMember => "Active Member"
    case InactiveMember => "Inactive Member"
  }

  function DescriptionFor(s: MemberStatus): string
  {
    match s
    case Pending => PendingDescription
    case ActiveMember => ActiveDescription
    case InactiveMember => InactiveDescription
  }

  function VariantFor(s: MemberStatus): string
  {
    match s
    case Pending => "destructive"
    case ActiveMember => "default"
    case InactiveMember => "secondary"
  }

  /** The icon, the text, the description and the badge variant (both
      badges) always pick the same one of the three cases. */
  lemma StatusCardConsistent(p: Profile)
    ensures StatusIcon(p) == IconFor(StatusOf(p))
    ensures StatusText(p) == TextFor(StatusOf(p))
    ensures BadgeVariant(p) == VariantFor(StatusOf(p))
    ensures StatusDescription(p) == DescriptionFor(StatusOf(p))
  {
  }

  /** An unapproved member is pending whatever its active flag says. */
  lemma PendingIgnoresActive(p: Profile)
    requires !p.isApproved
    ensures StatusOf(p) == StatusOf(p.(isActive := !p.isActive)) == Pending
    ensures StatusText(p) == "Pending Admin Approval" && StatusText(p.(isActive := !p.isActive)) == StatusText(p)
  {
  }

  /** The three texts, icons and variants are pairwise different, so each
      one names its case. */
  lemma StatusNamesDistinct()
    ensures forall s, t :: TextFor(s) == TextFor(t) ==> s == t
    ensures forall s, t :: IconFor(s) == IconFor(t) ==> s == t
    ensures forall s, t :: VariantFor(s) == VariantFor(t) ==> s == t
  {
    forall s, t | TextFor(s) == TextFor(t)
      ensures s == t
    {
      assert TextFor(Pending)[0] == 'P' && TextFor(ActiveMember)[0] == 'A' && TextFor(InactiveMember)[0] == 'I';
    }
    forall s, t | VariantFor(s) == VariantFor(t)
      ensures s == t
    {
      assert VariantFor(Pending)[0] == 'd' && VariantFor(ActiveMember)[1] == 'e' && VariantFor(InactiveMember)[0] == 's';
      assert VariantFor(Pending)[1] == 'e' && VariantFor(ActiveMember)[0] == 'd';
      assert VariantFor(Pending)[2] != VariantFor(ActiveMember)[2];
    }
  }

  // ----- which screen -----

  /** `useSession()`: while the session is being resolved `status` is
      "loading"; afterwards the session is present or not. */
  datatype Session = Session(user: Option<Auth.SessionUser>)

  datatype View = Spinner | AccessDenied | ProfileNotFound | Card(status: MemberStatus)

  /** The render's order of tests: spinner while the session or the profile
      is loading, then no session, then no profile, then the dashboard. */
  function Render(sessionLoading: bool, session: Option<Session>, loading: bool, profile: Option<Profile>): (v: View)
    ensures v == Spinner <==> sessionLoading || loading
    ensures v == AccessDenied <==> !sessionLoading && !loading && session.None?
    ensures v == ProfileNotFound <==> !sessionLoading && !loading && session.Some? && profile.None?
    ensures v.Card? <==> !sessionLoading && !loading && session.Some? && profile.Some?
    ensures v.Card? ==> v.status == StatusOf(profile.value)
  {
    if sessionLoading || loading then Spinner
    else if session.None? then AccessDenied
    else if profile.None? then ProfileNotFound
    else Card(StatusOf(profile.value))
  }

  /** `session?.user`: the profile is fetched only for a session with a user. */
  predicate HasUser(session: Option<Session>)
  {
    session.Some? && session.value.user.Some?
  }

  class Page {
    var profile: Option<Profile>
    var loading: bool

    constructor ()
      ensures profile.None? && loading
    {
      profile := None;
      loading := true;
    }

    /** The session effect as written: with a user the profile is fetched
        (`answer` is what an ok answer carried, None for any other outcome)
        and loading ends; without one nothing happens, so loading never ends. */
    method OnSession(session: Option<Session>, answer: Option<Profile>)
      modifies this
      ensures HasUser(session) ==> !loading && profile == (if answer.Some? then answer else old(profile))
      ensures !HasUser(session) ==> loading == old(loading) && profile == old(profile)
    {
      if HasUser(session) {
        if answer.Some? {
          profile := answer;
        }
        loading := false;
      }
    }

    /** The session effect with loading also ended once the session is known
        to be absent, which is what the "Access Denied" screen needs. */
    method OnSessionCorrected(sessionLoading: bool, session: Option<Session>, answer: Option<Profile>)
      modifies this
      ensures HasUser(session) ==> !loading && profile == (if answer.Some? then answer else old(profile))
      ensures !HasUser(session) && !sessionLoading ==> !loading && profile == old(profile)
      ensures !HasUser(session) && sessionLoading ==> loading == old(loading) && profile == old(profile)
    {
      if HasUser(session) {
        if answer.Some? {
          profile := answer;
        }
        loading := false;
      } else if !sessionLoading {
        loading := false;
      }
    }
  }

  /** As written, a visitor without a session never sees "Access Denied":
      `loading` starts true and only the profile fetch clears it, so the
      spinner stays however often the effect runs. */
  method SignedOutAsWritten(runs: nat) returns (v: View)
    ensures v == Spinner
  {
    var page := new Page();
    var k := 0;
    while k < runs
      invariant page.loading
    {
      page.OnSession(None, None);
      k := k + 1;
    }
    v := Render(false, None, page.loading, page.profile);
  }

  /** With the corrected effect, a visitor without a session is shown
      "Access Denied" once the session is resolved. */
  method SignedOutCorrected() returns (v: View)
    ensures v == AccessDenied
  {
    var page := new Page();
    page.OnSessionCorrected(false, None, None);
    v := Render(false, None, page.loading, page.profile);
  }

  /** With the corrected effect a signed-in member whose profile arrives
      sees the status card for that profile. */
  method SignedInCorrected(u: Auth.SessionUser, p: Profile) returns (v: View)
    ensures v == Card(StatusOf(p))
  {
    var page := new Page();
    page.OnSessionCorrected(false, Some(Session(Some(u))), Some(p));
    v := Render(false, Some(Session(Some(u))), page.loading, page.profile);
  }
}
