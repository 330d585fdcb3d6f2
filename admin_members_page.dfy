/** The member management page (app/admin/members/page.tsx): a search box
    and a membership-type filter over the members the admin API returns,
    the status cards, and the requests the row buttons send. */
module AdminMembersPage {
  import opened Common
  import opened Schema
  import opened Seqs

  /** The search without the city: full name or e-mail ignoring case, or the
      phone number as typed (case matters there). A missing e-mail is
      `undefined` and hits nothing. */
  predicate EarlyHit(m: DirectoryMember, term: string)
  {
    || IncludesCI(m.firstName + " " + m.lastName, term)
    || (m.email.Some? && IncludesCI(m.email.value, term))
    || Contains(m.phonePrimary, term)
  }

  /** The search reaches `member.city.toLowerCase()` only when nothing
      earlier hit; with no city there, that call throws. */
  predicate Throws(m: DirectoryMember, term: string)
  {
    !EarlyHit(m, term) && m.city.None?
  }

  /** The whole search condition, for a member on which it does not throw. */
  predicate SearchHit(m: DirectoryMember, term: string)
  {
    EarlyHit(m, term) || (m.city.Some? && IncludesCI(m.city.value, term))
  }

  /** `member.membershipType.name === filterType`. */
  predicate OfType(m: DirectoryMember, t: string)
  {
    m.membershipType == t
  }

  /** `filterMembers`: the search (when a term is typed), then the type
      filter (when a type is chosen). None is a search that threw. */
  function FilterMembers(members: seq<DirectoryMember>, term: string, filterType: string): (r: Option<seq<DirectoryMember>>)
    ensures r.None? <==> term != "" && exists i :: 0 <= i < |members| && Throws(members[i], term)
    ensures r.Some? ==> forall i :: 0 <= i < |r.value| ==> r.value[i] in members
    ensures r.Some? && term != "" ==> forall i :: 0 <= i < |r.value| ==> SearchHit(r.value[i], term)
    ensures r.Some? && filterType != "" ==> forall i :: 0 <= i < |r.value| ==> OfType(r.value[i], filterType)
    ensures r.Some? ==> forall i :: (0 <= i < |members| && (term == "" || SearchHit(members[i], term))
                                     && (filterType == "" || OfType(members[i], filterType))) ==> members[i] in r.value
  {
    if term != "" && exists i :: 0 <= i < |members| && Throws(members[i], term) then None
    else
      var searched := if term != "" then Filter(members, (m: DirectoryMember) => SearchHit(m, term)) else members;
      Some(if filterType != "" then Filter(searched, (m: DirectoryMember) => OfType(m, filterType)) else searched)
  }

  /** A member with no e-mail is found only through its name, phone or city. */
  lemma NoEmailOtherFields(m: DirectoryMember, term: string)
    requires m.email.None?
    ensures SearchHit(m, term) <==>
              || IncludesCI(m.firstName + " " + m.lastName, term)
              || Contains(m.phonePrimary, term)
              || (m.city.Some? && IncludesCI(m.city.value, term))
  {
  }

  /** The phone is matched as typed while the name is matched ignoring case:
      the same letters in another case find a name but not a phone number. */
  lemma PhoneIsCaseSensitive()
    ensures Contains("Ab", "ab") == false && IncludesCI("Ab", "ab")
  {
    assert "Ab"[0] != "ab"[0] && "b"[0] != "ab"[0];
    assert Contains("", "ab") == false;
    assert Lower("Ab") == "ab" by {
      assert LowerChar('A') == 'a';
    }
  }

  /** With no term and no type every member is listed, in order; with every
      member holding a city the search never throws. */
  lemma ListingDefined(members: seq<DirectoryMember>, term: string, filterType: string)
    ensures term == "" && filterType == "" ==> FilterMembers(members, term, filterType) == Some(members)
    ensures (forall i :: 0 <= i < |members| ==> members[i].city.Some?) ==> FilterMembers(members, term, filterType).Some?
  {
  }

  /** The type filter is applied after the search: the listing is the
      searched list narrowed to the type, order kept. */
  lemma TypeAfterSearch(members: seq<DirectoryMember>, term: string, filterType: string)
    requires term != "" && filterType != ""
    requires forall i :: 0 <= i < |members| ==> !Throws(members[i], term)
    ensures FilterMembers(members, term, filterType)
            == Some(Filter(members, (m: DirectoryMember) => SearchHit(m, term) && OfType(m, filterType)))
  {
    FilterFilter(members, (m: DirectoryMember) => SearchHit(m, term), (m: DirectoryMember) => OfType(m, filterType),
                 (m: DirectoryMember) => SearchHit(m, term) && OfType(m, filterType));
  }

  // ----- status cards -----

  function ActiveCount(members: seq<DirectoryMember>): nat
  {
    |Filter(members, (m: DirectoryMember) => m.isActive)|
  }

  function InactiveCount(members: seq<DirectoryMember>): nat
  {
    |Filter(members, (m: DirectoryMember) => !m.isActive)|
  }

  /** The Active and Inactive cards add up to the number of members. */
  lemma CountsAddUp(members: seq<DirectoryMember>)
    ensures ActiveCount(members) + InactiveCount(members) == |members|
  {
    FilterComplement(members, (m: DirectoryMember) => m.isActive, (m: DirectoryMember) => !m.isActive);
  }

  // ----- row buttons -----

  const MembersApi := "/api/admin/members"

  datatype Request = Request(verb: string, url: string, isActive: Option<bool>)

  /** `handleToggleStatus`: a PATCH to the member's URL whose only field is
      the opposite of the current status. */
  function ToggleRequest(m: DirectoryMember): (r: Request)
    ensures r.verb == "PATCH" && r.url == MembersApi + "/" + NatToDecimal(m.id)
    ensures r.isActive == Some(!m.isActive)
  {
    Request("PATCH", MembersApi + "/" + NatToDecimal(m.id), Some(!m.isActive))
  }

  /** `handleDeleteMember` after the confirmation: a DELETE with no body. */
  function DeleteRequest(m: DirectoryMember): (r: Request)
    ensures r.verb == "DELETE" && r.url == MembersApi + "/" + NatToDecimal(m.id) && r.isActive.None?
  {
    Request("DELETE", MembersApi + "/" + NatToDecimal(m.id), None)
  }

  /** The page's state: the listing follows the members, term and type; None
      is a listing whose computation threw. */
  class Page {
    var members: seq<DirectoryMember>
    var searchTerm: string
    var filterType: string
    var filtered: Option<seq<DirectoryMember>>
    var loading: bool

    ghost predicate Valid()
      reads this
    {
      filtered == FilterMembers(members, searchTerm, filterType)
    }

    constructor ()
      ensures Valid() && loading && members == [] && searchTerm == "" && filterType == ""
      ensures filtered == Some([])
    {
      members := [];
      searchTerm := "";
      filterType := "";
      filtered := Some([]);
      loading := true;
    }

    /** The end of `fetchMembers` (also run again after a toggle or delete
        that succeeded): an ok answer replaces the members. Loading ends. */
    method FetchDone(data: Option<seq<DirectoryMember>>)
      requires Valid()
      modifies this
      ensures Valid() && !loading && searchTerm == old(searchTerm) && filterType == old(filterType)
      ensures data.Some? ==> members == data.value
      ensures data.None? ==> members == old(members)
    {
      if data.Some? {
        members := data.value;
        filtered := FilterMembers(members, searchTerm, filterType);
      }
      loading := false;
    }

    method SetSearchTerm(term: string)
      requires Valid()
      modifies this
      ensures Valid() && searchTerm == term
      ensures members == old(members) && filterType == old(filterType) && loading == old(loading)
    {
      searchTerm := term;
      filtered := FilterMembers(members, searchTerm, filterType);
    }

    method SetFilterType(t: string)
      requires Valid()
      modifies this
      ensures Valid() && filterType == t
      ensures members == old(members) && searchTerm == old(searchTerm) && loading == old(loading)
    {
      filterType := t;
      filtered := FilterMembers(members, searchTerm, filterType);
    }
  }
}
