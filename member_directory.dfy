/** The public member directory (components/member-directory.tsx): a search
    box and four drop-down filters over the fetched members, the drop-down
    choices drawn from the members themselves, and a button that clears
    every criterion. */
module MemberDirectory {
  import opened Common
  import opened Schema
  import opened Seqs

  /** The five criteria; "" means the criterion is off. */
  datatype Criteria = Criteria(
    search: string, city: string, nativePlace: string,
    businessCategory: string, membershipType: string)

  const NoCriteria := Criteria("", "", "", "", "")

  /** `${firstName} ${lastName}` or a non-empty business name contains the
      term, ignoring case. */
  predicate SearchHit(m: DirectoryMember, term: string)
  {
    || IncludesCI(m.firstName + " " + m.lastName, term)
    || (m.businessName.Some? && m.businessName.value != "" && IncludesCI(m.businessName.value, term))
  }

  /** `member.field === filter`: an absent field equals no chosen value. */
  predicate Is(field: Option<string>, chosen: string)
  {
    field.Some? && field.value == chosen
  }

  // Each criterion holds when it is off or when the member meets it.
  predicate SearchOk(m: DirectoryMember, c: Criteria) { c.search == "" || SearchHit(m, c.search) }
  predicate CityOk(m: DirectoryMember, c: Criteria) { c.city == "" || Is(m.city, c.city) }
  predicate NativeOk(m: DirectoryMember, c: Criteria) { c.nativePlace == "" || Is(m.nativePlace, c.nativePlace) }
  predicate CategoryOk(m: DirectoryMember, c: Criteria) { c.businessCategory == "" || Is(m.businessCategory, c.businessCategory) }
  predicate TypeOk(m: DirectoryMember, c: Criteria) { c.membershipType == "" || m.membershipType == c.membershipType }

  /** A member is listed when it meets every criterion that is on. */
  predicate Matches(m: DirectoryMember, c: Criteria)
  {
    SearchOk(m, c) && CityOk(m, c) && NativeOk(m, c) && CategoryOk(m, c) && TypeOk(m, c)
  }

  /** `if (criterion) filtered = filtered.filter(p)`. */
  function Narrow(s: seq<DirectoryMember>, on: bool, p: DirectoryMember -> bool): (r: seq<DirectoryMember>)
    ensures |r| <= |s|
  {
    if on then Filter(s, p) else s
  }

  /** `filterMembers`: the five filters one after the other. */
  function FilterMembers(members: seq<DirectoryMember>, c: Criteria): (r: seq<DirectoryMember>)
    ensures |r| <= |members|
  {
    var bySearch := Narrow(members, c.search != "", (m: DirectoryMember) => SearchHit(m, c.search));
    var byCity := Narrow(bySearch, c.city != "", (m: DirectoryMember) => Is(m.city, c.city));
    var byNative := Narrow(byCity, c.nativePlace != "", (m: DirectoryMember) => Is(m.nativePlace, c.nativePlace));
    var byCategory := Narrow(byNative, c.businessCategory != "", (m: DirectoryMember) => Is(m.businessCategory, c.businessCategory));
    Narrow(byCategory, c.membershipType != "", (m: DirectoryMember) => m.membershipType == c.membershipType)
  }

  /** One more conditional filter after a filter is one filter by both. */
  lemma NarrowFilter(s: seq<DirectoryMember>, q: DirectoryMember -> bool, on: bool,
                     p: DirectoryMember -> bool, qp: DirectoryMember -> bool)
    requires forall m :: qp(m) == (q(m) && (!on || p(m)))
    ensures Narrow(Filter(s, q), on, p) == Filter(s, qp)
  {
    if on {
      FilterFilter(s, q, p, qp);
    } else {
      FilterFilter(s, q, (m: DirectoryMember) => true, qp);
      FilterAll(Filter(s, q), (m: DirectoryMember) => true);
    }
  }

  /** The chain keeps exactly the members that meet every criterion that is
      on, in their original order. */
  lemma FilterMembersMatches(members: seq<DirectoryMember>, c: Criteria)
    ensures FilterMembers(members, c) == Filter(members, (m: DirectoryMember) => Matches(m, c))
  {
    FilterAll(members, (m: DirectoryMember) => true);
    NarrowFilter(members, (m: DirectoryMember) => true, c.search != "", (m: DirectoryMember) => SearchHit(m, c.search), (m: DirectoryMember) => SearchOk(m, c));
    NarrowFilter(members, (m: DirectoryMember) => SearchOk(m, c), c.city != "", (m: DirectoryMember) => Is(m.city, c.city),
                 (m: DirectoryMember) => SearchOk(m, c) && CityOk(m, c));
    NarrowFilter(members, (m: DirectoryMember) => SearchOk(m, c) && CityOk(m, c), c.nativePlace != "", (m: DirectoryMember) => Is(m.nativePlace, c.nativePlace),
                 (m: DirectoryMember) => SearchOk(m, c) && CityOk(m, c) && NativeOk(m, c));
    NarrowFilter(members, (m: DirectoryMember) => SearchOk(m, c) && CityOk(m, c) && NativeOk(m, c),
                 c.businessCategory != "", (m: DirectoryMember) => Is(m.businessCategory, c.businessCategory),
                 (m: DirectoryMember) => SearchOk(m, c) && CityOk(m, c) && NativeOk(m, c) && CategoryOk(m, c));
    NarrowFilter(members, (m: DirectoryMember) => SearchOk(m, c) && CityOk(m, c) && NativeOk(m, c) && CategoryOk(m, c),
                 c.membershipType != "", (m: DirectoryMember) => m.membershipType == c.membershipType,
                 (m: DirectoryMember) => Matches(m, c));
  }

  /** The listing is a subsequence of the members: nothing is added or
      reordered, and a member is listed exactly when it matches. */
  lemma ListingIsMatches(members: seq<DirectoryMember>, c: Criteria)
    ensures IsSubseq(FilterMembers(members, c), members)
    ensures forall i :: 0 <= i < |FilterMembers(members, c)| ==> Matches(FilterMembers(members, c)[i], c)
    ensures forall i :: 0 <= i < |members| && Matches(members[i], c) ==> members[i] in FilterMembers(members, c)
  {
    FilterMembersMatches(members, c);
    FilterIsSubseq(members, (m: DirectoryMember) => Matches(m, c));
  }

  /** With every criterion off, every member is listed in order. */
  lemma NoCriteriaListsAll(members: seq<DirectoryMember>)
    ensures FilterMembers(members, NoCriteria) == members
  {
  }

  /** `c2` has every criterion of `c1`, and possibly more. */
  predicate Stricter(c2: Criteria, c1: Criteria)
  {
    && (c1.search == "" || c1.search == c2.search)
    && (c1.city == "" || c1.city == c2.city)
    && (c1.nativePlace == "" || c1.nativePlace == c2.nativePlace)
    && (c1.businessCategory == "" || c1.businessCategory == c2.businessCategory)
    && (c1.membershipType == "" || c1.membershipType == c2.membershipType)
  }

  /** Turning on a further criterion never lists more members: the stricter
      listing is a subsequence of the looser one. */
  lemma StricterListsFewer(members: seq<DirectoryMember>, c1: Criteria, c2: Criteria)
    requires Stricter(c2, c1)
    ensures IsSubseq(FilterMembers(members, c2), FilterMembers(members, c1))
  {
    FilterMembersMatches(members, c1);
    FilterMembersMatches(members, c2);
    FilterFilter(members, (m: DirectoryMember) => Matches(m, c1), (m: DirectoryMember) => Matches(m, c2), (m: DirectoryMember) => Matches(m, c2));
    FilterIsSubseq(Filter(members, (m: DirectoryMember) => Matches(m, c1)), (m: DirectoryMember) => Matches(m, c2));
  }

  // ----- drop-down choices -----

  /** The value a drop-down reads from a member; absent reads as "", which
      is as falsy as an absent value. */
  function Text(o: Option<string>): string
  {
    if o.Some? then o.value else ""
  }

  function Column(members: seq<DirectoryMember>, f: DirectoryMember -> string): (r: seq<string>)
    ensures |r| == |members| && forall i :: 0 <= i < |r| ==> r[i] == f(members[i])
  {
    if members == [] then [] else [f(members[0])] + Column(members[1..], f)
  }

  predicate NonEmpty(v: string)
  {
    v != ""
  }

  /** `[...new Set(values)].filter(Boolean)`: each non-empty value once, in
      the order of its first occurrence. */
  function Choices(values: seq<string>): (r: seq<string>)
    ensures forall i :: 0 <= i < |r| ==> r[i] != "" && r[i] in values
    ensures forall i :: 0 <= i < |values| && values[i] != "" ==> values[i] in r
  {
    Filter(Dedup(values), NonEmpty)
  }

  /** The choices are free of duplicates and follow first occurrence. */
  lemma ChoicesOrdered(values: seq<string>)
    ensures forall i, j :: 0 <= i < j < |Choices(values)| ==> Choices(values)[i] != Choices(values)[j]
    ensures forall i, j :: 0 <= i < j < |Choices(values)| ==>
              IndexOf(values, Choices(values)[i]) < IndexOf(values, Choices(values)[j])
  {
    var d := Dedup(values);
    FilterKeepsPairwise(d, NonEmpty, (a: string, b: string) => a != b);
    DedupFirstOccurrence(values);
    FilterKeepsPairwise(d, NonEmpty, (a: string, b: string) => a in values && b in values && IndexOf(values, a) < IndexOf(values, b));
  }

  function Cities(members: seq<DirectoryMember>): seq<string>
  {
    Choices(Column(members, (m: DirectoryMember) => Text(m.city)))
  }

  function NativePlaces(members: seq<DirectoryMember>): seq<string>
  {
    Choices(Column(members, (m: DirectoryMember) => Text(m.nativePlace)))
  }

  function Categories(members: seq<DirectoryMember>): seq<string>
  {
    Choices(Column(members, (m: DirectoryMember) => Text(m.businessCategory)))
  }

  function MembershipTypes(members: seq<DirectoryMember>): seq<string>
  {
    Choices(Column(members, (m: DirectoryMember) => m.membershipType))
  }

  /** Every member's non-empty city can be chosen, and choosing it lists that
      member (with the other criteria off). */
  lemma EveryCityOffered(members: seq<DirectoryMember>, i: nat)
    requires i < |members| && members[i].city.Some? && members[i].city.value != ""
    ensures members[i].city.value in Cities(members)
    ensures members[i] in FilterMembers(members, NoCriteria.(city := members[i].city.value))
  {
    var col := Column(members, (m: DirectoryMember) => Text(m.city));
    assert col[i] == members[i].city.value;
    ListingIsMatches(members, NoCriteria.(city := members[i].city.value));
  }

  /** The directory's state: the listing follows the members and criteria.
      The four choice lists are set from the same answer as the members
      (and are empty together with them at first), so they are read here as
      functions of the members. */
  class Directory {
    var members: seq<DirectoryMember>
    var criteria: Criteria
    var filtered: seq<DirectoryMember>
    var loading: bool

    ghost predicate Valid()
      reads this
    {
      filtered == FilterMembers(members, criteria)
    }

    function CityChoices(): seq<string>
      reads this
    {
      Cities(members)
    }

    function NativePlaceChoices(): seq<string>
      reads this
    {
      NativePlaces(members)
    }

    function CategoryChoices(): seq<string>
      reads this
    {
      Categories(members)
    }

    function MembershipTypeChoices(): seq<string>
      reads this
    {
      MembershipTypes(members)
    }

    constructor ()
      ensures Valid() && loading && members == [] && criteria == NoCriteria
    {
      members := [];
      criteria := NoCriteria;
      filtered := [];
      loading := true;
    }

    /** The end of `fetchMembers`: an ok answer replaces the members (and with
        them the choice lists); any other outcome keeps them. Loading ends. */
    method FetchDone(data: Option<seq<DirectoryMember>>)
      requires Valid()
      modifies this
      ensures Valid() && !loading && criteria == old(criteria)
      ensures data.Some? ==> members == data.value
      ensures data.None? ==> members == old(members)
    {
      if data.Some? {
        members := data.value;
        filtered := FilterMembers(members, criteria);
      }
      loading := false;
    }

    /** Typing in the search box or choosing in a drop-down. */
    method SetCriteria(c: Criteria)
      requires Valid()
      modifies this
      ensures Valid() && criteria == c && members == old(members) && loading == old(loading)
    {
      criteria := c;
      filtered := FilterMembers(members, criteria);
    }

    /** `clearFilters`: all five criteria off, so every member is listed. */
    method ClearFilters()
      requires Valid()
      modifies this
      ensures Valid() && criteria == NoCriteria && filtered == members
      ensures members == old(members) && loading == old(loading)
    {
      criteria := NoCriteria;
      filtered := FilterMembers(members, criteria);
    }
  }
}
