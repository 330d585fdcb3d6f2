/** The rows of the portal's relational tables, as the handlers read and
    write them. Times are milliseconds since the epoch. */
module Schema {
  import opened Common

  const RoleSuperAdmin := "Super Admin"
  const RoleCommitteeAdmin := "Committee Admin"
  const RoleMember := "Member"

  /** A login identity. */
  datatype User = User(
    id: nat,
    name: string,
    email: string,
    password: string,                 // the stored bcrypt hash
    phone: Option<string>,
    role: string,
    status: string,
    isEmailVerified: bool,
    emailVerificationToken: Option<string>,
    emailVerificationExpires: Option<int>)

  /** A community profile in the shape that registration creates: it belongs to a User. */
  datatype Member = Member(
    id: nat,
    userId: nat,
    businessName: Option<string>,
    businessCategory: Option<string>,
    locality: Option<string>,
    gotra: Option<string>,
    profileImageUrl: Option<string>,
    membershipType: string,
    status: string,
    joinedDate: int,
    isApproved: bool)

  /** A community profile in the shape the directory and the member admin pages
      read: name and contact are held directly. */
  datatype DirectoryMember = DirectoryMember(
    id: nat,
    firstName: string,
    lastName: string,
    email: Option<string>,
    phonePrimary: string,
    city: Option<string>,
    nativePlace: Option<string>,
    businessName: Option<string>,
    businessCategory: Option<string>,
    membershipType: string,           // membershipType.name
    isActive: bool)

  datatype Committee = Committee(
    id: nat,
    name: string,
    description: Option<string>,
    sessionYear: string,
    committeeImageUrl: Option<string>,
    posterImageUrl: Option<string>,
    isActive: bool,
    displayOrder: int)

  /** A home-page carousel slide. */
  datatype Poster = Poster(
    id: nat,
    title: string,
    description: Option<string>,
    imageUrl: string,
    linkUrl: Option<string>,
    displayOrder: int,
    isActive: bool)

  datatype Event = Event(
    id: nat,
    title: string,
    description: string,
    venue: string,
    startDatetime: int,
    endDatetime: Option<int>,
    imageUrl: Option<string>)

  /** A news article; publishedAt None is a draft. */
  datatype NewsArticle = NewsArticle(
    id: nat,
    title: string,
    slug: string,
    content: string,
    imageUrl: Option<string>,
    publishedAt: Option<int>,
    createdAt: int,
    authorId: nat)

  /** The member linked to a user, if any (`include: { member: true }`). */
  function MemberOf(members: seq<Member>, userId: nat): (r: Option<Member>)
    ensures r.Some? ==> r.value in members && r.value.userId == userId
    ensures r.None? ==> forall i :: 0 <= i < |members| ==> members[i].userId != userId
  {
    if members == [] then None
    else if members[0].userId == userId then Some(members[0])
    else MemberOf(members[1..], userId)
  }

  /** `findUnique({ where: { email } })`: email is a unique column. */
  function FindUserByEmail(users: seq<User>, email: string): (r: Option<User>)
    ensures r.Some? ==> r.value in users && r.value.email == email
    ensures r.None? ==> forall i :: 0 <= i < |users| ==> users[i].email != email
  {
    if users == [] then None
    else if users[0].email == email then Some(users[0])
    else FindUserByEmail(users[1..], email)
  }
}
