# Bilaspur Agrawal Sabha portal: a verified model of its rules

The Bilaspur Agrawal Sabha portal is a Next.js and Prisma web application for
a community society. It has a public site, a member directory, a member
dashboard, an administration area for committees, posters, members, news and
events, self-registration with e-mail verification, image uploads, and a small
token-protected JSON API (`/api/v1`).

This project models in Dafny the deterministic rules spread through the
portal:

- who may do what: the role-to-permission table, the `/admin` middleware
  guard, and the role gates at the top of each admin API handler;
- how sign-in works: the credentials provider with its lower-cased, trimmed
  address lookup and uniform failure, the session and token callbacks, the
  direct-login endpoint, and reading a Bearer token;
- what is accepted: registration on the server and on the page, the
  e-mail pattern, upload type and size limits, generated file names, and
  the delete guard against path traversal;
- the one-shot e-mail verification transition, keyed by token and strict
  expiry;
- text rules: news slugs, tag stripping and excerpts, and the search box
  of the admin lists;
- listing rules: v1 pagination, the upcoming/past split of events, and
  ordering;
- the three carousels as state machines;
- the member directory's filters and its option lists;
- the record tables: committee create, update and delete, and the create
  handlers for posters, members, news and events, with their defaults;
- the membership status card on the dashboard.

Database tables are sequences of records held by classes whose methods
append or replace rows. The page components are classes whose fields are
the React state, with one method per handler. The pure helpers are
functions, each with lemmas that tie it to what the source promises.
Hashing, token signing, random bytes, the clock and the database's
success or failure are parameters.

One module stands for each source file (`Permissions`, `Middleware`,
`Auth`, `Jwt`, `DirectLogin`, `Register`, `RegisterPage`, `VerifyEmail`,
`Upload`, `NewsPage`, `V1Api`, `EventsPage`, `AdminEventsPage`,
`PosterCarousel`, `CommitteeCarousel`, `PosterSlider`, `MemberDirectory`,
`AdminMembersPage`, `AdminCommitteesPage`, `AdminPostersPage`,
`Committees` (with the admin committees handler), `PostersApi`, `MembersApi`, `NewsApi`,
`EventsApi`, `Dashboard`). The shared modules are:

- `Common`: the JSON value, JavaScript's truthiness, `trim`,
  `toLowerCase`, `parseInt` and the `??` and `||` defaults;
- `Seqs`: filtering, a stable sort, windows and de-duplication;
- `Schema`: the Prisma records;
- `Tables`: an append-only table and the admin reply;
- `Gates`: the inline role checks;
- `Fields`: how Prisma treats the values a handler passes;
- `Email`: the e-mail pattern.

## Model

| member | source | states |
|---|---|---|
| Auth.LookupKey | lib/auth.ts:35 | the lookup key is the e-mail lowercased and trimmed, never longer than what was typed |
| Auth.MemberId | lib/auth.ts:37-39 | the member id is present exactly when the user has a linked member, and is that member's id |
| Auth.Authorize | lib/auth.ts:16-90 | a user is returned exactly when both credentials are present, the database answers, a user has the normalised e-mail and the password matches; it then carries the user's decimal id, e-mail, name, role and member id; every failure is the same null |
| Auth.LookupIgnoresCaseAndSpace | lib/auth.ts:33-36 | two e-mails with the same key reach the same result |
| Auth.LookupKeyNormalises | lib/auth.ts:35 | lowercasing or padding the e-mail with spaces does not change the key |
| Auth.AuthorizedIdParses | lib/auth.ts:74-75 | the id of a signed-in user reads back as the user's numeric id |
| Auth.Lifetimes | lib/auth.ts:93-99 | the session and the token both last 2,592,000 seconds (30 days) |
| Auth.JwtToken.SignIn | lib/auth.ts:101-109 | the token made at sign-in holds the user's id as subject, name and e-mail, and no role or member id yet |
| Auth.JwtToken.JwtCallback | lib/auth.ts:101-109 | with a user the role and member id are copied into the token; without one the token stays as it was |
| Auth.Session.FromToken | lib/auth.ts:110-119 | a fresh session carries the token's name and e-mail only |
| Auth.Session.SessionCallback | lib/auth.ts:110-119 | the session user's id, role and member id become the token's subject, role and member id; nothing else changes |
| Auth.SignInSession | lib/auth.ts:101-119 | after sign-in the session shows the user's id, name, e-mail, role and member id |
| Auth.LaterRequest | lib/auth.ts:101-119 | on later requests, with no user passed to the token callback, the session still shows the role and member id from sign-in |
| Fields.RequiredText | app/api/admin/posters/route.ts:42-51 | a required column takes the body's string as is; any other JSON value is refused by the database |
| Fields.OptionalText | lib/committees.ts:96-101 | an optional text column takes a string as is and stores an absent or null value as null; any other value is refused |
| Fields.TextOrNull | app/api/admin/posters/route.ts:45 | the logical-or null default: a falsy value is stored as null, and a truthy one must be a non-empty string |
| Fields.IntOrZero | app/api/admin/posters/route.ts:48 | the logical-or zero default: a falsy value becomes 0, and a truthy one must be a number, stored as it is |
| Fields.OptionalBool | lib/committees.ts:102 | an optional flag is present exactly when the body holds a boolean, and is that boolean |
| Fields.OptionalInt | lib/committees.ts:103 | an optional number is present exactly when the body holds a number, and is that number |
| Fields.DateField | app/api/admin/events/route.ts:45 | `new Date(value)`: a number within the Date range of ±8.64e15 ms is the time itself and one outside it is refused, null is the epoch, a string is accepted exactly when it parses and is then its parsed time, and a missing value is refused |
| Fields.DateOrNull | app/api/admin/events/route.ts:46 | a falsy date is stored as null; a truthy one is converted as a date |
| Gates.TwoRoleGateIsAdmin | app/api/admin/committees/route.ts:10 | the two-role gate admits exactly the roles `isAdmin` accepts, the same roles the middleware admits to /admin pages |
| Gates.SuperAdminGateNarrower | app/api/admin/members/route.ts:43 | member creation admits only the Super Admin, strictly fewer sessions than the two-role gate |
| Gates.GateExceedsPermissionTable | app/api/admin/committees/route.ts:29 | a Committee Admin passes the committee handlers although the permission table grants it neither manage_committees nor manage_news |
| Gates.NoSessionRefused | app/api/admin/members/route.ts:10 | without a session, or with no role, every gate refuses |
| Jwt.Secret | lib/jwt-utils.ts:20 | the signing secret is NEXTAUTH_SECRET when it is set and non-empty, and 'fallback-secret' otherwise |
| Jwt.SignJWT | lib/jwt-utils.ts:16-27 | the token is the signer's output for the payload, the secret and a 7-day lifetime; a signer failure becomes "Failed to sign JWT token" |
| Jwt.VerifyJWT | lib/jwt-utils.ts:29-54 | success exactly when the header starts with "Bearer " and the verifier accepts the rest; then the user is the decoded payload; every failure carries no user |
| Jwt.BearerRoundTrip | lib/jwt-utils.ts:33-44 | "Bearer " followed by a token succeeds exactly when the verifier accepts that token |
| Jwt.LowercaseSchemeRefused | lib/jwt-utils.ts:33 | the scheme is matched case-sensitively: "bearer " is refused whatever follows |
| Middleware.Authorized | middleware.ts:26-37 | a path outside /admin is always authorized; an /admin path exactly when a token is present and its role is Super Admin or Committee Admin |
| Middleware.Inner | middleware.ts:5-23 | an /admin path without a token is redirected to /login, one whose role is not an admin role to /, and every other request passes |
| Middleware.Handle | middleware.ts:42-44 | a path the matcher does not select always passes |
| Middleware.GuardDecision | middleware.ts:4-40 | the composed guard lets a request through exactly when it is public or carries an admin role; every refusal is the sign-in redirect, so the inner redirects never fire |
| Middleware.AuthorizedIsAdmin | middleware.ts:35-36 | on /admin paths the callback's role test is `isAdmin` |
| Middleware.MatchedPathsAreAdminPaths | middleware.ts:43 | every path the matcher selects passes the prefix test |
| Middleware.AdministratorIsAdminPath | middleware.ts:10 | the prefix test is literal: "/administrator" counts as an admin path and is refused without a token, although the matcher does not route it to the guard |
| MembersApi.ActiveFirst | app/api/admin/members/route.ts:22-26 | in the listing every active member comes before every inactive one |
| MembersApi.Get | app/api/admin/members/route.ts:6-37 | non-admins get 401; a failed query 500; otherwise 200 and every member, active first, then by first and last name |
| MembersApi.NewMember | app/api/admin/members/route.ts:49-75 | the row is built exactly when the names and primary phone are text, the optional texts are text or absent, the flag is a boolean after the default and the type id is known; it then stores the names, phone, e-mail, city, native place, business name and category as sent, the type's name, and is active unless the body says `isActive: false` |
| MembersApi.Post | app/api/admin/members/route.ts:39-85 | only the Super Admin may create; for the Super Admin the answer is 200 exactly when the body can be built into a member and the write succeeds, and 500 otherwise; 200 comes exactly when a row was appended, and carries the new member; anything else writes nothing |
| MembersApi.CommitteeAdminReadOnly | app/api/admin/members/route.ts:10-43 | a Committee Admin may list members but not create one |
| NewsApi.AuthorId | app/api/admin/news/route.ts:54 | the author is the user whose key `parseInt` reads from the session id; an id that does not parse or names no user is refused |
| NewsApi.NewArticle | app/api/admin/news/route.ts:47-55 | an article is built exactly when the title, slug and content are text and the image URL and publish date have a type their columns accept; the created article takes the body's title, slug and content as sent, the author and the creation time; a falsy image URL or publish date is stored as null, leaving a draft |
| NewsApi.Get | app/api/admin/news/route.ts:6-35 | non-admins get 401; a failed query 500; otherwise 200 and every article, drafts included, newest first |
| NewsApi.Post | app/api/admin/news/route.ts:37-73 | non-admins get 401 and nothing is written; for an admin the answer is 200 exactly when the author resolves, the article can be built and the write succeeds, and 500 otherwise; 200 comes exactly when a row was appended, with the signed-in user as author |
| NewsApi.AuthorIsSignedInUser | app/api/admin/news/route.ts:54 | a session made at sign-in carries the user's decimal key, so the article's author is that user |
| DirectLogin.Decide | app/api/direct-login/route.ts:6-93 | a body that cannot be read gets 500; a missing e-mail or password gets 400 with its message; an e-mail that is not text or a failing database gets 500; every status is 200, 400, 401 or 500; every 401 is the same "Invalid credentials" body; success is exactly status 200 and then carries a token and the user, while every failure carries neither; success needs string fields, a reachable database, a stored address matching the lower-cased trimmed e-mail and a matching password, and such a request always succeeds when the token can be signed |
| DirectLogin.Post | app/api/direct-login/route.ts:64-84 | a successful login sets exactly one cookie, the http-only `auth-token` holding the returned token for 604,800 seconds, secure in production; a failed one sets none |
| DirectLogin.CheckPassword | app/api/direct-login/route.ts:43-74 | for a found user: a password that is not text gives 500 (bcrypt throws), a wrong one the 401 "Invalid credentials", a failed signing 500, and otherwise the 200 reply carrying the signature of the user's id, e-mail, role and member id and that user's details |
| DirectLogin.AfterLookup | app/api/direct-login/route.ts:22-92 | past the lookup of a text e-mail: an unknown address gets the 401, a password that is not text 500, a wrong password the 401, a failed signing 500, and otherwise the 200 reply with the signed token and the found user |
| DirectLogin.UniformRejection | app/api/direct-login/route.ts:34-52 | an unknown address and a wrong password give the identical 401 reply |
| DirectLogin.SignedClaims | app/api/direct-login/route.ts:56-74 | the token signs the found user's id, e-mail, role and member id, and the reply describes the same user |
| DirectLogin.AgreesWithAuthorize | app/api/direct-login/route.ts:13-52 | when signing succeeds, this endpoint and the next-auth sign-in accept exactly the same credentials |
| DirectLogin.CookieMatchesToken | app/api/direct-login/route.ts:81 | the cookie lives exactly as long as the token: 7 days, 604,800 seconds |
| Email.ValidEmailIsRegex | app/api/auth/register/route.ts:30-36 | the direct check accepts exactly the strings the e-mail pattern matches: one '@' that is not first, no white space, and a '.' in the domain that is neither its first nor its last character |
| Email.ValidToRegex | app/api/auth/register/route.ts:30 | every address the direct check accepts splits into the pattern's three non-empty runs |
| Email.RegexToValid | app/api/auth/register/route.ts:30 | every string the pattern matches passes the direct check |
| Email.ValidEmailNoSpace | app/api/auth/register/route.ts:48-69 | an accepted address has no white space, so the duplicate-check key and the stored key coincide |
| Email.ExampleAccepted | app/api/auth/register/route.ts:30-36 | a plain address such as a@b.co is accepted |
| Email.ExamplesRefused | app/api/auth/register/route.ts:30-36 | a domain ending in its dot, and an address with a space, are refused |
| Email.ExamplesRefusedAt | app/api/auth/register/route.ts:30-36 | a second '@', and an empty local part, are refused |
| EventsApi.NewEvent | app/api/admin/events/route.ts:40-49 | the row is built exactly when title, description and venue are text, the start converts to a date, and the end and image pass their null defaults; it then takes the new id, the body's title, description and venue and the parsed start; a falsy end date or image URL is stored as null; a missing start is refused |
| EventsApi.Get | app/api/admin/events/route.ts:6-28 | non-admins get 401; a failed query 500; otherwise 200 and every event, latest start first |
| EventsApi.Post | app/api/admin/events/route.ts:30-59 | non-admins get 401 and nothing is written; for an admin the answer is 200 exactly when the body can be built into an event and the write succeeds; there is no 400, a body that cannot be stored gets 500; 200 comes exactly when a row was appended, and carries the new event |
| EventsPage.UpcomingEvents | app/events/page.tsx:7-17 | the upcoming list is the events starting now or later, soonest first; a failed query gives [] |
| EventsPage.PastLatestFirst | app/events/page.tsx:19-30 | exactly the events that started before now, latest first |
| EventsPage.PastEvents | app/events/page.tsx:19-30 | the past list is the first twenty of them; a failed query gives [] |
| EventsPage.UpcomingOrPast | app/events/page.tsx:10-22 | every event is either upcoming or past, never both, so the two filters' sizes add up to the table's |
| EventsPage.NoEventInBoth | app/events/page.tsx:7-30 | no event appears in both lists |
| EventsPage.MostRecentPast | app/events/page.tsx:19-30 | with at most twenty past events all are shown; otherwise twenty are, and none left out started later than one shown |
| Register.Precheck | app/api/auth/register/route.ts:21-56 | the checks answer in source order: a missing name, e-mail or password gives 400, then a malformed address 400, then a text password shorter than six UTF-16 code units 400, then a failing lookup 500 and a stored lower-cased address 409; only when all pass does nothing answer; no answer carries a user |
| Register.InsertReply | app/api/auth/register/route.ts:66-139 | 201 exactly when both inserts succeed, echoing the new user without its password; 409 exactly when the user insert, or after it the member insert, hits the unique constraint; every other failure 500 |
| Register.TrimmedOrNull | app/api/auth/register/route.ts:71 | the optional trim with a null default: absent or null is null, text is trimmed with a blank result becoming null, and any other value is refused |
| Register.UserRow | app/api/auth/register/route.ts:58-77 | the new user has the trimmed name, the lower-cased trimmed address, the hashed password, role Member, status Active, an unverified address and a token that expires 24 hours after `now` |
| Register.MemberRow | app/api/auth/register/route.ts:88-102 | the new member belongs to the new user, keeps the trimmed firm, business, locality and gotra (blank as null), the image URL as sent, is Regular, Active, joined `now` and awaits approval |
| Register.Store.constructor | app/api/auth/register/route.ts:47-49 | the store starts with no user and no member, and its addresses are unique |
| Register.Store.Post | app/api/auth/register/route.ts:6-139 | a body that cannot be read gives 500 and a failing precheck its own answer, both without writing or advancing either id counter; the user id counter advances exactly when the user insert succeeds and the member id counter exactly on 201; a password that is not text gives 500; otherwise the answer is the 201/409/500 split of the two inserts, the user row is appended exactly when its insert succeeded (so a failed member insert leaves it behind) and the member row exactly on 201; addresses stay unique; every status is 201, 400, 409 or 500 |
| Register.Store.Insert | app/api/auth/register/route.ts:66-139 | once the checks have passed, the answer is the 201/409/500 split of the two inserts; the user row built from the body is appended exactly when its insert succeeded and the member row exactly on 201; addresses stay unique |
| Register.Store.AddMember | app/api/auth/register/route.ts:89-121 | with the user row written, the member row is appended and the member id advanced exactly on 201, and the answer is the 201/409/500 split for a successful user insert |
| Register.NewEmailIsFresh | app/api/auth/register/route.ts:46-69 | the duplicate check's key `email.toLowerCase()` equals the stored `email.toLowerCase().trim()` for an accepted address, so the new row repeats no stored address |
| Register.PasswordBoundary | app/api/auth/register/route.ts:38-44 | a six-character password passes and a five-character one gets the length error |
| Register.BlankNameStoredEmpty | app/api/auth/register/route.ts:22-68 | a name of spaces passes the required check and is stored as the empty string |
| Register.RegisteredAddressSignsIn | app/api/auth/register/route.ts:69 | an address registered in any case is found by sign-in's lookup of the address typed in any case |
| RegisterPage.ClientError | app/register/page.tsx:37-47 | the form passes the client checks exactly when the two passwords match and have at least six UTF-16 code units; a mismatch is reported before a short password |
| RegisterPage.ClientLengthMatchesServer | app/register/page.tsx:43-47 | for matching passwords the page's length check agrees with the registration endpoint's minimum of six |
| RegisterPage.RegisterMessage | app/register/page.tsx:93-95 | a non-empty `data.error` is shown as it is; otherwise "Registration failed" |
| RegisterPage.ClientImageMatchesServer | app/register/page.tsx:125-139 | the page accepts exactly the images (type and 5 MB size) that the upload endpoint accepts |
| RegisterPage.Submit | app/register/page.tsx:32-116 | a failing client check sends nothing and shows its message; a chosen image is uploaded first and a failed upload stops everything else |
| RegisterPage.SubmitRequests | app/register/page.tsx:53-116 | the registration is sent exactly when the checks and any upload pass, carrying the uploaded URL (or "" without an image); sign-in with the same credentials follows exactly a successful registration; the page goes to /login when sign-in fails and to /dashboard otherwise, and stays put without a sign-in |
| RegisterPage.SubmitRequestsSent | app/register/page.tsx:71-116 | the same facts once the client checks and any upload have passed |
| RegisterPage.Page.constructor | app/register/page.tsx:11-30 | an empty form, nothing loading or uploading, no error, no image, nothing sent |
| RegisterPage.Page.HandleImageChange | app/register/page.tsx:125-150 | no file changes nothing; a wrong type or an image over 5 MB sets its error and keeps the earlier choice; a good image becomes the chosen one |
| RegisterPage.Page.RemoveImage | app/register/page.tsx:152-157 | the chosen image is dropped and nothing else changes |
| RegisterPage.Page.SubmitSteps | app/register/page.tsx:32-113 | the requests, error and navigation are those of `Submit`; `isLoading` stays set once the client checks pass; `isUploading` stays set exactly when an image upload failed |
| RegisterPage.Page.SendAfterChecks | app/register/page.tsx:53-113 | once the client checks pass, the upload, registration and sign-in requests, the error and the navigation are those of `Submit`, and `isUploading` stays set exactly when the upload failed |
| RegisterPage.Page.HandleSubmitAsWritten | app/register/page.tsx:32-116 | the submission as written: its effects are those of `Submit`, and after a failed upload the submit button (line 435) stays disabled |
| RegisterPage.Page.HandleSubmit | app/register/page.tsx:32-116 | the submission with `isUploading` also reset at the end: same effects, and the form can always be submitted again |
| RegisterPage.FailedUploadLocksForm | app/register/page.tsx:53-69 | a valid image whose upload fails leaves the upload error on screen and the submit button (line 435) disabled for good |
| RegisterPage.FailedUploadRecovers | app/register/page.tsx:53-116 | with the reset, the same steps leave the error on screen, only the upload sent, and the form usable |
| Upload.Check | app/api/upload/image/route.ts:14-35 | a file passes exactly when it is present, of an allowed image type and at most 5 MB; a missing file and a wrong type get their own 400 messages |
| Upload.SizeBoundary | app/api/upload/image/route.ts:6-30 | exactly 5 MB is accepted and one byte more is refused |
| Upload.AfterLastWhole | app/api/upload/image/route.ts:38 | a name without '.' is its own extension |
| Upload.AfterLastJoined | app/api/upload/image/route.ts:38 | the extension of `a.b` is `b` when `b` has no '.' |
| Upload.Extension | app/api/upload/image/route.ts:38 | the extension never contains '.' |
| Upload.Hex | app/api/upload/image/route.ts:39 | the hex text has two hex digits per random byte |
| Upload.HexRoundTrip | app/api/upload/image/route.ts:39 | the hex text decodes back to the random bytes |
| Upload.ImageUrl | app/api/upload/image/route.ts:55 | the public URL is `/uploads/profiles/` followed by the stored name |
| Upload.StemPlain | app/api/upload/image/route.ts:41 | the stored name's stem contains no '.', '/' or '\' |
| Upload.FilenameExtension | app/api/upload/image/route.ts:38-41 | the stored name keeps the uploaded file's extension |
| Upload.FilenameNoDotDot | app/api/upload/image/route.ts:41-91 | the stored name never contains "..", so the delete guard does not refuse it for that reason |
| Upload.DeleteStaysInDir | app/api/upload/image/route.ts:90-98 | a name the delete guard lets through has no separator, so it is the last component of the joined path |
| Upload.DotPassesGuard | app/api/upload/image/route.ts:83-102 | the name "." passes the delete guard, and no generated name is ".", so its delete finds no entry and answers 500 |
| Upload.GeneratedNameDeletable | app/api/upload/image/route.ts:41-96 | every name the upload generates from an original name holding no '/' and no '\\' passes the delete guard |
| Upload.UploadDir.constructor | app/api/upload/image/route.ts:48 | the uploads directory starts empty |
| Upload.UploadDir.Post | app/api/upload/image/route.ts:9-76 | a body that is not readable form data gets 500 "Failed to upload image" and writes nothing; a refused file gets its 400 and writes nothing; a failed write gets 500; otherwise the file is stored under the generated name and the reply carries that name and its public URL |
| Upload.UploadDir.Delete | app/api/upload/image/route.ts:78-116 | a name the guard refuses gets 400; a missing file gets 500; otherwise 200 and exactly that file is removed |
| Upload.UploadThenDelete | app/api/upload/image/route.ts:52-102 | deleting a freshly uploaded file restores the directory as it was |
| Schema.MemberOf | lib/auth.ts:37-39 | the member included with a user is one whose `userId` is that user's id, and none is found only when no member has it |
| Schema.FindUserByEmail | lib/auth.ts:33-40 | the user found has exactly the address looked up, and none is found only when no user has it |
| Tables.Table.constructor | app/api/admin/events/route.ts:40-49 | a new table has no row and hands out id 1 first |
| Tables.Table.Insert | app/api/admin/events/route.ts:40-49 | a refused write changes nothing; otherwise exactly the row built from the next id is appended and the next id moves on by one |
| VerifyEmail.Verified | app/api/auth/verify-email/route.ts:35-42 | the verified user has the flag set and no token or expiry, and every other field is unchanged |
| VerifyEmail.FirstMatch | app/api/auth/verify-email/route.ts:18-25 | `findFirst` returns the first user, in table order, whose token equals the one given and whose expiry is strictly after `now`, and none only when no user matches |
| VerifyEmail.FirstMatchNone | app/api/auth/verify-email/route.ts:18-25 | when no user matches, nothing is found |
| VerifyEmail.FirstMatchIs | app/api/auth/verify-email/route.ts:18-25 | the first matching user is the one found |
| VerifyEmail.UserTable.constructor | app/api/auth/verify-email/route.ts:18 | the table holds the given users |
| VerifyEmail.UserTable.Verify | app/api/auth/verify-email/route.ts:17-42 | a failing database changes nothing; no match changes nothing; otherwise exactly the first matching user is marked verified |
| VerifyEmail.UserTable.Post | app/api/auth/verify-email/route.ts:5-56 | a body that is not JSON gives 500; a missing or empty token gives 400 and changes nothing; a token that is not text gives 500; otherwise the status is 400, 200 or 500 for no match, verified or failure, with the table changed only by a verification |
| VerifyEmail.UserTable.Get | app/api/auth/verify-email/route.ts:58-102 | a missing token answers 400 without a redirect; otherwise the redirect names invalid-token, email-verified or verification-failed, with the same table change as POST |
| VerifyEmail.ExpiryIsStrict | app/api/auth/verify-email/route.ts:21-23 | a token whose expiry equals `now` no longer matches |
| VerifyEmail.OnlyMatchedUserChanges | app/api/auth/verify-email/route.ts:35-42 | a verification keeps every other user and the matched user's id, address, password and role, and sets only its verification state |
| VerifyEmail.OneShot | app/api/auth/verify-email/route.ts:35-42 | once used, a token whose value no other user shares matches nobody again |
| VerifyEmail.PostAndGetAgree | app/api/auth/verify-email/route.ts:44-96 | for the same table, POST answers 200 exactly when GET redirects to the success page |
| NewsPage.ReplaceRuns | app/admin/news/page.tsx:98-99 | `replace(/x+/g, '-')`: empty exactly when the input is, never longer, and a first character outside the class is kept |
| NewsPage.ReplaceRunsKeeps | app/admin/news/page.tsx:98-99 | every character that is neither in the class nor a dash survives, all of them and in their order |
| NewsPage.SqueezedHasNoDoubleDash | app/admin/news/page.tsx:99 | after `replace(/-+/g, '-')` no two dashes stand side by side |
| NewsPage.SlugShape | app/admin/news/page.tsx:94-101 | a slug holds only a-z, 0-9 and single dashes, and the final `trim` has nothing left to remove |
| NewsPage.SlugOfSlugText | app/admin/news/page.tsx:94-101 | text already shaped like a slug is its own slug |
| NewsPage.SlugIdempotent | app/admin/news/page.tsx:94-101 | making a slug of a slug changes nothing |
| NewsPage.SlugKeepsOuterDashes | app/admin/news/page.tsx:98-100 | the outer spaces of a title become dashes the final `trim` keeps: " hello " gives "-hello-" |
| NewsPage.FilterArticles | app/admin/news/page.tsx:81-92 | with no term every article is listed; otherwise exactly the articles whose title or content contains the term ignoring case, in order |
| NewsPage.CountsAddUp | app/admin/news/page.tsx:192-232 | every article is counted once, as published or as draft |
| NewsPage.SaveRequest | app/admin/news/page.tsx:103-122 | the slug is always recomputed from the title, an empty publish date is sent as null, and an edit is PUT to the article's URL while a new article is POSTed |
| NewsPage.PublishBody | app/admin/news/page.tsx:162-172 | publishing sends the current time and unpublishing sends null |
| NewsPage.PublishToggles | app/admin/news/page.tsx:162-172 | stored back, the PATCH flips the article between published and draft |
| NewsPage.EditForm | app/admin/news/page.tsx:135-144 | the edit form copies title and content, shows a missing image URL or publish date as "", and a date as exactly the first 16 characters of its ISO text (all of it when shorter) |
| NewsPage.Page.constructor | app/admin/news/page.tsx:42-57 | the page starts with no articles, no search, an empty form and nothing being edited |
| NewsPage.Page.Loaded | app/admin/news/page.tsx:63-79 | loaded rows become the articles and the listing follows them |
| NewsPage.Page.SetSearchTerm | app/admin/news/page.tsx:63-65 | a new term re-filters the listing and changes nothing else |
| NewsPage.Page.HandleEdit | app/admin/news/page.tsx:135-144 | the article becomes the one being edited and the form its edit form |
| NewsPage.Page.ResetForm | app/admin/news/page.tsx:182-190 | the form empties and nothing is being edited |
| NewsPage.Page.HandleSubmit | app/admin/news/page.tsx:103-133 | the save request follows the form and the edited article; an ok answer resets the form, any other keeps it |
| Permissions.SuperAdminHasEverything | lib/permissions.ts:19-28 | "Super Admin" holds all eight permissions |
| Permissions.CommitteeAdminPermissions | lib/permissions.ts:29-33 | "Committee Admin" holds exactly manage_events, manage_gallery and access_admin_panel |
| Permissions.MemberHasNothing | lib/permissions.ts:34 | "Member" holds no permission |
| Permissions.CommitteeAdminBelowSuperAdmin | lib/permissions.ts:18-35 | every Committee Admin permission is also a Super Admin permission |
| Permissions.UnknownRoleHasNothing | lib/permissions.ts:37-40 | role strings are matched exactly; any ordinary string outside the three roles holds nothing |
| Permissions.OrdinaryRolesReturn | lib/permissions.ts:37-40 | `hasPermission` returns for every role string except the names an object inherits, where the lookup throws |
| Permissions.AdminPanelIsAdmin | lib/permissions.ts:42-48 | `canAccessAdminPanel` agrees with `isAdmin` on every ordinary role string |
| V1Api.Param | app/api/v1/news/route.ts:17-18 | an absent or empty parameter is read as its fallback, any other text as itself, and text that is not a number is NaN |
| V1Api.ParamDefaults | app/api/v1/news/route.ts:17-18 | the fallbacks read as page 1 and limit 10 |
| V1Api.Skip | app/api/v1/news/route.ts:19 | page 1 skips nothing, and for a positive limit the skip is non-negative exactly from page 1 on |
| V1Api.SkipNextPage | app/api/v1/news/route.ts:19 | each page starts `limit` rows after the one before |
| V1Api.TotalPages | app/api/v1/news/route.ts:59 | the page count is null exactly when the limit is 0 |
| V1Api.TotalPagesBounds | app/api/v1/news/route.ts:59 | for a positive limit the page count is 0 exactly when there are no rows, and the last page is neither empty nor overfull |
| V1Api.Take | app/api/v1/news/route.ts:29-30 | a non-negative `take` gives the window of that many rows after `skip`; a negative one gives at most that many rows counted back from the end |
| V1Api.PagedIsPrefix | app/api/v1/events/route.ts:19-30 | the first n pages together are the first n times limit rows |
| V1Api.AllPagesOnce | app/api/v1/events/route.ts:19-54 | pages 1 to `totalPages` together hold every row exactly once, in order |
| V1Api.StripTags | app/api/v1/news/route.ts:44 | removing tags never lengthens the text; `StripDropsTag`, `StripKeepsPlain` and `StripKeepsLoneOpen` pin what is kept |
| V1Api.StripLeavesNoTag | app/api/v1/news/route.ts:44 | after stripping, no '<' is followed later by '>' |
| V1Api.StripNoTag | app/api/v1/news/route.ts:44 | text without a tag is left unchanged |
| V1Api.StripDropsTag | app/api/v1/news/route.ts:44 | a tag between text with no '<' before it and the rest is removed whole: the text before it is kept and the rest is stripped in turn |
| V1Api.StripKeepsPlain | app/api/v1/news/route.ts:44 | text with no '<' is kept character for character in front of the stripped rest |
| V1Api.StripKeepsLoneOpen | app/api/v1/news/route.ts:44 | a '<' with no '>' after it is kept together with everything after it |
| V1Api.StripIdempotent | app/api/v1/news/route.ts:44 | stripping twice gives what stripping once gives |
| V1Api.Excerpt | app/api/v1/news/route.ts:44 | the excerpt is the first 200 characters of the stripped content (all of it when shorter), free of tags, followed by "...", so at most 203 characters |
| V1Api.ExcerptOfPlainText | app/api/v1/news/route.ts:44 | short content without markup is shown whole, followed by "..." |
| V1Api.ReadQuery | app/api/v1/news/route.ts:16-29 | the query is accepted exactly when page and limit are numbers and the skip is not negative; it carries those values and the skip `(page - 1) * limit` |
| V1Api.DefaultQuery | app/api/v1/news/route.ts:17-19 | without parameters the query is page 1, limit 10, skip 0 |
| V1Api.PublishedNewestFirst | app/api/v1/news/route.ts:22-28 | the list holds exactly the published articles, as a multiset, newest first |
| V1Api.Items | app/api/v1/news/route.ts:42-45 | each listed article is its selected columns plus its excerpt, in the same order |
| V1Api.GetNews | app/api/v1/news/route.ts:5-69 | no valid Bearer token gives 401; a failing query or a refused query gives 500; a valid token with a working database and a readable page and limit always gets the listing, which holds the window of published articles newest first, with page, limit, the published count and the page count |
| V1Api.NewsPageOrdered | app/api/v1/news/route.ts:26-28 | the rows of a news page are newest first |
| V1Api.NewsPageRows | app/api/v1/news/route.ts:22-45 | a news page holds at most `limit` rows, each the listing of a published article of the table with an excerpt of at most 203 characters |
| V1Api.UpcomingSoonestFirst | app/api/v1/events/route.ts:22-28 | the list holds exactly the events starting at or after `now`, as a multiset, soonest first |
| V1Api.GetEvents | app/api/v1/events/route.ts:5-64 | no valid Bearer token gives 401; a failing or refused query gives 500; a valid token with a working database and a readable page and limit always gets the listing, which holds the window of upcoming events soonest first, none starting before `now`, with page, limit, the upcoming count and the page count |
| V1Api.EventsPageIsWindow | app/api/v1/events/route.ts:16-30 | page p asked for by number is the window of `limit` upcoming events after `(p - 1) * limit` |
| V1Api.EventPagesCoverUpcoming | app/api/v1/events/route.ts:16-54 | with fixed data, asking for pages 1 to `totalPages` returns every upcoming event exactly once, soonest first |
| AdminEventsPage.FilterEvents | app/admin/events/page.tsx:81-93 | with no term every event is listed; otherwise exactly the events whose title, venue or description contains the term ignoring case, in their loaded order |
| AdminEventsPage.StartingNowDiffers | app/admin/events/page.tsx:162 | an event starting exactly now counts as past on this page although the public v1 listing still shows it as upcoming |
| AdminEventsPage.CountsAddUp | app/admin/events/page.tsx:192-211 | the Upcoming and Past cards add up to the Total card |
| AdminEventsPage.SaveRequest | app/admin/events/page.tsx:99-108 | the form is PUT to the edited event's URL while editing and POSTed to the collection otherwise |
| AdminEventsPage.LocalInput | app/admin/events/page.tsx:127 | the datetime-input text is exactly the first 16 characters of the ISO rendering (all of it when shorter) |
| AdminEventsPage.EditForm | app/admin/events/page.tsx:121-132 | the edit form copies title, description and venue, renders both datetimes for the input, and shows a missing end or image as "" |
| AdminEventsPage.Page.constructor | app/admin/events/page.tsx:40-57 | the page starts with no events, no search, an empty form, nothing being edited and both dialogs closed |
| AdminEventsPage.Page.Loaded | app/admin/events/page.tsx:63-79 | loaded rows become the events and the listing follows them |
| AdminEventsPage.Page.SetSearchTerm | app/admin/events/page.tsx:63-65 | a new term re-filters the listing and changes nothing else |
| AdminEventsPage.Page.ResetForm | app/admin/events/page.tsx:150-160 | the form empties and nothing is being edited |
| AdminEventsPage.Page.OpenAdd | app/admin/events/page.tsx:180-183 | the add button resets the form and opens the add dialog |
| AdminEventsPage.Page.HandleEdit | app/admin/events/page.tsx:121-132 | the event becomes the one being edited, the form its edit form, and the edit dialog opens |
| AdminEventsPage.Page.HandleSubmit | app/admin/events/page.tsx:95-119 | the save request follows the form and the edited event; an ok answer resets the form and closes both dialogs, any other keeps them |
| PosterCarousel.Next | components/poster-carousel.tsx:53-55 | the forward step `(i + 1) % n` stays in range, moves one slide on and wraps from the last slide to the first |
| PosterCarousel.Prev | components/poster-carousel.tsx:47-51 | the backward step stays in range, moves one slide back and wraps from the first slide to the last |
| PosterCarousel.PrevNext | components/poster-carousel.tsx:47-55 | the backward step undoes the forward step and the forward step undoes the backward step |
| PosterCarousel.AdvanceWraps | components/poster-carousel.tsx:38-45 | k timer ticks from slide i land on i + k, wrapped once past the end |
| PosterCarousel.FullTurn | components/poster-carousel.tsx:38-45 | n ticks over n slides bring the carousel back to the slide it started on |
| PosterCarousel.ActivePosters | components/poster-carousel.tsx:35-36 | the slides are exactly the active posters, as a multiset, sorted by display order |
| PosterCarousel.SlidesAreActive | components/poster-carousel.tsx:35-36 | every slide is active and every active poster is a slide |
| CommitteeCarousel.SlidesStable | components/committee-carousel.tsx:30-32 | committees with the same display order keep the order of the fetched list (the sort is stable) |
| PosterCarousel.SlidesStable | components/poster-carousel.tsx:35-36 | posters with the same display order keep the order in which they were passed in (the sort is stable) |
| PosterCarousel.Carousel.constructor | components/poster-carousel.tsx:32-36 | a new carousel shows the first active poster and is not paused |
| PosterCarousel.Carousel.Render | components/poster-carousel.tsx:61-72 | with no active poster the welcome placeholder is shown; otherwise the current slide, with arrows and indicators exactly when there is more than one slide (lines 115, 135) |
| PosterCarousel.Carousel.GoToPrevious | components/poster-carousel.tsx:47-51 | the previous arrow moves to the backward step of the current slide and leaves the pause flag |
| PosterCarousel.Carousel.GoToNext | components/poster-carousel.tsx:53-55 | the next arrow moves to the forward step of the current slide and leaves the pause flag |
| PosterCarousel.Carousel.GoToSlide | components/poster-carousel.tsx:57-59 | an indicator click shows exactly the slide clicked |
| PosterCarousel.Carousel.Tick | components/poster-carousel.tsx:38-45 | a timer tick moves one slide forward when not paused and there is more than one slide, and otherwise changes nothing |
| PosterCarousel.Carousel.MouseEnter | components/poster-carousel.tsx:77 | the pointer entering pauses the carousel on the current slide |
| PosterCarousel.Carousel.MouseLeave | components/poster-carousel.tsx:78 | the pointer leaving resumes the carousel on the current slide |
| PosterCarousel.ForwardBack | components/poster-carousel.tsx:47-55 | clicking next then previous returns to the same slide |
| PosterCarousel.PausedStaysPut | components/poster-carousel.tsx:38-45 | while paused, timer ticks leave the current slide where it is |
| CommitteeCarousel.ActiveCommittees | components/committee-carousel.tsx:30-32 | the slides are exactly the active committees with a non-empty poster URL, as a multiset, sorted by display order |
| CommitteeCarousel.SlidesHavePosters | components/committee-carousel.tsx:30-32 | every slide is also a committee the database query for active committees with a poster returns |
| CommitteeCarousel.NextIsModular | components/committee-carousel.tsx:37-40 | the step `i === n - 1 ? 0 : i + 1` is the poster carousel's modular step and stays in range |
| CommitteeCarousel.PrevUndoesNext | components/committee-carousel.tsx:46-52 | the previous arrow undoes the next arrow and the next arrow undoes the previous |
| CommitteeCarousel.Carousel.constructor | components/committee-carousel.tsx:27-32 | the carousel starts on the first slide with autoplay on |
| CommitteeCarousel.Carousel.Render | components/committee-carousel.tsx:58-145 | no slides draws the "No committee images available" panel; otherwise every slide is drawn in order, only the current one opaque, with arrows and one dot per slide, the current one highlighted, exactly when there is more than one |
| CommitteeCarousel.Carousel.ExactlyOneOpaque | components/committee-carousel.tsx:74-79 | in the rendered view with at least one slide exactly one drawn slide is opaque, and the highlighted dot is that slide's |
| CommitteeCarousel.Carousel.GoToPrevious | components/committee-carousel.tsx:46-48 | the previous arrow moves back one slide, from the first to the last |
| CommitteeCarousel.Carousel.GoToNext | components/committee-carousel.tsx:50-52 | the next arrow moves on one slide, from the last to the first |
| CommitteeCarousel.Carousel.GoToSlide | components/committee-carousel.tsx:54-56 | a dot selects its own slide |
| CommitteeCarousel.Carousel.Tick | components/committee-carousel.tsx:34-44 | while autoplaying with more than one slide a tick moves on one slide; otherwise it changes nothing |
| CommitteeCarousel.Carousel.MouseEnter | components/committee-carousel.tsx:69 | the mouse entering stops autoplay and keeps the slide |
| CommitteeCarousel.Carousel.MouseLeave | components/committee-carousel.tsx:70 | the mouse leaving restarts autoplay and keeps the slide |
| PosterSlider.Slider.constructor | components/poster-slider.tsx:19-21 | a new slider is loading, has no poster and points at the first slot |
| PosterSlider.Slider.FetchDone | components/poster-slider.tsx:27-39 | when the fetch settles, loading ends and the posters are exactly the active ones the API returned, in its order; a failed fetch leaves none |
| PosterSlider.Slider.Render | components/poster-slider.tsx:61-89 | the loading view shows while loading, the welcome view exactly when loaded with no poster, and otherwise the current poster, with arrows and dots exactly when there is more than one (lines 130, 151) |
| PosterSlider.Slider.GoToPrevious | components/poster-slider.tsx:51-55 | the previous arrow moves to the carousel's backward step and changes nothing else |
| PosterSlider.Slider.GoToNext | components/poster-slider.tsx:57-59 | the next arrow moves to the carousel's forward step and changes nothing else |
| PosterSlider.Slider.GoToSlide | components/poster-slider.tsx:151-164 | a dot click shows exactly the poster clicked |
| PosterSlider.Slider.Tick | components/poster-slider.tsx:41-49 | the five-second timer moves one poster forward when there is more than one, and otherwise changes nothing |
| PosterSlider.ShownAreActive | components/poster-slider.tsx:32 | the posters shown are a subsequence of the API's list, all active, and every active poster is among them |
| PosterSlider.TimerCycles | components/poster-slider.tsx:41-49 | as many timer ticks as there are posters bring the slider back to where it started |
| PostersApi.ActiveFlag | app/api/admin/posters/route.ts:49 | an absent `isActive` defaults to true, a boolean is kept, and any other value is refused by the database |
| PostersApi.NewPoster | app/api/admin/posters/route.ts:42-51 | the row is built exactly when title and image are text and the optional fields pass their defaults; it keeps title and image, stores an empty description or link as null, stores every falsy display order as 0 and a truthy one as the number sent, and applies the `isActive` default |
| PostersApi.Get | app/api/admin/posters/route.ts:6-26 | anyone but a Super Admin or Committee Admin gets 401; otherwise 500 when the database fails, else 200 with every poster sorted by display order |
| PostersApi.Post | app/api/admin/posters/route.ts:28-61 | the two-role gate gives 401, a missing title or image gives 400 and changes nothing, and with both present the answer is 201 exactly when the poster can be built and the write succeeds; a 201 appends exactly the built poster under the next id; every other outcome is 500 with the table unchanged |
| PostersApi.ActiveDefaultOnlyWhenAbsent | app/api/admin/posters/route.ts:42-51 | an absent `isActive` becomes true, an explicit false stays false, empty strings become null and an explicit null is refused |
| MemberDirectory.FilterMembers | components/member-directory.tsx:74-106 | the five optional filters applied one after another never lengthen the list |
| MemberDirectory.FilterMembersMatches | components/member-directory.tsx:74-106 | the chain of filters is one filter by the conjunction of the criteria that are set |
| MemberDirectory.ListingIsMatches | components/member-directory.tsx:74-106 | the listing keeps the members' order and holds every member that meets all the set criteria and no other |
| MemberDirectory.NoCriteriaListsAll | components/member-directory.tsx:108-114 | with every filter cleared all members are listed |
| MemberDirectory.StricterListsFewer | components/member-directory.tsx:74-106 | setting more criteria lists a sub-sequence of what fewer criteria list |
| MemberDirectory.Column | components/member-directory.tsx:57-60 | `data.map(...)`: one value per member, in order |
| MemberDirectory.Choices | components/member-directory.tsx:57-60 | each option is a non-empty value some member has, and every non-empty value appears |
| MemberDirectory.ChoicesOrdered | components/member-directory.tsx:57-60 | `[...new Set(...)]`: each option appears once, in the order of its first occurrence |
| MemberDirectory.EveryCityOffered | components/member-directory.tsx:57-87 | every member's non-empty city is offered, and choosing it lists that member |
| MemberDirectory.Directory.constructor | components/member-directory.tsx:27-39 | the directory starts loading, with no members and no criteria |
| MemberDirectory.Directory.FetchDone | components/member-directory.tsx:49-72 | an ok answer replaces the members and with them the listing and the option lists; loading ends |
| MemberDirectory.Directory.SetCriteria | components/member-directory.tsx:45-47 | new criteria re-filter the listing and leave the members alone |
| MemberDirectory.Directory.ClearFilters | components/member-directory.tsx:108-114 | clearing empties every criterion, so every member is listed |
| AdminMembersPage.FilterMembers | app/admin/members/page.tsx:74-91 | the search throws exactly when a term is typed and some member matches nothing before its missing city; otherwise the listing is drawn from the loaded members, every entry matches the search (when typed) and the type (when chosen), and no matching member is left out |
| AdminMembersPage.NoEmailOtherFields | app/admin/members/page.tsx:78-83 | a member without an e-mail is found only through its name, phone or city |
| AdminMembersPage.PhoneIsCaseSensitive | app/admin/members/page.tsx:79-81 | a concrete example: the query "ab" does not match the text "Ab" as typed (the phone test) but does match it ignoring case (the name test) |
| AdminMembersPage.ListingDefined | app/admin/members/page.tsx:74-91 | no term and no type lists every member; when every member has a city the search never throws |
| AdminMembersPage.TypeAfterSearch | app/admin/members/page.tsx:77-88 | the type filter narrows the searched listing, so the result is the members meeting both, in order |
| AdminMembersPage.CountsAddUp | app/admin/members/page.tsx:153-159 | the Active and Inactive cards add up to the number of members |
| AdminMembersPage.ToggleRequest | app/admin/members/page.tsx:93-101 | the status toggle PATCHes the member's URL with the opposite of its current flag |
| AdminMembersPage.DeleteRequest | app/admin/members/page.tsx:111-117 | deleting sends a bodiless DELETE to the member's URL |
| AdminMembersPage.Page.constructor | app/admin/members/page.tsx:44-48 | the page starts loading with no members, no term, no type and an empty listing |
| AdminMembersPage.Page.FetchDone | app/admin/members/page.tsx:60-72 | an ok answer replaces the members and any other outcome keeps them; loading ends; the listing keeps following members, term and type |
| AdminMembersPage.Page.SetSearchTerm | app/admin/members/page.tsx:56-58 | a new term re-filters the listing and leaves the members and type alone |
| AdminMembersPage.Page.SetFilterType | app/admin/members/page.tsx:56-58 | a new type re-filters the listing and leaves the members and term alone |
| AdminCommitteesPage.FilterCommittees | app/admin/committees/page.tsx:83-86 | the listing holds exactly the loaded committees whose name or session year contains the search term, ignoring case |
| AdminCommitteesPage.EmptyTermShowsAll | app/admin/committees/page.tsx:83-86 | an empty search term lists every committee, in order |
| AdminCommitteesPage.EditForm | app/admin/committees/page.tsx:169-181 | the edit form takes the committee's name, session year, flag and order, with a missing description or image URL shown as "" |
| AdminCommitteesPage.EditFormKeepsPresent | app/admin/committees/page.tsx:169-181 | a committee with every optional field present is copied into the form unchanged |
| AdminCommitteesPage.DisplayOrderInput | app/admin/committees/page.tsx:444 | the display-order box holds the integer that `parseInt` reads from the typed text, or 0 when it reads none |
| AdminCommitteesPage.DisplayOrderReadsBack | app/admin/committees/page.tsx:565 | typing the decimal digits of a number sets exactly that display order |
| AdminCommitteesPage.NoDigitsIsZero | app/admin/committees/page.tsx:444 | text with no digit at all sets the display order to 0 |
| AdminCommitteesPage.AnswerField | app/api/upload/image/route.ts:57-64 | of the upload route's answer, the `imageUrl` field carries the stored file's URL and a `url` field is never present |
| AdminCommitteesPage.WithImage | app/admin/committees/page.tsx:200-203 | the chosen image kind selects which of the two URL fields is replaced; everything else in the form stays |
| AdminCommitteesPage.AsWrittenDropsUrl | app/admin/committees/page.tsx:198-203 | as written, a successful upload sets the image field to undefined instead of the uploaded URL |
| AdminCommitteesPage.AsWrittenLosesRouteAnswer | app/admin/committees/page.tsx:188-208 | as written, the upload route's own answer to an accepted file never reaches the committee form |
| AdminCommitteesPage.UploadedUrlInForm | app/admin/committees/page.tsx:188-208 | corrected: an ok upload puts the returned URL into the chosen field only; a failed upload leaves the form unchanged |
| AdminCommitteesPage.UploadReachesForm | app/admin/committees/page.tsx:188-208 | corrected: the public URL of the file the route stored ends up in the chosen field |
| AdminCommitteesPage.AddRequest | app/admin/committees/page.tsx:92-99 | adding POSTs the whole form to the committees API |
| AdminCommitteesPage.EditRequest | app/admin/committees/page.tsx:120-126 | editing PUTs the whole form to the committee's own URL |
| AdminCommitteesPage.DeleteRequest | app/admin/committees/page.tsx:145-147 | deleting sends a bodiless DELETE to the committee's own URL |
| AdminCommitteesPage.EditUrlsDistinct | app/admin/committees/page.tsx:120 | different committee ids give different edit URLs, so an edit reaches only its own committee |
| AdminCommitteesPage.Page.constructor | app/admin/committees/page.tsx:45-63 | the page starts loading, with no committees, no search, no selection, closed dialogs and the initial form |
| AdminCommitteesPage.Page.Listing | app/admin/committees/page.tsx:83-86 | what the page lists is drawn from the loaded committees and matches the current term |
| AdminCommitteesPage.Page.FetchDone | app/admin/committees/page.tsx:65-77 | an ok answer replaces the committees, any other outcome keeps them; loading always ends |
| AdminCommitteesPage.Page.SetSearchTerm | app/admin/committees/page.tsx:46 | typing changes only the search term |
| AdminCommitteesPage.Page.ResetForm | app/admin/committees/page.tsx:157-167 | the form returns to its initial values and nothing else changes |
| AdminCommitteesPage.Page.OpenEditModal | app/admin/committees/page.tsx:169-181 | the committee becomes the selection, the form its edit form, and the edit dialog opens |
| AdminCommitteesPage.Page.SetDisplayOrder | app/admin/committees/page.tsx:444 | only the form's display order changes, to what the typed text reads as |
| AdminCommitteesPage.Page.HandleImageUploadCorrected | app/admin/committees/page.tsx:188-208 | the form becomes the corrected upload result; the list, selection and dialogs stay |
| AdminCommitteesPage.Page.HandleAdd | app/admin/committees/page.tsx:88-111 | the form is POSTed; on an ok answer the list is refetched, the dialog closes and the form resets, otherwise all stays; submitting ends |
| AdminCommitteesPage.Page.HandleEdit | app/admin/committees/page.tsx:113-139 | without a selection nothing is sent; otherwise the form is PUT to the selection's URL, and an ok answer refetches, closes, deselects and resets |
| AdminPostersPage.OnSession | app/admin/posters/page.tsx:39-45 | the posters are fetched exactly for a session whose role is an admin role; every other session, including none, is sent to /dashboard |
| AdminPostersPage.PageGateIsApiGate | app/admin/posters/page.tsx:39-45 | the page lets in exactly the sessions the poster API lets in |
| AdminPostersPage.KeptImageUrl | app/admin/posters/page.tsx:66 | a save starts from the edited poster's image URL, or "" when creating |
| AdminPostersPage.SaveRequest | app/admin/posters/page.tsx:86-101 | the form and image URL are PUT to the edited poster's URL while editing and POSTed to the collection otherwise |
| AdminPostersPage.ToggleRequest | app/admin/posters/page.tsx:150-158 | the toggle PUTs a body holding only the flipped active flag to the poster's URL |
| AdminPostersPage.DeleteRequest | app/admin/posters/page.tsx:131-137 | deleting sends a bodiless DELETE to the poster's URL |
| AdminPostersPage.EditForm | app/admin/posters/page.tsx:118-126 | the edit form copies title, order and flag, with a missing description or link shown as "" |
| AdminPostersPage.Page.constructor | app/admin/posters/page.tsx:24-37 | the page starts loading with no posters, the form closed and empty, no image and no preview |
| AdminPostersPage.Page.FetchDone | app/admin/posters/page.tsx:47-59 | an ok answer replaces the posters and any other outcome keeps them; loading ends; the form is untouched |
| AdminPostersPage.Page.ResetForm | app/admin/posters/page.tsx:168-180 | default texts, no image, no preview, nothing edited and the form closed |
| AdminPostersPage.Page.HandleEdit | app/admin/posters/page.tsx:118-129 | the poster is being edited, the form holds its texts, the preview its image and the form opens; an image chosen earlier stays chosen |
| AdminPostersPage.Page.HandleImageChange | app/admin/posters/page.tsx:182-192 | a chosen file becomes the image to upload and its data URL the preview; choosing nothing changes nothing |
| AdminPostersPage.Page.HandleSubmit | app/admin/posters/page.tsx:61-116 | a newly chosen image whose upload fails aborts before any save, keeping the form, the chosen image and its preview; otherwise the save carries the uploaded URL or the kept one, and an ok answer refetches and resets while any other keeps the form, the image and its preview; submitting always ends |
| AdminPostersPage.EditKeepsImage | app/admin/posters/page.tsx:66 | saving an edit without a new image sends the poster's own image URL back; creating without one sends "" |
| AdminPostersPage.UploadedImageIsSaved | app/admin/posters/page.tsx:78-80 | with the upload route's answer to an accepted file, the save carries the stored file's public URL |
| AdminPostersPage.RefusedUploadAborts | app/admin/posters/page.tsx:81-83 | a file the upload route refuses gets an answer that is not ok, so the save never happens |
| Committees.ActiveCommittees | lib/committees.ts:3-26 | the active committees with a poster URL, all of them and only them, ascending by display order; a failed query gives [] |
| Committees.AllCommittees | lib/committees.ts:28-54 | every committee, ascending by display order; a failed query gives [] |
| Committees.CommitteeById | lib/committees.ts:56-83 | the committee is found exactly when the query succeeds and a row has the id; it comes with exactly its membership rows, ascending by row id |
| Committees.NewRow | lib/committees.ts:94-105 | a created committee takes the given texts and image URLs, is active unless explicitly false, and has display order 0 unless one was given |
| Committees.PatchWritesPresentFields | lib/committees.ts:112-125 | an update writes exactly the fields it carries and never the id |
| Committees.PatchLaws | lib/committees.ts:112-125 | an empty update changes nothing, and applying an update twice is applying it once |
| Committees.CommitteeTable.constructor | lib/committees.ts:85-110 | the table starts empty, with ids handed out from 1 |
| Committees.CommitteeTable.Create | lib/committees.ts:85-110 | a created row is appended under an id no other row has; a refused write is rethrown and changes nothing |
| Committees.CommitteeTable.Update | lib/committees.ts:112-130 | the update succeeds exactly when a row has the id; that row is patched in place and no other row changes; otherwise nothing changes |
| Committees.CommitteeTable.Delete | lib/committees.ts:132-141 | the delete succeeds exactly when a row has the id; that row is removed and the others stay in order; otherwise nothing changes |
| Committees.ToNewCommittee | app/api/admin/committees/route.ts:43-51 | the argument is built exactly when name and session year are text and every optional field is absent, null or of its column's type; it passes name, session year, description and both image URLs through, keeps a given flag or order, and leaves an absent or null flag or order absent for the defaults |
| Committees.Get | app/api/admin/committees/route.ts:6-23 | a session without an admin role gets 401; an admin gets 200 and every committee in display order |
| Committees.Post | app/api/admin/committees/route.ts:25-61 | non-admins get 401 and a missing name or session year 400, with nothing written; with both present the answer is 201 exactly when the committee can be built and the write succeeds, 500 otherwise; 201 comes exactly when a row was appended, and carries that row |
| Committees.ExplicitFalseKept | lib/committees.ts:102-103 | an explicit `isActive: false` and `displayOrder: 0` are kept; only absent fields take the defaults |
| Dashboard.StatusOf | app/dashboard/page.tsx:90-118 | an unapproved member is pending; an approved one is active or inactive by its active flag; the three cases exclude each other |
| Dashboard.StatusCardConsistent | app/dashboard/page.tsx:90-118 | the icon, the text, the description and both badge variants always show the same one of the three cases |
| Dashboard.PendingIgnoresActive | app/dashboard/page.tsx:100-102 | an unapproved member reads "Pending Admin Approval" whatever its active flag says |
| Dashboard.StatusNamesDistinct | app/dashboard/page.tsx:162 | the three texts, icons and badge variants are pairwise different, so each names its case |
| Dashboard.Render | app/dashboard/page.tsx:60-88 | the spinner shows exactly while the session or the profile is loading; then no session shows Access Denied, then no profile Profile Not Found, and otherwise the card for the profile's status |
| Dashboard.Page.constructor | app/dashboard/page.tsx:37-38 | the page starts loading, with no profile |
| Dashboard.Page.OnSession | app/dashboard/page.tsx:40-58 | as written: with a signed-in user the profile fetch ends loading and an ok answer becomes the profile; without one nothing changes |
| Dashboard.Page.OnSessionCorrected | app/dashboard/page.tsx:40-58 | corrected: loading also ends once the session is known to be absent |
| Dashboard.SignedOutAsWritten | app/dashboard/page.tsx:40-68 | as written, a visitor without a session sees the spinner however often the effect runs, never Access Denied |
| Dashboard.SignedOutCorrected | app/dashboard/page.tsx:68-77 | corrected, a visitor without a session is shown Access Denied |
| Dashboard.SignedInCorrected | app/dashboard/page.tsx:40-118 | corrected, a signed-in member whose profile arrives sees the card for that profile's status |
| Common.Coalesce | app/api/admin/members/route.ts:66 | `v ?? d`: undefined and null become the default, every other value is kept |
| Common.OrElse | app/api/admin/posters/route.ts:45-48 | the logical-or default keeps a truthy value and replaces every falsy one by the default |
| Common.Trim | app/api/auth/register/route.ts:68-69 | `trim()` leaves no white space at either end, never lengthens the text, and turns blank text into "" |
| Common.TrimKeepsMiddle | app/api/auth/register/route.ts:68-69 | what `trim()` keeps is the stretch of the text that starts after its leading white space, with only white space after it |
| Common.Utf16Length | app/api/auth/register/route.ts:39 | `length` counts UTF-16 code units: between one and two per character, and one per character when none lies outside the Basic Multilingual Plane |
| Common.AstralCountsTwice | app/register/page.tsx:43 | three emoji are three characters but six code units, so they pass the six-unit minimum |
| Common.TrimNoSpace | app/api/auth/register/route.ts:69 | text without white space is unchanged by `trim()` |
| Common.TrimOrNull | app/api/auth/register/route.ts:71 | the optional trim with a null default is the trimmed text when it is not blank, and null otherwise |
| Common.LowerIdempotent | lib/auth.ts:35 | lower-casing twice gives what lower-casing once gives |
| Common.ParseInt | app/admin/committees/page.tsx:444 | `parseInt` yields a number only from text holding a digit, and NaN otherwise |
| Common.ParseDecimal | app/api/v1/news/route.ts:17-18 | `parseInt` reads the decimal text of a number back as that number |
| Common.ParseIntReads | app/api/v1/news/route.ts:17-18 | leading white space, an optional sign, the decimal text of n and anything not starting with a digit read as n, or -n after '-' |
| Common.ParseIntDigits | app/api/v1/news/route.ts:17-18 | the same for any non-empty run of digits, read as the value of those digits (leading zeros included) |
| Seqs.Search | app/admin/events/page.tsx:81-93 | an empty search term keeps every row; any other keeps, in order, exactly the rows it hits |
| Seqs.Dedup | components/member-directory.tsx:57-60 | `[...new Set(values)]` holds each value once, and every value that occurs |
| Seqs.DedupFirstOccurrence | components/member-directory.tsx:57-60 | the distinct values keep the order of their first occurrence |

## Left out

- Database access (connections, raw queries, the SQL behind `findMany` and `count`): tables are in-memory sequences, queries are filters, sorts and windows over them, and a failing database is a boolean parameter.
- Tie order under an ORM `orderBy` is left open: listings are stated as sorted and as a permutation of the matching rows, never as one particular order of equal keys.
- bcrypt hashing and comparison, jsonwebtoken signing and verification, `crypto.randomBytes` and the clock are parameters of the operations that use them. All verification failures of a token are one failure, and the "Token expired" branch of `verifyJWT` cannot be reached because its error class is a subclass of the one checked first.
- `GET /api/v1/events` reads the clock twice, once for the rows and once for the count; one instant `now` stands for both.
- Rendering (JSX, CSS classes, icons, locale date formatting), `FileReader` previews, `confirm` and `alert` dialogs, and `router.push` targets beyond the page navigated to are not modelled. A page's view is a small datatype, and each timer is a `Tick()` method.
- V1Api.Excerpt: `substring(0, 200)` counts UTF-16 code units and can cut an astral character in half, leaving a lone surrogate that a Dafny string cannot hold; the model cuts after 200 characters instead.
- EventsPage.NoEventInBoth, EventsPage.UpcomingOrPast, AdminEventsPage.CountsAddUp: the source reads the clock once per query (app/events/page.tsx:10, 22, run together under `Promise.all`) and once per `isUpcoming` call (app/admin/events/page.tsx:162, 194, 202, 283); the model evaluates both lists and all cards at one instant, so an event whose start falls between two readings, which could appear in both lists or in neither card, is not modelled.
- `toLowerCase` is modelled on ASCII letters only. Unicode case mapping (for instance U+212A KELVIN SIGN lower-casing to 'k') is not part of this model.
- Common.ParseInt: handles decimal text only; the hexadecimal `0x` prefix that `parseInt` also accepts without a radix is not modelled.
- V1Api.GetNews: a NaN page or limit, or a negative skip, is refused by the ORM; the model answers it with the handler's 500 rather than modelling the error text. `Math.ceil` on a zero limit is written as a null page count.
- V1Api.TotalPages: its own contract states only when the count is null; the bounds for a positive limit are in `TotalPagesBounds`.
- PosterCarousel.Carousel.Render: the `showNavigation` and `showIndicators` props (components/poster-carousel.tsx:28-29, 115, 135) are taken at their defaults of true, since no page in the repository passes them, and the "Paused" badge (line 153) is not part of the view; the arrows and dots are shown exactly when there is more than one slide.
- Request bodies model JSON numbers as integers: fractions, and the width of an Int column, are not modelled; a value the database refuses for its range is covered by the `fail` parameter of the create handlers.
- Carousel lists are fixed for the life of a carousel. When the poster or committee list shrinks between renders the source does not re-clamp `currentIndex`, and that case is not modelled.
- The alert messages of the admin pages are not modelled; the requests they send, the state they reset and the `isSubmitting` flags of the committees and posters pages are.
- The delete handlers of the admin events page (app/admin/events/page.tsx:134-148) and the admin news page (app/admin/news/page.tsx:146-160) send one DELETE after a `confirm` dialog and then refetch; they are not modelled separately.
- The Lifetime and Patron counters of the admin members page (app/admin/members/page.tsx:165, 171) are not modelled; the active and inactive counts are.
- MembersApi.NewMember and MembersApi.Post: the member-create fields that the directory record does not carry (father's name, date of birth, gender, address, pincode, secondary phone) are not modelled. So `new Date(data.dob)` (app/api/admin/members/route.ts:55) is not checked: a missing or invalid date of birth is refused by the database, and that 500 is the `fail` parameter of `MembersApi.Post`.
- The admin posters page redirects while the session is still loading; only the decision once the session is known is modelled.
- Role strings that are keys of `Object.prototype` ("constructor", "toString" and the like) make `hasPermission` throw; the model returns `Throws` for them instead of false.
- Debug, diagnostic and seeding routes, the test and emergency login pages, and `app/api/v1/login/route.ts` (which uses another schema variant and an unnormalised e-mail key) are not part of this model.
- Pages and handlers that are a single query with no rule beyond a where or orderBy clause (the home, news, committee, gallery, downloads, patron and lifetime pages; `lib/posters.ts`; the public posters, members and profile handlers; the v1 committees and gallery handlers) are not part of this model, nor are static pages, the header, the footer, configuration and type declarations.

## Findings

| source | as written | input that shows it | evidently intended | confidence | as-written member | corrected member |
|---|---|---|---|---|---|---|
| app/register/page.tsx:53-69 | `isUploading` is set before the image upload and cleared only after a successful one; the `finally` block (line 113) resets only `isLoading`, and the submit button (line 435) stays disabled | pick a valid image and submit while the upload endpoint answers with an error | the form can be submitted again after a failed upload | not executed | RegisterPage.FailedUploadLocksForm | RegisterPage.FailedUploadRecovers |
| app/admin/committees/page.tsx:202 | an ok upload answer is read as `data.url`, but the upload route answers with `imageUrl` (app/api/upload/image/route.ts:55-60) | upload any accepted image for a committee | the returned public URL is stored in the form's image field | not executed | AdminCommitteesPage.AsWrittenDropsUrl | AdminCommitteesPage.UploadedUrlInForm |
| app/dashboard/page.tsx:38-67 | `loading` starts true and only the profile fetch, which runs only with a signed-in user, sets it false | open the dashboard without a session | a visitor without a session sees the "Access Denied" screen | not executed | Dashboard.SignedOutAsWritten | Dashboard.SignedOutCorrected |
