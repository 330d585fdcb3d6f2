/** The token-protected listing endpoints (app/api/v1/news/route.ts and
    app/api/v1/events/route.ts): a Bearer check, `page` and `limit` read from
    the query string, a window of a filtered and sorted table, and the
    pagination summary. `auth` is what `verifyJWT(request)` answered for the
    request (see module Jwt); the clock is `now`. */
module V1Api {
  import opened Common
  import opened Schema
  import opened Seqs
  import Jwt

  // ----- query parameters -----

  /** `parseInt(searchParams.get(name) || fallback)`: an absent or empty
      parameter reads the fallback; None is NaN. */
  function Param(raw: Option<string>, fallback: string): (r: Option<int>)
    ensures raw.None? || raw == Some("") ==> r == ParseInt(fallback)
    ensures raw.Some? && raw.value != "" ==> r == ParseInt(raw.value)
  {
    ParseInt(if raw.None? || raw.value == "" then fallback else raw.value)
  }

  /** Without parameters a listing starts at page 1 with 10 rows a page. */
  lemma ParamDefaults()
    ensures Param(None, "1") == Some(1) && Param(None, "10") == Some(10)
    ensures Param(Some(""), "1") == Some(1) && Param(Some(""), "10") == Some(10)
  {
    ParseDecimal(1);
    ParseDecimal(10);
    assert NatToDecimal(1) == "1";
    assert NatToDecimal(10) == NatToDecimal(1) + [DigitChar(0)] == "10";
  }

  /** `(page - 1) * limit`. */
  function Skip(page: int, limit: int): (skip: int)
    ensures page == 1 ==> skip == 0
    ensures limit > 0 ==> (skip >= 0 <==> page >= 1)
  {
    Mul(page - 1, limit)
  }

  /** The product, kept apart so that the solver sees it as one term. */
  function Mul(a: int, b: int): (r: int)
    ensures a == 0 ==> r == 0
    ensures b > 0 ==> (r >= 0 <==> a >= 0)
    ensures a >= 0 && b >= 0 ==> r >= 0
  {
    a * b
  }

  /** The number of rows before page `page` of `limit` rows: every page
      starts where the one before it ends. */
  lemma SkipNextPage(page: int, limit: int)
    ensures Skip(page + 1, limit) == Skip(page, limit) + limit
  {
  }

  /** `Math.ceil(total / limit)`. A zero limit divides by zero: the quotient
      is Infinity or NaN, which JSON writes as null (None). */
  function TotalPages(total: nat, limit: int): (r: Option<int>)
    ensures r.None? <==> limit == 0
  {
    if limit == 0 then None
    else if limit > 0 then Some(if total % limit == 0 then total / limit else total / limit + 1)
    // the quotient is negative or zero; `ceil` moves it towards zero
    else Some(0 - (total / (0 - limit)))
  }

  /** For a positive limit, the page count is the least number of pages that
      holds every row: zero exactly when there are no rows, and the last page
      is neither empty nor overfull. */
  lemma TotalPagesBounds(total: nat, limit: int)
    requires limit > 0
    ensures TotalPages(total, limit).Some?
    ensures var n := TotalPages(total, limit).value;
            && n >= 0
            && (n == 0 <==> total == 0)
            && Mul(n - 1, limit) < total <= Mul(n, limit)
  {
    var n := TotalPages(total, limit).value;
    var q := total / limit;
    assert total == q * limit + total % limit;
    if total % limit == 0 {
      assert n == q;
      assert Mul(n, limit) == q * limit;
      assert Mul(n - 1, limit) == q * limit - limit;
    } else {
      assert n == q + 1;
      assert Mul(n, limit) == q * limit + limit;
      assert Mul(n - 1, limit) == q * limit;
    }
  }

  // ----- windows -----

  /** `skip` and `take` as the ORM reads them: a negative `take` counts from
      the end of the ordered rows, after skipping `skip` rows there. */
  function Take<T>(s: seq<T>, skip: nat, take: int): (r: seq<T>)
    ensures take >= 0 ==> r == Window(s, skip, take)
    ensures take < 0 ==> |r| <= 0 - take && |r| <= |s| - Min(skip, |s|)
    ensures take < 0 ==> forall i :: 0 <= i < |r| ==> r[i] == s[|s| - |r| - Min(skip, |s|) + i]
  {
    if take >= 0 then Window(s, skip, take)
    else
      var hi := |s| - Min(skip, |s|);
      var lo := if hi >= 0 - take then hi + take else 0;
      s[lo..hi]
  }

  function Min(a: nat, b: nat): (m: nat)
    ensures m <= a && m <= b && (m == a || m == b)
  {
    if a <= b then a else b
  }

  /** Pages 1 to `n` of `limit` rows, one after the other. */
  function Paged<T>(s: seq<T>, limit: nat, n: nat): seq<T>
  {
    if n == 0 then [] else Paged(s, limit, n - 1) + Window(s, Skip(n, limit), limit)
  }

  /** The first `n` pages are the first `n * limit` rows (or all of them). */
  lemma {:induction false} PagedIsPrefix<T>(s: seq<T>, limit: nat, n: nat)
    requires limit > 0
    ensures Paged(s, limit, n) == Prefix(s, Mul(n, limit))
  {
    if n > 0 {
      PagedIsPrefix(s, limit, n - 1);
      SkipNextPage(n - 1, limit);
      PrefixThenWindow(s, Mul(n - 1, limit), limit);
    }
  }

  /** The first `lo` rows followed by the window of `k` rows after them are
      the first `lo + k` rows. */
  lemma PrefixThenWindow<T>(s: seq<T>, lo: nat, k: nat)
    ensures Prefix(s, lo) + Window(s, lo, k) == Prefix(s, lo + k)
  {
    if lo >= |s| {
      assert Window(s, lo, k) == [];
    } else if lo + k <= |s| {
      assert Prefix(s, lo) + Window(s, lo, k) == s[..lo] + s[lo..lo + k];
      assert s[..lo] + s[lo..lo + k] == s[..lo + k];
    } else {
      assert Prefix(s, lo) + Window(s, lo, k) == s[..lo] + s[lo..];
      assert s[..lo] + s[lo..] == s;
    }
  }

  /** Reading every page from 1 to `totalPages` gives each row exactly once, in order. */
  lemma AllPagesOnce<T>(s: seq<T>, limit: int)
    requires limit > 0
    ensures Paged(s, limit, TotalPages(|s|, limit).value) == s
  {
    TotalPagesBounds(|s|, limit);
    PagedIsPrefix(s, limit, TotalPages(|s|, limit).value);
  }

  // ----- tag stripping and excerpts -----

  /** The index of the first '>' in `s`, if any. */
  function CloseAt(s: string): (r: Option<nat>)
    ensures r.Some? ==> r.value < |s| && s[r.value] == '>'
    ensures r.Some? ==> forall i :: 0 <= i < r.value ==> s[i] != '>'
    ensures r.None? ==> forall i :: 0 <= i < |s| ==> s[i] != '>'
  {
    if s == [] then None
    else if s[0] == '>' then Some(0)
    else match CloseAt(s[1..])
      case None => None
      case Some(k) => Some(k + 1)
  }

  /** `s.replace(/<[^>]*>/g, '')`: from left to right, a '<' with a '>'
      somewhere after it is removed together with everything up to the first
      such '>'; a '<' with no '>' after it stays. */
  function StripTags(s: string): (r: string)
    ensures |r| <= |s|
    decreases |s|
  {
    if s == [] then []
    else if s[0] == '<' && CloseAt(s[1..]).Some? then
      StripTags(s[CloseAt(s[1..]).value + 2..])
    else [s[0]] + StripTags(s[1..])
  }

  /** No '<' with a '>' anywhere after it, so no tag is left to match. */
  predicate NoTag(s: string)
  {
    forall i, j :: 0 <= i < j < |s| && s[i] == '<' ==> s[j] != '>'
  }

  /** Stripping adds no '>' of its own. */
  lemma {:induction false} StripKeepsNoClose(s: string)
    requires forall i :: 0 <= i < |s| ==> s[i] != '>'
    ensures forall i :: 0 <= i < |StripTags(s)| ==> StripTags(s)[i] != '>'
    decreases |s|
  {
    if s != [] {
      assert forall i :: 0 <= i < |s| - 1 ==> s[1..][i] == s[i + 1];
      StripKeepsNoClose(s[1..]);
    }
  }

  /** After stripping, no '<' is followed later by '>'. */
  lemma {:induction false} StripLeavesNoTag(s: string)
    ensures NoTag(StripTags(s))
    decreases |s|
  {
    if s != [] {
      if s[0] == '<' && CloseAt(s[1..]).Some? {
        StripLeavesNoTag(s[CloseAt(s[1..]).value + 2..]);
      } else {
        StripLeavesNoTag(s[1..]);
        var rest := StripTags(s[1..]);
        var r := [s[0]] + rest;
        if s[0] == '<' {
          StripKeepsNoClose(s[1..]);
        }
        forall i, j | 0 <= i < j < |r| && r[i] == '<'
          ensures r[j] != '>'
        {
          assert r[j] == rest[j - 1];
          if i > 0 {
            assert r[i] == rest[i - 1];
          }
        }
      }
    }
  }

  /** Text with no tag in it is left alone. */
  lemma {:induction false} StripNoTag(s: string)
    requires NoTag(s)
    ensures StripTags(s) == s
    decreases |s|
  {
    if s != [] {
      var t := s[1..];
      NoTagTail(s, t);
      StripNoTag(t);
    }
  }

  /** Dropping the first character keeps a text free of tags, and a '<' in
      front of such a text finds no '>' after it. */
  lemma NoTagTail(s: string, t: string)
    requires NoTag(s) && s != [] && t == s[1..]
    ensures NoTag(t)
    ensures s[0] == '<' ==> CloseAt(t).None?
  {
    forall i, j | 0 <= i < j < |t| && t[i] == '<'
      ensures t[j] != '>'
    {
      assert t[i] == s[i + 1] && t[j] == s[j + 1];
    }
    if s[0] == '<' {
      forall k | 0 <= k < |t|
        ensures t[k] != '>'
      {
        assert t[k] == s[k + 1];
      }
    }
  }

  /** Stripping twice strips nothing more. */
  lemma StripIdempotent(s: string)
    ensures StripTags(StripTags(s)) == StripTags(s)
  {
    StripLeavesNoTag(s);
    StripNoTag(StripTags(s));
  }

  /** The first '>' after a stretch without one is the one that closes it. */
  lemma {:induction false} CloseAtAfter(t: string, c: string)
    requires '>' !in t
    ensures CloseAt(t + ">" + c) == Some(|t|)
    decreases |t|
  {
    if t != [] {
      assert (t + ">" + c)[1..] == t[1..] + ">" + c;
      CloseAtAfter(t[1..], c);
    }
  }

  /** Text with no '<' in front of the rest is kept character for character. */
  lemma {:induction false} StripKeepsPlain(a: string, c: string)
    requires '<' !in a
    ensures StripTags(a + c) == a + StripTags(c)
    decreases |a|
  {
    if a != [] {
      var s := a + c;
      assert s[0] == a[0] != '<' && s[1..] == a[1..] + c;
      StripKeepsPlain(a[1..], c);
      assert StripTags(s) == [s[0]] + StripTags(s[1..]);
      assert a == [a[0]] + a[1..];
    } else {
      assert a + c == c;
    }
  }

  /** A tag is removed whole, and the text around it is kept. */
  lemma StripDropsTag(a: string, t: string, c: string)
    requires '<' !in a && '>' !in t
    ensures StripTags(a + "<" + t + ">" + c) == a + StripTags(c)
  {
    var tag := "<" + t + ">" + c;
    assert tag[1..] == t + ">" + c;
    CloseAtAfter(t, c);
    assert tag[|t| + 2..] == c;
    assert a + "<" + t + ">" + c == a + tag;
    StripKeepsPlain(a, tag);
  }

  /** A '<' with no '>' anywhere after it is kept, with the text after it. */
  lemma StripKeepsLoneOpen(c: string)
    requires '>' !in c
    ensures StripTags("<" + c) == "<" + c
  {
    assert NoTag("<" + c) by {
      forall i, j | 0 <= i < j < |"<" + c| && ("<" + c)[i] == '<'
        ensures ("<" + c)[j] != '>'
      {
        assert ("<" + c)[j] == c[j - 1];
      }
    }
    StripNoTag("<" + c);
  }

  const ExcerptLength := 200

  /** `content.replace(/<[^>]*>/g, '').substring(0, 200) + '...'`. */
  function Excerpt(content: string): (r: string)
    ensures |r| <= ExcerptLength + 3
    // the first 200 characters of the stripped text, or all of it when shorter
    ensures |r| == (if |StripTags(content)| < ExcerptLength then |StripTags(content)| else ExcerptLength) + 3
    ensures |r| >= 3 && r[|r| - 3..] == "..."
    ensures r[..|r| - 3] <= StripTags(content)
    ensures NoTag(r[..|r| - 3])
  {
    var body := Prefix(StripTags(content), ExcerptLength);
    StripLeavesNoTag(content);
    var r := body + "...";
    assert r[..|r| - 3] == body;
    r
  }

  /** Short content without markup is shown whole, followed by "...". */
  lemma ExcerptOfPlainText(content: string)
    requires NoTag(content) && |content| <= ExcerptLength
    ensures Excerpt(content) == content + "..."
  {
    StripNoTag(content);
  }

  // ----- replies -----

  /** The `pagination` object. */
  datatype Pagination = Pagination(page: int, limit: int, total: nat, totalPages: Option<int>)

  /** 200 with rows and pagination, or an error status with its message. */
  datatype Reply<T> = Listing(rows: seq<T>, pagination: Pagination) | Failure(status: nat, error: string)

  const Unauthorized := "Unauthorized"

  /** The checks shared by both handlers, in order: the Bearer token, then the
      parameters. A NaN parameter, or a negative skip, is refused by the ORM
      and answered with the handler's 500. */
  datatype Query = Query(page: int, limit: int, skip: nat)

  function ReadQuery(pageRaw: Option<string>, limitRaw: Option<string>): (r: Option<Query>)
    ensures r.Some? <==> (Param(pageRaw, "1").Some? && Param(limitRaw, "10").Some?
                          && Skip(Param(pageRaw, "1").value, Param(limitRaw, "10").value) >= 0)
    ensures r.Some? ==> r.value.page == Param(pageRaw, "1").value && r.value.limit == Param(limitRaw, "10").value
                        && r.value.skip == Skip(r.value.page, r.value.limit)
  {
    var page := Param(pageRaw, "1");
    var limit := Param(limitRaw, "10");
    if page.None? || limit.None? || Skip(page.value, limit.value) < 0 then None
    else Some(Query(page.value, limit.value, Skip(page.value, limit.value)))
  }

  /** With no parameters the first ten rows are asked for. */
  lemma DefaultQuery()
    ensures ReadQuery(None, None) == Some(Query(1, 10, 0))
  {
    ParamDefaults();
  }

  // ----- GET /api/v1/news -----

  /** A listed article: the selected columns and the excerpt. */
  datatype NewsItem = NewsItem(
    id: nat, title: string, slug: string, imageUrl: Option<string>, publishedAt: int,
    content: string, excerpt: string)

  predicate IsPublished(a: NewsArticle)
  {
    a.publishedAt.Some?
  }

  function PublishedTime(a: NewsArticle): int
  {
    if a.publishedAt.Some? then a.publishedAt.value else 0
  }

  /** `orderBy: { publishedAt: 'desc' }`; ties are left in table order. */
  predicate LaterPublished(a: NewsArticle, b: NewsArticle)
  {
    PublishedTime(a) >= PublishedTime(b)
  }

  lemma LaterPublishedIsPreorder()
    ensures TotalPreorder(LaterPublished)
  {
  }

  /** Every published article, newest first. */
  function PublishedNewestFirst(rows: seq<NewsArticle>): (r: seq<NewsArticle>)
    ensures |r| == |Filter(rows, IsPublished)|
    ensures multiset(r) == multiset(Filter(rows, IsPublished))
    ensures SortedBy(r, LaterPublished)
    ensures forall i :: 0 <= i < |r| ==> IsPublished(r[i])
  {
    var p := Filter(rows, IsPublished);
    LaterPublishedIsPreorder();
    SortBySorted(p, LaterPublished);
    SortByKeeps(p, LaterPublished, IsPublished);
    SortBy(p, LaterPublished)
  }

  /** The selected columns of an article and its excerpt. */
  function Item(a: NewsArticle): NewsItem
  {
    NewsItem(a.id, a.title, a.slug, a.imageUrl, PublishedTime(a), a.content, Excerpt(a.content))
  }

  /** `articles.map(...)`. */
  function Items(w: seq<NewsArticle>): (r: seq<NewsItem>)
    ensures |r| == |w| && forall i :: 0 <= i < |w| ==> r[i] == Item(w[i])
  {
    if w == [] then [] else [Item(w[0])] + Items(w[1..])
  }

  /** `GET /api/v1/news`. `dbUp` false is a failing query. */
  function GetNews(auth: Jwt.AuthResult,
                   pageRaw: Option<string>, limitRaw: Option<string>,
                   rows: seq<NewsArticle>, dbUp: bool): (r: Reply<NewsItem>)
    // no valid token, no query
    ensures !auth.success ==> r == Failure(401, Unauthorized)
    ensures auth.success && (!dbUp || ReadQuery(pageRaw, limitRaw).None?) ==>
              r == Failure(500, "Failed to fetch news articles")
    ensures auth.success && dbUp && ReadQuery(pageRaw, limitRaw).Some? ==> r.Listing?
    ensures r.Listing? ==>
              var q := ReadQuery(pageRaw, limitRaw).value;
              var all := PublishedNewestFirst(rows);
              && auth.success && dbUp
              && r.pagination == Pagination(q.page, q.limit, |Filter(rows, IsPublished)|, TotalPages(|all|, q.limit))
              && (q.limit >= 0 ==> r.rows == Items(Window(all, q.skip, q.limit)))
  {
    if !auth.success then Failure(401, Unauthorized)
    else if !dbUp then Failure(500, "Failed to fetch news articles")
    else match ReadQuery(pageRaw, limitRaw)
      case None => Failure(500, "Failed to fetch news articles")
      case Some(q) =>
        var all := PublishedNewestFirst(rows);
        var w := Take(all, q.skip, q.limit);
        Listing(Items(w),
                Pagination(q.page, q.limit, |all|, TotalPages(|all|, q.limit)))
  }

  /** The rows of a news page are published and newest first. */
  lemma NewsPageOrdered(auth: Jwt.AuthResult,
                        pageRaw: Option<string>, limitRaw: Option<string>, rows: seq<NewsArticle>)
    requires GetNews(auth, pageRaw, limitRaw, rows, true).Listing?
    requires ReadQuery(pageRaw, limitRaw).value.limit >= 0
    ensures var r := GetNews(auth, pageRaw, limitRaw, rows, true).rows;
            forall i, j :: 0 <= i < j < |r| ==> r[i].publishedAt >= r[j].publishedAt
  {
    var q := ReadQuery(pageRaw, limitRaw).value;
    var all := PublishedNewestFirst(rows);
    assert GetNews(auth, pageRaw, limitRaw, rows, true).rows == Items(Window(all, q.skip, q.limit));
    WindowNewestFirst(all, q.skip, q.limit);
  }

  /** A window of a newest-first list lists newest first. */
  lemma WindowNewestFirst(all: seq<NewsArticle>, skip: nat, take: nat)
    requires SortedBy(all, LaterPublished)
    ensures var r := Items(Window(all, skip, take));
            forall i, j :: 0 <= i < j < |r| ==> r[i].publishedAt >= r[j].publishedAt
  {
    var w := Window(all, skip, take);
    var r := Items(w);
    forall i, j | 0 <= i < j < |r|
      ensures r[i].publishedAt >= r[j].publishedAt
    {
      assert r[i] == Item(w[i]) && r[j] == Item(w[j]);
      assert w[i] == all[skip + i] && w[j] == all[skip + j];
      assert LaterPublished(all[skip + i], all[skip + j]);
    }
  }

  /** A news page holds at most `limit` rows, each the listing of a
      published article of the table with an excerpt of at most 203 characters. */
  lemma NewsPageRows(auth: Jwt.AuthResult,
                     pageRaw: Option<string>, limitRaw: Option<string>, rows: seq<NewsArticle>)
    requires GetNews(auth, pageRaw, limitRaw, rows, true).Listing?
    requires ReadQuery(pageRaw, limitRaw).value.limit >= 0
    ensures var r := GetNews(auth, pageRaw, limitRaw, rows, true).rows;
            && |r| <= ReadQuery(pageRaw, limitRaw).value.limit
            && forall i :: 0 <= i < |r| ==>
                 |r[i].excerpt| <= ExcerptLength + 3
                 && exists a :: a in rows && IsPublished(a) && r[i] == Item(a)
  {
    var q := ReadQuery(pageRaw, limitRaw).value;
    var w := Window(PublishedNewestFirst(rows), q.skip, q.limit);
    WindowIsPublished(rows, q.skip, q.limit);
    ItemsOfPublished(w, rows);
  }

  /** A window of the published list holds published articles of the table. */
  lemma WindowIsPublished(rows: seq<NewsArticle>, skip: nat, take: nat)
    ensures var w := Window(PublishedNewestFirst(rows), skip, take);
            forall i :: 0 <= i < |w| ==> w[i] in rows && IsPublished(w[i])
  {
    var all := PublishedNewestFirst(rows);
    var p := Filter(rows, IsPublished);
    var w := Window(all, skip, take);
    forall i | 0 <= i < |w|
      ensures w[i] in rows && IsPublished(w[i])
    {
      assert w[i] == all[skip + i];
      assert w[i] in multiset(p);
      assert w[i] in p;
    }
  }

  /** The listing of published articles of the table. */
  lemma ItemsOfPublished(w: seq<NewsArticle>, rows: seq<NewsArticle>)
    requires forall i :: 0 <= i < |w| ==> w[i] in rows && IsPublished(w[i])
    ensures forall i :: 0 <= i < |Items(w)| ==>
              |Items(w)[i].excerpt| <= ExcerptLength + 3
              && exists a :: a in rows && IsPublished(a) && Items(w)[i] == Item(a)
  {
    var r := Items(w);
    forall i | 0 <= i < |r|
      ensures |r[i].excerpt| <= ExcerptLength + 3
      ensures exists a :: a in rows && IsPublished(a) && r[i] == Item(a)
    {
      var a := w[i];
      assert r[i] == Item(a) && a in rows && IsPublished(a);
      assert |Excerpt(a.content)| <= ExcerptLength + 3;
    }
  }

  // ----- GET /api/v1/events -----

  /** `startDatetime: { gte: new Date() }`: an event starting now is still upcoming. */
  predicate Upcoming(e: Event, now: int)
  {
    e.startDatetime >= now
  }

  /** `orderBy: { startDatetime: 'asc' }`; ties are left in table order. */
  predicate EarlierStart(a: Event, b: Event)
  {
    a.startDatetime <= b.startDatetime
  }

  lemma EarlierStartIsPreorder()
    ensures TotalPreorder(EarlierStart)
  {
  }

  /** Every upcoming event, soonest first. */
  function UpcomingSoonestFirst(rows: seq<Event>, now: int): (r: seq<Event>)
    ensures multiset(r) == multiset(Filter(rows, e => Upcoming(e, now)))
    ensures SortedBy(r, EarlierStart)
    ensures forall i :: 0 <= i < |r| ==> r[i].startDatetime >= now
  {
    var p := Filter(rows, e => Upcoming(e, now));
    EarlierStartIsPreorder();
    SortBySorted(p, EarlierStart);
    SortByKeeps(p, EarlierStart, (e: Event) => e.startDatetime >= now);
    SortBy(p, EarlierStart)
  }

  /** `GET /api/v1/events`. Both queries read the clock; one instant `now`
      stands for both. */
  function GetEvents(auth: Jwt.AuthResult,
                     pageRaw: Option<string>, limitRaw: Option<string>,
                     rows: seq<Event>, now: int, dbUp: bool): (r: Reply<Event>)
    ensures !auth.success ==> r == Failure(401, Unauthorized)
    ensures auth.success && (!dbUp || ReadQuery(pageRaw, limitRaw).None?) ==>
              r == Failure(500, "Failed to fetch events")
    ensures auth.success && dbUp && ReadQuery(pageRaw, limitRaw).Some? ==> r.Listing?
    ensures r.Listing? ==>
              var q := ReadQuery(pageRaw, limitRaw).value;
              var all := UpcomingSoonestFirst(rows, now);
              && auth.success && dbUp
              && r.pagination == Pagination(q.page, q.limit, |all|, TotalPages(|all|, q.limit))
              && (q.limit >= 0 ==> r.rows == Window(all, q.skip, q.limit))
              && forall i :: 0 <= i < |r.rows| ==> r.rows[i].startDatetime >= now
  {
    if !auth.success then Failure(401, Unauthorized)
    else if !dbUp then Failure(500, "Failed to fetch events")
    else match ReadQuery(pageRaw, limitRaw)
      case None => Failure(500, "Failed to fetch events")
      case Some(q) =>
        var all := UpcomingSoonestFirst(rows, now);
        var w := Take(all, q.skip, q.limit);
        TakeKeepsUpcoming(all, q.skip, q.limit, now);
        Listing(w, Pagination(q.page, q.limit, |all|, TotalPages(|all|, q.limit)))
  }

  lemma TakeKeepsUpcoming(all: seq<Event>, skip: nat, take: int, now: int)
    requires forall i :: 0 <= i < |all| ==> all[i].startDatetime >= now
    ensures forall i :: 0 <= i < |Take(all, skip, take)| ==> Take(all, skip, take)[i].startDatetime >= now
  {
  }

  /** The text of a page number, as a client puts it in the query string. */
  function PageParam(p: nat): Option<string>
  {
    Some(NatToDecimal(p))
  }

  /** The events of page `p` of `limit` rows. */
  function EventsPage(auth: Jwt.AuthResult,
                      limit: nat, rows: seq<Event>, now: int, p: nat): seq<Event>
  {
    var r := GetEvents(auth, PageParam(p), PageParam(limit), rows, now, true);
    if r.Listing? then r.rows else []
  }

  function AllEventPages(auth: Jwt.AuthResult,
                         limit: nat, rows: seq<Event>, now: int, n: nat): seq<Event>
  {
    if n == 0 then []
    else AllEventPages(auth, limit, rows, now, n - 1) + EventsPage(auth, limit, rows, now, n)
  }

  /** A page requested by number is the matching window of the upcoming list. */
  lemma EventsPageIsWindow(auth: Jwt.AuthResult,
                           limit: nat, rows: seq<Event>, now: int, p: nat)
    requires auth.success && p >= 1
    ensures EventsPage(auth, limit, rows, now, p) == Window(UpcomingSoonestFirst(rows, now), Skip(p, limit), limit)
  {
    PagedQuery(p, limit);
  }

  /** The decimal texts of a page number and a limit read back as that query. */
  lemma PagedQuery(p: nat, limit: nat)
    requires p >= 1
    ensures ReadQuery(PageParam(p), PageParam(limit)) == Some(Query(p, limit, Skip(p, limit)))
  {
    ParamOfDecimal(p, "1");
    ParamOfDecimal(limit, "10");
  }

  lemma ParamOfDecimal(n: nat, fallback: string)
    ensures Param(PageParam(n), fallback) == Some(n)
  {
    ParseDecimal(n);
    assert NatToDecimal(n) != "";
  }

  /** With fixed data and a valid token, asking for pages 1 to `totalPages`
      returns every upcoming event exactly once, soonest first. */
  lemma {:induction false} EventPagesCoverUpcoming(auth: Jwt.AuthResult,
                                                   limit: nat, rows: seq<Event>, now: int)
    requires auth.success && limit > 0
    ensures forall n: nat :: TotalPages(|UpcomingSoonestFirst(rows, now)|, limit) == Some(n) ==>
              AllEventPages(auth, limit, rows, now, n) == UpcomingSoonestFirst(rows, now)
  {
    var all := UpcomingSoonestFirst(rows, now);
    forall n: nat | TotalPages(|all|, limit) == Some(n)
      ensures AllEventPages(auth, limit, rows, now, n) == all
    {
      PagesCoverAll(auth, limit, rows, now, all, n);
    }
  }

  lemma PagesCoverAll(auth: Jwt.AuthResult, limit: nat, rows: seq<Event>, now: int, all: seq<Event>, n: nat)
    requires auth.success && limit > 0
    requires all == UpcomingSoonestFirst(rows, now) && TotalPages(|all|, limit) == Some(n)
    ensures AllEventPages(auth, limit, rows, now, n) == all
  {
    AllEventPagesArePaged(auth, limit, rows, now, n);
    AllPagesOnce(all, limit);
  }

  lemma {:induction false} AllEventPagesArePaged(auth: Jwt.AuthResult,
                                                 limit: nat, rows: seq<Event>, now: int, n: nat)
    requires auth.success
    ensures AllEventPages(auth, limit, rows, now, n) == Paged(UpcomingSoonestFirst(rows, now), limit, n)
  {
    if n > 0 {
      var all := UpcomingSoonestFirst(rows, now);
      var page := EventsPage(auth, limit, rows, now, n);
      AllEventPagesArePaged(auth, limit, rows, now, n - 1);
      EventsPageIsWindow(auth, limit, rows, now, n);
      assert page == Window(all, Skip(n, limit), limit);
      assert AllEventPages(auth, limit, rows, now, n) == AllEventPages(auth, limit, rows, now, n - 1) + page;
      assert Paged(all, limit, n) == Paged(all, limit, n - 1) + Window(all, Skip(n, limit), limit);
    }
  }
}
