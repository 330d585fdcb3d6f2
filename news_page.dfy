/** The news admin page (app/admin/news/page.tsx): the slug made from a title,
    the search over the loaded articles, the published/draft counts and the
    requests the save and publish buttons send. */
module NewsPage {
  import opened Common
  import opened Seqs

  // ----- generateSlug -----

  /** A character `[a-z0-9 -]` keeps. */
  predicate SlugSource(c: char)
  {
    'a' <= c <= 'z' || '0' <= c <= '9' || c == ' ' || c == '-'
  }

  /** A character a finished slug may hold. */
  predicate SlugChar(c: char)
  {
    'a' <= c <= 'z' || '0' <= c <= '9' || c == '-'
  }

  predicate IsDash(c: char)
  {
    c == '-'
  }

  /** No two '-' side by side. */
  predicate NoDoubleDash(s: string)
  {
    forall i :: 0 <= i < |s| - 1 ==> !(s[i] == '-' && s[i + 1] == '-')
  }

  /** The text after the run of `inRun` characters that starts `s`. */
  function SkipRun(s: string, inRun: char -> bool): (r: string)
    ensures |r| <= |s| && r == s[|s| - |r|..]
    ensures s != [] && inRun(s[0]) ==> |r| < |s|
    ensures r != [] ==> !inRun(r[0])
    decreases |s|
  {
    if s != [] && inRun(s[0]) then SkipRun(s[1..], inRun) else s
  }

  /** `s.replace(/C+/g, '-')`: every maximal run of characters of the class
      `inRun` becomes one '-'. */
  function ReplaceRuns(s: string, inRun: char -> bool): (r: string)
    ensures s == [] <==> r == []
    ensures s != [] && !inRun(s[0]) ==> r[0] == s[0]
    ensures |r| <= |s|
    decreases |s|
  {
    if s == [] then []
    else if inRun(s[0]) then
      var t := SkipRun(s, inRun);
      "-" + ReplaceRuns(t, inRun)
    else [s[0]] + ReplaceRuns(s[1..], inRun)
  }

  /** Every character of the result is a dash or a character of `s` outside
      the class: for any property `keep` that all of `s` has, the rest of the
      result has it too. */
  lemma {:induction false} ReplaceRunsChars(s: string, inRun: char -> bool, keep: char -> bool)
    requires forall i :: 0 <= i < |s| ==> keep(s[i])
    ensures forall i :: 0 <= i < |ReplaceRuns(s, inRun)| ==>
              ReplaceRuns(s, inRun)[i] == '-' || (keep(ReplaceRuns(s, inRun)[i]) && !inRun(ReplaceRuns(s, inRun)[i]))
    decreases |s|
  {
    if s != [] {
      if inRun(s[0]) {
        var t := SkipRun(s, inRun);
        assert forall k :: 0 <= k < |t| ==> t[k] == s[|s| - |t| + k];
        ReplaceRunsChars(t, inRun, keep);
      } else {
        ReplaceRunsChars(s[1..], inRun, keep);
      }
    }
  }

  /** Replacing runs keeps every character that is neither in the class nor
      a dash, all of them and in their order: only runs and dashes change. */
  lemma {:induction false} ReplaceRunsKeeps(s: string, inRun: char -> bool, keep: char -> bool)
    requires forall c :: keep(c) ==> !inRun(c) && c != '-'
    ensures Filter(ReplaceRuns(s, inRun), keep) == Filter(s, keep)
    decreases |s|
  {
    if s != [] {
      if inRun(s[0]) {
        var t := SkipRun(s, inRun);
        ReplaceRunsKeeps(t, inRun, keep);
        SkipRunKeeps(s, inRun, keep);
        FilterAppend("-", ReplaceRuns(t, inRun), keep);
        FilterNone('-', keep);
      } else {
        ReplaceRunsKeeps(s[1..], inRun, keep);
        FilterAppend([s[0]], ReplaceRuns(s[1..], inRun), keep);
        assert Filter([s[0]], keep) == (if keep(s[0]) then [s[0]] else []);
      }
    }
  }

  /** A run of the class holds nothing `keep` selects. */
  lemma {:induction false} SkipRunKeeps(s: string, inRun: char -> bool, keep: char -> bool)
    requires forall c :: keep(c) ==> !inRun(c)
    ensures Filter(SkipRun(s, inRun), keep) == Filter(s, keep)
    decreases |s|
  {
    if s != [] && inRun(s[0]) {
      SkipRunKeeps(s[1..], inRun, keep);
    }
  }

  /** `generateSlug(title)`: lower case, drop everything outside `[a-z0-9 -]`,
      turn runs of white space into '-', squeeze runs of '-', then trim. */
  function Slug(title: string): string
  {
    Trim(ReplaceRuns(ReplaceRuns(Filter(Lower(title), SlugSource), IsSpace), IsDash))
  }

  /** One character put before text without double dashes makes none,
      unless both it and the text's first character are dashes. */
  lemma ConsNoDoubleDash(c: char, r: string)
    requires NoDoubleDash(r)
    requires c == '-' && r != [] ==> r[0] != '-'
    ensures NoDoubleDash([c] + r)
  {
    var cr := [c] + r;
    forall i | 0 <= i < |cr| - 1
      ensures !(cr[i] == '-' && cr[i + 1] == '-')
    {
      if i > 0 {
        assert cr[i] == r[i - 1] && cr[i + 1] == r[i];
      } else {
        assert cr[1] == r[0];
      }
    }
  }

  /** After squeezing, no two dashes are adjacent. */
  lemma {:induction false} SqueezedHasNoDoubleDash(s: string)
    ensures NoDoubleDash(ReplaceRuns(s, IsDash))
    decreases |s|
  {
    if s != [] {
      if IsDash(s[0]) {
        var t := SkipRun(s, IsDash);
        SqueezedHasNoDoubleDash(t);
        var rt := ReplaceRuns(t, IsDash);
        assert ReplaceRuns(s, IsDash) == "-" + rt;
        ConsNoDoubleDash('-', rt);
      } else {
        SqueezedHasNoDoubleDash(s[1..]);
        var rt := ReplaceRuns(s[1..], IsDash);
        assert ReplaceRuns(s, IsDash) == [s[0]] + rt;
        ConsNoDoubleDash(s[0], rt);
      }
    }
  }

  /** Text with no character of the class is left as it is. */
  lemma {:induction false} ReplaceRunsNone(s: string, inRun: char -> bool)
    requires forall i :: 0 <= i < |s| ==> !inRun(s[i])
    ensures ReplaceRuns(s, inRun) == s
    decreases |s|
  {
    if s != [] {
      ReplaceRunsNone(s[1..], inRun);
    }
  }

  /** Squeezing text whose dashes are already single changes nothing. */
  lemma {:induction false} SqueezeSingleDashes(s: string)
    requires NoDoubleDash(s)
    ensures ReplaceRuns(s, IsDash) == s
    decreases |s|
  {
    if s != [] {
      assert NoDoubleDash(s[1..]) by {
        forall i | 0 <= i < |s[1..]| - 1
          ensures !(s[1..][i] == '-' && s[1..][i + 1] == '-')
        {
          assert s[1..][i] == s[i + 1] && s[1..][i + 1] == s[i + 2];
        }
      }
      SqueezeSingleDashes(s[1..]);
      if IsDash(s[0]) {
        assert |s| > 1 ==> s[1] != '-';
        assert SkipRun(s, IsDash) == s[1..];
      }
    }
  }

  /** A slug holds only `a-z`, `0-9` and single dashes, and the final `trim`
      has nothing to remove. */
  lemma SlugShape(title: string)
    ensures forall i :: 0 <= i < |Slug(title)| ==> SlugChar(Slug(title)[i])
    ensures NoDoubleDash(Slug(title))
    ensures Slug(title) == ReplaceRuns(ReplaceRuns(Filter(Lower(title), SlugSource), IsSpace), IsDash)
  {
    var b := Filter(Lower(title), SlugSource);
    SquashedShape(b);
    TrimNoSpace(ReplaceRuns(ReplaceRuns(b, IsSpace), IsDash));
  }

  /** After both replacements, text of `[a-z0-9 -]` holds only slug
      characters, no white space and no two dashes side by side. */
  lemma SquashedShape(b: string)
    requires forall i :: 0 <= i < |b| ==> SlugSource(b[i])
    ensures var d := ReplaceRuns(ReplaceRuns(b, IsSpace), IsDash);
            && (forall i :: 0 <= i < |d| ==> SlugChar(d[i]))
            && NoSpace(d) && NoDoubleDash(d)
  {
    var c := ReplaceRuns(b, IsSpace);
    var d := ReplaceRuns(c, IsDash);
    ReplaceRunsChars(b, IsSpace, SlugSource);
    assert forall i :: 0 <= i < |c| ==> SlugChar(c[i]);
    ReplaceRunsChars(c, IsDash, SlugChar);
    assert forall i :: 0 <= i < |d| ==> SlugChar(d[i]);
    assert NoSpace(d) by {
      forall i | 0 <= i < |d|
        ensures !IsSpace(d[i])
      {
        assert SlugChar(d[i]);
      }
    }
    SqueezedHasNoDoubleDash(c);
  }

  /** Slug characters are kept by every step before the squeeze: they are
      lower case already, pass the filter and are not white space. */
  lemma SlugTextFacts(u: string)
    requires forall i :: 0 <= i < |u| ==> SlugChar(u[i])
    ensures Lower(u) == u
    ensures forall i :: 0 <= i < |u| ==> SlugSource(u[i])
    ensures NoSpace(u)
  {
    forall i | 0 <= i < |u|
      ensures Lower(u)[i] == u[i] && SlugSource(u[i]) && !IsSpace(u[i])
    {
      assert SlugChar(u[i]);
    }
  }

  /** Text that already has the shape of a slug is its own slug. */
  lemma SlugOfSlugText(u: string)
    requires forall i :: 0 <= i < |u| ==> SlugChar(u[i])
    requires NoDoubleDash(u)
    ensures Slug(u) == u
  {
    SlugTextFacts(u);
    var a := Lower(u);
    FilterAll(u, SlugSource);
    var b := Filter(a, SlugSource);
    assert b == u;
    ReplaceRunsNone(u, IsSpace);
    var c := ReplaceRuns(b, IsSpace);
    assert c == u;
    SqueezeSingleDashes(u);
    var d := ReplaceRuns(c, IsDash);
    assert d == u;
    TrimNoSpace(u);
    assert Slug(u) == Trim(d);
  }

  /** Making a slug of a slug gives the same slug. */
  lemma SlugIdempotent(title: string)
    ensures Slug(Slug(title)) == Slug(title)
  {
    SlugShape(title);
    SlugOfSlugText(Slug(title));
  }

  /** The outer spaces of a title become dashes that the final `trim` keeps:
      " hello " gives "-hello-". */
  lemma SlugKeepsOuterDashes(w: string)
    requires w != []
    requires forall i :: 0 <= i < |w| ==> 'a' <= w[i] <= 'z'
    ensures Slug([' '] + (w + [' '])) == "-" + (w + "-")
  {
    var a := [' '] + (w + [' ']);
    assert Lower(a) == a by {
      forall i | 0 <= i < |a|
        ensures Lower(a)[i] == a[i]
      {
        assert i == 0 || i == |a| - 1 || a[i] == w[i - 1];
      }
    }
    assert forall i :: 0 <= i < |a| ==> SlugSource(a[i]) by {
      forall i | 0 <= i < |a|
        ensures SlugSource(a[i])
      {
        assert i == 0 || i == |a| - 1 || a[i] == w[i - 1];
      }
    }
    FilterAll(a, SlugSource);
    ReplaceRunsPadded(w, IsSpace, ' ');
    var c := "-" + (w + "-");
    DashWrapped(w);
    SqueezeSingleDashes(c);
    TrimNoSpace(c);
  }

  lemma DashWrapped(w: string)
    requires w != []
    requires forall i :: 0 <= i < |w| ==> 'a' <= w[i] <= 'z'
    ensures NoDoubleDash("-" + (w + "-")) && NoSpace("-" + (w + "-"))
  {
    var c := "-" + (w + "-");
    assert forall i :: 1 <= i < |c| - 1 ==> c[i] == w[i - 1];
    assert c[0] == '-' && c[1] == w[0] && c[|c| - 2] == w[|w| - 1];
  }

  /** Text free of the class, between two class characters, gets a dash on each side. */
  lemma ReplaceRunsPadded(w: string, inRun: char -> bool, x: char)
    requires w != [] && inRun(x)
    requires forall i :: 0 <= i < |w| ==> !inRun(w[i])
    ensures ReplaceRuns([x] + (w + [x]), inRun) == "-" + (w + "-")
  {
    ReplaceRunsLeading(x, w + [x], inRun);
    ReplaceRunsTrailing(w, inRun, x);
  }

  /** One class character before text that does not start with one becomes one dash. */
  lemma ReplaceRunsLeading(x: char, t: string, inRun: char -> bool)
    requires inRun(x) && t != [] && !inRun(t[0])
    ensures ReplaceRuns([x] + t, inRun) == "-" + ReplaceRuns(t, inRun)
  {
    assert ([x] + t)[1..] == t;
    assert SkipRun([x] + t, inRun) == t;
  }

  lemma {:induction false} ReplaceRunsTrailing(w: string, inRun: char -> bool, x: char)
    requires inRun(x)
    requires forall i :: 0 <= i < |w| ==> !inRun(w[i])
    ensures ReplaceRuns(w + [x], inRun) == w + "-"
  {
    if w == [] {
      assert w + [x] == [x];
      assert SkipRun([x], inRun) == [];
    } else {
      assert (w + [x])[1..] == w[1..] + [x];
      ReplaceRunsTrailing(w[1..], inRun, x);
    }
  }

  // ----- the article list -----

  /** An article as the page receives it; `publishedAt` is date text or null. */
  datatype PageArticle = PageArticle(
    id: nat, title: string, content: string, imageUrl: Option<string>, publishedAt: Option<string>)

  /** `isPublished = !!publishedAt`. */
  predicate IsPublished(publishedAt: Option<string>)
  {
    publishedAt.Some? && publishedAt.value != ""
  }

  /** `filterArticles`: title or content contains the term, ignoring case. */
  function FilterArticles(articles: seq<PageArticle>, term: string): (r: seq<PageArticle>)
    ensures term == "" ==> r == articles
    ensures forall i :: 0 <= i < |articles| ==>
              (articles[i] in r <== IncludesCI(articles[i].title, term) || IncludesCI(articles[i].content, term))
    ensures term != "" ==> forall i :: 0 <= i < |r| ==> IncludesCI(r[i].title, term) || IncludesCI(r[i].content, term)
    ensures IsSubseq(r, articles)
  {
    var hit := (a: PageArticle) => IncludesCI(a.title, term) || IncludesCI(a.content, term);
    assert term == "" ==> forall i :: 0 <= i < |articles| ==> articles[i] in articles;
    Search(articles, term, hit)
  }

  function PublishedCount(articles: seq<PageArticle>): nat
  {
    |Filter(articles, (a: PageArticle) => IsPublished(a.publishedAt))|
  }

  function DraftCount(articles: seq<PageArticle>): nat
  {
    |Filter(articles, (a: PageArticle) => !IsPublished(a.publishedAt))|
  }

  /** Every article is counted exactly once, as published or as draft. */
  lemma CountsAddUp(articles: seq<PageArticle>)
    ensures PublishedCount(articles) + DraftCount(articles) == |articles|
  {
    FilterComplement(articles, (a: PageArticle) => IsPublished(a.publishedAt),
                     (a: PageArticle) => !IsPublished(a.publishedAt));
  }

  // ----- requests -----

  datatype ArticleForm = ArticleForm(title: string, content: string, imageUrl: string, publishedAt: string)

  const EmptyForm := ArticleForm("", "", "", "")

  /** The JSON body of a save. */
  datatype SaveBody = SaveBody(title: string, content: string, imageUrl: string, slug: string, publishedAt: Option<string>)

  datatype Request = Request(verb: string, url: string, body: SaveBody)

  const NewsApi := "/api/admin/news"

  /** `handleSubmit`'s request: the slug is always recomputed from the title,
      an empty publish date is sent as null, and an edit goes to the article's own URL. */
  function SaveRequest(form: ArticleForm, editing: Option<PageArticle>): (r: Request)
    ensures r.body.slug == Slug(form.title)
    ensures r.body.title == form.title && r.body.content == form.content && r.body.imageUrl == form.imageUrl
    ensures form.publishedAt == "" ==> r.body.publishedAt.None?
    ensures form.publishedAt != "" ==> r.body.publishedAt == Some(form.publishedAt)
    ensures editing.None? ==> r.verb == "POST" && r.url == NewsApi
    ensures editing.Some? ==> r.verb == "PUT" && r.url == NewsApi + "/" + NatToDecimal(editing.value.id)
  {
    var body := SaveBody(form.title, form.content, form.imageUrl, Slug(form.title),
                         if form.publishedAt != "" then Some(form.publishedAt) else None);
    if editing.Some? then Request("PUT", NewsApi + "/" + NatToDecimal(editing.value.id), body)
    else Request("POST", NewsApi, body)
  }

  /** `handlePublish(article.id, isPublished(article.publishedAt))`: the PATCH body's
      `publishedAt`, null to unpublish and the current time to publish. */
  function PublishBody(article: PageArticle, nowIso: string): (publishedAt: Option<string>)
    ensures IsPublished(article.publishedAt) ==> publishedAt.None?
    ensures !IsPublished(article.publishedAt) ==> publishedAt == Some(nowIso)
  {
    if IsPublished(article.publishedAt) then None else Some(nowIso)
  }

  /** Stored back, the PATCH flips the article between published and draft. */
  lemma PublishToggles(article: PageArticle, nowIso: string)
    requires nowIso != ""
    ensures IsPublished(PublishBody(article, nowIso)) == !IsPublished(article.publishedAt)
  {
  }

  /** `handleEdit`'s form: missing image URL and publish date become "", and a
      publish date is shown as the first 16 characters of its ISO text.
      `iso` is `new Date(d).toISOString()`. */
  function EditForm(article: PageArticle, iso: string -> string): (f: ArticleForm)
    ensures f.title == article.title && f.content == article.content
    ensures article.imageUrl.None? || article.imageUrl == Some("") ==> f.imageUrl == ""
    ensures article.imageUrl.Some? ==> f.imageUrl == article.imageUrl.value
    ensures !IsPublished(article.publishedAt) ==> f.publishedAt == ""
    ensures IsPublished(article.publishedAt) ==> f.publishedAt <= iso(article.publishedAt.value) && |f.publishedAt| <= 16
    ensures IsPublished(article.publishedAt) ==>
              var t := iso(article.publishedAt.value);
              f.publishedAt == t[..if |t| < 16 then |t| else 16]
  {
    ArticleForm(article.title, article.content,
                if article.imageUrl.Some? then article.imageUrl.value else "",
                if IsPublished(article.publishedAt) then Prefix(iso(article.publishedAt.value), 16) else "")
  }

  /** The page's state. `filtered` is recomputed whenever the articles or the
      search term change. */
  class Page {
    var articles: seq<PageArticle>
    var searchTerm: string
    var filtered: seq<PageArticle>
    var form: ArticleForm
    var editing: Option<PageArticle>

    ghost predicate Valid()
      reads this
    {
      filtered == FilterArticles(articles, searchTerm)
    }

    constructor ()
      ensures Valid() && articles == [] && searchTerm == "" && form == EmptyForm && editing.None?
    {
      articles := [];
      searchTerm := "";
      filtered := [];
      form := EmptyForm;
      editing := None;
    }

    /** `setArticles(data)` after a successful fetch. */
    method Loaded(rows: seq<PageArticle>)
      modifies this
      ensures Valid() && articles == rows
      ensures searchTerm == old(searchTerm) && form == old(form) && editing == old(editing)
    {
      articles := rows;
      filtered := FilterArticles(articles, searchTerm);
    }

    method SetSearchTerm(term: string)
      modifies this
      ensures Valid() && searchTerm == term
      ensures articles == old(articles) && form == old(form) && editing == old(editing)
    {
      searchTerm := term;
      filtered := FilterArticles(articles, searchTerm);
    }

    method HandleEdit(article: PageArticle, iso: string -> string)
      requires Valid()
      modifies this
      ensures Valid() && editing == Some(article) && form == EditForm(article, iso)
      ensures articles == old(articles) && searchTerm == old(searchTerm)
    {
      editing := Some(article);
      form := EditForm(article, iso);
    }

    method ResetForm()
      requires Valid()
      modifies this
      ensures Valid() && form == EmptyForm && editing.None?
      ensures articles == old(articles) && searchTerm == old(searchTerm)
    {
      form := EmptyForm;
      editing := None;
    }

    /** `handleSubmit`: the request it sends, and the form is reset only when
        the answer is ok. */
    method HandleSubmit(ok: bool) returns (req: Request)
      requires Valid()
      modifies this
      ensures req == SaveRequest(old(form), old(editing))
      ensures Valid() && articles == old(articles) && searchTerm == old(searchTerm)
      ensures ok ==> form == EmptyForm && editing.None?
      ensures !ok ==> form == old(form) && editing == old(editing)
    {
      req := SaveRequest(form, editing);
      if ok {
        ResetForm();
      }
    }
  }
}
