/** The list operations the portal's queries and pages are built from:
    `filter`, a stable sort (JavaScript's `Array.prototype.sort`, and one
    admissible order for the database's `orderBy`), `skip`/`take` windows,
    and the de-duplication `[...new Set(xs)]`. */
module Seqs {

  function Filter<T>(s: seq<T>, p: T -> bool): (r: seq<T>)
    ensures |r| <= |s|
    ensures forall i :: 0 <= i < |r| ==> r[i] in s && p(r[i])
    ensures forall i :: 0 <= i < |s| && p(s[i]) ==> s[i] in r
  {
    if s == [] then []
    else (if p(s[0]) then [s[0]] else []) + Filter(s[1..], p)
  }

  /** `r` is `s` with some elements left out, the rest in their original order. */
  predicate IsSubseq<T(==)>(r: seq<T>, s: seq<T>)
  {
    r == [] || (s != [] && ((r[0] == s[0] && IsSubseq(r[1..], s[1..])) || IsSubseq(r, s[1..])))
  }

  lemma {:induction false} SubseqRefl<T>(s: seq<T>)
    ensures IsSubseq(s, s)
  {
    if s != [] {
      SubseqRefl(s[1..]);
    }
  }

  lemma {:induction false} SubseqTrans<T>(a: seq<T>, b: seq<T>, c: seq<T>)
    requires IsSubseq(a, b) && IsSubseq(b, c)
    ensures IsSubseq(a, c)
    decreases |c|
  {
    if a != [] {
      assert c != [];
      if b[0] == c[0] && IsSubseq(b[1..], c[1..]) {
        if a[0] == b[0] && IsSubseq(a[1..], b[1..]) {
          SubseqTrans(a[1..], b[1..], c[1..]);
        } else {
          SubseqTrans(a, b[1..], c[1..]);
        }
      } else {
        SubseqTrans(a, b, c[1..]);
      }
    }
  }

  lemma {:induction false} FilterIsSubseq<T>(s: seq<T>, p: T -> bool)
    ensures IsSubseq(Filter(s, p), s)
  {
    if s != [] {
      FilterIsSubseq(s[1..], p);
      var r := Filter(s, p);
      if p(s[0]) {
        assert r == [s[0]] + Filter(s[1..], p);
        assert r[0] == s[0] && r[1..] == Filter(s[1..], p);
      } else {
        assert r == Filter(s[1..], p);
      }
    }
  }

  /** Filtering by a predicate that every element meets changes nothing. */
  lemma {:induction false} FilterAll<T>(s: seq<T>, p: T -> bool)
    requires forall i :: 0 <= i < |s| ==> p(s[i])
    ensures Filter(s, p) == s
  {
    if s != [] {
      FilterAll(s[1..], p);
    }
  }

  /** Two successive filters keep what both predicates keep. */
  lemma {:induction false} FilterFilter<T>(s: seq<T>, p: T -> bool, q: T -> bool, pq: T -> bool)
    requires forall x :: pq(x) == (p(x) && q(x))
    ensures Filter(Filter(s, p), q) == Filter(s, pq)
  {
    if s != [] {
      FilterFilter(s[1..], p, q, pq);
      assert Filter(s, p) == Filter([s[0]], p) + Filter(s[1..], p);
      FilterAppend(Filter([s[0]], p), Filter(s[1..], p), q);
    }
  }

  /** Filtering distributes over concatenation. */
  lemma {:induction false} FilterAppend<T>(a: seq<T>, b: seq<T>, p: T -> bool)
    ensures Filter(a + b, p) == Filter(a, p) + Filter(b, p)
  {
    if a != [] {
      FilterAppend(a[1..], b, p);
      assert (a + b)[1..] == a[1..] + b;
    } else {
      assert a + b == b;
    }
  }

  /** A predicate and its negation split a list: the two counts add up to its length. */
  lemma {:induction false} FilterComplement<T>(s: seq<T>, p: T -> bool, q: T -> bool)
    requires forall x :: q(x) == !p(x)
    ensures |Filter(s, p)| + |Filter(s, q)| == |s|
  {
    if s != [] {
      FilterComplement(s[1..], p, q);
    }
  }

  /** The elements `s` keeps under `p` and under `q` are disjoint when no element meets both. */
  lemma FilterDisjoint<T>(s: seq<T>, p: T -> bool, q: T -> bool)
    requires forall x :: !(p(x) && q(x))
    ensures forall x :: !(x in Filter(s, p) && x in Filter(s, q))
  {
  }

  /** When `p` rejects exactly the element at `i`, filtering cuts that element out. */
  lemma FilterRemoveAt<T>(s: seq<T>, i: nat, p: T -> bool)
    requires i < |s| && !p(s[i])
    requires forall k :: 0 <= k < |s| && k != i ==> p(s[k])
    ensures Filter(s, p) == s[..i] + s[i + 1..]
  {
    FilterAllBetween(s, 0, i, p);
    FilterAllBetween(s, i + 1, |s|, p);
    SplitAt(s, i);
    FilterSkipOne(s[..i], s[i], s[i + 1..], p);
  }

  lemma SplitAt<T>(s: seq<T>, i: nat)
    requires i < |s|
    ensures s[..i] == s[0..i] && s[i + 1..] == s[i + 1..|s|]
    ensures s == s[..i] + [s[i]] + s[i + 1..]
  {
  }

  /** Filtering out one rejected element between two kept stretches. */
  lemma FilterSkipOne<T>(front: seq<T>, x: T, back: seq<T>, p: T -> bool)
    requires !p(x) && Filter(front, p) == front && Filter(back, p) == back
    ensures Filter(front + [x] + back, p) == front + back
  {
    var fx := front + [x];
    assert Filter(fx, p) == front by {
      FilterAppend(front, [x], p);
      FilterNone(x, p);
      assert front + [] == front;
    }
    FilterAppend(fx, back, p);
  }

  lemma FilterNone<T>(x: T, p: T -> bool)
    requires !p(x)
    ensures Filter([x], p) == []
  {
  }

  /** A slice whose elements all satisfy `p` is its own filter. */
  lemma FilterAllBetween<T>(s: seq<T>, lo: nat, hi: nat, p: T -> bool)
    requires lo <= hi <= |s|
    requires forall k :: lo <= k < hi ==> p(s[k])
    ensures Filter(s[lo..hi], p) == s[lo..hi]
  {
    var t := s[lo..hi];
    assert forall k :: 0 <= k < |t| ==> t[k] == s[lo + k];
    FilterAll(t, p);
  }

  /** `term ? rows.filter(hit) : rows`, the search box of the admin lists:
      an empty term shows every row, any other term exactly the rows it hits,
      in their original order. */
  function Search<T>(rows: seq<T>, term: string, hit: T -> bool): (r: seq<T>)
    ensures term == "" ==> r == rows
    ensures term != "" ==> forall i :: 0 <= i < |r| ==> hit(r[i])
    ensures term != "" ==> forall i :: 0 <= i < |rows| && hit(rows[i]) ==> rows[i] in r
    ensures IsSubseq(r, rows)
  {
    if term == "" then
      SubseqRefl(rows);
      rows
    else
      FilterIsSubseq(rows, hit);
      Filter(rows, hit)
  }

  /** `s.slice(skip, skip + take)`, the window of an ORM query with `skip` and `take`. */
  function Window<T>(s: seq<T>, skip: nat, take: nat): (r: seq<T>)
    ensures |r| <= take
    ensures skip <= |s| ==> |r| == if skip + take <= |s| then take else |s| - skip
    ensures skip >= |s| ==> r == []
    ensures forall i :: 0 <= i < |r| ==> r[i] == s[skip + i]
  {
    var lo := if skip <= |s| then skip else |s|;
    var hi := if skip + take <= |s| then skip + take else |s|;
    s[lo..hi]
  }

  /** A relation that holds between every earlier and later element still
      holds after filtering: filtering keeps the relative order. */
  lemma {:induction false} FilterKeepsPairwise<T>(s: seq<T>, p: T -> bool, lt: (T, T) -> bool)
    requires forall i, j :: 0 <= i < j < |s| ==> lt(s[i], s[j])
    ensures forall i, j :: 0 <= i < j < |Filter(s, p)| ==> lt(Filter(s, p)[i], Filter(s, p)[j])
  {
    if s != [] {
      FilterKeepsPairwise(s[1..], p, lt);
      var t := Filter(s[1..], p);
      assert forall j :: 0 <= j < |t| ==> lt(s[0], t[j]) by {
        forall j | 0 <= j < |t|
          ensures lt(s[0], t[j])
        {
          var k :| 0 <= k < |s[1..]| && s[1..][k] == t[j];
          assert s[k + 1] == t[j];
        }
      }
    }
  }

  // ----- Ordering -----

  /** `le` is a total preorder: every two elements compare, and comparison is transitive.
      Ties (a <= b and b <= a) are allowed. */
  ghost predicate TotalPreorder<T(!new)>(le: (T, T) -> bool)
  {
    && (forall a, b :: le(a, b) || le(b, a))
    && (forall a, b, c :: le(a, b) && le(b, c) ==> le(a, c))
  }

  predicate SortedBy<T>(s: seq<T>, le: (T, T) -> bool)
  {
    forall i, j :: 0 <= i < j < |s| ==> le(s[i], s[j])
  }

  /** Inserts `x` in front of the first element it is not after; used for the
      stable insertion sort below. */
  function InsertBy<T>(x: T, s: seq<T>, le: (T, T) -> bool): (r: seq<T>)
    ensures |r| == |s| + 1
    ensures multiset(r) == multiset(s) + multiset{x}
  {
    if s == [] || le(x, s[0]) then [x] + s
    else
      assert s == [s[0]] + s[1..];
      [s[0]] + InsertBy(x, s[1..], le)
  }

  /** Stable sort: the order in which `Array.prototype.sort` leaves equal keys. */
  function SortBy<T>(s: seq<T>, le: (T, T) -> bool): (r: seq<T>)
    ensures multiset(r) == multiset(s)
    ensures |r| == |s|
  {
    if s == [] then []
    else
      assert s == [s[0]] + s[1..];
      InsertBy(s[0], SortBy(s[1..], le), le)
  }

  /** Every element of the sorted list satisfies what every element of the
      input satisfies. */
  lemma SortByKeeps<T>(s: seq<T>, le: (T, T) -> bool, q: T -> bool)
    requires forall i :: 0 <= i < |s| ==> q(s[i])
    ensures forall i :: 0 <= i < |SortBy(s, le)| ==> q(SortBy(s, le)[i])
  {
    var r := SortBy(s, le);
    forall i | 0 <= i < |r|
      ensures q(r[i])
    {
      assert r[i] in multiset(s);
      var k :| 0 <= k < |s| && s[k] == r[i];
    }
  }

  lemma {:induction false} InsertBySorted<T(!new)>(x: T, s: seq<T>, le: (T, T) -> bool)
    requires TotalPreorder(le)
    requires SortedBy(s, le)
    ensures SortedBy(InsertBy(x, s, le), le)
    ensures InsertBy(x, s, le) != [] && (InsertBy(x, s, le)[0] == x || (s != [] && InsertBy(x, s, le)[0] == s[0]))
  {
    if s == [] || le(x, s[0]) {
    } else {
      InsertBySorted(x, s[1..], le);
      var t := InsertBy(x, s[1..], le);
      assert le(s[0], x);
      assert forall j :: 0 <= j < |t| ==> le(s[0], t[j]) by {
        forall j | 0 <= j < |t|
          ensures le(s[0], t[j])
        {
          assert t[j] in multiset(t);
          assert t[j] == x || t[j] in multiset(s[1..]);
          if t[j] != x {
            var k :| 0 <= k < |s[1..]| && s[1..][k] == t[j];
            assert s[k + 1] == t[j];
          }
        }
      }
    }
  }

  /** The sorted list is ordered by `le`; with `SortBy`'s own contract it is a sorted permutation. */
  lemma {:induction false} SortBySorted<T(!new)>(s: seq<T>, le: (T, T) -> bool)
    requires TotalPreorder(le)
    ensures SortedBy(SortBy(s, le), le)
  {
    if s != [] {
      SortBySorted(s[1..], le);
      InsertBySorted(s[0], SortBy(s[1..], le), le);
    }
  }

  /** Stability: elements that compare equal keep their relative input order.
      `p` selects some elements that are all tied with each other. */
  lemma {:induction false} InsertByStable<T>(x: T, s: seq<T>, le: (T, T) -> bool, p: T -> bool)
    requires forall a, b :: p(a) && p(b) ==> le(a, b)
    ensures Filter(InsertBy(x, s, le), p) == Filter([x], p) + Filter(s, p)
  {
    if s == [] || le(x, s[0]) {
      assert InsertBy(x, s, le) == [x] + s;
      FilterAppend([x], s, p);
    } else {
      var s0, rest := s[0], s[1..];
      InsertByStable(x, rest, le, p);
      SwapSingletons(x, s0, p);
      calc {
        Filter(InsertBy(x, s, le), p);
        { assert InsertBy(x, s, le) == [s0] + InsertBy(x, rest, le);
          FilterAppend([s0], InsertBy(x, rest, le), p); }
        Filter([s0], p) + (Filter([x], p) + Filter(rest, p));
        Filter([x], p) + (Filter([s0], p) + Filter(rest, p));
        { FilterAppend([s0], rest, p); assert [s0] + rest == s; }
        Filter([x], p) + Filter(s, p);
      }
    }
  }

  /** Of two elements that `p` does not both keep, at most one survives, so their order is irrelevant. */
  lemma SwapSingletons<T>(x: T, y: T, p: T -> bool)
    requires !(p(x) && p(y))
    ensures forall t: seq<T> :: Filter([y], p) + (Filter([x], p) + t) == Filter([x], p) + (Filter([y], p) + t)
  {
  }

  lemma {:induction false} SortByStable<T>(s: seq<T>, le: (T, T) -> bool, p: T -> bool)
    requires forall a, b :: p(a) && p(b) ==> le(a, b)
    ensures Filter(SortBy(s, le), p) == Filter(s, p)
  {
    if s != [] {
      var x, rest := s[0], s[1..];
      ConsSplit(s);
      SortByStable(rest, le, p);
      InsertByStable(x, SortBy(rest, le), le, p);
      FilterAppend([x], rest, p);
    }
  }

  lemma ConsSplit<T>(s: seq<T>)
    requires s != []
    ensures s == [s[0]] + s[1..]
  {
  }

  // ----- De-duplication -----

  /** `[...new Set(s)]`: each value once, in the order of its first occurrence. */
  function Dedup<T(==)>(s: seq<T>): (r: seq<T>)
    ensures forall i :: 0 <= i < |r| ==> r[i] in s
    ensures forall i :: 0 <= i < |s| ==> s[i] in r
    ensures forall i, j :: 0 <= i < j < |r| ==> r[i] != r[j]
  {
    if s == [] then []
    else
      var r := Dedup(s[..|s| - 1]);
      assert s == s[..|s| - 1] + [s[|s| - 1]];
      if s[|s| - 1] in r then r else r + [s[|s| - 1]]
  }

  /** Position of the first occurrence of `x` in `s`. */
  function IndexOf<T(==)>(s: seq<T>, x: T): (k: nat)
    requires x in s
    ensures k < |s| && s[k] == x && x !in s[..k]
  {
    if s[0] == x then 0 else 1 + IndexOf(s[1..], x)
  }

  lemma {:induction false} IndexOfPrefix<T>(s: seq<T>, t: seq<T>, x: T)
    requires x in s
    ensures IndexOf(s + t, x) == IndexOf(s, x)
  {
    if s[0] != x {
      assert (s + t)[1..] == s[1..] + t;
      IndexOfPrefix(s[1..], t, x);
    }
  }

  /** The de-duplicated list follows the order of first occurrence. */
  lemma {:induction false} DedupFirstOccurrence<T>(s: seq<T>)
    ensures forall i, j :: 0 <= i < j < |Dedup(s)| ==> IndexOf(s, Dedup(s)[i]) < IndexOf(s, Dedup(s)[j])
  {
    if s != [] {
      var init, last := s[..|s| - 1], s[|s| - 1];
      assert s == init + [last];
      DedupFirstOccurrence(init);
      var r := Dedup(init);
      forall x | x in r
        ensures IndexOf(s, x) == IndexOf(init, x)
      {
        IndexOfPrefix(init, [last], x);
      }
      if last !in r {
        assert last !in init;
        assert IndexOf(s, last) == |init| by {
          assert s[..|init|] == init;
        }
      }
    }
  }
}
