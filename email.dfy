/** The e-mail shape test `/^[^\s@]+@[^\s@]+\.[^\s@]+$/` used by registration. */
module Email {
  import opened Common
  import opened Seqs

  /** A character of `[^\s@]`. */
  predicate Plain(c: char)
  {
    !IsSpace(c) && c != '@'
  }

  predicate AllPlain(s: string)
  {
    forall k :: 0 <= k < |s| ==> Plain(s[k])
  }

  /** The regular expression read literally: the text splits at an '@' (index
      `i`) and a later '.' (index `j`) into three non-empty runs of `[^\s@]`.
      The greedy `+` may backtrack, so any such split is a match. */
  ghost predicate RegexMatches(s: string)
  {
    exists i, j :: 0 < i && i + 1 < j && j + 1 < |s| && s[i] == '@' && s[j] == '.'
                   && AllPlain(s[..i]) && AllPlain(s[i + 1..j]) && AllPlain(s[j + 1..])
  }

  /** The same test as a direct check: no white space, exactly one '@' that is
      not first, and a '.' after it that is neither the domain's first nor its
      last character. */
  predicate ValidEmail(s: string)
  {
    && NoSpace(s)
    && '@' in s
    && var i := IndexOf(s, '@');
       && 0 < i && i + 3 <= |s|
       && '@' !in s[i + 1..]
       && '.' in s[i + 2..|s| - 1]
  }

  lemma ValidEmailIsRegex(s: string)
    ensures ValidEmail(s) <==> RegexMatches(s)
  {
    if ValidEmail(s) {
      ValidToRegex(s);
    }
    if RegexMatches(s) {
      RegexToValid(s);
    }
  }

  /** A stretch of text with no white space and no '@' is a run of `[^\s@]`. */
  lemma PlainSlice(s: string, lo: nat, hi: nat)
    requires lo <= hi <= |s| && NoSpace(s)
    requires forall n :: lo <= n < hi ==> s[n] != '@'
    ensures AllPlain(s[lo..hi])
  {
    forall m | 0 <= m < hi - lo
      ensures Plain(s[lo..hi][m])
    {
      assert s[lo..hi][m] == s[lo + m];
    }
  }

  lemma ValidToRegex(s: string)
    requires ValidEmail(s)
    ensures RegexMatches(s)
  {
    var i := IndexOf(s, '@');
    var d := s[i + 2..|s| - 1];
    var k := IndexOf(d, '.');
    var j := i + 2 + k;
    assert s[j] == d[k];
    forall n | 0 <= n < i
      ensures s[n] != '@'
    {
      assert s[n] == s[..i][n];
    }
    forall n | i + 1 <= n < |s|
      ensures s[n] != '@'
    {
      assert s[n] == s[i + 1..][n - i - 1];
    }
    PlainSlice(s, 0, i);
    PlainSlice(s, i + 1, j);
    PlainSlice(s, j + 1, |s|);
    assert s[j + 1..] == s[j + 1..|s|];
  }

  lemma RegexToValid(s: string)
    requires RegexMatches(s)
    ensures ValidEmail(s)
  {
    var i, j :| 0 < i && i + 1 < j && j + 1 < |s| && s[i] == '@' && s[j] == '.'
                && AllPlain(s[..i]) && AllPlain(s[i + 1..j]) && AllPlain(s[j + 1..]);
    SplitIsPlain(s, i, j);
    OnlyAt(s, i);
    var d := s[i + 2..|s| - 1];
    assert d[j - i - 2] == s[j];
  }

  /** Outside the '@' at `i` and the '.' at `j`, every character of a match is plain. */
  lemma SplitIsPlain(s: string, i: nat, j: nat)
    requires i < j < |s| && s[i] == '@' && s[j] == '.'
    requires AllPlain(s[..i]) && AllPlain(s[i + 1..j]) && AllPlain(s[j + 1..])
    ensures NoSpace(s) && forall n :: 0 <= n < |s| && n != i ==> s[n] != '@'
  {
    var a, b, c := s[..i], s[i + 1..j], s[j + 1..];
    forall n | 0 <= n < |s| && n != i && n != j
      ensures Plain(s[n])
    {
      if n < i {
        assert s[n] == a[n];
      } else if n < j {
        assert s[n] == b[n - i - 1];
      } else {
        assert s[n] == c[n - j - 1];
      }
    }
  }

  /** The only '@' is the one at `i`: it is the first, and none follows it. */
  lemma OnlyAt(s: string, i: nat)
    requires i < |s| && s[i] == '@'
    requires forall n :: 0 <= n < |s| && n != i ==> s[n] != '@'
    ensures '@' in s && IndexOf(s, '@') == i && '@' !in s[i + 1..]
  {
    assert '@' !in s[..i] by {
      forall m | 0 <= m < i
        ensures s[..i][m] != '@'
      {
        assert s[..i][m] == s[m];
      }
    }
    IndexOfAt(s, i);
    var t := s[i + 1..];
    assert '@' !in t by {
      forall m | 0 <= m < |t|
        ensures t[m] != '@'
      {
        assert t[m] == s[i + 1 + m];
      }
    }
  }

  /** The first occurrence of a character found at `i` with none before it. */
  lemma {:induction false} IndexOfAt(s: string, i: nat)
    requires i < |s| && s[i] !in s[..i]
    ensures IndexOf(s, s[i]) == i
  {
    if i > 0 {
      assert s[0] in s[..i];
      assert s[0] != s[i];
      assert s[1..][i - 1] == s[i];
      assert s[1..][..i - 1] == s[1..i];
      IndexOfAt(s[1..], i - 1);
    }
  }

  /** An accepted address has no white space, so trimming it changes nothing. */
  lemma ValidEmailNoSpace(s: string)
    requires ValidEmail(s)
    ensures NoSpace(Lower(s)) && Trim(Lower(s)) == Lower(s)
  {
    forall k | 0 <= k < |s| ensures !IsSpace(Lower(s)[k]) {
      assert !IsSpace(s[k]);
    }
    TrimNoSpace(Lower(s));
  }

  /** A plain address is accepted. */
  lemma ExampleAccepted()
    ensures ValidEmail("a@b.co")
  {
    assert IndexOf("a@b.co", '@') == 1;
    assert "a@b.co"[3..5][0] == '.';
  }

  /** A missing domain suffix, a space, a second '@' and an empty local part
      are each refused. */
  lemma ExamplesRefused()
    ensures !ValidEmail("a@b.")
    ensures !ValidEmail("a b@c.d")
  {
    assert IndexOf("a@b.", '@') == 1;
    assert "a b@c.d"[1] == ' ';
  }

  lemma ExamplesRefusedAt()
    ensures !ValidEmail("a@b@c.d")
    ensures !ValidEmail("@b.cd")
  {
    assert IndexOf("a@b@c.d", '@') == 1;
    assert "a@b@c.d"[2..][1] == '@';
    assert IndexOf("@b.cd", '@') == 0;
  }
}
