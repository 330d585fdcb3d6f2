/** Values and string operations shared by every part of the portal model:
    JSON request fields with JavaScript truthiness, and the string methods
    the handlers call (toLowerCase, trim, includes, startsWith). */
module Common {

  datatype Option<+T> = None | Some(value: T)

  /** A value, or the message of the error that replaced it. */
  datatype Result<+T> = Ok(value: T) | Err(message: string)

  /** A field of a parsed JSON request body: absent (undefined), null, or a scalar.
      Numbers are modelled as integers. */
  datatype Json = Undefined | Null | Bool(b: bool) | Num(n: int) | Str(s: string)

  /** JavaScript truthiness of a field: false, 0, "", null and undefined are falsy. */
  predicate Truthy(v: Json)
  {
    match v
    case Bool(b) => b
    case Num(n) => n != 0
    case Str(s) => s != ""
    case _ => false
  }

  /** `v ?? d`: only null and undefined fall back to the default. */
  function Coalesce(v: Json, d: Json): (r: Json)
    ensures (v.Undefined? || v.Null?) ==> r == d
    ensures !(v.Undefined? || v.Null?) ==> r == v
  {
    if v.Undefined? || v.Null? then d else v
  }

  /** `v || d`: every falsy value falls back to the default. */
  function OrElse(v: Json, d: Json): (r: Json)
    ensures Truthy(v) ==> r == v
    ensures !Truthy(v) ==> r == d
  {
    if Truthy(v) then v else d
  }

  /** An optional text field as `s?.trim() || null` leaves it: trimmed, and
      None when nothing but whitespace was sent. */
  function TrimOrNull(v: Option<string>): (r: Option<string>)
    ensures r.Some? ==> r.value != "" && v.Some? && r.value == Trim(v.value)
    ensures v.Some? && Trim(v.value) != "" ==> r.Some?
  {
    if v.Some? && Trim(v.value) != "" then Some(Trim(v.value)) else None
  }

  /** White space as JavaScript's `trim` and the regular-expression class `\s`
      understand it: the WhiteSpace and LineTerminator characters of ECMAScript. */
  predicate IsSpace(c: char)
  {
    c == ' ' || c == '\t' || c == '\n' || c == '\r' || c == '\U{000B}' || c == '\U{000C}'
    || c == '\U{00A0}' || c == '\U{1680}' || ('\U{2000}' <= c <= '\U{200A}')
    || c == '\U{2028}' || c == '\U{2029}' || c == '\U{202F}' || c == '\U{205F}'
    || c == '\U{3000}' || c == '\U{FEFF}'
  }

  predicate NoSpace(s: string)
  {
    forall i :: 0 <= i < |s| ==> !IsSpace(s[i])
  }

  /** `toLowerCase` on the ASCII letters; every other character is kept. */
  function LowerChar(c: char): char
  {
    if 'A' <= c <= 'Z' then (c as int + 32) as char else c
  }

  function Lower(s: string): (r: string)
  {
    seq(|s|, i requires 0 <= i < |s| => LowerChar(s[i]))
  }

  lemma LowerIdempotent(s: string)
    ensures Lower(Lower(s)) == Lower(s)
  {
    forall i | 0 <= i < |s|
      ensures Lower(Lower(s))[i] == Lower(s)[i]
    {
    }
  }

  function TrimStart(s: string): (r: string)
    ensures |r| <= |s| && r == s[|s| - |r|..]
    ensures r != [] ==> !IsSpace(r[0])
    ensures forall i :: 0 <= i < |s| - |r| ==> IsSpace(s[i])
  {
    if s != [] && IsSpace(s[0]) then TrimStart(s[1..]) else s
  }

  function TrimEnd(s: string): (r: string)
    ensures |r| <= |s| && r == s[..|r|]
    ensures r != [] ==> !IsSpace(r[|r| - 1])
    ensures forall i :: |r| <= i < |s| ==> IsSpace(s[i])
  {
    if s != [] && IsSpace(s[|s| - 1]) then TrimEnd(s[..|s| - 1]) else s
  }

  /** `trim`: drops the white space at both ends. */
  function Trim(s: string): (r: string)
    ensures r != [] ==> !IsSpace(r[0]) && !IsSpace(r[|r| - 1])
    ensures |r| <= |s|
    ensures AllSpace(s) ==> r == []
  {
    var t := TrimStart(s);
    TrimEnds(s, t, TrimEnd(t));
    TrimEnd(t)
  }

  /** What `trim` keeps is the stretch of `s` after its leading white space,
      with only white space after it. */
  lemma TrimKeepsMiddle(s: string)
    ensures LeadingSpaces(s) + |Trim(s)| <= |s|
    ensures Trim(s) == s[LeadingSpaces(s)..LeadingSpaces(s) + |Trim(s)|]
    ensures AllSpace(s[LeadingSpaces(s) + |Trim(s)|..])
  {
    TrimIsMiddle(s, TrimStart(s), Trim(s));
  }

  /** The number of white-space characters `s` starts with. */
  function LeadingSpaces(s: string): (n: nat)
    ensures n <= |s| && AllSpace(s[..n])
    ensures n < |s| ==> !IsSpace(s[n])
  {
    if s != [] && IsSpace(s[0]) then
      var n := 1 + LeadingSpaces(s[1..]);
      assert s[..n] == [s[0]] + s[1..][..n - 1];
      n
    else 0
  }

  lemma {:induction false} TrimStartAfterLeading(s: string)
    ensures TrimStart(s) == s[LeadingSpaces(s)..]
  {
    if s != [] && IsSpace(s[0]) {
      TrimStartAfterLeading(s[1..]);
    }
  }

  lemma TrimEndLeavesSpace(t: string)
    ensures AllSpace(t[|TrimEnd(t)|..])
  {
    var k := |TrimEnd(t)|;
    forall i | 0 <= i < |t| - k
      ensures IsSpace(t[k..][i])
    {
      assert t[k..][i] == t[k + i];
    }
  }

  lemma MiddleSlice(s: string, t: string, r: string, a: nat)
    requires a <= |s| && t == s[a..]
    requires |r| <= |t| && r == t[..|r|]
    ensures a + |r| <= |s| && r == s[a..a + |r|]
  {
  }

  lemma SpaceAfterSlice(s: string, t: string, a: nat, k: nat)
    requires a <= |s| && t == s[a..] && k <= |t|
    requires AllSpace(t[k..])
    ensures AllSpace(s[a + k..])
  {
    assert t[k..] == s[a + k..];
  }

  lemma TrimEnds(s: string, t: string, r: string)
    requires |t| <= |s| && t == s[|s| - |t|..] && (t != [] ==> !IsSpace(t[0]))
    requires |r| <= |t| && r == t[..|r|] && (r != [] ==> !IsSpace(r[|r| - 1]))
    ensures r != [] ==> !IsSpace(r[0]) && !IsSpace(r[|r| - 1])
    ensures |r| <= |s|
    ensures AllSpace(s) ==> r == []
  {
    if r != [] {
      assert r[0] == t[0] == s[|s| - |t|];
      NotAllSpace(s, |s| - |t|);
    }
  }

  lemma NotAllSpace(s: string, j: int)
    requires 0 <= j < |s| && !IsSpace(s[j])
    ensures !AllSpace(s)
  {
  }

  lemma TrimIsMiddle(s: string, t: string, r: string)
    requires t == TrimStart(s) && r == TrimEnd(t)
    ensures LeadingSpaces(s) + |r| <= |s|
    ensures r == s[LeadingSpaces(s)..LeadingSpaces(s) + |r|]
    ensures AllSpace(s[LeadingSpaces(s) + |r|..])
  {
    TrimStartAfterLeading(s);
    MiddleSlice(s, t, r, LeadingSpaces(s));
    TrimEndLeavesSpace(t);
    SpaceAfterSlice(s, t, LeadingSpaces(s), |r|);
  }

  predicate AllSpace(s: string)
  {
    forall i :: 0 <= i < |s| ==> IsSpace(s[i])
  }

  /** Text free of white space is its own trim. */
  lemma TrimNoSpace(s: string)
    requires NoSpace(s)
    ensures Trim(s) == s
  {
    if s != [] {
      assert !IsSpace(s[0]) && !IsSpace(s[|s| - 1]);
    }
  }

  /** `s.length` in JavaScript: UTF-16 code units, so a character beyond
      U+FFFF (an emoji, say) counts twice. */
  function Utf16Length(s: string): (n: nat)
    ensures |s| <= n <= 2 * |s|
    ensures (forall i :: 0 <= i < |s| ==> s[i] as int < 0x1_0000) ==> n == |s|
  {
    if s == [] then 0
    else (if s[0] as int < 0x1_0000 then 1 else 2) + Utf16Length(s[1..])
  }

  /** Three emoji are six code units long. */
  lemma AstralCountsTwice()
    ensures |"\U{1F600}\U{1F600}\U{1F600}"| == 3
    ensures Utf16Length("\U{1F600}\U{1F600}\U{1F600}") == 6
  {
    var s := "\U{1F600}\U{1F600}\U{1F600}";
    assert s[1..][1..][1..] == [];
  }

  /** `s.includes(t)`: `t` occurs as a contiguous slice of `s`. */
  predicate Contains(s: string, t: string)
    decreases |s|
  {
    t <= s || (s != [] && Contains(s[1..], t))
  }

  /** Searching for a single character is membership. */
  lemma ContainsChar(s: string, c: char)
    ensures Contains(s, [c]) <==> c in s
    decreases |s|
  {
    if s != [] {
      ContainsChar(s[1..], c);
      assert s == [s[0]] + s[1..];
    }
  }

  lemma ContainsEmpty(s: string)
    ensures Contains(s, "")
  {
  }

  /** The case-insensitive search shared by the admin lists:
      `hay.toLowerCase().includes(term.toLowerCase())`. */
  predicate IncludesCI(hay: string, term: string)
  {
    Contains(Lower(hay), Lower(term))
  }

  /** `s.startsWith(p)`. */
  predicate StartsWith(s: string, p: string)
  {
    p <= s
  }

  /** `s.slice(0, n)` (also `substring(0, n)`): at most the first `n` characters. */
  function Prefix<T>(s: seq<T>, n: nat): (r: seq<T>)
    ensures |r| == if |s| < n then |s| else n
    ensures r <= s
  {
    if |s| <= n then s else s[..n]
  }

  // ----- Text order -----

  /** Lexicographic order by character code, the order a binary collation sorts text in. */
  predicate LexLe(a: string, b: string)
    decreases |a|
  {
    a == [] || (b != [] && (a[0] < b[0] || (a[0] == b[0] && LexLe(a[1..], b[1..]))))
  }

  lemma {:induction false} LexLeTotal(a: string, b: string)
    ensures LexLe(a, b) || LexLe(b, a)
    decreases |a|
  {
    if a != [] && b != [] && a[0] == b[0] {
      LexLeTotal(a[1..], b[1..]);
    }
  }

  lemma {:induction false} LexLeTrans(a: string, b: string, c: string)
    requires LexLe(a, b) && LexLe(b, c)
    ensures LexLe(a, c)
    decreases |a|
  {
    if a != [] && a[0] == b[0] && b[0] == c[0] {
      LexLeTrans(a[1..], b[1..], c[1..]);
    }
  }

  lemma {:induction false} LexLeAntisym(a: string, b: string)
    requires LexLe(a, b) && LexLe(b, a)
    ensures a == b
    decreases |a|
  {
    if a != [] {
      LexLeAntisym(a[1..], b[1..]);
      assert a == [a[0]] + a[1..] && b == [b[0]] + b[1..];
    }
  }

  // ----- Decimal numbers -----

  predicate IsDigit(c: char)
  {
    '0' <= c <= '9'
  }

  function DigitChar(d: nat): (c: char)
    requires d < 10
    ensures IsDigit(c)
  {
    ('0' as int + d) as char
  }

  function DigitValue(c: char): (d: nat)
    requires IsDigit(c)
    ensures d < 10
  {
    c as int - '0' as int
  }

  /** `n.toString()` for a non-negative integer. */
  function NatToDecimal(n: nat): (r: string)
    ensures r != [] && forall i :: 0 <= i < |r| ==> IsDigit(r[i])
  {
    if n < 10 then [DigitChar(n)] else NatToDecimal(n / 10) + [DigitChar(n % 10)]
  }

  /** The value of a string of decimal digits. */
  function DigitsValue(s: string): nat
    requires forall i :: 0 <= i < |s| ==> IsDigit(s[i])
  {
    if s == [] then 0 else DigitsValue(s[..|s| - 1]) * 10 + DigitValue(s[|s| - 1])
  }

  /** The longest prefix of `s` made of decimal digits. */
  function LeadingDigits(s: string): (r: string)
    ensures r <= s
    ensures forall i :: 0 <= i < |r| ==> IsDigit(s[i])
    ensures |r| < |s| ==> !IsDigit(s[|r|])
  {
    if s != [] && IsDigit(s[0]) then [s[0]] + LeadingDigits(s[1..]) else []
  }

  /** `parseInt(s)` with the default radix, for decimal text: white space is
      skipped, an optional sign is read, then as many digits as follow.
      None stands for NaN (no digit at all). */
  function ParseInt(s: string): (r: Option<int>)
    ensures r.Some? ==> exists i :: 0 <= i < |s| && IsDigit(s[i])
  {
    var t := TrimStart(s);
    var r := ParseSigned(t);
    assert r.Some? ==> IsDigit(s[|s| - |t| + SignLength(t)]);
    r
  }

  /** 1 when `t` starts with a sign, 0 otherwise. */
  function SignLength(t: string): (k: nat)
    ensures k <= |t|
  {
    if t != [] && (t[0] == '-' || t[0] == '+') then 1 else 0
  }

  /** An optional sign followed by digits, read from the start of `t`. */
  function ParseSigned(t: string): (r: Option<int>)
    ensures r.Some? ==> SignLength(t) < |t| && IsDigit(t[SignLength(t)])
  {
    match DigitsPrefix(t[SignLength(t)..])
    case None => None
    case Some(m) => Some(if t[0] == '-' then 0 - m else m)
  }

  /** The value of the digits `u` starts with; None when it starts with none. */
  function DigitsPrefix(u: string): (r: Option<nat>)
    ensures r.Some? <==> u != [] && IsDigit(u[0])
  {
    var d := LeadingDigits(u);
    if d == [] then None else Some(DigitsValue(d))
  }

  lemma {:induction false} DecimalValue(n: nat)
    ensures DigitsValue(NatToDecimal(n)) == n
  {
    if n >= 10 {
      DecimalValue(n / 10);
      var r := NatToDecimal(n);
      assert r[..|r| - 1] == NatToDecimal(n / 10);
    }
  }

  lemma {:induction false} LeadingDigitsAll(s: string)
    requires forall i :: 0 <= i < |s| ==> IsDigit(s[i])
    ensures LeadingDigits(s) == s
  {
    if s != [] {
      LeadingDigitsAll(s[1..]);
    }
  }

  /** `parseInt` reads back the decimal text of a natural number. */
  lemma ParseDecimal(n: nat)
    ensures ParseInt(NatToDecimal(n)) == Some(n)
  {
    var s := NatToDecimal(n);
    assert !IsSpace(s[0]) && s[0] != '-' && s[0] != '+';
    assert TrimStart(s) == s;
    LeadingDigitsAll(s);
    DecimalValue(n);
  }

  /** `parseInt` reads leading white space, an optional sign, the decimal
      text of `n` and anything that does not start with a digit as +n or -n. */
  lemma ParseIntReads(ws: string, sign: string, n: nat, rest: string)
    requires AllSpace(ws)
    requires sign == "" || sign == "-" || sign == "+"
    requires rest == [] || !IsDigit(rest[0])
    ensures ParseInt(ws + sign + NatToDecimal(n) + rest) == Some(if sign == "-" then 0 - n else n)
  {
    DecimalValue(n);
    ParseIntDigits(ws, sign, NatToDecimal(n), n, rest);
    ConcatRegroup(ws, sign, NatToDecimal(n), rest);
  }

  /** The same for any non-empty run of digits `d` whose value is `n`. */
  lemma ParseIntDigits(ws: string, sign: string, d: string, n: nat, rest: string)
    requires AllSpace(ws)
    requires sign == "" || sign == "-" || sign == "+"
    requires d != [] && forall i :: 0 <= i < |d| ==> IsDigit(d[i])
    requires DigitsValue(d) == n
    requires rest == [] || !IsDigit(rest[0])
    ensures ParseInt(ws + (sign + (d + rest))) == Some(if sign == "-" then 0 - n else n)
  {
    SignedText(sign, d, rest);
    TrimStartSkips(ws, sign + (d + rest));
    LeadingDigitsStops(d, rest);
    ParseIntSigned(ws + (sign + (d + rest)), sign, d, n, rest);
  }

  lemma ParseIntSigned(s: string, sign: string, d: string, n: nat, rest: string)
    requires sign == "" || sign == "-" || sign == "+"
    requires d != [] && forall i :: 0 <= i < |d| ==> IsDigit(d[i])
    requires DigitsValue(d) == n
    requires TrimStart(s) == sign + (d + rest)
    requires LeadingDigits(d + rest) == d
    ensures ParseInt(s) == Some(if sign == "-" then 0 - n else n)
  {
    ParseSignedDigits(sign, d, n, rest);
  }

  lemma ParseSignedDigits(sign: string, d: string, n: nat, rest: string)
    requires sign == "" || sign == "-" || sign == "+"
    requires d != [] && forall i :: 0 <= i < |d| ==> IsDigit(d[i])
    requires DigitsValue(d) == n
    requires LeadingDigits(d + rest) == d
    ensures ParseSigned(sign + (d + rest)) == Some(if sign == "-" then 0 - n else n)
  {
    SignedText(sign, d, rest);
    var t := sign + (d + rest);
    assert t[SignLength(t)..] == d + rest;
  }

  lemma ConcatRegroup(ws: string, sign: string, d: string, rest: string)
    ensures ws + sign + d + rest == ws + (sign + (d + rest))
  {
  }

  lemma SignedText(sign: string, d: string, rest: string)
    requires sign == "" || sign == "-" || sign == "+"
    requires d != [] && IsDigit(d[0])
    ensures var t := sign + (d + rest);
            && t != [] && !IsSpace(t[0])
            && (t[0] == '-') == (sign == "-")
            && (t[0] == '-' || t[0] == '+') == (sign != "")
            && (sign != "" ==> t[1..] == d + rest)
  {
  }

  lemma {:induction false} TrimStartSkips(ws: string, t: string)
    requires AllSpace(ws)
    requires t == [] || !IsSpace(t[0])
    ensures TrimStart(ws + t) == t
  {
    if ws != [] {
      assert (ws + t)[1..] == ws[1..] + t;
      TrimStartSkips(ws[1..], t);
    }
  }

  lemma {:induction false} LeadingDigitsStops(d: string, rest: string)
    requires forall i :: 0 <= i < |d| ==> IsDigit(d[i])
    requires rest == [] || !IsDigit(rest[0])
    ensures LeadingDigits(d + rest) == d
  {
    if d != [] {
      assert (d + rest)[1..] == d[1..] + rest;
      LeadingDigitsStops(d[1..], rest);
    }
  }
}
