/**
  * The parts of `java.lang.String`, `Character` and `Integer`/`Long` that the
  * request binder and the predicate builder rely on, written out so that their
  * edge cases (what `trim` strips, what `split` drops, which texts `parseInt`
  * accepts) are part of the model rather than assumed.
  *
  * Case folding is ASCII-only and digits are ASCII-only; see README.md.
  */
module JavaStrings {
  import opened Wrappers

  // ---------------------------------------------------------------------------
  // trim / isEmpty / blank

  /** `String.trim` strips every leading and trailing char whose code is <= U+0020. */
  predicate IsTrimmable(c: char) { c <= ' ' }

  function TrimStart(s: string): (r: string)
    ensures |r| <= |s| && r == s[|s| - |r|..]
    ensures r != [] ==> !IsTrimmable(r[0])
    ensures forall i :: 0 <= i < |s| - |r| ==> IsTrimmable(s[i])
  {
    if s != [] && IsTrimmable(s[0]) then
      var t := s[1..];
      assert forall i :: 0 < i < |s| ==> s[i] == t[i - 1];
      TrimStart(t)
    else s
  }

  function TrimEnd(s: string): (r: string)
    ensures |r| <= |s| && r == s[..|r|]
    ensures r != [] ==> !IsTrimmable(r[|r| - 1])
    ensures forall i :: |r| <= i < |s| ==> IsTrimmable(s[i])
  {
    if s != [] && IsTrimmable(s[|s| - 1]) then TrimEnd(s[..|s| - 1]) else s
  }

  /** `s.trim()`: the longest slice of `s` that neither starts nor ends with a trimmable char. */
  function Trim(s: string): (r: string)
    ensures |r| <= |s|
    ensures r != [] ==> !IsTrimmable(r[0]) && !IsTrimmable(r[|r| - 1])
  {
    TrimEnd(TrimStart(s))
  }

  /** `s.trim().isEmpty()`. */
  predicate IsBlank(s: string) { Trim(s) == [] }

  /** A text with nothing to trim is its own trim. */
  lemma TrimNoTrimmable(s: string)
    requires forall i :: 0 <= i < |s| ==> !IsTrimmable(s[i])
    ensures Trim(s) == s
  {
  }

  lemma {:induction false} TrimStartAllTrimmable(s: string)
    requires forall i :: 0 <= i < |s| ==> IsTrimmable(s[i])
    ensures TrimStart(s) == []
  {
    if s != [] {
      TrimStartAllTrimmable(s[1..]);
    }
  }

  /** A text is blank exactly when every one of its chars is trimmable. */
  lemma BlankIffAllTrimmable(s: string)
    ensures IsBlank(s) <==> forall i :: 0 <= i < |s| ==> IsTrimmable(s[i])
  {
    if forall i :: 0 <= i < |s| ==> IsTrimmable(s[i]) {
      TrimStartAllTrimmable(s);
    } else {
      var t := TrimStart(s);
      assert t != [];
    }
  }

  /** Trimming is idempotent. */
  lemma TrimTrimmed(s: string)
    ensures Trim(Trim(s)) == Trim(s)
  {
    var r := Trim(s);
    assert r != [] ==> TrimStart(r) == r;
    if r != [] {
      assert TrimEnd(TrimStart(r)) == TrimEnd(r) == r;
    }
  }

  // ---------------------------------------------------------------------------
  // Character.isWhitespace / StringUtils.hasText

  /** `Character.isWhitespace`: the Unicode space, line and paragraph separators other
      than the non-breaking ones, plus U+0009..U+000D and U+001C..U+001F. */
  predicate IsWhitespace(c: char)
  {
    || ('\t' <= c <= '\r') || ('\U{1C}' <= c <= ' ') || c == '\U{1680}'
    || ('\U{2000}' <= c <= '\U{2006}') || ('\U{2008}' <= c <= '\U{200A}')
    || c == '\U{2028}' || c == '\U{2029}' || c == '\U{205F}' || c == '\U{3000}'
  }

  /** Spring's `StringUtils.hasText`: some char is not whitespace. */
  predicate HasText(s: string) { s != [] && (!IsWhitespace(s[0]) || HasText(s[1..])) }

  // ---------------------------------------------------------------------------
  // Case folding (ASCII letters only)

  function LowerChar(c: char): char { if 'A' <= c <= 'Z' then (c as int + 32) as char else c }
  function UpperChar(c: char): char { if 'a' <= c <= 'z' then (c as int - 32) as char else c }

  /** `s.toLowerCase()` */
  function Lower(s: string): (r: string)
    ensures |r| == |s|
    ensures forall i :: 0 <= i < |s| ==> r[i] == LowerChar(s[i])
  {
    if s == [] then [] else [LowerChar(s[0])] + Lower(s[1..])
  }

  /** `s.toUpperCase()` */
  function Upper(s: string): (r: string)
    ensures |r| == |s|
    ensures forall i :: 0 <= i < |s| ==> r[i] == UpperChar(s[i])
  {
    if s == [] then [] else [UpperChar(s[0])] + Upper(s[1..])
  }

  /** `a.equalsIgnoreCase(b)` for a non-null `b`. */
  predicate EqualsIgnoreCase(a: string, b: string) { Lower(a) == Lower(b) }

  /** Lower-casing commutes with taking a suffix. */
  lemma LowerSuffix(s: string, i: nat)
    requires i <= |s|
    ensures Lower(s[i..]) == Lower(s)[i..]
  {
  }

  /** Lower-casing twice is lower-casing once. */
  lemma LowerIdempotent(s: string)
    ensures Lower(Lower(s)) == Lower(s)
  {
  }

  /** Upper-casing a text does not change it up to case. */
  lemma UpperEqualsIgnoreCase(s: string)
    ensures EqualsIgnoreCase(Upper(s), s)
  {
    assert forall i :: 0 <= i < |s| ==> LowerChar(UpperChar(s[i])) == LowerChar(s[i]);
  }

  // ---------------------------------------------------------------------------
  // Searching

  predicate StartsWith(s: string, prefix: string) { |prefix| <= |s| && s[..|prefix|] == prefix }

  /** `s.contains(sub)` */
  predicate Contains(s: string, sub: string)
  {
    StartsWith(s, sub) || (s != [] && Contains(s[1..], sub))
  }

  /** `contains` finds `sub` exactly when it occurs at some index. */
  lemma {:induction false} ContainsIff(s: string, sub: string)
    ensures Contains(s, sub) <==> exists i :: SliceAt(s, sub, i)
  {
    if StartsWith(s, sub) {
      assert SliceAt(s, sub, 0);
    } else if s == [] {
    } else {
      ContainsIff(s[1..], sub);
      if Contains(s[1..], sub) {
        var i :| SliceAt(s[1..], sub, i);
        assert s[1..][i..i + |sub|] == s[i + 1..i + 1 + |sub|];
        assert SliceAt(s, sub, i + 1);
      } else {
        forall i | SliceAt(s, sub, i) ensures false {
          assert i != 0;
          assert s[1..][i - 1..i - 1 + |sub|] == s[i..i + |sub|];
          assert SliceAt(s[1..], sub, i - 1);
        }
      }
    }
  }

  /** `sub` occurs in `s` at index `i`. */
  predicate SliceAt(s: string, sub: string, i: int)
  {
    0 <= i && i + |sub| <= |s| && s[i..i + |sub|] == sub
  }

  /** `s.indexOf(c)`, with `None` for -1. */
  function IndexOf(s: string, c: char): (r: Option<nat>)
    ensures r.None? <==> c !in s
    ensures r.Some? ==> r.value < |s| && s[r.value] == c && c !in s[..r.value]
  {
    if s == [] then None
    else if s[0] == c then Some(0)
    else match IndexOf(s[1..], c)
      case None => None
      case Some(k) => Some(k + 1)
  }

  /** `s.lastIndexOf(c)`, with `None` for -1. */
  function LastIndexOf(s: string, c: char): (r: Option<nat>)
    ensures r.None? <==> c !in s
    ensures r.Some? ==> r.value < |s| && s[r.value] == c && c !in s[r.value + 1..]
  {
    if s == [] then None
    else if s[|s| - 1] == c then Some(|s| - 1)
    else
      var r := LastIndexOf(s[..|s| - 1], c);
      assert r.Some? ==> s[r.value + 1..] == s[..|s| - 1][r.value + 1..] + [s[|s| - 1]];
      r
  }

  /** The last occurrence is the one with no occurrence after it. */
  lemma LastIndexOfAt(s: string, c: char, i: nat)
    requires i < |s| && s[i] == c && c !in s[i + 1..]
    ensures LastIndexOf(s, c) == Some(i)
  {
    var j := LastIndexOf(s, c).value;
    if j < i {
      OccursAfter(s, c, j, i);
      assert false;
    } else if j > i {
      OccursAfter(s, c, i, j);
      assert false;
    }
  }

  lemma OccursAfter(s: string, c: char, j: int, i: int)
    requires 0 <= j < i < |s| && s[i] == c
    ensures c in s[j + 1..]
  {
    assert s[j + 1..][i - j - 1] == c;
  }

  // ---------------------------------------------------------------------------
  // split

  /** Every piece between occurrences of `d`, empty pieces included (split with limit -1). */
  function SplitAll(s: string, d: char): (r: seq<string>)
    ensures |r| >= 1
    ensures forall k :: 0 <= k < |r| ==> d !in r[k]
  {
    if s == [] then [""]
    else if s[0] == d then [""] + SplitAll(s[1..], d)
    else
      var rest := SplitAll(s[1..], d);
      [[s[0]] + rest[0]] + rest[1..]
  }

  /** The pieces glued back together with `d` between them. */
  function Join(ps: seq<string>, d: char): string
  {
    if ps == [] then "" else if |ps| == 1 then ps[0] else ps[0] + [d] + Join(ps[1..], d)
  }

  lemma {:induction false} JoinSplitAll(s: string, d: char)
    ensures Join(SplitAll(s, d), d) == s
  {
    if s == [] {
    } else if s[0] == d {
      JoinSplitAll(s[1..], d);
    } else {
      var rest := SplitAll(s[1..], d);
      JoinSplitAll(s[1..], d);
      if |rest| == 1 {
      } else {
        assert Join(rest, d) == rest[0] + [d] + Join(rest[1..], d);
        assert s == [s[0]] + s[1..];
      }
    }
  }

  lemma {:induction false} SplitAllJoin(ps: seq<string>, d: char)
    requires |ps| >= 1
    requires forall k :: 0 <= k < |ps| ==> d !in ps[k]
    ensures SplitAll(Join(ps, d), d) == ps
  {
    if |ps| == 1 {
      SplitAllNoDelimiter(ps[0], d);
    } else {
      SplitAllJoin(ps[1..], d);
      SplitAllPrefix(ps[0], Join(ps[1..], d), d);
      assert Join(ps, d) == ps[0] + ([d] + Join(ps[1..], d));
    }
  }

  lemma {:induction false} SplitAllNoDelimiter(s: string, d: char)
    requires d !in s
    ensures SplitAll(s, d) == [s]
  {
    if s != [] {
      assert d !in s[1..];
      SplitAllNoDelimiter(s[1..], d);
      assert s == [s[0]] + s[1..];
    }
  }

  /** Splitting `p + [d] + t`, where `p` has no `d`, gives `p` followed by the pieces of `t`. */
  lemma {:induction false} SplitAllPrefix(p: string, t: string, d: char)
    requires d !in p
    ensures SplitAll(p + ([d] + t), d) == [p] + SplitAll(t, d)
  {
    if p == [] {
      assert p + ([d] + t) == [d] + t;
    } else {
      assert d !in p[1..];
      SplitAllPrefix(p[1..], t, d);
      var whole := p + ([d] + t);
      assert whole[0] == p[0] && whole[0] != d;
      assert whole[1..] == p[1..] + ([d] + t);
      assert p == [p[0]] + p[1..];
    }
  }

  /** `s.split(d)` (limit 0): the input itself when `d` does not occur; otherwise all
      pieces with the trailing empty ones removed. */
  function Split(s: string, d: char): (r: seq<string>)
    ensures forall k :: 0 <= k < |r| ==> d !in r[k]
    ensures d in s ==> |r| == 0 || r[|r| - 1] != ""
  {
    if d !in s then [s] else DropTrailingEmpty(SplitAll(s, d))
  }

  /** Splitting the pieces joined by `d` gives them back, provided there is at least one,
      none holds `d` and the last one is not empty (else `split` would drop it). */
  lemma SplitJoin(ps: seq<string>, d: char)
    requires |ps| >= 1 && ps[|ps| - 1] != ""
    requires forall k :: 0 <= k < |ps| ==> d !in ps[k]
    ensures Split(Join(ps, d), d) == ps
  {
    if |ps| == 1 {
      return;
    }
    SplitAllJoin(ps, d);
    var j := Join(ps, d);
    assert j == ps[0] + [d] + Join(ps[1..], d);
    assert j[|ps[0]|] == d;
  }

  function DropTrailingEmpty(ps: seq<string>): (r: seq<string>)
    ensures |r| <= |ps| && r == ps[..|r|]
    ensures forall k :: |r| <= k < |ps| ==> ps[k] == ""
    ensures |r| == 0 || r[|r| - 1] != ""
  {
    if ps != [] && ps[|ps| - 1] == "" then DropTrailingEmpty(ps[..|ps| - 1]) else ps
  }

  /** `s.split(d, 2)`: at most two pieces, cut at the first `d`; a trailing empty piece is kept. */
  function SplitFirst(s: string, d: char): (r: seq<string>)
    ensures 1 <= |r| <= 2 && d !in r[0]
    ensures |r| == 1 <==> d !in s
    ensures |r| == 1 ==> r[0] == s
    ensures |r| == 2 ==> s == r[0] + [d] + r[1]
  {
    match IndexOf(s, d)
    case None => [s]
    case Some(i) =>
      assert s == s[..i] + [d] + s[i + 1..];
      [s[..i], s[i + 1..]]
  }

  /** Cutting `p + [d] + t` at its first `d`, where `p` has no `d`, gives `p` and `t`. */
  lemma SplitFirstAt(p: string, t: string, d: char)
    requires d !in p
    ensures SplitFirst(p + [d] + t, d) == [p, t]
  {
    var s := p + [d] + t;
    assert s[|p|] == d;
    var r := SplitFirst(s, d);
    assert r[0] == s[..|p|] == p;
    assert r[1] == s[|p| + 1..] == t;
  }

  // ---------------------------------------------------------------------------
  // Integer.parseInt / Long.parseLong and Integer.toString

  const IntMin: int := -0x8000_0000
  const IntMax: int := 0x7fff_ffff
  const LongMin: int := -0x8000_0000_0000_0000
  const LongMax: int := 0x7fff_ffff_ffff_ffff

  predicate IsDigit(c: char) { '0' <= c <= '9' }

  predicate AllDigits(s: string) { forall i :: 0 <= i < |s| ==> IsDigit(s[i]) }

  /** The value of a decimal numeral, most significant digit first. */
  function DigitsValue(s: string): nat
    requires AllDigits(s)
  {
    if s == [] then 0 else DigitsValue(s[..|s| - 1]) * 10 + (s[|s| - 1] as int - '0' as int)
  }

  /** `Integer.parseInt(s)` / `Long.parseLong(s)` for the range [lo, hi]: an optional sign
      followed by at least one digit, no surrounding spaces, and a value in range;
      `None` where Java throws `NumberFormatException`. */
  function ParseIntIn(s: string, lo: int, hi: int): (r: Option<int>)
    ensures r.Some? ==> lo <= r.value <= hi
  {
    if s == [] then None
    else
      var neg := s[0] == '-';
      var digits := if s[0] == '-' || s[0] == '+' then s[1..] else s;
      if digits == [] || !AllDigits(digits) then None
      else
        var n: int := DigitsValue(digits);
        var v := if neg then -n else n;
        if lo <= v <= hi then Some(v) else None
  }

  /** `Integer.parseInt` / `Integer.valueOf` */
  function ParseInt(s: string): Option<int> { ParseIntIn(s, IntMin, IntMax) }

  /** `Long.parseLong` / `Long.valueOf` */
  function ParseLong(s: string): Option<int> { ParseIntIn(s, LongMin, LongMax) }

  function DigitChar(d: nat): char requires d < 10 { ('0' as int + d) as char }

  /** The decimal numeral of `n`, without leading zeros. */
  function DecimalText(n: nat): (r: string)
    ensures |r| >= 1 && AllDigits(r)
  {
    if n < 10 then [DigitChar(n)] else DecimalText(n / 10) + [DigitChar(n % 10)]
  }

  /** `Integer.toString(n)` / `Long.toString(n)` */
  function IntText(n: int): string
  {
    if n < 0 then "-" + DecimalText(-n) else DecimalText(n)
  }

  lemma {:induction false} DigitsValueOfDecimalText(n: nat)
    ensures DigitsValue(DecimalText(n)) == n
  {
    if n >= 10 {
      DigitsValueOfDecimalText(n / 10);
      var t := DecimalText(n);
      assert t[..|t| - 1] == DecimalText(n / 10);
    }
  }

  /** Round trip: parsing the text of any in-range number gives that number back. */
  lemma ParseIntText(n: int, lo: int, hi: int)
    requires lo <= n <= hi
    ensures ParseIntIn(IntText(n), lo, hi) == Some(n)
  {
    if n < 0 {
      DigitsValueOfDecimalText(-n);
      ParseNumeral("-" + DecimalText(-n), DecimalText(-n), true, lo, hi);
    } else {
      DigitsValueOfDecimalText(n);
      ParseNumeral(DecimalText(n), DecimalText(n), false, lo, hi);
    }
  }

  /** A run of digits, with or without a leading '-', parses to its value when in range. */
  lemma ParseNumeral(s: string, digits: string, neg: bool, lo: int, hi: int)
    requires digits != [] && AllDigits(digits)
    requires s == if neg then "-" + digits else digits
    requires lo <= (if neg then -(DigitsValue(digits) as int) else DigitsValue(digits)) <= hi
    ensures ParseIntIn(s, lo, hi) == Some(if neg then -(DigitsValue(digits) as int) else DigitsValue(digits))
  {
    if neg {
      assert s[0] == '-' && s[1..] == digits;
    } else {
      assert IsDigit(s[0]);
    }
  }

  /** The decimal text of a number is a non-empty run of digits after an optional '-'. */
  lemma IntTextChars(n: int)
    ensures |IntText(n)| >= 1
    ensures forall i :: 0 <= i < |IntText(n)| ==> IntText(n)[i] == '-' || IsDigit(IntText(n)[i])
  {
  }

  /** Text made of digits and '-' holds no other separator and nothing `trim` removes. */
  lemma NumeralToken(t: string, sep: char)
    requires forall i :: 0 <= i < |t| ==> t[i] == '-' || IsDigit(t[i])
    requires sep != '-' && !IsDigit(sep)
    ensures sep !in t && Trim(t) == t
  {
    assert forall i :: 0 <= i < |t| ==> t[i] != sep && !IsTrimmable(t[i]);
    TrimNoTrimmable(t);
  }

  /** The decimal text of a number holds no separator and nothing `trim` removes. */
  lemma IntTextToken(n: int, sep: char)
    requires sep != '-' && !IsDigit(sep)
    ensures IntText(n) != "" && sep !in IntText(n) && Trim(IntText(n)) == IntText(n)
  {
    var t := IntText(n);
    IntTextChars(n);
    assert t != "";
    NumeralToken(t, sep);
    assert sep !in t;
    assert Trim(t) == t;
  }

  /** A character past the sign position that is not a digit makes the text no number. */
  lemma ParseIntRejectsNonDigit(s: string, lo: int, hi: int, i: nat)
    requires 1 <= i < |s| && !IsDigit(s[i])
    ensures ParseIntIn(s, lo, hi).None?
  {
    if s[0] == '-' || s[0] == '+' {
      assert s[1..][i - 1] == s[i];
    }
  }

  // ---------------------------------------------------------------------------
  // UUID.fromString (canonical form only)

  predicate IsHexDigit(c: char) { '0' <= c <= '9' || 'a' <= c <= 'f' || 'A' <= c <= 'F' }

  /** The positions of the four dashes in the 8-4-4-4-12 form. */
  predicate IsUuidDash(i: int) { i == 8 || i == 13 || i == 18 || i == 23 }

  predicate IsCanonicalUuid(s: string)
  {
    |s| == 36 && forall i :: 0 <= i < |s| ==> if IsUuidDash(i) then s[i] == '-' else IsHexDigit(s[i])
  }

  /** `UUID.fromString(s).toString()`: the lower-cased text of a UUID written in the
      8-4-4-4-12 hexadecimal form, `None` where Java throws. */
  function ParseUuid(s: string): (r: Option<string>)
    ensures r.Some? <==> IsCanonicalUuid(s)
    ensures r.Some? ==> IsCanonicalUuid(r.value) && EqualsIgnoreCase(r.value, s) && Lower(r.value) == r.value
  {
    if IsCanonicalUuid(s) then
      LowerCanonicalUuid(s);
      Some(Lower(s))
    else None
  }

  /** Lower-casing keeps the canonical form, and lower-casing twice changes nothing. */
  lemma LowerCanonicalUuid(s: string)
    requires IsCanonicalUuid(s)
    ensures IsCanonicalUuid(Lower(s)) && Lower(Lower(s)) == Lower(s)
  {
    var l := Lower(s);
    forall i | 0 <= i < |l|
      ensures if IsUuidDash(i) then l[i] == '-' else IsHexDigit(l[i])
    {
      assert l[i] == LowerChar(s[i]);
    }
    assert forall i :: 0 <= i < |l| ==> LowerChar(l[i]) == l[i];
  }
}
