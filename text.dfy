/**
 * The JavaScript string operations the core relies on: trim, ASCII lower-casing,
 * `includes`, `endsWith`, `split`, the UTF-16 `length` that zod measures, and
 * `Number.parseInt` together with number-to-string conversion.
 */
module Text {
  import opened Wrappers

  /** The WhiteSpace and LineTerminator code points that `trim` and `parseInt` skip. */
  predicate IsSpace(c: char) {
    c == ' ' || c == '\t' || c == '\n' || c == '\r' || c == '\U{000B}' || c == '\U{000C}'
    || c == '\U{00A0}' || c == '\U{1680}' || ('\U{2000}' <= c <= '\U{200A}')
    || c == '\U{2028}' || c == '\U{2029}' || c == '\U{202F}' || c == '\U{205F}'
    || c == '\U{3000}' || c == '\U{FEFF}'
  }

  /** Drops the longest prefix of characters satisfying `space`. */
  function TrimStartWith(s: string, space: char -> bool): (r: string)
    ensures |r| <= |s| && r == s[|s| - |r|..]
    ensures forall i :: 0 <= i < |s| - |r| ==> space(s[i])
    ensures r == [] || !space(r[0])
  {
    if s != [] && space(s[0]) then
      var r := TrimStartWith(s[1..], space);
      assert r == s[|s| - |r|..] by {
        assert s[1..][|s| - 1 - |r|..] == s[|s| - |r|..];
      }
      assert forall i :: 0 <= i < |s| - |r| ==> space(s[i]) by {
        forall i | 1 <= i < |s| - |r|
          ensures space(s[i])
        {
          assert s[i] == s[1..][i - 1];
        }
      }
      r
    else s
  }

  /** Drops the longest suffix of characters satisfying `space`. */
  function TrimEndWith(s: string, space: char -> bool): (r: string)
    ensures |r| <= |s| && r == s[..|r|]
    ensures forall i :: |r| <= i < |s| ==> space(s[i])
    ensures r == [] || !space(r[|r| - 1])
  {
    if s != [] && space(s[|s| - 1]) then TrimEndWith(s[..|s| - 1], space) else s
  }

  function TrimStart(s: string): string {
    TrimStartWith(s, IsSpace)
  }

  /**
   * r is s with its first k characters and everything after k + |r| taken off, and every
   * character taken off is white space.
   */
  predicate StripsSpace(s: string, r: string, k: int) {
    0 <= k <= |s| - |r| && r == s[k..k + |r|] && AllSpace(s[..k]) && AllSpace(s[k + |r|..])
  }

  /** Every character of s is white space. */
  predicate AllSpace(s: string) {
    s == [] || (IsSpace(s[0]) && AllSpace(s[1..]))
  }

  lemma {:induction false} AllSpaceOf(s: string)
    requires forall i :: 0 <= i < |s| ==> IsSpace(s[i])
    ensures AllSpace(s)
  {
    if s != [] {
      assert forall i :: 0 <= i < |s[1..]| ==> s[1..][i] == s[i + 1];
      AllSpaceOf(s[1..]);
    }
  }

  /** A white-space prefix dropped from s, then a white-space suffix from what is left. */
  lemma StripsBothEnds(s: string, t: string, r: string)
    requires |t| <= |s| && t == s[|s| - |t|..]
    requires forall i :: 0 <= i < |s| - |t| ==> IsSpace(s[i])
    requires |r| <= |t| && r == t[..|r|]
    requires forall i :: |r| <= i < |t| ==> IsSpace(t[i])
    ensures StripsSpace(s, r, |s| - |t|)
  {
    var k := |s| - |t|;
    assert r == s[k..k + |r|];
    AllSpaceOf(s[..k]);
    assert s[k + |r|..] == t[|r|..];
    AllSpaceOf(t[|r|..]);
  }

  /** String.prototype.trim. */
  function Trim(s: string): (r: string)
    ensures r == [] || (!IsSpace(r[0]) && !IsSpace(r[|r| - 1]))
    ensures exists k :: StripsSpace(s, r, k)
  {
    var t := TrimStartWith(s, IsSpace);
    var r := TrimEndWith(t, IsSpace);
    assert r != [] ==> r[0] == t[0];
    StripsBothEnds(s, t, r);
    r
  }

  /** Trimming changes nothing in a string that already starts and ends with non-space. */
  lemma TrimNoop(s: string)
    requires s == [] || (!IsSpace(s[0]) && !IsSpace(s[|s| - 1]))
    ensures Trim(s) == s
  {
  }

  lemma TrimIdempotent(s: string)
    ensures Trim(Trim(s)) == Trim(s)
  {
    TrimNoop(Trim(s));
  }

  /** The `length` of a JavaScript string: the number of its UTF-16 code units. */
  function JsLength(s: string): (n: nat)
    ensures |s| <= n <= 2 * |s|
  {
    if s == [] then 0
    else (if s[0] as int > 0xFFFF then 2 else 1) + JsLength(s[1..])
  }

  /** String.prototype.toLowerCase restricted to ASCII letters. */
  function ToLower(s: string): (r: string)
    ensures |r| == |s|
  {
    seq(|s|, i requires 0 <= i < |s| => if 'A' <= s[i] <= 'Z' then (s[i] as int + 32) as char else s[i])
  }

  /** String.prototype.includes: `t` occurs in `s` as a contiguous piece. */
  predicate Includes(s: string, t: string) {
    exists i :: 0 <= i <= |s| - |t| && t <= s[i..]
  }

  lemma IncludesEmpty(s: string)
    ensures Includes(s, "")
  {
    assert "" <= s[0..];
  }

  /** String.prototype.endsWith. */
  predicate EndsWith(s: string, suffix: string) {
    |suffix| <= |s| && s[|s| - |suffix|..] == suffix
  }

  /** Array.prototype.join with a one-character separator. */
  function Join(parts: seq<string>, sep: char): string {
    if parts == [] then ""
    else if |parts| == 1 then parts[0]
    else parts[0] + [sep] + Join(parts[1..], sep)
  }

  /**
   * String.prototype.split on one character: the pieces contain no separator and
   * joining them with it gives the input back, which determines them uniquely.
   */
  function Split(s: string, sep: char): (parts: seq<string>)
    ensures |parts| >= 1
    ensures forall i :: 0 <= i < |parts| ==> sep !in parts[i]
    ensures Join(parts, sep) == s
  {
    if s == [] then [""]
    else
      var rest := Split(s[1..], sep);
      if s[0] == sep then
        assert Join([""] + rest, sep) == [sep] + Join(rest, sep);
        [""] + rest
      else
        var parts := [[s[0]] + rest[0]] + rest[1..];
        assert parts[1..] == rest[1..];
        assert Join(parts, sep) == [s[0]] + Join(rest, sep);
        parts
  }

  /** A piece without the separator stays one piece. */
  lemma {:induction false} SplitWhole(a: string, sep: char)
    requires sep !in a
    ensures Split(a, sep) == [a]
  {
    if a != [] {
      SplitWhole(a[1..], sep);
      assert [a[0]] + a[1..] == a;
    }
  }

  /** Splitting stops at the first separator. */
  lemma {:induction false} SplitAtFirst(a: string, sep: char, b: string)
    requires sep !in a
    ensures Split(a + [sep] + b, sep) == [a] + Split(b, sep)
  {
    var s := a + [sep] + b;
    if a == [] {
      assert s[1..] == b;
    } else {
      assert s[1..] == a[1..] + [sep] + b;
      assert s[0] == a[0] != sep;
      SplitAtFirst(a[1..], sep, b);
      assert [a[0]] + a[1..] == a;
    }
  }

  /** Pieces free of the separator are split back out of their join. */
  lemma {:induction false} SplitJoin(parts: seq<string>, sep: char)
    requires |parts| >= 1
    requires forall i :: 0 <= i < |parts| ==> sep !in parts[i]
    ensures Split(Join(parts, sep), sep) == parts
  {
    if |parts| == 1 {
      SplitWhole(parts[0], sep);
    } else {
      SplitJoin(parts[1..], sep);
      SplitAtFirst(parts[0], sep, Join(parts[1..], sep));
      assert [parts[0]] + parts[1..] == parts;
    }
  }

  predicate IsDigit(c: char) {
    '0' <= c <= '9'
  }

  predicate AllDigits(s: string) {
    forall i :: 0 <= i < |s| ==> IsDigit(s[i])
  }

  /** The longest prefix of decimal digits. */
  function DigitPrefix(s: string): (r: string)
    ensures r <= s && AllDigits(r)
    ensures |r| == |s| || !IsDigit(s[|r|])
  {
    if s != [] && IsDigit(s[0]) then [s[0]] + DigitPrefix(s[1..]) else []
  }

  /** The value of a string of decimal digits, read left to right. */
  function DigitsValue(ds: string): nat
    requires AllDigits(ds)
  {
    if ds == [] then 0
    else DigitsValue(ds[..|ds| - 1]) * 10 + (ds[|ds| - 1] as int - '0' as int)
  }

  function DigitChar(d: nat): (c: char)
    requires d < 10
    ensures IsDigit(c) && c as int - '0' as int == d
  {
    ('0' as int + d) as char
  }

  /** The decimal numeral of a natural number, without leading zeros. */
  function NatToString(n: nat): (r: string)
    ensures |r| >= 1 && AllDigits(r)
    ensures r[0] == '0' ==> r == "0"
    ensures DigitsValue(r) == n
  {
    if n < 10 then [DigitChar(n)]
    else
      var r := NatToString(n / 10) + [DigitChar(n % 10)];
      assert r[..|r| - 1] == NatToString(n / 10);
      r
  }

  /** Number.prototype.toString / template interpolation of an integer. */
  function IntToString(n: int): string {
    if n < 0 then "-" + NatToString(-n) else NatToString(n)
  }

  /**
   * Number.parseInt with radix 10: skip leading white space, read an optional sign and
   * the longest run of decimal digits after it; no digit at all gives NaN (None).
   */
  function ParseInt(s: string): Option<int> {
    ParseSigned(TrimStart(s))
  }

  /** The part of parseInt after the leading white space: optional sign, then digits. */
  function ParseSigned(t: string): Option<int> {
    if t != [] && (t[0] == '-' || t[0] == '+') then
      var ds := DigitPrefix(t[1..]);
      if ds == [] then None
      else Some(if t[0] == '-' then -(DigitsValue(ds) as int) else DigitsValue(ds))
    else
      var ds := DigitPrefix(t);
      if ds == [] then None else Some(DigitsValue(ds))
  }

  lemma {:induction false} TrimStartSkips(ws: string, x: string)
    requires forall i :: 0 <= i < |ws| ==> IsSpace(ws[i])
    requires x != [] && !IsSpace(x[0])
    ensures TrimStart(ws + x) == x
  {
    if ws != [] {
      assert (ws + x)[1..] == ws[1..] + x;
      TrimStartSkips(ws[1..], x);
    }
  }

  lemma {:induction false} DigitPrefixOf(ds: string, rest: string)
    requires AllDigits(ds)
    requires rest == [] || !IsDigit(rest[0])
    ensures DigitPrefix(ds + rest) == ds
  {
    if ds != [] {
      assert (ds + rest)[1..] == ds[1..] + rest;
      DigitPrefixOf(ds[1..], rest);
    }
  }

  /**
   * parseInt reads back any integer printed by IntToString, past leading white space
   * and before any text that does not start with a digit: "12abc" gives 12.
   */
  lemma ParseSignedReadsNumber(n: int, rest: string)
    requires rest == [] || !IsDigit(rest[0])
    ensures ParseSigned(IntToString(n) + rest) == Some(n)
  {
    if n < 0 {
      ParseSignedMinus(NatToString(-n), rest);
    } else {
      ParseSignedDigits(NatToString(n), rest);
    }
  }

  lemma ParseSignedDigits(ds: string, rest: string)
    requires ds != [] && AllDigits(ds)
    requires rest == [] || !IsDigit(rest[0])
    ensures ParseSigned(ds + rest) == Some(DigitsValue(ds))
  {
    DigitPrefixOf(ds, rest);
    assert (ds + rest)[0] == ds[0] && IsDigit(ds[0]);
  }

  lemma ParseSignedMinus(ds: string, rest: string)
    requires ds != [] && AllDigits(ds)
    requires rest == [] || !IsDigit(rest[0])
    ensures ParseSigned("-" + ds + rest) == Some(-(DigitsValue(ds) as int))
  {
    var u := ds + rest;
    assert DigitPrefix(u) == ds by {
      DigitPrefixOf(ds, rest);
    }
    var t := ['-'] + u;
    assert "-" + ds + rest == t;
    MinusSign(u, ds);
  }

  lemma MinusSign(u: string, ds: string)
    requires DigitPrefix(u) == ds && ds != []
    ensures ParseSigned(['-'] + u) == Some(-(DigitsValue(ds) as int))
  {
    var t := ['-'] + u;
    assert t[0] == '-' && t[1..] == u;
  }

  lemma ParseIntReadsLeadingNumber(ws: string, n: int, rest: string)
    requires forall i :: 0 <= i < |ws| ==> IsSpace(ws[i])
    requires rest == [] || !IsDigit(rest[0])
    ensures ParseInt(ws + IntToString(n) + rest) == Some(n)
  {
    var t := IntToString(n) + rest;
    assert ws + IntToString(n) + rest == ws + t;
    assert t[0] == '-' || IsDigit(t[0]);
    TrimStartSkips(ws, t);
    ParseSignedReadsNumber(n, rest);
  }

  /** parseInt reads an integer back from a numeral followed by text that is not a digit. */
  lemma ParseIntLeading(n: int, rest: string)
    requires rest == [] || !IsDigit(rest[0])
    ensures IntToString(n) + rest != "" && ParseInt(IntToString(n) + rest) == Some(n)
  {
    var numeral := IntToString(n);
    var t := numeral + rest;
    assert numeral[0] == '-' || IsDigit(numeral[0]);
    assert t[0] == numeral[0] && !IsSpace(t[0]);
    assert TrimStartWith(t, IsSpace) == t;
    ParseSignedReadsNumber(n, rest);
  }

  lemma ParseIntRoundTrip(n: int)
    ensures IntToString(n) != "" && ParseInt(IntToString(n)) == Some(n)
  {
    ParseIntLeading(n, "");
    assert IntToString(n) + "" == IntToString(n);
  }

  /** "abc" has no leading integer, so parseInt gives NaN. */
  lemma ParseIntNoDigits()
    ensures ParseInt("abc") == None
  {
    assert !IsSpace('a');
    assert TrimStart("abc") == "abc";
    assert DigitPrefix("abc") == [];
  }
}
