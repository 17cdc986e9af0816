/**
 The JavaScript string primitives the form validation relies on:
 `String.prototype.trim`, the regex class `\s` (and its complement `\S`),
 the `length` property and ASCII `toUpperCase`.
 */
module JsText {

  /** The characters that `trim` strips and that `\s` matches: the ECMAScript
      WhiteSpace and LineTerminator productions (tab, line tab, form feed,
      space, no-break space, byte order mark, the Unicode Zs category, line
      feed, carriage return, line and paragraph separators). */
  predicate IsSpace(c: char) {
    || c == '\t' || c == '\n' || c == '\U{000B}' || c == '\U{000C}' || c == '\r'
    || c == ' ' || c == '\U{00A0}' || c == '\U{1680}'
    || ('\U{2000}' <= c <= '\U{200A}')
    || c == '\U{2028}' || c == '\U{2029}' || c == '\U{202F}' || c == '\U{205F}'
    || c == '\U{3000}' || c == '\U{FEFF}'
  }

  predicate AllSpace(s: string) {
    forall k | 0 <= k < |s| :: IsSpace(s[k])
  }

  /** No character of `s` is matched by `\s`, i.e. every one is matched by `\S`. */
  predicate NoSpace(s: string) {
    forall k | 0 <= k < |s| :: !IsSpace(s[k])
  }

  /** Drops leading whitespace: the result is the suffix of `s` that starts at
      its first non-space character. */
  function TrimStart(s: string): (r: string)
    ensures |r| <= |s| && r == s[|s| - |r|..]
    ensures AllSpace(s[..|s| - |r|])
    ensures |r| > 0 ==> !IsSpace(r[0])
    decreases |s|
  {
    if |s| > 0 && IsSpace(s[0]) then TrimStart(s[1..]) else s
  }

  /** Drops trailing whitespace: the result is the prefix of `s` that ends at
      its last non-space character. */
  function TrimEnd(s: string): (r: string)
    ensures |r| <= |s| && r == s[..|r|]
    ensures AllSpace(s[|r|..])
    ensures |r| > 0 ==> !IsSpace(r[|r| - 1])
    decreases |s|
  {
    if |s| > 0 && IsSpace(s[|s| - 1]) then TrimEnd(s[..|s| - 1]) else s
  }

  /** `r` is `s` with some whitespace removed from its start and some from
      its end, and nothing else. */
  ghost predicate StripsEnds(s: string, r: string) {
    exists i | 0 <= i <= |s| - |r| ::
      r == s[i..i + |r|] && AllSpace(s[..i]) && AllSpace(s[i + |r|..])
  }

  /** `s.trim()`: whitespace is stripped from both ends, the result neither
      starts nor ends with whitespace, and it is empty exactly when `s` is
      all whitespace. */
  function Trim(s: string): (r: string)
    ensures StripsEnds(s, r)
    ensures |r| > 0 ==> !IsSpace(r[0]) && !IsSpace(r[|r| - 1])
    ensures r == "" <==> AllSpace(s)
  {
    var t := TrimStart(s);
    var r := TrimEnd(t);
    TrimStartEmptyIff(s);
    TrimEndOfTrimmedStart(t);
    TrimStripsEnds(s, t, r);
    r
  }

  /** Dropping leading whitespace leaves nothing exactly when there is only
      whitespace. */
  lemma TrimStartEmptyIff(s: string)
    ensures TrimStart(s) == "" <==> AllSpace(s)
  {
    var t := TrimStart(s);
    if t == "" {
      assert s[..|s|] == s;
    } else {
      assert t[0] == s[|s| - |t|];
    }
  }

  /** Once the start is not whitespace, dropping trailing whitespace cannot
      empty a non-empty string. */
  lemma TrimEndOfTrimmedStart(t: string)
    requires |t| > 0 ==> !IsSpace(t[0])
    ensures TrimEnd(t) == "" <==> t == ""
  {
    var r := TrimEnd(t);
    if |r| < |t| {
      assert t[|r|..][0] == t[|r|];
    }
  }

  /** The two halves of `trim` together strip only the two ends. */
  lemma TrimStripsEnds(s: string, t: string, r: string)
    requires t == TrimStart(s) && r == TrimEnd(t)
    ensures StripsEnds(s, r)
  {
    var i := |s| - |t|;
    assert t == s[i..];
    assert r == s[i..i + |r|] by {
      assert r == t[..|r|];
      assert s[i..][..|r|] == s[i..i + |r|];
    }
    assert AllSpace(s[i + |r|..]) by {
      assert s[i..][|r|..] == s[i + |r|..];
    }
  }

  /** `!s.trim()` in JavaScript: the trimmed string is the falsy empty string. */
  predicate IsBlank(s: string) {
    Trim(s) == ""
  }

  /** The JavaScript `length` of `s`: the number of UTF-16 code units, so a
      character outside the Basic Multilingual Plane counts twice. */
  function CodeUnits(s: string): (n: nat)
    ensures |s| <= n <= 2 * |s|
    ensures (forall k | 0 <= k < |s| :: s[k] as int <= 0xFFFF) ==> n == |s|
    decreases |s|
  {
    if |s| == 0 then 0
    else (if s[0] as int > 0xFFFF then 2 else 1) + CodeUnits(s[1..])
  }

  /** One character is one code unit in the Basic Multilingual Plane and a
      surrogate pair (two code units) outside it. */
  lemma CodeUnitsChar(c: char)
    ensures CodeUnits([c]) == if c as int > 0xFFFF then 2 else 1
  {
    assert [c][1..] == [];
  }

  /** The length of a concatenation is the sum of the lengths. */
  lemma {:induction false} CodeUnitsAppend(s: string, t: string)
    ensures CodeUnits(s + t) == CodeUnits(s) + CodeUnits(t)
    decreases |s|
  {
    if |s| > 0 {
      assert (s + t)[0] == s[0];
      assert (s + t)[1..] == s[1..] + t;
      CodeUnitsAppend(s[1..], t);
    } else {
      assert s + t == t;
    }
  }

  predicate IsDigit(c: char) {
    '0' <= c <= '9'
  }

  predicate IsUpperLatin(c: char) {
    'A' <= c <= 'Z'
  }

  predicate IsLowerLatin(c: char) {
    'a' <= c <= 'z'
  }

  predicate NoLowerLatin(s: string) {
    forall k | 0 <= k < |s| :: !IsLowerLatin(s[k])
  }

  /** Upper-cases one character, ASCII letters only. */
  function UpperChar(c: char): (u: char)
    ensures !IsLowerLatin(u)
    ensures IsLowerLatin(c) ==> IsUpperLatin(u) && u as int == c as int - 32
    ensures !IsLowerLatin(c) ==> u == c
  {
    if IsLowerLatin(c) then (c as int - 32) as char else c
  }

  /** `s.toUpperCase()` restricted to ASCII: same length, every lower-case
      ASCII letter replaced by its capital, every other character kept. */
  function ToUpperAscii(s: string): (r: string)
    ensures |r| == |s|
    ensures forall k | 0 <= k < |s| :: r[k] == UpperChar(s[k])
    ensures NoLowerLatin(r)
  {
    seq(|s|, k requires 0 <= k < |s| => UpperChar(s[k]))
  }

  /** Upper-casing twice is upper-casing once, and a string without lower-case
      letters is left alone. */
  lemma ToUpperAsciiIdempotent(s: string)
    ensures NoLowerLatin(s) ==> ToUpperAscii(s) == s
    ensures ToUpperAscii(ToUpperAscii(s)) == ToUpperAscii(s)
  {
    var u := ToUpperAscii(s);
    assert NoLowerLatin(u);
    assert ToUpperAscii(u) == u;
  }

  /** The lower-case PAN of the example is stored as its capitals. */
  lemma UpperSample()
    ensures ToUpperAscii("abcde1234f") == "ABCDE1234F"
  {
  }
}
