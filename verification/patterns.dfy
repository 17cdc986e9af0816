/**
 The four regular expressions of the validation rules. The three anchored
 ones (phone, Aadhar, PAN) are sequences of character classes with a fixed
 repetition count; the email one is an unanchored search.
 */
module Patterns {
  import opened JsText

  datatype CharClass = Digit | Upper

  /** `\d` (ASCII `0-9`, since no `u` flag is given) and `[A-Z]`. */
  predicate InClass(c: char, k: CharClass) {
    match k
    case Digit => IsDigit(c)
    case Upper => IsUpperLatin(c)
  }

  /** One `class{count}` atom of a pattern. */
  datatype Piece = Piece(kind: CharClass, count: nat)

  /** `/^\d{10}$/` */
  const PhonePattern: seq<Piece> := [Piece(Digit, 10)]
  /** `/^\d{12}$/` */
  const AadharPattern: seq<Piece> := [Piece(Digit, 12)]
  /** `/^[A-Z]{5}[0-9]{4}[A-Z]{1}$/` */
  const PanPattern: seq<Piece> := [Piece(Upper, 5), Piece(Digit, 4), Piece(Upper, 1)]

  /** `/^p$/.test(v)` without the `m` flag: `^` and `$` only match at the
      two ends of the input, so the whole of `v` must be consumed. */
  function MatchesAnchored(v: string, p: seq<Piece>): bool
    decreases |p|
  {
    if |p| == 0 then |v| == 0
    else
      var n := p[0].count;
      && n <= |v|
      && (forall k | 0 <= k < n :: InClass(v[k], p[0].kind))
      && MatchesAnchored(v[n..], p[1..])
  }

  /** Exactly `n` ASCII digits. */
  predicate DigitString(v: string, n: nat) {
    |v| == n && forall k | 0 <= k < |v| :: IsDigit(v[k])
  }

  /** The PAN shape, position by position: letters at 0-4, digits at 5-8,
      a letter at 9, and nothing else. */
  predicate PanShape(v: string) {
    && |v| == 10
    && (forall k | 0 <= k < 5 :: IsUpperLatin(v[k]))
    && (forall k | 5 <= k < 9 :: IsDigit(v[k]))
    && IsUpperLatin(v[9])
  }

  /** A one-atom anchored digit pattern accepts exactly the digit strings of that length. */
  lemma {:induction false} DigitPatternIsDigitString(v: string, n: nat)
    ensures MatchesAnchored(v, [Piece(Digit, n)]) <==> DigitString(v, n)
  {
    var p := [Piece(Digit, n)];
    assert p[1..] == [];
    if n <= |v| {
      assert MatchesAnchored(v[n..], []) <==> |v| == n;
    }
  }

  lemma PhonePatternIsDigitString(v: string)
    ensures MatchesAnchored(v, PhonePattern) <==> DigitString(v, 10)
  {
    DigitPatternIsDigitString(v, 10);
  }

  lemma AadharPatternIsDigitString(v: string)
    ensures MatchesAnchored(v, AadharPattern) <==> DigitString(v, 12)
  {
    DigitPatternIsDigitString(v, 12);
  }

  /** The number of characters a pattern consumes. */
  function Width(p: seq<Piece>): nat
    decreases |p|
  {
    if |p| == 0 then 0 else p[0].count + Width(p[1..])
  }

  /** An anchored match consumes the whole input, so its length is the pattern's width. */
  lemma {:induction false} MatchLength(v: string, p: seq<Piece>)
    ensures MatchesAnchored(v, p) ==> |v| == Width(p)
    decreases |p|
  {
    if |p| > 0 && MatchesAnchored(v, p) {
      MatchLength(v[p[0].count..], p[1..]);
    }
  }

  /** The anchored PAN pattern accepts exactly the strings of the PAN shape. */
  lemma {:induction false} PanPatternIsPanShape(v: string)
    ensures MatchesAnchored(v, PanPattern) <==> PanShape(v)
  {
    var p := PanPattern;
    assert p[1..] == [Piece(Digit, 4), Piece(Upper, 1)];
    assert p[1..][1..] == [Piece(Upper, 1)];
    assert p[1..][1..][1..] == [];
    if |v| >= 10 {
      var v1 := v[5..];
      var v2 := v1[4..];
      var v3 := v2[1..];
      assert forall k | 0 <= k < 4 :: v1[k] == v[k + 5];
      assert v2[0] == v[9];
      assert MatchesAnchored(v3, []) <==> |v| == 10;
      assert MatchesAnchored(v2, p[1..][1..]) <==> IsUpperLatin(v[9]) && |v| == 10;
      assert MatchesAnchored(v1, p[1..]) <==>
             (forall k | 5 <= k < 9 :: IsDigit(v[k])) && IsUpperLatin(v[9]) && |v| == 10 by {
        assert (forall k | 0 <= k < 4 :: IsDigit(v1[k])) <==> (forall k | 5 <= k < 9 :: IsDigit(v[k])) by {
          forall k | 5 <= k < 9 ensures v1[k - 5] == v[k] { }
        }
      }
    } else {
      MatchLength(v, p);
    }
  }

  /** `v` as a whole is matched by `\S+@\S+\.\S+`: it contains no whitespace
      (the three runs, the `@` and the `.` are all non-space) and has an `@`
      and, later, a `.` with at least one character before, between and after. */
  ghost predicate EmailWhole(w: string) {
    && NoSpace(w)
    && exists a, c | 0 < a && a + 1 < c && c + 1 < |w| :: w[a] == '@' && w[c] == '.'
  }

  /** `/\S+@\S+\.\S+/.test(v)`: the pattern is not anchored, so it succeeds
      when some substring of `v` matches it as a whole. */
  ghost predicate EmailSearch(v: string) {
    exists i, j | 0 <= i <= j <= |v| :: EmailWhole(v[i..j])
  }

  /** The shortest match that can sit around an `@` at `a` and a `.` at `c`:
      one non-space before the `@`, a non-space run up to the `.`, and one
      non-space after it. */
  predicate EmailWindow(v: string, a: int, c: int) {
    && 0 < a && a + 1 < c && c + 1 < |v|
    && v[a] == '@' && v[c] == '.'
    && !IsSpace(v[a - 1]) && NoSpace(v[a + 1..c]) && !IsSpace(v[c + 1])
  }

  /** The email search, decided by looking for a window. */
  predicate EmailTest(v: string) {
    exists a, c | 0 <= a < |v| && 0 <= c < |v| :: EmailWindow(v, a, c)
  }

  /** Looking for a window decides the unanchored regex search. */
  lemma EmailTestIsSearch(v: string)
    ensures EmailTest(v) <==> EmailSearch(v)
  {
    if EmailTest(v) {
      var a, c :| 0 <= a < |v| && 0 <= c < |v| && EmailWindow(v, a, c);
      var i, j := a - 1, c + 2;
      var w := v[i..j];
      assert w[1] == '@' && w[c - i] == '.';
      assert NoSpace(w) by {
        forall k | 0 <= k < |w| ensures !IsSpace(w[k]) {
          assert w[k] == v[i + k];
          if 2 <= k < c - i {
            assert v[a + 1..c][k - 2] == v[i + k];
          }
        }
      }
      assert EmailWhole(w);
    }
    if EmailSearch(v) {
      var i, j :| 0 <= i <= j <= |v| && EmailWhole(v[i..j]);
      var w := v[i..j];
      var a, c :| 0 < a && a + 1 < c && c + 1 < |w| && w[a] == '@' && w[c] == '.';
      assert v[i + a] == w[a] && v[i + c] == w[c];
      assert v[i + a - 1] == w[a - 1] && v[i + c + 1] == w[c + 1];
      var run := v[i + a + 1..i + c];
      assert NoSpace(run) by {
        forall k | 0 <= k < |run| ensures !IsSpace(run[k]) {
          assert run[k] == w[a + 1 + k];
        }
      }
      assert EmailWindow(v, i + a, i + c);
    }
  }

  /** A string the email search accepts is not blank. */
  lemma EmailSearchNotAllSpace(v: string)
    requires EmailSearch(v)
    ensures !AllSpace(v)
  {
    var i, j :| 0 <= i <= j <= |v| && EmailWhole(v[i..j]);
    var w := v[i..j];
    assert |w| > 0 && !IsSpace(w[0]);
    assert v[i] == w[0];
  }

  /** The search on the example addresses: `a@b.com` matches, `bad` and
      `abc` (no `@`) do not. */
  lemma EmailSamples()
    ensures EmailSearch("a@b.com")
    ensures !EmailSearch("bad") && !EmailSearch("abc")
  {
    assert EmailWindow("a@b.com", 1, 3);
    EmailTestIsSearch("a@b.com");
    assert "bad"[0] != '@' && "bad"[1] != '@' && "bad"[2] != '@';
    EmailTestIsSearch("bad");
    assert "abc"[0] != '@' && "abc"[1] != '@' && "abc"[2] != '@';
    EmailTestIsSearch("abc");
  }

  /** The anchored shapes on the example values. */
  lemma ShapeSamples()
    ensures DigitString("1234567890", 10) && DigitString("123456789012", 12)
    ensures PanShape("ABCDE1234F") && !PanShape("abcde1234f")
  {
  }
}
