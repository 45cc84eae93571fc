/**
 The string operations the backend and the simulator apply to transport
 modes and vehicle ids: Python's `str.strip()`, `str.lower()`, JavaScript's
 `toLowerCase()` and `replace(/\s+/g, "")`, and decimal rendering of the
 indices embedded in ids, with the parser that inverts an id.
 */
module Text {
  import opened Common

  // ---------------------------------------------------------------------
  // Character classes

  /** The characters for which Python's `str.isspace()` holds. */
  predicate IsPyWhitespace(c: char)
  {
    || ('\t' <= c <= '\r')            // \t \n \v \f \r
    || ('\U{1C}' <= c <= '\U{1F}')    // file, group, record and unit separators
    || c == ' ' || c == '\U{85}' || c == '\U{A0}' || c == '\U{1680}'
    || ('\U{2000}' <= c <= '\U{200A}')
    || c == '\U{2028}' || c == '\U{2029}' || c == '\U{202F}'
    || c == '\U{205F}' || c == '\U{3000}'
  }

  /** The characters the JavaScript regular-expression class `\s` matches. */
  predicate IsJsWhitespace(c: char)
  {
    || ('\t' <= c <= '\r')
    || c == ' ' || c == '\U{A0}' || c == '\U{1680}'
    || ('\U{2000}' <= c <= '\U{200A}')
    || c == '\U{2028}' || c == '\U{2029}' || c == '\U{202F}'
    || c == '\U{205F}' || c == '\U{3000}' || c == '\U{FEFF}'
  }

  predicate IsDigit(c: char)
  {
    '0' <= c <= '9'
  }

  // ---------------------------------------------------------------------
  // Lower case

  /** Lower-cases one character (ASCII letters only). */
  function LowerChar(c: char): (r: char)
    ensures 'A' <= c <= 'Z' ==> 'a' <= r <= 'z' && r as int - c as int == 32
    ensures !('A' <= c <= 'Z') ==> r == c
  {
    if 'A' <= c <= 'Z' then (c as int + 32) as char else c
  }

  /** `s.lower()` / `s.toLowerCase()`, restricted to ASCII letters. */
  function Lower(s: string): (r: string)
    ensures |r| == |s|
    ensures forall i :: 0 <= i < |s| ==> r[i] == LowerChar(s[i])
  {
    seq(|s|, i requires 0 <= i < |s| => LowerChar(s[i]))
  }

  /** Lower-casing never turns a letter into whitespace or back, in either
      language's sense of whitespace. */
  lemma LowerCharKeepsClass(c: char)
    ensures IsPyWhitespace(LowerChar(c)) <==> IsPyWhitespace(c)
    ensures IsJsWhitespace(LowerChar(c)) <==> IsJsWhitespace(c)
    ensures IsDigit(LowerChar(c)) <==> IsDigit(c)
    ensures LowerChar(LowerChar(c)) == LowerChar(c)
  {
  }

  lemma LowerKeepsWhitespace(s: string)
    ensures forall i :: 0 <= i < |s| ==> (IsPyWhitespace(Lower(s)[i]) <==> IsPyWhitespace(s[i]))
  {
    forall i | 0 <= i < |s|
      ensures IsPyWhitespace(Lower(s)[i]) <==> IsPyWhitespace(s[i])
    {
      LowerCharKeepsClass(s[i]);
    }
  }

  lemma LowerIdempotent(s: string)
    ensures Lower(Lower(s)) == Lower(s)
  {
    forall i | 0 <= i < |s|
      ensures Lower(Lower(s))[i] == Lower(s)[i]
    {
      LowerCharKeepsClass(s[i]);
    }
  }

  // ---------------------------------------------------------------------
  // Python's str.strip()

  /** Number of leading Python-whitespace characters of `s`. */
  function LeadingSpace(s: string): (k: nat)
    ensures k <= |s|
    ensures forall i :: 0 <= i < k ==> IsPyWhitespace(s[i])
    ensures k < |s| ==> !IsPyWhitespace(s[k])
  {
    if |s| > 0 && IsPyWhitespace(s[0]) then 1 + LeadingSpace(s[1..]) else 0
  }

  /** Number of trailing Python-whitespace characters of `s`. */
  function TrailingSpace(s: string): (k: nat)
    ensures k <= |s|
    ensures forall i :: |s| - k <= i < |s| ==> IsPyWhitespace(s[i])
    ensures k < |s| ==> !IsPyWhitespace(s[|s| - 1 - k])
  {
    if |s| > 0 && IsPyWhitespace(s[|s| - 1]) then 1 + TrailingSpace(s[..|s| - 1]) else 0
  }

  /** `s.strip()`: `s` without its leading and trailing whitespace. The result
      is the contiguous middle of `s` starting at the first non-whitespace
      character; it neither starts nor ends with whitespace, and it is empty
      exactly when `s` is all whitespace. */
  function Strip(s: string): (r: string)
    ensures |r| <= |s|
    ensures LeadingSpace(s) + |r| <= |s|
    ensures r == s[LeadingSpace(s) .. LeadingSpace(s) + |r|]
    ensures forall i :: LeadingSpace(s) + |r| <= i < |s| ==> IsPyWhitespace(s[i])
    ensures |r| > 0 ==> !IsPyWhitespace(r[0]) && !IsPyWhitespace(r[|r| - 1])
    ensures r == [] <==> forall i :: 0 <= i < |s| ==> IsPyWhitespace(s[i])
  {
    var lead := LeadingSpace(s);
    if lead == |s| then []
    else
      var trail := TrailingSpace(s);
      assert trail < |s| - lead by {
        assert !IsPyWhitespace(s[lead]);
      }
      s[lead .. |s| - trail]
  }

  /** A string that neither starts nor ends with whitespace is its own strip. */
  lemma StripTrimmed(s: string)
    requires |s| > 0 ==> !IsPyWhitespace(s[0]) && !IsPyWhitespace(s[|s| - 1])
    ensures Strip(s) == s
  {
    if |s| > 0 {
      assert LeadingSpace(s) == 0;
      assert TrailingSpace(s) == 0;
    }
  }

  lemma StripIdempotent(s: string)
    ensures Strip(Strip(s)) == Strip(s)
  {
    StripTrimmed(Strip(s));
  }

  // ---------------------------------------------------------------------
  // JavaScript's replace(/\s+/g, "")

  /** `s.replace(/\s+/g, "")`: `s` with every `\s` character deleted. */
  function RemoveWhitespace(s: string): (r: string)
    ensures |r| <= |s|
    ensures forall i :: 0 <= i < |r| ==> !IsJsWhitespace(r[i])
    ensures forall c :: c in r <==> c in s && !IsJsWhitespace(c)
  {
    if |s| == 0 then []
    else if IsJsWhitespace(s[0]) then RemoveWhitespace(s[1..])
    else [s[0]] + RemoveWhitespace(s[1..])
  }

  /** Deleting whitespace works piecewise: it distributes over concatenation,
      so it keeps the other characters in their original order. */
  lemma {:induction false} RemoveWhitespaceAppend(a: string, b: string)
    ensures RemoveWhitespace(a + b) == RemoveWhitespace(a) + RemoveWhitespace(b)
  {
    if |a| == 0 {
      assert a + b == b;
    } else {
      assert (a + b)[0] == a[0];
      assert (a + b)[1..] == a[1..] + b;
      RemoveWhitespaceAppend(a[1..], b);
    }
  }

  /** A string without whitespace is left as it is. */
  lemma {:induction false} RemoveWhitespaceNone(s: string)
    requires forall i :: 0 <= i < |s| ==> !IsJsWhitespace(s[i])
    ensures RemoveWhitespace(s) == s
  {
    if |s| > 0 {
      RemoveWhitespaceNone(s[1..]);
    }
  }

  /** The id stem both simulator scripts derive from a mode:
      `mode.toLowerCase().replace(/\s+/g, "")`. */
  function Slug(mode: string): (r: string)
    ensures forall i :: 0 <= i < |r| ==> !IsJsWhitespace(r[i]) && !('A' <= r[i] <= 'Z')
  {
    RemoveWhitespace(Lower(mode))
  }

  /** A mode without whitespace slugs to its lower-case form. */
  lemma SlugWithoutWhitespace(mode: string)
    requires forall i :: 0 <= i < |mode| ==> !IsJsWhitespace(mode[i])
    ensures Slug(mode) == Lower(mode)
  {
    var low := Lower(mode);
    forall i | 0 <= i < |low|
      ensures !IsJsWhitespace(low[i])
    {
      LowerCharKeepsClass(mode[i]);
    }
    RemoveWhitespaceNone(low);
  }

  // ---------------------------------------------------------------------
  // Decimal numbers

  function DigitChar(d: nat): (c: char)
    requires d < 10
    ensures IsDigit(c) && c as int - '0' as int == d
  {
    ('0' as int + d) as char
  }

  /** The decimal rendering of `n`, as a JavaScript template literal prints a
      non-negative integer: digits only, no leading zero. */
  function NatToString(n: nat): (s: string)
    ensures |s| > 0
    ensures forall i :: 0 <= i < |s| ==> IsDigit(s[i])
    ensures s[0] == '0' ==> n == 0
    decreases n
  {
    if n < 10 then [DigitChar(n)] else NatToString(n / 10) + [DigitChar(n % 10)]
  }

  /** The value of a string of decimal digits. */
  function DigitsValue(s: string): nat
    requires forall i :: 0 <= i < |s| ==> IsDigit(s[i])
  {
    if |s| == 0 then 0
    else
      assert IsDigit(s[|s| - 1]);
      DigitsValue(s[..|s| - 1]) * 10 + (s[|s| - 1] as int - '0' as int)
  }

  /** Reads a non-empty run of decimal digits; anything else is rejected. */
  function ParseNat(s: string): (r: Option<nat>)
    ensures r.Some? <==> |s| > 0 && forall i :: 0 <= i < |s| ==> IsDigit(s[i])
  {
    if |s| > 0 && forall i :: 0 <= i < |s| ==> IsDigit(s[i]) then Some(DigitsValue(s)) else None
  }

  lemma {:induction false} ParseNatToString(n: nat)
    ensures ParseNat(NatToString(n)) == Some(n)
    decreases n
  {
    var s := NatToString(n);
    if n >= 10 {
      ParseNatToString(n / 10);
      assert s[..|s| - 1] == NatToString(n / 10);
      assert DigitsValue(s) == (n / 10) * 10 + n % 10;
    }
  }

  /** Distinct numbers print differently. */
  lemma NatToStringInjective(m: nat, n: nat)
    requires NatToString(m) == NatToString(n)
    ensures m == n
  {
    ParseNatToString(m);
    ParseNatToString(n);
  }

  // ---------------------------------------------------------------------
  // Splitting an id at its last separator

  /** Splits `s` at the last occurrence of `sep` into the part before and the
      part after it; `None` when `sep` does not occur. */
  function SplitLast(s: string, sep: char): (r: Option<(string, string)>)
    ensures r.None? <==> sep !in s
    ensures r.Some? ==> s == r.value.0 + [sep] + r.value.1 && sep !in r.value.1
  {
    if |s| == 0 then None
    else if s[|s| - 1] == sep then
      assert s == s[..|s| - 1] + [sep] + [];
      Some((s[..|s| - 1], []))
    else
      match SplitLast(s[..|s| - 1], sep)
      case None =>
        assert sep !in s by {
          assert s == s[..|s| - 1] + [s[|s| - 1]];
        }
        None
      case Some((a, b)) =>
        assert s == a + [sep] + (b + [s[|s| - 1]]) by {
          assert s == s[..|s| - 1] + [s[|s| - 1]];
        }
        Some((a, b + [s[|s| - 1]]))
  }

  /** Splitting `a + [sep] + b` at its last `sep` gives back `a` and `b`
      whenever `b` is free of `sep`. */
  lemma {:induction false} SplitLastJoin(a: string, sep: char, b: string)
    requires sep !in b
    ensures SplitLast(a + [sep] + b, sep) == Some((a, b))
    decreases |b|
  {
    var s := a + [sep] + b;
    if |b| == 0 {
      assert s[..|s| - 1] == a;
    } else {
      var b' := b[..|b| - 1];
      assert s[..|s| - 1] == a + [sep] + b';
      assert sep !in b' by {
        assert b == b' + [b[|b| - 1]];
      }
      SplitLastJoin(a, sep, b');
      assert b' + [s[|s| - 1]] == b;
    }
  }

  /** A decimal rendering never contains the id separator `_`. */
  lemma NoUnderscoreInNumber(n: nat)
    ensures '_' !in NatToString(n)
  {
  }
}
