/** The JavaScript string primitives the app relies on: the whitespace set of
    `String.prototype.trim` and of the regular-expression class `\s`,
    trimming, `replace(/\s+/g, '_')`, and decimal formatting of numbers with
    `padStart(2, '0')`. */
module Text {

  /** ECMAScript WhiteSpace and LineTerminator code points (ECMA-262,
      sections 12.2 and 12.3): what `trim` strips and `\s` matches. */
  predicate IsWhitespace(c: char) {
    || (c <= ' ' && (c == ' ' || '\t' <= c <= '\r'))
    || ('\U{00A0}' <= c
        && (|| c == '\U{00A0}' || c == '\U{1680}' || ('\U{2000}' <= c <= '\U{200A}')
            || c == '\U{2028}' || c == '\U{2029}' || c == '\U{202F}' || c == '\U{205F}'
            || c == '\U{3000}' || c == '\U{FEFF}'))
  }

  /** Every character of `s` is whitespace (vacuously true of ""). */
  predicate AllWhitespace(s: string) {
    forall i :: 0 <= i < |s| ==> IsWhitespace(s[i])
  }

  predicate NoWhitespace(s: string) {
    forall i :: 0 <= i < |s| ==> !IsWhitespace(s[i])
  }

  lemma NoWhitespaceAppend(a: string, b: string)
    requires NoWhitespace(a) && NoWhitespace(b)
    ensures NoWhitespace(a + b)
  {
    forall i | 0 <= i < |a + b|
      ensures !IsWhitespace((a + b)[i])
    {
      if i >= |a| {
        assert (a + b)[i] == b[i - |a|];
      }
    }
  }

  /** Visible ASCII characters ('!' to '~') are never whitespace. */
  lemma VisibleAsciiHasNoWhitespace(s: string)
    requires forall i :: 0 <= i < |s| ==> '!' <= s[i] <= '~'
    ensures NoWhitespace(s)
  {
  }

  /** Neither end of `s` is whitespace. */
  predicate IsTrimmed(s: string) {
    |s| > 0 ==> !IsWhitespace(s[0]) && !IsWhitespace(s[|s| - 1])
  }

  /** `s` with its leading whitespace run removed. */
  function TrimStart(s: string): (r: string)
    ensures |r| <= |s| && r == s[|s| - |r|..]
    ensures AllWhitespace(s[..|s| - |r|])
    ensures |r| > 0 ==> !IsWhitespace(r[0])
    ensures |s| > 0 && IsWhitespace(s[0]) ==> |r| < |s|
  {
    if |s| > 0 && IsWhitespace(s[0]) then
      var r := TrimStart(s[1..]);
      assert r == s[|s| - |r|..];
      assert s[..|s| - |r|] == [s[0]] + s[1..][..|s| - 1 - |r|];
      r
    else s
  }

  /** `s` with its trailing whitespace run removed. */
  function TrimEnd(s: string): (r: string)
    ensures |r| <= |s| && r == s[..|r|]
    ensures AllWhitespace(s[|r|..])
    ensures |r| > 0 ==> !IsWhitespace(r[|r| - 1])
  {
    if |s| > 0 && IsWhitespace(s[|s| - 1]) then TrimEnd(s[..|s| - 1]) else s
  }

  /** `String.prototype.trim`: the input with its leading and trailing
      whitespace runs cut off, and nothing else changed. */
  function Trim(s: string): (r: string)
    ensures IsTrimmed(r)
    ensures r == [] <==> AllWhitespace(s)
    ensures |r| <= |s|
  {
    TrimBlank(s);
    TrimEnd(TrimStart(s))
  }

  /** What `trim` keeps: a contiguous piece of the input with only
      whitespace before and after it. */
  lemma TrimIsInfix(s: string)
    ensures var r := Trim(s);
            exists i :: 0 <= i <= |s| - |r| && r == s[i..i + |r|]
                        && AllWhitespace(s[..i]) && AllWhitespace(s[i + |r|..])
  {
    TrimInfix(s, TrimStart(s), Trim(s));
  }

  /** A prefix `r` of a suffix `t` of `s`, both cut at whitespace runs,
      sits inside `s` between two whitespace runs. */
  lemma TrimInfix(s: string, t: string, r: string)
    requires |t| <= |s| && t == s[|s| - |t|..] && AllWhitespace(s[..|s| - |t|])
    requires |r| <= |t| && r == t[..|r|] && AllWhitespace(t[|r|..])
    ensures exists i :: 0 <= i <= |s| - |r| && r == s[i..i + |r|]
                        && AllWhitespace(s[..i]) && AllWhitespace(s[i + |r|..])
  {
    var i := |s| - |t|;
    assert s[i + |r|..] == t[|r|..];
    assert r == s[i..i + |r|];
  }

  lemma TrimBlank(s: string)
    ensures IsTrimmed(TrimEnd(TrimStart(s)))
    ensures TrimEnd(TrimStart(s)) == [] <==> AllWhitespace(s)
  {
    var t := TrimStart(s);
    TrimStartBlank(s);
    if |t| > 0 {
      assert TrimEnd(t)[0] == t[0];
    }
  }

  lemma {:induction false} TrimStartBlank(s: string)
    ensures TrimStart(s) == [] <==> AllWhitespace(s)
  {
    if |s| > 0 && IsWhitespace(s[0]) {
      TrimStartBlank(s[1..]);
      assert AllWhitespace(s) <==> AllWhitespace(s[1..]) by {
        assert forall i :: 0 < i < |s| ==> s[i] == s[1..][i - 1];
      }
    }
  }

  /** Trimming twice is trimming once, and a string with no whitespace at
      either end is its own trim. */
  lemma TrimFixesTrimmed(s: string)
    requires IsTrimmed(s)
    ensures Trim(s) == s
  {
  }

  lemma TrimIdempotent(s: string)
    ensures Trim(Trim(s)) == Trim(s)
  {
    TrimFixesTrimmed(Trim(s));
  }

  /** `s.replace(/\s+/g, '_')`: every maximal whitespace run becomes one '_'. */
  function UnderscoreWhitespaceRuns(s: string): (r: string)
    ensures NoWhitespace(r)
    ensures |r| <= |s|
    decreases |s|
  {
    if |s| == 0 then []
    else if IsWhitespace(s[0]) then ['_'] + UnderscoreWhitespaceRuns(TrimStart(s))
    else [s[0]] + UnderscoreWhitespaceRuns(s[1..])
  }

  /** The characters that are neither whitespace nor '_', in order. */
  function Letters(s: string): (r: string)
    ensures |r| <= |s|
  {
    if |s| == 0 then []
    else (if IsWhitespace(s[0]) || s[0] == '_' then [] else [s[0]]) + Letters(s[1..])
  }

  lemma LettersOfWhitespace(s: string)
    requires AllWhitespace(s)
    ensures Letters(s) == []
  {
  }

  lemma LettersAppend(a: string, b: string)
    ensures Letters(a + b) == Letters(a) + Letters(b)
  {
    if |a| > 0 {
      assert (a + b)[0] == a[0];
      assert (a + b)[1..] == a[1..] + b;
      LettersAppend(a[1..], b);
    } else {
      assert a + b == b;
    }
  }

  /** Replacing whitespace runs keeps every other character, in order. */
  lemma {:induction false} UnderscoreKeepsLetters(s: string)
    ensures Letters(UnderscoreWhitespaceRuns(s)) == Letters(s)
    decreases |s|
  {
    if |s| == 0 {
    } else if IsWhitespace(s[0]) {
      var t := TrimStart(s);
      UnderscoreKeepsLetters(t);
      LettersAppend(['_'], UnderscoreWhitespaceRuns(t));
      assert s == s[..|s| - |t|] + t;
      LettersAppend(s[..|s| - |t|], t);
      LettersOfWhitespace(s[..|s| - |t|]);
    } else {
      UnderscoreKeepsLetters(s[1..]);
      LettersAppend([s[0]], UnderscoreWhitespaceRuns(s[1..]));
      assert s == [s[0]] + s[1..];
      LettersAppend([s[0]], s[1..]);
    }
  }

  /** A string without whitespace is left unchanged. */
  lemma {:induction false} UnderscoreFixesWordString(s: string)
    requires NoWhitespace(s)
    ensures UnderscoreWhitespaceRuns(s) == s
    decreases |s|
  {
    if |s| > 0 {
      UnderscoreFixesWordString(s[1..]);
    }
  }

  /** Stripping a whitespace run that stops at a non-whitespace character
      leaves exactly what follows the run. */
  lemma {:induction false} TrimStartRun(w: string, b: string)
    requires AllWhitespace(w) && (b == [] || !IsWhitespace(b[0]))
    ensures TrimStart(w + b) == b
    decreases |w|
  {
    if |w| == 0 {
      assert w + b == b;
    } else {
      assert (w + b)[0] == w[0];
      assert (w + b)[1..] == w[1..] + b;
      TrimStartRun(w[1..], b);
    }
  }

  /** Leading whitespace of a string that ends in a non-whitespace character
      is stripped without reaching what is appended after it. */
  lemma {:induction false} TrimStartAppend(a: string, c: string)
    requires |a| > 0 && !IsWhitespace(a[|a| - 1])
    ensures TrimStart(a + c) == TrimStart(a) + c
    decreases |a|
  {
    assert (a + c)[0] == a[0];
    if IsWhitespace(a[0]) {
      assert (a + c)[1..] == a[1..] + c;
      TrimStartAppend(a[1..], c);
    }
  }

  /** The replacement law: a maximal whitespace run between two pieces
      becomes exactly one '_', and each piece is replaced on its own. */
  lemma {:induction false} UnderscoreRun(a: string, w: string, b: string)
    requires |w| > 0 && AllWhitespace(w)
    requires |a| == 0 || !IsWhitespace(a[|a| - 1])
    requires |b| == 0 || !IsWhitespace(b[0])
    ensures UnderscoreWhitespaceRuns(a + w + b)
         == UnderscoreWhitespaceRuns(a) + "_" + UnderscoreWhitespaceRuns(b)
    decreases |a|, 1
  {
    if |a| == 0 {
      var s := a + w + b;
      assert s == w + b;
      assert s[0] == w[0];
      TrimStartRun(w, b);
    } else if IsWhitespace(a[0]) {
      UnderscoreRunBlankHead(a, w, b);
    } else {
      UnderscoreRunWordHead(a, w, b);
    }
  }

  lemma {:induction false} UnderscoreRunBlankHead(a: string, w: string, b: string)
    requires |w| > 0 && AllWhitespace(w)
    requires |a| > 0 && IsWhitespace(a[0]) && !IsWhitespace(a[|a| - 1])
    requires |b| == 0 || !IsWhitespace(b[0])
    ensures UnderscoreWhitespaceRuns(a + w + b)
         == UnderscoreWhitespaceRuns(a) + "_" + UnderscoreWhitespaceRuns(b)
    decreases |a|, 0
  {
    var a' := TrimStart(a);
    TrimStartKeepsLast(a);
    TrimStartAppend(a, w + b);
    assert a + (w + b) == a + w + b && a' + (w + b) == a' + w + b;
    UnderscoreBlankStep(a + w + b, a' + w + b);
    UnderscoreBlankStep(a, a');
    UnderscoreRun(a', w, b);
    ConcatRegroup("_", UnderscoreWhitespaceRuns(a'), UnderscoreWhitespaceRuns(b));
  }

  lemma ConcatRegroup(h: string, x: string, y: string)
    ensures h + (x + "_" + y) == (h + x) + "_" + y
  {
  }

  /** A string that ends in a non-whitespace character keeps that character
      after its leading whitespace is stripped. */
  lemma TrimStartKeepsLast(a: string)
    requires |a| > 0 && !IsWhitespace(a[|a| - 1])
    ensures |TrimStart(a)| > 0 && TrimStart(a)[|TrimStart(a)| - 1] == a[|a| - 1]
    ensures |TrimStart(a)| < |a| || TrimStart(a) == a
  {
    var t := TrimStart(a);
    assert t == a[|a| - |t|..];
  }

  /** One unfolding of the replacement at a whitespace character. */
  lemma UnderscoreBlankStep(s: string, rest: string)
    requires |s| > 0 && IsWhitespace(s[0]) && TrimStart(s) == rest
    ensures UnderscoreWhitespaceRuns(s) == "_" + UnderscoreWhitespaceRuns(rest)
  {
  }

  lemma {:induction false} UnderscoreRunWordHead(a: string, w: string, b: string)
    requires |w| > 0 && AllWhitespace(w)
    requires |a| > 0 && !IsWhitespace(a[0]) && !IsWhitespace(a[|a| - 1])
    requires |b| == 0 || !IsWhitespace(b[0])
    ensures UnderscoreWhitespaceRuns(a + w + b)
         == UnderscoreWhitespaceRuns(a) + "_" + UnderscoreWhitespaceRuns(b)
    decreases |a|, 0
  {
    var s := a + w + b;
    assert s[0] == a[0];
    assert s[1..] == a[1..] + w + b;
    assert |a[1..]| == 0 || a[1..][|a[1..]| - 1] == a[|a| - 1];
    UnderscoreWordStep(s);
    UnderscoreWordStep(a);
    UnderscoreRun(a[1..], w, b);
    ConcatRegroup([a[0]], UnderscoreWhitespaceRuns(a[1..]), UnderscoreWhitespaceRuns(b));
  }

  /** One unfolding of the replacement at a non-whitespace character. */
  lemma UnderscoreWordStep(s: string)
    requires |s| > 0 && !IsWhitespace(s[0])
    ensures UnderscoreWhitespaceRuns(s) == [s[0]] + UnderscoreWhitespaceRuns(s[1..])
  {
  }

  // ----- split -----

  predicate Lacks(s: string, c: char) {
    forall i :: 0 <= i < |s| ==> s[i] != c
  }

  /** `s.split(sep)` for a one-character separator: the pieces between
      separators, always at least one. */
  function Split(s: string, sep: char): (r: seq<string>)
    ensures |r| >= 1
    ensures |r| > 1 <==> !Lacks(s, sep)
    ensures forall k :: 0 <= k < |r| ==> Lacks(r[k], sep)
  {
    if |s| == 0 then [""]
    else
      var rest := Split(s[1..], sep);
      if s[0] == sep then [""] + rest else [[s[0]] + rest[0]] + rest[1..]
  }

  /** A piece without the separator followed by the separator splits off as
      the first field. */
  lemma {:induction false} SplitAfterField(a: string, sep: char, b: string)
    requires Lacks(a, sep)
    ensures Split(a + [sep] + b, sep) == [a] + Split(b, sep)
  {
    if |a| == 0 {
      assert a + [sep] + b == [sep] + b;
      assert ([sep] + b)[1..] == b;
    } else {
      assert (a + [sep] + b)[1..] == a[1..] + [sep] + b;
      SplitAfterField(a[1..], sep, b);
      assert a == [a[0]] + a[1..];
    }
  }

  /** Joining the pieces with the separator gives back the input. */
  function Join(pieces: seq<string>, sep: char): string
    requires |pieces| >= 1
  {
    if |pieces| == 1 then pieces[0] else pieces[0] + [sep] + Join(pieces[1..], sep)
  }

  lemma {:induction false} SplitJoin(s: string, sep: char)
    ensures Join(Split(s, sep), sep) == s
  {
    if |s| > 0 {
      SplitJoin(s[1..], sep);
      var rest := Split(s[1..], sep);
      if s[0] == sep {
        assert Split(s, sep)[1..] == rest;
      } else if |rest| == 1 {
        assert s == [s[0]] + s[1..];
      } else {
        assert rest == [rest[0]] + rest[1..];
        assert Join(Split(s, sep), sep) == [s[0]] + (rest[0] + [sep] + Join(rest[1..], sep));
        assert s == [s[0]] + s[1..];
      }
    }
  }

  lemma {:induction false} SplitWithoutSeparator(a: string, sep: char)
    requires Lacks(a, sep)
    ensures Split(a, sep) == [a]
  {
    if |a| > 0 {
      SplitWithoutSeparator(a[1..], sep);
      assert a == [a[0]] + a[1..];
    }
  }

  // ----- decimal numbers -----

  function DigitChar(d: nat): (c: char)
    requires d < 10
    ensures '0' <= c <= '9'
  {
    ('0' as int + d) as char
  }

  function DigitValue(c: char): (d: nat)
    requires '0' <= c <= '9'
    ensures d < 10 && DigitChar(d) == c
    ensures forall k :: 0 <= k < 10 && DigitChar(k) == c ==> k == d
  {
    (c as int - '0' as int) as nat
  }

  predicate IsDigits(s: string) {
    forall i :: 0 <= i < |s| ==> '0' <= s[i] <= '9'
  }

  /** `String(n)` for a non-negative integer: shortest decimal form. */
  function NatToString(n: nat): (r: string)
    ensures |r| > 0 && IsDigits(r)
    ensures |r| == 1 <==> n < 10
  {
    if n < 10 then [DigitChar(n)] else NatToString(n / 10) + [DigitChar(n % 10)]
  }

  /** The value of a string of decimal digits (leading zeros allowed). */
  function DigitsValue(s: string): nat
    requires IsDigits(s)
  {
    if |s| == 0 then 0 else DigitsValue(s[..|s| - 1]) * 10 + DigitValue(s[|s| - 1])
  }

  /** Decimal formatting is inverted by reading the digits back. */
  lemma {:induction false} NatToStringRoundTrip(n: nat)
    ensures DigitsValue(NatToString(n)) == n
  {
    if n >= 10 {
      NatToStringRoundTrip(n / 10);
      var s := NatToString(n);
      assert s[..|s| - 1] == NatToString(n / 10);
      assert s[|s| - 1] == DigitChar(n % 10);
      assert DigitValue(s[|s| - 1]) == n % 10;
    }
  }

  /** `String(n).padStart(2, '0')`. */
  function Pad2(n: nat): (r: string)
    ensures IsDigits(r) && |r| >= 2
    ensures n < 100 ==> |r| == 2
    ensures DigitsValue(r) == n
  {
    NatToStringRoundTrip(n);
    if n < 10 then
      assert DigitsValue("0" + NatToString(n)) == n by {
        assert ("0" + NatToString(n))[..1] == "0";
      }
      "0" + NatToString(n)
    else NatToString(n)
  }
}
