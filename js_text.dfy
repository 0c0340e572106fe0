/**
 * The string primitives the quiz application relies on, with the semantics of
 * the JavaScript (and, for `split` and `replace`, Python) built-ins:
 * `parseInt` without a radix, integer-to-string conversion, splitting on one
 * separator character, `String.prototype.replace` with a one-character
 * pattern (first occurrence only), Python's `str.replace` (every occurrence)
 * and ASCII upper-casing.
 */
module JsText {
  import opened Wrappers

  // ---------------------------------------------------------------------------
  // parseInt(string) with no radix argument (ECMAScript, section "parseInt")
  // ---------------------------------------------------------------------------

  /** ECMAScript StrWhiteSpaceChar: the WhiteSpace and LineTerminator code points. */
  predicate IsJsWhiteSpace(c: char)
  {
    c == '\t' || c == '\n' || c == '\U{000B}' || c == '\U{000C}' || c == '\r'
    || c == ' ' || c == '\U{00A0}' || c == '\U{1680}' || ('\U{2000}' <= c <= '\U{200A}')
    || c == '\U{2028}' || c == '\U{2029}' || c == '\U{202F}' || c == '\U{205F}'
    || c == '\U{3000}' || c == '\U{FEFF}'
  }

  /** Drops the leading white space, as `parseInt` does before reading a sign. */
  function TrimStart(s: string): (r: string)
    ensures |r| <= |s| && r == s[|s| - |r|..]
    ensures r == [] || !IsJsWhiteSpace(r[0])
    ensures forall k :: 0 <= k < |s| - |r| ==> IsJsWhiteSpace(s[k])
  {
    if s != [] && IsJsWhiteSpace(s[0]) then TrimStart(s[1..]) else s
  }

  /** The value of `c` as a digit of radix 36 (0-9, then a-z or A-Z); 36 if it is none. */
  function DigitValue(c: char): (d: nat)
    ensures d <= 36
    ensures d < 10 <==> '0' <= c <= '9'
  {
    if '0' <= c <= '9' then c as int - '0' as int
    else if 'a' <= c <= 'z' then c as int - 'a' as int + 10
    else if 'A' <= c <= 'Z' then c as int - 'A' as int + 10
    else 36
  }

  predicate IsDecimalDigit(c: char) { '0' <= c <= '9' }

  /** The longest prefix of `s` made of digits of the given radix. */
  function LeadingDigits(s: string, radix: nat): (z: string)
    ensures |z| <= |s| && z == s[..|z|]
    ensures forall k :: 0 <= k < |z| ==> DigitValue(z[k]) < radix
    ensures |z| < |s| ==> DigitValue(s[|z|]) >= radix
  {
    if s != [] && DigitValue(s[0]) < radix then [s[0]] + LeadingDigits(s[1..], radix) else []
  }

  /** The value of a digit string read most significant digit first. */
  function DigitsValue(z: string, radix: nat): nat
  {
    if z == [] then 0 else DigitsValue(z[..|z| - 1], radix) * radix + DigitValue(z[|z| - 1])
  }

  /**
   * The unsigned part of `parseInt`: a `0x`/`0X` prefix switches to radix 16,
   * then the longest run of digits is read; no digit at all gives NaN (None).
   */
  function ParseUnsigned(u: string): Option<nat>
  {
    var hex := |u| >= 2 && u[0] == '0' && (u[1] == 'x' || u[1] == 'X');
    var radix := if hex then 16 else 10;
    var z := LeadingDigits(if hex then u[2..] else u, radix);
    if z == [] then None else Some(DigitsValue(z, radix))
  }

  /**
   * JavaScript `parseInt(s)`: skip leading white space, take an optional sign,
   * then read the unsigned part. Trailing text is ignored, so "2x" gives 2 and
   * "results" gives NaN (None).
   */
  function ParseInt(input: string): (r: Option<int>)
    ensures TrimStart(input) == [] ==> r.None?
    ensures r.Some? && r.value < 0 ==> |TrimStart(input)| > 0 && TrimStart(input)[0] == '-'
  {
    ParseTrimmed(TrimStart(input))
  }

  /** `parseInt` once the white space is skipped: an optional sign, then the unsigned part. */
  function ParseTrimmed(s: string): (r: Option<int>)
    ensures s == [] ==> r.None?
    ensures r.Some? && r.value < 0 ==> |s| > 0 && s[0] == '-'
  {
    var signed := s != [] && (s[0] == '-' || s[0] == '+');
    match ParseUnsigned(if signed then s[1..] else s)
    case None => None
    case Some(v) => Some(if s != [] && s[0] == '-' then 0 - v else v)
  }

  // ---------------------------------------------------------------------------
  // Number to string, for the integers the application writes into URLs
  // ---------------------------------------------------------------------------

  function DigitChar(d: nat): (c: char)
    requires d < 10
    ensures IsDecimalDigit(c) && DigitValue(c) == d
  {
    ('0' as int + d) as char
  }

  /** The decimal spelling of `n`, without leading zeros. */
  function NatToDecimal(n: nat): (s: string)
    ensures |s| >= 1
    ensures forall k :: 0 <= k < |s| ==> IsDecimalDigit(s[k])
  {
    if n < 10 then [DigitChar(n)] else NatToDecimal(n / 10) + [DigitChar(n % 10)]
  }

  /** JavaScript's `String(n)` (or a template literal) for an integer-valued number. */
  function NumberToString(n: int): string
  {
    if n < 0 then "-" + NatToDecimal(-n) else NatToDecimal(n)
  }

  lemma AllDigitsAreLeading(s: string)
    requires forall k :: 0 <= k < |s| ==> IsDecimalDigit(s[k])
    ensures LeadingDigits(s, 10) == s
  {
  }

  lemma {:induction false} DecimalValue(n: nat)
    ensures DigitsValue(NatToDecimal(n), 10) == n
  {
    if n >= 10 {
      DecimalValue(n / 10);
      var s := NatToDecimal(n);
      assert s[..|s| - 1] == NatToDecimal(n / 10);
    }
  }

  lemma ParseUnsignedOfDecimal(n: nat)
    ensures ParseUnsigned(NatToDecimal(n)) == Some(n)
  {
    var d := NatToDecimal(n);
    AllDigitsAreLeading(d);
    DecimalValue(n);
    assert !(|d| >= 2 && d[0] == '0' && (d[1] == 'x' || d[1] == 'X')) by {
      assert |d| >= 2 ==> IsDecimalDigit(d[1]);
    }
  }

  /** Reading back what NumberToString wrote gives the same integer. */
  lemma ParseIntOfNumberToString(n: int)
    ensures ParseInt(NumberToString(n)) == Some(n)
  {
    var m := if n < 0 then -n else n;
    var d := NatToDecimal(m);
    ParseUnsignedOfDecimal(m);
    var s := NumberToString(n);
    assert IsDecimalDigit(d[0]);
    assert s[0] == '-' || s[0] == d[0];
    assert !IsJsWhiteSpace(s[0]);
    assert TrimStart(s) == s;
    if n < 0 {
      assert s[1..] == d;
    }
  }

  /** White space in front of a non-blank string is dropped entirely. */
  lemma {:induction false} TrimStartOfWhiteSpace(w: string, s: string)
    requires forall k :: 0 <= k < |w| ==> IsJsWhiteSpace(w[k])
    requires s == [] || !IsJsWhiteSpace(s[0])
    ensures TrimStart(w + s) == s
  {
    if w != [] {
      assert (w + s)[0] == w[0];
      assert (w + s)[1..] == w[1..] + s;
      TrimStartOfWhiteSpace(w[1..], s);
    } else {
      assert w + s == s;
    }
  }

  /** `parseInt` ignores the white space in front of the number. */
  lemma ParseIntSkipsWhiteSpace(w: string, s: string)
    requires forall k :: 0 <= k < |w| ==> IsJsWhiteSpace(w[k])
    requires s == [] || !IsJsWhiteSpace(s[0])
    ensures ParseInt(w + s) == ParseInt(s)
  {
    TrimStartOfWhiteSpace(w, s);
    TrimStartOfWhiteSpace([], s);
    assert [] + s == s;
    assert ParseInt(w + s) == ParseTrimmed(s);
  }

  /** The leading decimal digits of `d + t` are `d` when `t` does not start with a digit. */
  lemma {:induction false} LeadingDigitsOfDigits(d: string, t: string)
    requires forall k :: 0 <= k < |d| ==> IsDecimalDigit(d[k])
    requires t == [] || !IsDecimalDigit(t[0])
    ensures LeadingDigits(d + t, 10) == d
  {
    if d != [] {
      assert (d + t)[0] == d[0];
      assert (d + t)[1..] == d[1..] + t;
      LeadingDigitsOfDigits(d[1..], t);
    } else {
      assert d + t == t;
    }
  }

  /** The unsigned part of a run of decimal digits followed by a non-digit is read in base 10. */
  lemma ParseUnsignedOfDecimalPrefix(d: string, t: string)
    requires d != [] && forall k :: 0 <= k < |d| ==> IsDecimalDigit(d[k])
    requires t == [] || !IsDecimalDigit(t[0])
    requires !(d == "0" && t != [] && (t[0] == 'x' || t[0] == 'X'))
    ensures ParseUnsigned(d + t) == Some(DigitsValue(d, 10))
  {
    var u := d + t;
    LeadingDigitsOfDigits(d, t);
    assert !(|u| >= 2 && u[0] == '0' && (u[1] == 'x' || u[1] == 'X')) by {
      assert u[0] == d[0];
      if |d| >= 2 {
        assert u[1] == d[1];
      } else if |u| >= 2 {
        assert d == [d[0]];
        assert u[1] == t[0];
      }
    }
  }

  /**
   * `parseInt` of a run of decimal digits followed by anything that is not a digit
   * (and does not make a `0x` prefix) is the value of those digits.
   */
  lemma ParseIntOfDecimalPrefix(d: string, t: string)
    requires d != [] && forall k :: 0 <= k < |d| ==> IsDecimalDigit(d[k])
    requires t == [] || !IsDecimalDigit(t[0])
    requires !(d == "0" && t != [] && (t[0] == 'x' || t[0] == 'X'))
    ensures ParseInt(d + t) == Some(DigitsValue(d, 10))
  {
    ParseUnsignedOfDecimalPrefix(d, t);
    StartsWithDigit(d, t);
    ParseIntOfDigitStart(d + t);
  }

  lemma StartsWithDigit(d: string, t: string)
    requires d != [] && IsDecimalDigit(d[0])
    ensures d + t != [] && IsDecimalDigit((d + t)[0])
  {
    assert (d + t)[0] == d[0];
  }

  /** A string that starts with a digit has neither white space nor a sign to skip. */
  lemma ParseIntOfDigitStart(u: string)
    requires u != [] && IsDecimalDigit(u[0]) && ParseUnsigned(u).Some?
    ensures ParseInt(u) == Some(ParseUnsigned(u).value as int)
  {
    ParseIntOfNonBlank(u);
    ParseTrimmedOfDigit(u);
  }

  /** A string that does not start with white space is parsed as it stands. */
  lemma ParseIntOfNonBlank(u: string)
    requires u != [] && !IsJsWhiteSpace(u[0])
    ensures ParseInt(u) == ParseTrimmed(u)
  {
  }

  lemma ParseTrimmedOfDigit(u: string)
    requires u != [] && IsDecimalDigit(u[0]) && ParseUnsigned(u).Some?
    ensures ParseTrimmed(u) == Some(ParseUnsigned(u).value as int)
  {
  }

  /** `parseInt` stops at the first character that is not a digit. */
  lemma ParseIntStopsAtNonDigit()
    ensures ParseInt("2x") == Some(2)
  {
    ParseIntOfDecimalPrefix("2", "x");
    assert "2" + "x" == "2x";
    assert "2"[..0] == "";
  }

  /** Without a leading digit `parseInt` gives NaN. */
  lemma ParseIntOfWord()
    ensures ParseInt("results") == None
  {
    ParseIntOfNonBlank("results");
  }

  /** A minus sign gives a negative number, which the `>= 0` checks then reject. */
  lemma ParseIntNegative()
    ensures ParseInt("-1") == Some(-1)
  {
    ParseIntOfNonBlank("-1");
    assert "-1"[1..] == "1";
    assert LeadingDigits("1", 10) == "1";
    assert "1"[..0] == "";
  }

  /** Without a radix argument, a `0x` prefix makes `parseInt` read hexadecimal digits. */
  lemma ParseIntHexPrefix()
    ensures ParseInt("0x1A") == Some(26)
  {
    HexDigitsOneA();
    assert "0x1A"[2..] == "1A";
    assert ParseUnsigned("0x1A") == Some(26);
    ParseIntOfDigitStart("0x1A");
  }

  lemma HexDigitsOneA()
    ensures LeadingDigits("1A", 16) == "1A" && DigitsValue("1A", 16) == 26
  {
    assert "1A"[1..] == "A" && "A"[1..] == [];
    assert "1A"[..1] == "1" && "1"[..0] == "";
  }

  // ---------------------------------------------------------------------------
  // split(sep) with a one-character separator, and its inverse join(sep)
  // ---------------------------------------------------------------------------

  /**
   * `s.split(sep)` in JavaScript, `s.split(sep)` in Python: the pieces between
   * separators, keeping empty ones; the empty string gives one empty piece.
   */
  function Split(s: string, sep: char): (parts: seq<string>)
    ensures |parts| >= 1
    ensures forall k :: 0 <= k < |parts| ==> sep !in parts[k]
  {
    if s == [] then [""]
    else
      var rest := Split(s[1..], sep);
      if s[0] == sep then [""] + rest
      else [[s[0]] + rest[0]] + rest[1..]
  }

  /** `parts.join(sep)`. */
  function Join(parts: seq<string>, sep: char): string
    requires |parts| >= 1
  {
    if |parts| == 1 then parts[0] else parts[0] + [sep] + Join(parts[1..], sep)
  }

  /** A piece free of the separator glues onto the first piece of what follows. */
  lemma {:induction false} SplitPrefix(a: string, t: string, sep: char)
    requires sep !in a
    ensures Split(a + t, sep) == [a + Split(t, sep)[0]] + Split(t, sep)[1..]
  {
    if a != [] {
      var st := Split(t, sep);
      SplitPrefix(a[1..], t, sep);
      assert (a + t)[1..] == a[1..] + t;
      var rest := Split(a[1..] + t, sep);
      assert rest[0] == a[1..] + st[0];
      assert rest[1..] == st[1..];
      assert a[0] in a && (a + t)[0] == a[0];
      assert Split(a + t, sep) == [[a[0]] + rest[0]] + rest[1..];
      assert [a[0]] + (a[1..] + st[0]) == a + st[0];
    } else {
      assert a + t == t;
      assert a + Split(t, sep)[0] == Split(t, sep)[0];
    }
  }

  /** Splitting what Join produced gives the pieces back. */
  lemma {:induction false} SplitJoin(parts: seq<string>, sep: char)
    requires |parts| >= 1
    requires forall k :: 0 <= k < |parts| ==> sep !in parts[k]
    ensures Split(Join(parts, sep), sep) == parts
  {
    if |parts| == 1 {
      SplitPrefix(parts[0], "", sep);
      assert parts[0] + "" == parts[0];
    } else {
      var rest := Join(parts[1..], sep);
      SplitJoin(parts[1..], sep);
      SplitPrefix(parts[0], [sep] + rest, sep);
      assert parts[0] + [sep] + rest == parts[0] + ([sep] + rest);
      assert ([sep] + rest)[1..] == rest;
      assert Split([sep] + rest, sep) == [""] + parts[1..];
      assert parts[0] + "" == parts[0];
      assert [parts[0]] + parts[1..] == parts;
    }
  }

  /** A separator followed by a separator-free piece adds that piece as the last one. */
  lemma {:induction false} SplitAppend(x: string, sep: char, name: string)
    requires sep !in name
    ensures Split(x + [sep] + name, sep) == Split(x, sep) + [name]
  {
    if x == [] {
      assert x + [sep] + name == [sep] + name;
      assert ([sep] + name)[1..] == name;
      SplitPrefix(name, "", sep);
      assert name + "" == name;
    } else {
      SplitAppend(x[1..], sep, name);
      assert (x + [sep] + name)[1..] == x[1..] + [sep] + name;
      assert (x + [sep] + name)[0] == x[0];
    }
  }

  /** Joining what Split produced gives the string back. */
  lemma {:induction false} JoinSplit(s: string, sep: char)
    ensures Join(Split(s, sep), sep) == s
  {
    if s != [] {
      JoinSplit(s[1..], sep);
      var rest := Split(s[1..], sep);
      if s[0] != sep {
        var parts := Split(s, sep);
        assert parts[1..] == rest[1..];
        if |rest| > 1 {
          assert rest[1..] == rest[1..][..];
        }
      }
    }
  }

  lemma NoDigitIsSeparator(n: int, sep: char)
    requires sep != '-' && !IsDecimalDigit(sep)
    ensures sep !in NumberToString(n)
  {
    var m := if n < 0 then -n else n;
    var d := NatToDecimal(m);
    assert forall k :: 0 <= k < |d| ==> IsDecimalDigit(d[k]);
  }

  // ---------------------------------------------------------------------------
  // replace
  // ---------------------------------------------------------------------------

  /** The first index of `c` in `s`, or |s| if there is none. */
  function IndexOf(s: string, c: char): (k: nat)
    ensures k <= |s|
    ensures k < |s| ==> s[k] == c
    ensures forall j :: 0 <= j < k ==> s[j] != c
  {
    if s == [] then 0 else if s[0] == c then 0 else 1 + IndexOf(s[1..], c)
  }

  /** JavaScript `s.replace(from, to)` with a one-character string pattern: the first occurrence only. */
  function ReplaceFirst(s: string, from: char, to: char): string
  {
    if s == [] then [] else if s[0] == from then [to] + s[1..] else [s[0]] + ReplaceFirst(s[1..], from, to)
  }

  /** Position by position, ReplaceFirst changes the first occurrence and nothing else. */
  lemma {:induction false} ReplaceFirstAt(s: string, from: char, to: char)
    ensures |ReplaceFirst(s, from, to)| == |s|
    ensures forall k :: 0 <= k < |s| ==>
      ReplaceFirst(s, from, to)[k] == if k == IndexOf(s, from) then to else s[k]
  {
    if s != [] && s[0] != from {
      ReplaceFirstAt(s[1..], from, to);
    }
  }

  /** Python `s.replace(pat, rep)`: every non-overlapping occurrence, scanning left to right. */
  function ReplaceAll(s: string, pat: string, rep: string): string
    requires pat != []
    decreases |s|
  {
    if |s| < |pat| then s
    else if s[..|pat|] == pat then rep + ReplaceAll(s[|pat|..], pat, rep)
    else [s[0]] + ReplaceAll(s[1..], pat, rep)
  }

  /** A prefix that holds no first character of the pattern is copied unchanged. */
  lemma {:induction false} ReplaceAllSkips(a: string, t: string, pat: string, rep: string)
    requires pat != [] && pat[0] !in a
    ensures ReplaceAll(a + t, pat, rep) == a + ReplaceAll(t, pat, rep)
    decreases |a|
  {
    if a != [] {
      var s := a + t;
      assert s[0] == a[0];
      ReplaceAllSkips(a[1..], t, pat, rep);
      assert s[1..] == a[1..] + t;
      if |s| >= |pat| {
        assert s[..|pat|][0] == a[0];
      } else {
        assert ReplaceAll(t, pat, rep) == t;
      }
    } else {
      assert a + t == t;
    }
  }

  /** A string that starts with the pattern has it replaced, and the rest is scanned on. */
  lemma ReplaceAllOfPatternFirst(pat: string, t: string, rep: string)
    requires pat != []
    ensures ReplaceAll(pat + t, pat, rep) == rep + ReplaceAll(t, pat, rep)
  {
    assert (pat + t)[..|pat|] == pat;
    assert (pat + t)[|pat|..] == t;
  }

  /**
   * In a string whose first occurrence of the pattern's first character starts the
   * pattern, that occurrence is replaced and the rest is scanned on.
   */
  lemma ReplaceAllAfterStem(stem: string, pat: string, rest: string, rep: string)
    requires pat != [] && pat[0] !in stem
    ensures ReplaceAll(stem + pat + rest, pat, rep) == stem + rep + ReplaceAll(rest, pat, rep)
  {
    assert stem + pat + rest == stem + (pat + rest);
    ReplaceAllSkips(stem, pat + rest, pat, rep);
    ReplaceAllOfPatternFirst(pat, rest, rep);
    assert stem + (rep + ReplaceAll(rest, pat, rep)) == stem + rep + ReplaceAll(rest, pat, rep);
  }

  /** A character in neither the input nor the replacement does not appear in the result. */
  lemma {:induction false} ReplaceAllAvoids(s: string, pat: string, rep: string, c: char)
    requires pat != [] && c !in s && c !in rep
    ensures c !in ReplaceAll(s, pat, rep)
    decreases |s|
  {
    if |s| >= |pat| {
      if s[..|pat|] == pat {
        ReplaceAllAvoids(s[|pat|..], pat, rep, c);
      } else {
        ReplaceAllAvoids(s[1..], pat, rep, c);
      }
    }
  }

  /** The upper-case form of an ASCII lower-case letter; every other character is kept. */
  function ToUpperAscii(c: char): (u: char)
    ensures 'a' <= c <= 'z' ==> 'A' <= u <= 'Z' && u as int == c as int - 32
    ensures !('a' <= c <= 'z') ==> u == c
  {
    if 'a' <= c <= 'z' then (c as int - 32) as char else c
  }
}
