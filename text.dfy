/**
  The JavaScript string operations the service relies on: `toUpperCase`,
  `trim`, `split(',')` followed by taking the last part, `length` in UTF-16
  code units, a case-insensitive literal regular-expression test, and the
  decimal rendering of a number in a template string.
*/
module Text {
  import opened Wrappers

  /** JavaScript truthiness of an optional string: present and not empty. */
  predicate Truthy(s: Option<string>) {
    s.Some? && s.value != ""
  }

  /**
    The upper case of one character when it is a single character, for the
    ASCII and Latin-1 letters: the comparison a regular expression with the
    `i` flag makes. It leaves ß alone, whose upper case is two characters.
  */
  function Upper(c: char): char {
    if 'a' <= c <= 'z' || ('\U{E0}' <= c <= '\U{FE}' && c != '\U{F7}') then
      (c as int - 32) as char
    else if c == '\U{FF}' then
      '\U{178}'
    else if c == '\U{B5}' then
      '\U{39C}'
    else
      c
  }

  /** `toUpperCase` of one character: ß becomes "SS", every other letter its upper case. */
  function UpperChar(c: char): (r: string)
    ensures c != '\U{DF}' ==> r == [Upper(c)]
    ensures c == '\U{DF}' ==> r == "SS"
  {
    if c == '\U{DF}' then "SS" else [Upper(c)]
  }

  /** `toUpperCase`: the upper case of each character, in order. */
  function UpperString(s: string): (r: string)
    ensures |r| >= |s|
    ensures '\U{DF}' !in s ==> |r| == |s| && forall i :: 0 <= i < |s| ==> r[i] == Upper(s[i])
    decreases |s|
  {
    if s == [] then [] else UpperChar(s[0]) + UpperString(s[1..])
  }

  /** Upper-casing a concatenation upper-cases each part. */
  lemma {:induction false} UpperStringAppend(a: string, b: string)
    ensures UpperString(a + b) == UpperString(a) + UpperString(b)
    decreases |a|
  {
    if a == [] {
      assert a + b == b;
    } else {
      assert (a + b)[0] == a[0] && (a + b)[1..] == a[1..] + b;
      UpperStringAppend(a[1..], b);
    }
  }

  /** The upper case of one character is already upper case. */
  lemma UpperCharStable(c: char)
    ensures UpperString(UpperChar(c)) == UpperChar(c)
  {
    if c == '\U{DF}' {
      assert UpperString("S") == "S";
      assert "SS" == "S" + "S";
      UpperStringAppend("S", "S");
    } else {
      assert Upper(c) != '\U{DF}';
      assert [Upper(c)][1..] == [];
    }
  }

  /** Upper-casing twice is upper-casing once. */
  lemma {:induction false} UpperStringIdempotent(s: string)
    ensures UpperString(UpperString(s)) == UpperString(s)
    decreases |s|
  {
    if s != [] {
      UpperStringAppend(UpperChar(s[0]), UpperString(s[1..]));
      UpperCharStable(s[0]);
      UpperStringIdempotent(s[1..]);
    }
  }

  /** Upper-case ASCII text is its own upper case. */
  lemma UpperOfUpperAscii(s: string)
    requires forall k :: 0 <= k < |s| ==> 'A' <= s[k] <= 'Z'
    ensures UpperString(s) == s
  {
    assert '\U{DF}' !in s;
    assert forall k :: 0 <= k < |s| ==> Upper(s[k]) == s[k];
  }

  /** `'ß'.toUpperCase()` is "SS": the upper case can be longer than the text. */
  lemma UpperSharpS()
    ensures UpperString("\U{DF}") == "SS"
    ensures |UpperString("a\U{DF}")| == 3
  {
    assert "\U{DF}"[1..] == [];
    assert "a\U{DF}"[1..] == "\U{DF}";
  }

  /**
    `String.prototype.length`: the number of UTF-16 code units, two for a
    character outside the Basic Multilingual Plane.
  */
  function Utf16Length(s: string): (n: nat)
    ensures |s| <= n <= 2 * |s|
    ensures (forall k :: 0 <= k < |s| ==> s[k] as int < 0x1_0000) ==> n == |s|
    ensures |s| == 1 ==> n == (if s[0] as int >= 0x1_0000 then 2 else 1)
    decreases |s|
  {
    if s == [] then 0 else (if s[0] as int >= 0x1_0000 then 2 else 1) + Utf16Length(s[1..])
  }

  /**
    The length of a concatenation is the sum of the lengths; with the
    one-character values of `Utf16Length` this fixes the length of any text.
  */
  lemma {:induction false} Utf16LengthAppend(a: string, b: string)
    ensures Utf16Length(a + b) == Utf16Length(a) + Utf16Length(b)
    decreases |a|
  {
    if a == [] {
      assert a + b == b;
    } else {
      assert (a + b)[0] == a[0];
      assert (a + b)[1..] == a[1..] + b;
      Utf16LengthAppend(a[1..], b);
    }
  }

  /** Text mixing both planes: one unit for the letter, two for the emoji. */
  lemma Utf16LengthMixed()
    ensures Utf16Length("a\U{1F600}") == 3
  {
    assert "a\U{1F600}" == "a" + "\U{1F600}";
    Utf16LengthAppend("a", "\U{1F600}");
  }

  /** An emoji counts twice. */
  lemma Utf16LengthAstral()
    ensures Utf16Length("\U{1F600}") == 2
  {
    assert "\U{1F600}"[1..] == [];
  }

  /** The characters `String.prototype.trim` removes: white space and line terminators. */
  predicate IsWhitespace(c: char) {
    c == '\t' || c == '\n' || c == '\U{0B}' || c == '\U{0C}' || c == '\r' || c == ' '
    || c == '\U{A0}' || c == '\U{1680}' || ('\U{2000}' <= c <= '\U{200A}')
    || c == '\U{2028}' || c == '\U{2029}' || c == '\U{202F}' || c == '\U{205F}'
    || c == '\U{3000}' || c == '\U{FEFF}'
  }

  function TrimStart(s: string): (r: string)
    ensures |r| <= |s| && r == s[|s| - |r|..]
    ensures forall k :: 0 <= k < |s| - |r| ==> IsWhitespace(s[k])
    ensures r != [] ==> !IsWhitespace(r[0])
    decreases |s|
  {
    if s != [] && IsWhitespace(s[0]) then TrimStart(s[1..]) else s
  }

  function TrimEnd(s: string): (r: string)
    ensures |r| <= |s| && r == s[..|r|]
    ensures forall k :: |r| <= k < |s| ==> IsWhitespace(s[k])
    ensures r != [] ==> !IsWhitespace(r[|r| - 1])
    decreases |s|
  {
    if s != [] && IsWhitespace(s[|s| - 1]) then TrimEnd(s[..|s| - 1]) else s
  }

  /** `trim`: the text without leading and trailing white space. */
  function Trim(s: string): (r: string)
    ensures |r| <= |s|
    ensures r != [] ==> !IsWhitespace(r[0]) && !IsWhitespace(r[|r| - 1])
    ensures exists i, j :: 0 <= i <= j <= |s| && r == s[i..j]
              && (forall k :: 0 <= k < i ==> IsWhitespace(s[k]))
              && (forall k :: j <= k < |s| ==> IsWhitespace(s[k]))
  {
    var t := TrimStart(s);
    var r := TrimEnd(t);
    PrefixOfSuffix(s, t, r, IsWhitespace);
    r
  }

  /**
    Where a prefix `r` of a suffix `t` of `s` sits in `s`: a slice of `s`
    starting at `|s| - |t|`, followed in `s` by what follows it in `t`.
  */
  lemma PrefixOfSuffix<T>(s: seq<T>, t: seq<T>, r: seq<T>, p: T -> bool)
    requires |t| <= |s| && t == s[|s| - |t|..] && |r| <= |t| && r == t[..|r|]
    requires forall k :: |r| <= k < |t| ==> p(t[k])
    ensures r == s[|s| - |t|..|s| - |t| + |r|]
    ensures forall k :: |s| - |t| + |r| <= k < |s| ==> p(s[k])
  {
    var i := |s| - |t|;
    forall k | i + |r| <= k < |s| ensures p(s[k]) {
      assert s[k] == t[k - i];
    }
  }

  /**
    The last element of `s.split(',')`: the text after the final comma, or all
    of `s` when it has no comma.
  */
  function LastSegment(s: string): (r: string)
    ensures |r| <= |s| && r == s[|s| - |r|..]
    ensures ',' !in r
    ensures |r| < |s| ==> s[|s| - |r| - 1] == ','
    decreases |s|
  {
    if s == [] || s[|s| - 1] == ',' then [] else LastSegment(s[..|s| - 1]) + [s[|s| - 1]]
  }

  /** `s.split(',').length > 1` holds exactly when the last segment is not all of `s`. */
  lemma {:induction false} LastSegmentShorterIffComma(s: string)
    ensures ',' in s <==> |LastSegment(s)| < |s|
  {
    var r := LastSegment(s);
    if |r| == |s| {
      assert r == s;
    } else {
      assert s[|s| - |r| - 1] == ',';
    }
  }

  /** One leading space goes; text without white space at its ends stays. */
  lemma TrimLeadingSpace(s: string)
    requires s != [] && !IsWhitespace(s[0]) && !IsWhitespace(s[|s| - 1])
    ensures Trim([' '] + s) == s
  {
    var t := [' '] + s;
    assert t[1..] == s;
    assert IsWhitespace(t[0]);
    assert TrimStart(t) == TrimStart(s);
    assert TrimStart(s) == s;
    assert TrimEnd(s) == s;
  }

  /** The text after a comma that is followed by no other comma. */
  lemma {:induction false} LastSegmentAfterComma(a: string, b: string)
    requires ',' !in b
    ensures LastSegment(a + [','] + b) == b
    decreases |b|
  {
    var x := a + [','] + b;
    if b != [] {
      assert x[..|x| - 1] == a + [','] + b[..|b| - 1];
      assert b[|b| - 1] in b;
      LastSegmentAfterComma(a, b[..|b| - 1]);
      assert b[..|b| - 1] + [b[|b| - 1]] == b;
    }
  }

  /** `pat` occurs at the very start of `text`, ignoring case. */
  predicate StartsWithCI(text: string, pat: string)
    decreases |pat|
  {
    pat == [] || (text != [] && Upper(text[0]) == Upper(pat[0]) && StartsWithCI(text[1..], pat[1..]))
  }

  /** `new RegExp(pat, 'i').test(text)` for a pattern without metacharacters. */
  predicate ContainsCI(text: string, pat: string)
    decreases |text|
  {
    StartsWithCI(text, pat) || (text != [] && ContainsCI(text[1..], pat))
  }

  /** `pat` matches `text` case-insensitively at position `i`. */
  ghost predicate OccursAt(text: string, pat: string, i: int) {
    0 <= i && i + |pat| <= |text| && forall k :: 0 <= k < |pat| ==> Upper(text[i + k]) == Upper(pat[k])
  }

  lemma {:induction false} StartsWithCIIffOccursAtZero(text: string, pat: string)
    ensures StartsWithCI(text, pat) <==> OccursAt(text, pat, 0)
    decreases |pat|
  {
    if pat != [] && text != [] {
      StartsWithCIIffOccursAtZero(text[1..], pat[1..]);
      if StartsWithCI(text, pat) {
        forall k | 0 <= k < |pat| ensures Upper(text[k]) == Upper(pat[k]) {
          if k > 0 {
            assert Upper(text[1..][k - 1]) == Upper(pat[1..][k - 1]);
          }
        }
      }
      if OccursAt(text, pat, 0) {
        forall k | 0 <= k < |pat| - 1 ensures Upper(text[1..][k]) == Upper(pat[1..][k]) {
          assert Upper(text[k + 1]) == Upper(pat[k + 1]);
        }
      }
    }
  }

  /** The case-insensitive test succeeds exactly when the pattern occurs at some position. */
  lemma {:induction false} ContainsCIIffOccurs(text: string, pat: string)
    ensures ContainsCI(text, pat) <==> exists i :: OccursAt(text, pat, i)
    decreases |text|
  {
    StartsWithCIIffOccursAtZero(text, pat);
    if text != [] {
      ContainsCIIffOccurs(text[1..], pat);
      if ContainsCI(text[1..], pat) {
        var i :| OccursAt(text[1..], pat, i);
        forall k | 0 <= k < |pat| ensures Upper(text[i + 1 + k]) == Upper(pat[k]) {
          assert text[1..][i + k] == text[i + 1 + k];
        }
        assert OccursAt(text, pat, i + 1);
      }
      if i :| OccursAt(text, pat, i) {
        if i > 0 {
          forall k | 0 <= k < |pat| ensures Upper(text[1..][i - 1 + k]) == Upper(pat[k]) {
            assert text[1..][i - 1 + k] == text[i + k];
          }
          assert OccursAt(text[1..], pat, i - 1);
        }
      }
    } else {
      if i :| OccursAt(text, pat, i) {
        assert i == 0;
      }
    }
  }

  /** The decimal digit for `d`. */
  function Digit(d: nat): (c: char)
    requires d < 10
    ensures '0' <= c <= '9'
  {
    (48 + d) as char
  }

  /** The decimal text of a non-negative integer, as a template string renders it. */
  function NatToString(n: nat): (r: string)
    ensures |r| >= 1
    ensures forall k :: 0 <= k < |r| ==> '0' <= r[k] <= '9'
    ensures n < 10 <==> |r| == 1
  {
    if n < 10 then [Digit(n)] else NatToString(n / 10) + [Digit(n % 10)]
  }

  /** Different numbers render differently. */
  lemma {:induction false} NatToStringInjective(a: nat, b: nat)
    requires NatToString(a) == NatToString(b)
    ensures a == b
  {
    var s := NatToString(a);
    if a < 10 {
      assert Digit(a) == s[0] == Digit(b);
    } else {
      assert b >= 10;
      assert Digit(a % 10) == s[|s| - 1] == Digit(b % 10);
      assert NatToString(a / 10) == s[..|s| - 1] == NatToString(b / 10);
      NatToStringInjective(a / 10, b / 10);
    }
  }
}
