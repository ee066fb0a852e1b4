/**
 * The pieces of Python's string handling the quoting core relies on:
 * `str.strip()`, `str.upper()` and the ordering of `str` values.
 */
module Text {

  /** Python's `str.isspace()`: the characters `str.strip()` removes by default. */
  predicate IsSpace(c: char) {
    || c == ' '
    || '\t' <= c <= '\r'
    || '\U{1C}' <= c <= '\U{1F}'
    || c == '\U{85}' || c == '\U{A0}' || c == '\U{1680}'
    || '\U{2000}' <= c <= '\U{200A}'
    || c == '\U{2028}' || c == '\U{2029}' || c == '\U{202F}' || c == '\U{205F}' || c == '\U{3000}'
  }

  /** Removes leading whitespace; what remains is a suffix of `s`. */
  function LStrip(s: string): (r: string)
    ensures |r| <= |s| && r == s[|s| - |r|..]
    ensures forall i :: 0 <= i < |s| - |r| ==> IsSpace(s[i])
    ensures r == [] || !IsSpace(r[0])
  {
    if s != [] && IsSpace(s[0]) then LStrip(s[1..]) else s
  }

  /** Removes trailing whitespace; what remains is a prefix of `s`. */
  function RStrip(s: string): (r: string)
    ensures |r| <= |s| && r == s[..|r|]
    ensures forall i :: |r| <= i < |s| ==> IsSpace(s[i])
    ensures r == [] || !IsSpace(r[|r| - 1])
  {
    if s != [] && IsSpace(s[|s| - 1]) then RStrip(s[..|s| - 1]) else s
  }

  /** Python's `str.strip()`: the infix of `s` left after removing whitespace at both ends. */
  function Strip(s: string): (r: string)
    ensures |r| <= |s|
    ensures r == [] || (!IsSpace(r[0]) && !IsSpace(r[|r| - 1]))
  {
    RStrip(LStrip(s))
  }

  /**
   * What `strip()` removes is whitespace, at either end and nowhere else: the
   * result is `s[i..j]` with only whitespace before `i` and from `j` on.
   */
  lemma StripIsInfix(s: string) returns (i: nat, j: nat)
    ensures i <= j <= |s| && Strip(s) == s[i..j]
    ensures forall k :: 0 <= k < i ==> IsSpace(s[k])
    ensures forall k :: j <= k < |s| ==> IsSpace(s[k])
  {
    var l := LStrip(s);
    i := |s| - |l|;
    RStripOfSuffix(s, i);
    j := i + |RStrip(s[i..])|;
    assert Strip(s) == RStrip(l);
    assert l == s[i..];
  }

  /** `rstrip()` of the suffix `s[i..]` is an infix of `s` followed only by whitespace. */
  lemma RStripOfSuffix(s: string, i: nat)
    requires i <= |s|
    ensures i + |RStrip(s[i..])| <= |s|
    ensures RStrip(s[i..]) == s[i..i + |RStrip(s[i..])|]
    ensures forall k :: i + |RStrip(s[i..])| <= k < |s| ==> IsSpace(s[k])
  {
    var l := s[i..];
    var r := RStrip(l);
    assert r == l[..|r|];
    assert l[..|r|] == s[i..i + |r|];
    forall k | i + |r| <= k < |s| ensures IsSpace(s[k]) {
      assert l[k - i] == s[k];
    }
  }

  /** Text with no whitespace at either end is its own `strip()`. */
  lemma StripKeeps(s: string)
    requires s == [] || (!IsSpace(s[0]) && !IsSpace(s[|s| - 1]))
    ensures Strip(s) == s
  {
    assert LStrip(s) == s;
    assert RStrip(s) == s;
  }

  /**
   * Python's `str.upper()` on one character. Modelled for ASCII and the Latin-1
   * supplement (including the two-letter result of the sharp s); any other
   * character is kept as it is.
   */
  /** The characters `upper()` changes here: the ASCII and Latin-1 lower-case letters. */
  predicate Lowercase(c: char) {
    || 'a' <= c <= 'z'
    || c == '\U{DF}' || c == '\U{FF}' || c == '\U{B5}'
    || ('\U{E0}' <= c <= '\U{FE}' && c != '\U{F7}')
  }

  function UpperChar(c: char): (r: string)
    ensures forall i :: 0 <= i < |r| ==> !Lowercase(r[i])
    ensures !Lowercase(c) ==> r == [c]
  {
    if 'a' <= c <= 'z' then [(c as int - 32) as char]
    else if c == '\U{DF}' then "SS"
    else if '\U{E0}' <= c <= '\U{FE}' && c != '\U{F7}' then [(c as int - 32) as char]
    else if c == '\U{FF}' then ['\U{178}']
    else if c == '\U{B5}' then ['\U{39C}']
    else [c]
  }

  /** Python's `str.upper()`: the result holds no lower-case ASCII or Latin-1 letter. */
  function Upper(s: string): (r: string)
    ensures forall i :: 0 <= i < |r| ==> !Lowercase(r[i])
  {
    if s == [] then [] else UpperChar(s[0]) + Upper(s[1..])
  }

  /**
   * Python's comparison of two `str` values: code point by code point, a proper
   * prefix first. Negative, zero or positive as `a` sorts before, equal to or after `b`.
   */
  function StrCmp(a: string, b: string): (c: int)
    ensures -1 <= c <= 1
  {
    if a == [] && b == [] then 0
    else if a == [] then -1
    else if b == [] then 1
    else if a[0] < b[0] then -1
    else if a[0] > b[0] then 1
    else StrCmp(a[1..], b[1..])
  }

  lemma {:induction false} StrCmpZero(a: string, b: string)
    ensures StrCmp(a, b) == 0 <==> a == b
  {
    if a != [] && b != [] && a[0] == b[0] {
      StrCmpZero(a[1..], b[1..]);
      assert a == [a[0]] + a[1..] && b == [b[0]] + b[1..];
    }
  }

  lemma {:induction false} StrCmpFlip(a: string, b: string)
    ensures StrCmp(b, a) == -StrCmp(a, b)
  {
    if a != [] && b != [] && a[0] == b[0] {
      StrCmpFlip(a[1..], b[1..]);
    }
  }

  lemma {:induction false} StrCmpTrans(a: string, b: string, c: string)
    requires StrCmp(a, b) <= 0 && StrCmp(b, c) <= 0
    ensures StrCmp(a, c) <= 0
  {
    if a != [] && b != [] && c != [] && a[0] == b[0] == c[0] {
      StrCmpTrans(a[1..], b[1..], c[1..]);
    }
  }

  /** `StrCmp` is a total order: antisymmetric, transitive, strict where one side is strict. */
  lemma StrCmpLaws(a: string, b: string, c: string)
    ensures StrCmp(a, b) == 0 <==> a == b
    ensures StrCmp(b, a) == -StrCmp(a, b)
    ensures StrCmp(a, b) <= 0 && StrCmp(b, c) <= 0 ==> StrCmp(a, c) <= 0
    ensures StrCmp(a, b) < 0 && StrCmp(b, c) <= 0 ==> StrCmp(a, c) < 0
    ensures StrCmp(a, b) <= 0 && StrCmp(b, c) < 0 ==> StrCmp(a, c) < 0
  {
    StrCmpZero(a, b);
    StrCmpZero(a, c);
    StrCmpFlip(a, b);
    StrCmpFlip(b, c);
    if StrCmp(a, b) <= 0 && StrCmp(b, c) <= 0 {
      StrCmpTrans(a, b, c);
    }
  }
}
