/** The code normaliser `estandarizar_codigo` (main.py:155-159). */
module Codes {
  import opened Text

  /** The sentinel that stands for "no code". */
  const Sentinel: string := "S.C"

  /** Spellings, after trimming and upper-casing, that mean "no code". */
  const BlankSpellings: set<string> := {"S.C.", "S.C", "SC", "0", "NAN", "NONE", "", "NAT"}

  /** The trimmed, upper-cased text of a cell: `str(valor).strip().upper()`. */
  function Canonical(raw: string): string {
    Upper(Strip(raw))
  }

  /** The suffix a number written back as text carries (`12.0`). */
  predicate EndsWithPointZero(s: string) {
    |s| >= 2 && s[|s| - 2..] == ".0"
  }

  /**
   * `estandarizar_codigo`: blank spellings become the sentinel, a trailing ".0"
   * is dropped, anything else is returned trimmed and upper-cased.
   */
  function NormalizeCode(raw: string): (code: string)
    // the sentinel comes out for the blank spellings and, through the ".0" rule, for "S.C.0"
    ensures code == Sentinel <==> Canonical(raw) in BlankSpellings || Canonical(raw) == Sentinel + ".0"
    // a non-blank value ending in ".0" loses exactly those two characters
    ensures (Canonical(raw) !in BlankSpellings && EndsWithPointZero(Canonical(raw)))
            ==> code + ".0" == Canonical(raw)
    // any other value is the trimmed, upper-cased input
    ensures (Canonical(raw) !in BlankSpellings && !EndsWithPointZero(Canonical(raw)))
            ==> code == Canonical(raw)
  {
    var c := Canonical(raw);
    if c in BlankSpellings then Sentinel
    else if EndsWithPointZero(c) then
      assert c == c[..|c| - 2] + ".0";
      c[..|c| - 2]
    else c
  }

  /** A value without surrounding whitespace and without lower-case letters is its own canonical form. */
  lemma {:induction false} CanonicalOfCanonical(s: string)
    requires s == [] || (!IsSpace(s[0]) && !IsSpace(s[|s| - 1]))
    requires forall i :: 0 <= i < |s| ==> UpperChar(s[i]) == [s[i]]
    ensures Canonical(s) == s
  {
    StripKeeps(s);
    UpperKeeps(s);
    assert Upper(Strip(s)) == Upper(s);
  }

  lemma {:induction false} UpperKeeps(s: string)
    requires forall i :: 0 <= i < |s| ==> UpperChar(s[i]) == [s[i]]
    ensures Upper(s) == s
  {
    if s != [] {
      UpperKeeps(s[1..]);
      assert s == [s[0]] + s[1..];
    }
  }

  /** `upper()` works character by character, so it distributes over concatenation. */
  lemma {:induction false} UpperConcat(a: string, b: string)
    ensures Upper(a + b) == Upper(a) + Upper(b)
  {
    if a != [] {
      UpperConcat(a[1..], b);
      assert (a + b)[0] == a[0] && (a + b)[1..] == a[1..] + b;
    } else {
      assert a + b == b;
    }
  }

  /** Upper-casing twice is upper-casing once. */
  lemma UpperIdempotent(s: string)
    ensures Upper(Upper(s)) == Upper(s)
  {
    UpperKeeps(Upper(s));
  }

  /** No blank spelling ends in ".0", so such a value always takes the suffix rule. */
  lemma PointZeroIsNotBlank(c: string)
    requires EndsWithPointZero(c)
    ensures c !in BlankSpellings
  {
    assert c[|c| - 1] == '0';
  }

  /** Numbers typed into a code column and blank spellings in lower case. */
  lemma NormalizeExamples()
    ensures NormalizeCode("0") == Sentinel
    ensures NormalizeCode("12.0") == "12"
    ensures NormalizeCode("sc") == Sentinel
  {
    NormalizeZero("0");
    NormalizeTwelve("12.0");
    NormalizeLowerSc("sc");
  }

  // The three lemmas below take the example as a parameter so that the verifier
  // reasons about it step by step instead of unfolding the string functions.

  lemma NormalizeZero(raw: string)
    requires raw == "0"
    ensures NormalizeCode(raw) == Sentinel
  {
    CanonicalOfCanonical(raw);
  }

  lemma NormalizeTwelve(raw: string)
    requires raw == "12.0"
    ensures NormalizeCode(raw) == "12"
  {
    CanonicalOfCanonical(raw);
    PointZeroIsNotBlank(raw);
    assert raw[..|raw| - 2] == "12";
  }

  lemma NormalizeLowerSc(raw: string)
    requires raw == "sc"
    ensures NormalizeCode(raw) == Sentinel
  {
    CanonicalSc(raw);
    assert "SC" in BlankSpellings;
  }

  lemma CanonicalSc(raw: string)
    requires raw == "sc"
    ensures Canonical(raw) == "SC"
  {
    assert raw[0] == 's' && raw[|raw| - 1] == 'c';
    StripKeeps(raw);
    UpperSc(raw);
  }

  lemma UpperSc(raw: string)
    requires raw == "sc"
    ensures Upper(raw) == "SC"
  {
    assert UpperChar('s') == "S" && UpperChar('c') == "C";
    assert raw[1..] == "c" && raw[1..][1..] == [];
    assert Upper(raw) == UpperChar('s') + (UpperChar('c') + Upper([]));
  }

  lemma NormalizePointZero(raw: string)
    requires raw == "0.0"
    ensures NormalizeCode(raw) == "0"
  {
    CanonicalOfCanonical(raw);
    PointZeroIsNotBlank(raw);
    assert raw[..|raw| - 2] == "0";
  }

  /** Normalising is not idempotent: "0.0" becomes "0", which becomes the sentinel. */
  lemma NormalizeNotIdempotent()
    ensures NormalizeCode("0.0") == "0"
    ensures NormalizeCode(NormalizeCode("0.0")) == Sentinel
    ensures exists raw :: NormalizeCode(NormalizeCode(raw)) != NormalizeCode(raw)
  {
    NormalizePointZero("0.0");
    NormalizeZero("0");
    assert NormalizeCode(NormalizeCode("0.0")) != NormalizeCode("0.0");
  }
}
