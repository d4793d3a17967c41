/**
 * String.equalsIgnoreCase, with the character case mapping restricted to the
 * ASCII letters, and the lower-cased string it amounts to.
 */
module CaseFold {

  function ToUpper(c: char): char {
    if 'a' <= c <= 'z' then (c as int - 32) as char else c
  }

  function ToLower(c: char): char {
    if 'A' <= c <= 'Z' then (c as int + 32) as char else c
  }

  /** The per-character test of String.regionMatches with ignoreCase set. */
  predicate CharEqualsIgnoreCase(a: char, b: char) {
    a == b || ToUpper(a) == ToUpper(b) || ToLower(ToUpper(a)) == ToLower(ToUpper(b))
  }

  /** String.equalsIgnoreCase on two non-null strings. */
  predicate EqualsIgnoreCase(a: string, b: string) {
    |a| == |b| && forall i :: 0 <= i < |a| ==> CharEqualsIgnoreCase(a[i], b[i])
  }

  /** The string with every letter in lower case: the reference for comparing up to case. */
  function Lowered(s: string): (r: string)
    ensures |r| == |s|
    ensures forall i :: 0 <= i < |s| ==> r[i] == ToLower(s[i])
  {
    if s == [] then [] else [ToLower(s[0])] + Lowered(s[1..])
  }

  lemma CharEqualsIgnoreCaseIffSameLower(a: char, b: char)
    ensures CharEqualsIgnoreCase(a, b) <==> ToLower(a) == ToLower(b)
  {
  }

  /** Two strings are equal ignoring case exactly when their lower-cased forms are equal. */
  lemma EqualsIgnoreCaseIffSameLowered(a: string, b: string)
    ensures EqualsIgnoreCase(a, b) <==> Lowered(a) == Lowered(b)
  {
    if EqualsIgnoreCase(a, b) {
      forall i | 0 <= i < |a| ensures Lowered(a)[i] == Lowered(b)[i] {
        CharEqualsIgnoreCaseIffSameLower(a[i], b[i]);
      }
    }
    if Lowered(a) == Lowered(b) {
      forall i | 0 <= i < |a| ensures CharEqualsIgnoreCase(a[i], b[i]) {
        assert Lowered(a)[i] == Lowered(b)[i];
        CharEqualsIgnoreCaseIffSameLower(a[i], b[i]);
      }
    }
  }

  /** equalsIgnoreCase is an equivalence relation. */
  lemma EqualsIgnoreCaseIsEquivalence(a: string, b: string, c: string)
    ensures EqualsIgnoreCase(a, a)
    ensures EqualsIgnoreCase(a, b) ==> EqualsIgnoreCase(b, a)
    ensures EqualsIgnoreCase(a, b) && EqualsIgnoreCase(b, c) ==> EqualsIgnoreCase(a, c)
  {
    EqualsIgnoreCaseIffSameLowered(a, a);
    EqualsIgnoreCaseIffSameLowered(a, b);
    EqualsIgnoreCaseIffSameLowered(b, a);
    EqualsIgnoreCaseIffSameLowered(b, c);
    EqualsIgnoreCaseIffSameLowered(a, c);
  }
}
