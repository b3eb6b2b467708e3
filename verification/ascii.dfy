/** Upper-casing as the client and the server use it (`toUpperCase`), restricted
    to the ASCII letters: 'a'..'z' become 'A'..'Z', every other character is
    left alone. */
module Ascii {

  predicate IsLower(c: char) {
    'a' <= c <= 'z'
  }

  function UpperChar(c: char): (u: char)
    ensures !IsLower(u)
    ensures IsLower(c) ==> u as int == c as int - 32
    ensures !IsLower(c) ==> u == c
  {
    if IsLower(c) then (c as int - 32) as char else c
  }

  /** The string with every lower-case ASCII letter replaced by its capital. */
  function Upper(s: string): (r: string)
    ensures |r| == |s|
    ensures forall i :: 0 <= i < |s| ==> r[i] == UpperChar(s[i])
  {
    if s == [] then [] else [UpperChar(s[0])] + Upper(s[1..])
  }

  /** Two strings that are equal up to the case of ASCII letters. */
  predicate SameIgnoringCase(s: string, t: string) {
    Upper(s) == Upper(t)
  }

  /** Upper-casing twice is upper-casing once. */
  lemma {:induction false} UpperIdempotent(s: string)
    ensures Upper(Upper(s)) == Upper(s)
  {
    if s != [] {
      UpperIdempotent(s[1..]);
      assert Upper(s)[1..] == Upper(s[1..]);
    }
  }

  /** Equality ignoring case, character by character: both strings have the
      same length and agree at every position once upper-cased. */
  lemma SameIgnoringCaseCharwise(s: string, t: string)
    ensures SameIgnoringCase(s, t) <==>
            |s| == |t| && forall i :: 0 <= i < |s| ==> UpperChar(s[i]) == UpperChar(t[i])
  {
    if |s| == |t| && forall i :: 0 <= i < |s| ==> UpperChar(s[i]) == UpperChar(t[i]) {
      assert forall i :: 0 <= i < |s| ==> Upper(s)[i] == Upper(t)[i];
    }
  }

  /** Comparing after upper-casing is an equivalence on strings. */
  lemma SameIgnoringCaseIsEquivalence(s: string, t: string, u: string)
    ensures SameIgnoringCase(s, s)
    ensures SameIgnoringCase(s, t) ==> SameIgnoringCase(t, s)
    ensures SameIgnoringCase(s, t) && SameIgnoringCase(t, u) ==> SameIgnoringCase(s, u)
  {
  }

  /** A string and its upper-cased form are equal ignoring case. */
  lemma UpperSameIgnoringCase(s: string)
    ensures SameIgnoringCase(Upper(s), s)
  {
    UpperIdempotent(s);
  }
}
