/** Case folding of the C locale, as strcasecmp and toupper do it. */
module Ascii {

  /** A C string: what lies before its terminator. */
  type CString = s: string | '\0' !in s

  /** The C string in a buffer that holds `s`: what lies before the first '\0'. */
  function CText(s: string): (t: CString)
    ensures t <= s && ('\0' !in s ==> t == s)
    ensures '\0' in s ==> |t| < |s| && s[|t|] == '\0'
  {
    if s == [] || s[0] == '\0' then []
    else
      var t: CString := [s[0]] + CText(s[1..]);
      t
  }

  function Lower(c: char): char {
    if 'A' <= c <= 'Z' then (c as int + 32) as char else c
  }

  function Upper(c: char): char {
    if 'a' <= c <= 'z' then (c as int - 32) as char else c
  }

  function Fold(s: string): string {
    seq(|s|, i requires 0 <= i < |s| => Lower(s[i]))
  }

  function Upcase(s: CString): CString {
    seq(|s|, i requires 0 <= i < |s| => Upper(s[i]))
  }

  /** strcasecmp(s, t) == 0 */
  predicate SameName(s: string, t: string) {
    Fold(s) == Fold(t)
  }

  /** The characters are the same, or the same letter in another case. */
  predicate SameLetter(c: char, d: char) {
    || c == d
    || ('A' <= c <= 'Z' && d as int == c as int + 32)
    || ('a' <= c <= 'z' && d as int == c as int - 32)
  }

  /** Two names are the same if and only if they differ at most in the case of the
      26 letters. */
  lemma CaseIsBlind(s: string, t: string)
    ensures SameName(s, t) <==> |s| == |t| && forall i :: 0 <= i < |s| ==> SameLetter(s[i], t[i])
  {
    assert |Fold(s)| == |s| && |Fold(t)| == |t|;
    if |s| == |t| {
      forall i | 0 <= i < |s|
        ensures Fold(s)[i] == Fold(t)[i] <==> SameLetter(s[i], t[i])
      {
        assert Fold(s)[i] == Lower(s[i]) && Fold(t)[i] == Lower(t[i]);
      }
    }
  }

  /** Upper case is blind to the same. */
  lemma UpcaseIsBlind(s: CString, t: CString)
    ensures Upcase(s) == Upcase(t) <==> SameName(s, t)
  {
    CaseIsBlind(s, t);
    assert |Upcase(s)| == |s| && |Upcase(t)| == |t|;
    if |s| == |t| {
      forall i | 0 <= i < |s|
        ensures Upcase(s)[i] == Upcase(t)[i] <==> SameLetter(s[i], t[i])
      {
        assert Upcase(s)[i] == Upper(s[i]) && Upcase(t)[i] == Upper(t[i]);
      }
    }
  }
}
