/** ASCII case mapping, standing in for Python's str.lower and str.upper
    on the characters the game sees. Only 'A'..'Z' and 'a'..'z' change. */
module CaseMapping {

  predicate IsUpper(c: char) { 'A' <= c <= 'Z' }

  predicate IsLower(c: char) { 'a' <= c <= 'z' }

  /** str.lower on one character: never upper case, a character that is
      not upper case is left as it is, and an upper-case letter becomes the
      same letter of the alphabet in lower case. */
  function ToLower(c: char): (r: char)
    ensures !IsUpper(r)
    ensures !IsUpper(c) ==> r == c
    ensures IsUpper(c) ==> IsLower(r) && r as int - 'a' as int == c as int - 'A' as int
  {
    if IsUpper(c) then (c as int + 32) as char else c
  }

  /** str.upper on one character: never lower case, a character that is
      not lower case is left as it is, and a lower-case letter becomes the
      same letter of the alphabet in upper case. */
  function ToUpper(c: char): (r: char)
    ensures !IsLower(r)
    ensures !IsLower(c) ==> r == c
    ensures IsLower(c) ==> IsUpper(r) && r as int - 'A' as int == c as int - 'a' as int
  {
    if IsLower(c) then (c as int - 32) as char else c
  }

  /** str.lower on a whole word. */
  function Lower(s: string): (r: string)
    ensures |r| == |s|
    ensures forall i :: 0 <= i < |r| ==> r[i] == ToLower(s[i]) && !IsUpper(r[i])
  {
    seq(|s|, i requires 0 <= i < |s| => ToLower(s[i]))
  }

  /** Lowering and then raising a letter gives it back, and the other way round. */
  lemma CaseRoundTrip(c: char)
    ensures IsUpper(c) ==> ToUpper(ToLower(c)) == c
    ensures IsLower(c) ==> ToLower(ToUpper(c)) == c
  {
  }

  /** Upper-casing tells apart any two characters that are not upper case,
      so the guessed letters, all lower case, stay distinct when shown. */
  lemma ToUpperInjective(c: char, d: char)
    requires !IsUpper(c) && !IsUpper(d)
    ensures ToUpper(c) == ToUpper(d) ==> c == d
  {
  }
}
