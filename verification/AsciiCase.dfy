/** Case folding and upper case on the ASCII letters. */
module AsciiCase {

  function FoldChar(c: char): char { if 'A' <= c <= 'Z' then ((c as int) + 32) as char else c }

  function UpperChar(c: char): char { if 'a' <= c <= 'z' then ((c as int) - 32) as char else c }

  function Fold(s: string): string { seq(|s|, i requires 0 <= i < |s| => FoldChar(s[i])) }

  function Upper(s: string): string { seq(|s|, i requires 0 <= i < |s| => UpperChar(s[i])) }

  /** The same character, or the two cases of one letter. */
  predicate SameLetter(a: char, b: char) {
    || a == b
    || ('A' <= a <= 'Z' && b as int == a as int + 32)
    || ('A' <= b <= 'Z' && a as int == b as int + 32)
  }

  predicate SameIgnoringCase(a: string, b: string) {
    |a| == |b| && forall i :: 0 <= i < |a| ==> SameLetter(a[i], b[i])
  }

  /** Two texts fold to the same exactly when they differ in case only; upper case alike. */
  lemma FoldMeaning(a: string, b: string)
    ensures Fold(a) == Fold(b) <==> SameIgnoringCase(a, b)
    ensures Upper(a) == Upper(b) <==> SameIgnoringCase(a, b)
  {
    forall i | 0 <= i < |a| && i < |b|
      ensures Fold(a)[i] == Fold(b)[i] <==> SameLetter(a[i], b[i])
      ensures Upper(a)[i] == Upper(b)[i] <==> SameLetter(a[i], b[i])
    {}
    if SameIgnoringCase(a, b) {
      assert Fold(a) == Fold(b);
      assert Upper(a) == Upper(b);
    }
    if Fold(a) == Fold(b) { assert |a| == |Fold(a)| == |b|; }
    if Upper(a) == Upper(b) { assert |a| == |Upper(a)| == |b|; }
  }

  /** A folded text has no upper-case letter, an upper-case one no lower-case letter, and both are the text
      again up to case. */
  lemma FoldIsFolded(s: string)
    ensures SameIgnoringCase(Fold(s), s) && SameIgnoringCase(Upper(s), s)
    ensures forall i :: 0 <= i < |s| ==> !('A' <= Fold(s)[i] <= 'Z') && !('a' <= Upper(s)[i] <= 'z')
  {}
}
