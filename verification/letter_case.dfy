/** Texts that are equal up to letter case, letter by letter and without a conversion. */
module LetterCase {
  /** The same character, or the same of the 26 letters, one of them upper case. */
  predicate SameLetter(a: char, b: char) {
    || a == b
    || ('A' <= a <= 'Z' && b as int - 'a' as int == a as int - 'A' as int)
    || ('A' <= b <= 'Z' && a as int - 'a' as int == b as int - 'A' as int)
  }

  predicate SameLetters(s: string, t: string) {
    |s| == |t| && forall i | 0 <= i < |s| :: SameLetter(s[i], t[i])
  }
}
