/** Suffixes and case folding. */
module Strings {

  predicate HasSuffix(s: string, t: string) {
    |t| <= |s| && s[|s| - |t|..] == t
  }

  function LowerChar(c: char): char {
    if 'A' <= c <= 'Z' then c - 'A' + 'a' else c
  }

  function Lower(s: string): (r: string)
    ensures |r| == |s| && forall i | 0 <= i < |s| :: r[i] == LowerChar(s[i])
  {
    seq(|s|, i requires 0 <= i < |s| => LowerChar(s[i]))
  }

  /** Capital letters become the letters 32 places on; nothing else changes. */
  lemma LowerLetters(c: char)
    ensures 'A' <= c <= 'Z' <==> LowerChar(c) != c
    ensures LowerChar(c) != c ==> LowerChar(c) as int == c as int + 32 && LowerChar(LowerChar(c)) == LowerChar(c)
  {
  }

  /** The characters with a meaning in a pattern of actions. */
  predicate IsMark(c: char) {
    c == '*' || c == '?' || c == ':'
  }

  /** Lower-casing of a rune to the bytes it is then written as. Marks and the letter x are their own lower case, and no
      other rune is written with a mark. */
  type CaseFold = f: char -> string | IsCaseFold(f) ghost witness c => [c]

  ghost predicate IsCaseFold(f: char -> string) {
    && f('x') == "x"
    && (forall c | IsMark(c) :: f(c) == [c])
    && (forall c | !IsMark(c) :: f(c) != "" && forall b | b in f(c) :: !IsMark(b))
  }

  function Folded(fold: CaseFold, s: string): string {
    if s == "" then "" else fold(s[0]) + Folded(fold, s[1..])
  }
}
