/** Classes of ASCII characters. */
module Characters {

  predicate IsDigit(c: char) {
    '0' <= c <= '9'
  }

  /** Python's `\s`. */
  predicate IsSpace(c: char) {
    9 <= c as int <= 13 || 28 <= c as int <= 32
  }

  predicate IsLower(c: char) {
    'a' <= c <= 'z'
  }

  predicate IsUpper(c: char) {
    'A' <= c <= 'Z'
  }

  function ToLower(c: char): char {
    if IsUpper(c) then c - 'A' + 'a' else c
  }

  function ToUpper(c: char): char {
    if IsLower(c) then c - 'a' + 'A' else c
  }

  /** The classes by code. */
  lemma Codes(c: char)
    ensures IsDigit(c) <==> 48 <= c as int <= 57
    ensures IsLower(c) <==> 97 <= c as int <= 122
    ensures IsUpper(c) <==> 65 <= c as int <= 90
    ensures IsSpace(c) <==> c as int in {9, 10, 11, 12, 13, 28, 29, 30, 31, 32}
  {
  }

  const LOWER := "abcdefghijklmnopqrstuvwxyz"
  const UPPER := "ABCDEFGHIJKLMNOPQRSTUVWXYZ"

  /** The small and the capital letters belong together in alphabetic order. */
  lemma LettersMatch(i: nat)
    requires i < 26
    ensures ToUpper(LOWER[i]) == UPPER[i] && ToLower(UPPER[i]) == LOWER[i]
  {
  }
}
