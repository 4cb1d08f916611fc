/**
  Case-insensitive comparison of names, as the builder does it with Go's
  `strings.EqualFold`. Only ASCII letters are folded here (see README).
 */
module Text {

  /** Folds an ASCII upper-case letter to lower case; every other character is kept. */
  function FoldChar(c: char): (f: char)
    ensures !('A' <= f <= 'Z')
    ensures 'a' <= f <= 'z' <==> 'A' <= c <= 'Z' || 'a' <= c <= 'z'
  {
    if 'A' <= c <= 'Z' then (c as int - 'A' as int + 'a' as int) as char else c
  }

  function Fold(s: string): string
  {
    seq(|s|, i requires 0 <= i < |s| => FoldChar(s[i]))
  }

  /** `strings.EqualFold`: the two strings are equal once letters are folded. */
  predicate EqualFold(a: string, b: string)
  {
    Fold(a) == Fold(b)
  }

  /** Folding works character by character, so it distributes over concatenation. */
  lemma FoldConcat(a: string, b: string)
    ensures Fold(a + b) == Fold(a) + Fold(b)
  {
    assert forall i :: 0 <= i < |a + b| ==> Fold(a + b)[i] == (Fold(a) + Fold(b))[i];
  }

  /** Only a letter folds to a letter, so a string of non-letters is fold-equal to itself alone. */
  lemma FoldNonLetter(s: string, c: char)
    requires !('A' <= c <= 'Z' || 'a' <= c <= 'z')
    requires |s| == 1 && FoldChar(s[0]) == c
    ensures s == [c]
  {
  }
}
