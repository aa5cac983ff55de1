/** Case-insensitive comparison of wide-character strings, the way `_wcsicmp`
    compares them in the "C" locale: only the ASCII letters A-Z are folded to
    lower case, every other character compares by its code. A string here is
    the sequence of characters before the terminating NUL. */
module Text {

  /** The lower-case form of one character. */
  function Lower(c: char): (l: char)
  {
    if 'A' <= c <= 'Z' then (c as int + 32) as char else c
  }

  /** The string with every character lowered: the key under which a
      case-insensitive store files a name. */
  function Fold(s: string): (folded: string)
  {
    seq(|s|, i requires 0 <= i < |s| => Lower(s[i]))
  }

  /** `_wcsicmp(a, b) == 0`: both strings end together and agree character by
      character once lowered. */
  predicate IEquals(a: string, b: string)
  {
    if a == [] || b == [] then a == b
    else Lower(a[0]) == Lower(b[0]) && IEquals(a[1..], b[1..])
  }

  /** Comparing case-insensitively is comparing the folded forms. */
  lemma {:induction false} IEqualsIffSameFold(a: string, b: string)
    ensures IEquals(a, b) <==> Fold(a) == Fold(b)
  {
    if a != [] && b != [] {
      IEqualsIffSameFold(a[1..], b[1..]);
      assert Fold(a) == [Lower(a[0])] + Fold(a[1..]);
      assert Fold(b) == [Lower(b[0])] + Fold(b[1..]);
      if Fold(a) == Fold(b) {
        assert Fold(a)[0] == Fold(b)[0];
        assert Fold(a)[1..] == Fold(a[1..]);
        assert Fold(b)[1..] == Fold(b[1..]);
      }
    }
  }

  /** Case-insensitive equality is an equivalence relation. */
  lemma IEqualsIsEquivalence(a: string, b: string, c: string)
    ensures IEquals(a, a)
    ensures IEquals(a, b) ==> IEquals(b, a)
    ensures IEquals(a, b) && IEquals(b, c) ==> IEquals(a, c)
  {
    IEqualsIffSameFold(a, a);
    IEqualsIffSameFold(a, b);
    IEqualsIffSameFold(b, a);
    IEqualsIffSameFold(b, c);
    IEqualsIffSameFold(a, c);
  }
}
