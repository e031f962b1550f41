/**
  Composite map keys the source builds by joining two strings with a NUL character.

  As long as the left part holds no NUL, a joined key can be taken apart in only one way, and two
  different pairs have different keys. With a NUL in the left part two pairs can collide; the
  components that join keys state whether that can happen to them, and what would follow if it
  did.
 */
module NulKeys {
  function Join(left: string, right: string): string {
    left + "\0" + right
  }

  predicate NulFree(s: string) {
    '\0' !in s
  }

  lemma FirstNul(left: string, right: string)
    requires NulFree(left)
    ensures Join(left, right)[|left|] == '\0'
    ensures forall i :: 0 <= i < |left| ==> Join(left, right)[i] != '\0'
    ensures left == Join(left, right)[..|left|] && right == Join(left, right)[|left| + 1..]
  {
  }

  /** Joining tells pairs apart as long as the left parts hold no NUL. */
  lemma JoinIsInjective(a: string, b: string, c: string, d: string)
    requires NulFree(a) && NulFree(c) && Join(a, b) == Join(c, d)
    ensures a == c && b == d
  {
    FirstNul(a, b);
    FirstNul(c, d);
  }

  /** Without that, two different pairs can share a key. */
  lemma JoinConfusesNul()
    ensures Join("a", "b\0c") == Join("a\0b", "c")
  {
  }
}
