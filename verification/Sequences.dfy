/** Facts about concatenation that several proofs need. */
module Sequences {
  lemma Associative<T>(a: seq<T>, b: seq<T>, c: seq<T>)
    ensures (a + b) + c == a + (b + c)
  {
  }

  lemma Associative4<T>(a: seq<T>, b: seq<T>, c: seq<T>, d: seq<T>)
    ensures a + b + c + d == a + (b + c + d)
  {
  }

  lemma LastApart<T>(s: seq<T>)
    requires s != []
    ensures s[..|s| - 1] + [s[|s| - 1]] == s
  {
  }

  /** Dropping from a sequence with one more element in front. */
  lemma DropOneMore<T>(first: T, s: seq<T>, i: nat)
    requires i <= |s|
    ensures ([first] + s)[i + 1..] == s[i..]
  {
  }

  /** Taking one element more from the front of `s`. */
  lemma TakeOneMore<T>(front: seq<T>, s: seq<T>, i: nat)
    requires i < |s|
    ensures front + s[..i] + [s[i]] == front + s[..i + 1]
    ensures s[..i] + [s[i]] == s[..i + 1]
  {
  }
}
