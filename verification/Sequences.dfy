/** Facts about sequences, kept apart so that other proofs need not reason about indices. */
module Sequences {

  lemma PeelHead<T>(a: seq<T>, b: seq<T>)
    requires a != []
    ensures a == [a[0]] + a[1..]
    ensures a + b == [a[0]] + (a[1..] + b)
    ensures (a + b)[0] == a[0] && (a + b)[1..] == a[1..] + b
  {}

  lemma PeelLast<T>(a: seq<T>, b: seq<T>)
    requires b != []
    ensures var n := |b| - 1;
            && b == b[..n] + [b[n]]
            && a + b == (a + b[..n]) + [b[n]]
            && (a + b)[..|a + b| - 1] == a + b[..n]
  {}

  lemma Append<T>(s: seq<T>, x: T)
    ensures (s + [x])[..|s + [x]| - 1] == s && (s + [x])[|s + [x]| - 1] == x
  {}

  lemma CountAppend<T>(s: seq<T>, x: T, y: T)
    ensures multiset(s + [x])[y] == multiset(s)[y] + if x == y then 1 else 0
  {}

  lemma Empty<T>(s: seq<T>)
    ensures s + [] == s && [] + s == s
  {}

  lemma Associative<T>(a: seq<T>, b: seq<T>, c: seq<T>)
    ensures (a + b) + c == a + (b + c)
  {}

  lemma TakeHead<T>(s: seq<T>, n: nat)
    requires 1 <= n <= |s|
    ensures s[..n] == [s[0]] + s[1..][..n - 1]
  {}

  /** Cutting a concatenation at or before the seam. */
  lemma CutBefore<T>(a: seq<T>, b: seq<T>, n: nat)
    requires n <= |a|
    ensures (a + b)[..n] == a[..n] && (a + b)[n..] == a[n..] + b
  {}
}
