/** Taking elements out of sequences that are permutations of each other.

    Two sequences are permutations if they are equal as multisets. An induction over one of them
    looks up its head in the other one (`MatchHead`), takes it out there (`TakeOut`) and goes on
    with what is left on both sides (`Cancel`), until nothing is left on either
    (`NothingIsNothing`). */
module Permutations {

  function Without<T>(s: seq<T>, i: nat): (rest: seq<T>)
    requires i < |s|
    ensures |rest| == |s| - 1
  {
    s[..i] + s[i + 1..]
  }

  lemma TakeOut<T>(s: seq<T>, i: nat)
    requires i < |s|
    ensures s == s[..i] + ([s[i]] + s[i + 1..])
    ensures multiset(s) == multiset{s[i]} + multiset(Without(s, i))
  {
    assert s == s[..i] + ([s[i]] + s[i + 1..]);
    assert multiset(s) == multiset(s[..i]) + multiset([s[i]]) + multiset(s[i + 1..]);
  }

  /** Two reorderings of each other, one of them starting with `x`. */
  lemma MatchHead<T>(xs: seq<T>, ys: seq<T>) returns (i: nat)
    requires xs != [] && multiset(xs) == multiset(ys)
    ensures i < |ys| && ys[i] == xs[0]
    ensures multiset(xs[1..]) == multiset(Without(ys, i))
  {
    assert xs[0] in multiset(ys);
    i :| 0 <= i < |ys| && ys[i] == xs[0];
    TakeOut(xs, 0);
    TakeOut(ys, i);
    assert Without(xs, 0) == xs[1..];
    Cancel(xs[0], multiset(xs[1..]), multiset(Without(ys, i)));
  }

  lemma Cancel<T>(x: T, a: multiset<T>, b: multiset<T>)
    requires multiset{x} + a == multiset{x} + b
    ensures a == b
  {
    assert a == (multiset{x} + a) - multiset{x};
    assert b == (multiset{x} + b) - multiset{x};
  }

  lemma NothingIsNothing<T>(xs: seq<T>, ys: seq<T>)
    requires xs == [] && multiset(xs) == multiset(ys)
    ensures ys == []
  {
    assert |multiset(ys)| == 0;
  }
}
