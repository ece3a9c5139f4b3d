/** Left folds over sequences, and how they split. */
module Folds {
  function Fold<A, B>(f: (A, B) -> A, init: A, items: seq<B>): A {
    if items == [] then init else f(Fold(f, init, items[..|items| - 1]), items[|items| - 1])
  }

  lemma {:induction false} FoldConcat<A, B>(f: (A, B) -> A, init: A, s: seq<B>, t: seq<B>)
    ensures Fold(f, init, s + t) == Fold(f, Fold(f, init, s), t)
  {
    if t == [] {
      assert s + t == s;
    } else {
      assert (s + t)[..|s + t| - 1] == s + t[..|t| - 1];
      FoldConcat(f, init, s, t[..|t| - 1]);
    }
  }

  function Total(f: nat -> nat, s: seq<nat>): nat {
    if s == [] then 0 else Total(f, s[..|s| - 1]) + f(s[|s| - 1])
  }

  ghost predicate NoRepeats(s: seq<nat>) {
    forall i, j :: 0 <= i < j < |s| ==> s[i] != s[j]
  }

  lemma {:induction false} TotalWithout(f: nat -> nat, s: seq<nat>, i: nat)
    requires i < |s|
    ensures Total(f, s) == Total(f, s[..i] + s[i + 1..]) + f(s[i])
  {
    var n := |s| - 1;
    var rest := s[..i] + s[i + 1..];
    if i == n {
      assert rest == s[..n];
    } else {
      TotalWithout(f, s[..n], i);
      assert rest[..n - 1] == s[..n][..i] + s[..n][i + 1..];
      assert rest[n - 1] == s[n];
    }
  }

  lemma Without(s: seq<nat>, i: nat, rest: seq<nat>)
    requires NoRepeats(s) && i < |s| && rest == s[..i] + s[i + 1..]
    ensures NoRepeats(rest) && forall q :: q in rest <==> q in s && q != s[i]
  {
    forall q
      ensures q in rest <==> q in s && q != s[i]
    {
      assert s == s[..i] + [s[i]] + s[i + 1..];
      assert s[i] !in s[..i] && s[i] !in s[i + 1..];
    }
  }

  /** A total does not depend on the order. */
  lemma {:induction false} SameTotal(f: nat -> nat, a: seq<nat>, b: seq<nat>)
    requires NoRepeats(a) && NoRepeats(b) && forall q :: q in a <==> q in b
    ensures Total(f, a) == Total(f, b)
    decreases |a|
  {
    assert |b| > 0 ==> b[0] in a;
    if a != [] {
      var n := |a| - 1;
      assert a[n] in b;
      var i :| 0 <= i < |b| && b[i] == a[n];
      var rest := b[..i] + b[i + 1..];
      TotalWithout(f, b, i);
      Without(b, i, rest);
      assert a[..n] == a[..n] + a[n + 1..];
      Without(a, n, a[..n]);
      SameTotal(f, a[..n], rest);
    }
  }
}
