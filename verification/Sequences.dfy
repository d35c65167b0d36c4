/** Sequences: taking one element out, counted, and concatenation; and the size of sets. */
module Sequences {
  lemma HeadOut<T>(q: seq<T>, more: seq<T>)
    requires q != []
    ensures multiset(q) == multiset{q[0]} + multiset(q[1..])
    ensures multiset(q + more) == multiset{q[0]} + multiset(more + q[1..])
  {
    assert q == [q[0]] + q[1..];
  }

  lemma TakeOut<T>(q: seq<T>, k: nat)
    requires k < |q|
    ensures multiset(q) == multiset{q[k]} + multiset(q[..k] + q[k + 1..])
  {
    assert q == q[..k] + [q[k]] + q[k + 1..];
  }

  lemma Cancel<T>(x: T, a: multiset<T>, b: multiset<T>)
    requires multiset{x} + a == multiset{x} + b
    ensures a == b
  {
    forall y ensures a[y] == b[y] {
      assert (multiset{x} + a)[y] == (multiset{x} + b)[y];
    }
  }

  lemma Assoc<T>(a: seq<T>, b: seq<T>, c: seq<T>)
    ensures a + (b + c) == (a + b) + c
  {
  }

  lemma TailOfConcat<T>(a: seq<T>, b: seq<T>)
    requires a != []
    ensures (a + b)[0] == a[0] && (a + b)[1..] == a[1..] + b
  {
  }

  lemma Subset<T>(a: set<T>, b: set<T>)
    requires a <= b
    ensures |a| <= |b|
  {
    assert b == a + (b - a);
  }
}
