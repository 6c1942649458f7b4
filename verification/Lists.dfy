/** Small facts about sequences that several of the models use. */
module Lists {

  /** The concatenation of what f makes of each element. */
  function Collect<T, A>(s: seq<T>, f: T -> seq<A>): seq<A> {
    if s == [] then [] else Collect(s[..|s| - 1], f) + f(s[|s| - 1])
  }

  lemma {:induction false} CollectConcat<T, A>(a: seq<T>, b: seq<T>, f: T -> seq<A>)
    ensures Collect(a + b, f) == Collect(a, f) + Collect(b, f)
  {
    if b == [] {
      assert a + b == a;
    } else {
      CollectConcat(a, b[..|b| - 1], f);
      assert (a + b)[..|a + b| - 1] == a + b[..|b| - 1];
    }
  }

  lemma CollectOne<T, A>(x: T, f: T -> seq<A>)
    ensures Collect([x], f) == f(x)
  {
    assert [x][..0] == [];
    assert Collect([x][..0], f) == [];
  }

  lemma {:induction false} CollectNone<T, A>(s: seq<T>, f: T -> seq<A>)
    requires forall i :: 0 <= i < |s| ==> f(s[i]) == []
    ensures Collect(s, f) == []
  {
    if s != [] {
      CollectNone(s[..|s| - 1], f);
    }
  }

  // ----- choosing by key -----

  /** The elements whose key is among ks, in order. */
  function Pick<T, K(==)>(s: seq<T>, key: T -> K, ks: set<K>): seq<T> {
    if s == [] then []
    else
      var rest := Pick(s[..|s| - 1], key, ks);
      if key(s[|s| - 1]) in ks then rest + [s[|s| - 1]] else rest
  }

  /** The elements whose key is not among ks, in order. */
  function Drop<T, K(==)>(s: seq<T>, key: T -> K, ks: set<K>): seq<T> {
    if s == [] then []
    else
      var rest := Drop(s[..|s| - 1], key, ks);
      if key(s[|s| - 1]) in ks then rest else rest + [s[|s| - 1]]
  }

  lemma {:induction false} Chosen<T, K>(s: seq<T>, key: T -> K, ks: set<K>)
    ensures forall x :: x in Pick(s, key, ks) ==> x in s && key(x) in ks
    ensures forall x :: x in s && key(x) in ks ==> x in Pick(s, key, ks)
    ensures forall x :: x in Drop(s, key, ks) ==> x in s && key(x) !in ks
    ensures forall x :: x in s && key(x) !in ks ==> x in Drop(s, key, ks)
    ensures |Pick(s, key, ks)| + |Drop(s, key, ks)| == |s|
  {
    if s != [] {
      Chosen(s[..|s| - 1], key, ks);
    }
  }
}
