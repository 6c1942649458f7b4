/** Lexicographic order by code point, which is the byte order of the UTF-8 forms. */
module Order {

  predicate Leq(a: string, b: string) {
    a == [] || (b != [] && (a[0] < b[0] || (a[0] == b[0] && Leq(a[1..], b[1..]))))
  }

  lemma {:induction false} LeqTotal(a: string, b: string)
    ensures Leq(a, b) || Leq(b, a)
  {
    if a != [] && b != [] && a[0] == b[0] {
      LeqTotal(a[1..], b[1..]);
    }
  }

  lemma {:induction false} LeqTransitive(a: string, b: string, c: string)
    requires Leq(a, b) && Leq(b, c)
    ensures Leq(a, c)
  {
    if a != [] && a[0] == b[0] && b[0] == c[0] {
      LeqTransitive(a[1..], b[1..], c[1..]);
    }
  }

  predicate Sorted(s: seq<string>) {
    forall i, j :: 0 <= i < j < |s| ==> Leq(s[i], s[j])
  }

  predicate Distinct(s: seq<string>) {
    forall i, j :: 0 <= i < j < |s| ==> s[i] != s[j]
  }

  /** keys lists the set once each, in order. */
  ghost predicate Lists(keys: seq<string>, names: set<string>) {
    Sorted(keys) && Distinct(keys) && forall k :: k in keys <==> k in names
  }

  /** The keys of a map in order: slices.Sort over whatever order the map iteration gives. */
  method SortedNames(names: set<string>) returns (keys: seq<string>)
    ensures Lists(keys, names)
  {
    keys := [];
    var todo := names;
    while todo != {}
      invariant todo <= names
      invariant Lists(keys, names - todo)
    {
      var k :| k in todo;
      var i := 0;
      while i < |keys| && Leq(keys[i], k)
        invariant 0 <= i <= |keys|
        invariant forall j :: 0 <= j < i ==> Leq(keys[j], k)
      {
        i := i + 1;
      }
      InsertKeepsOrder(keys, i, k);
      ghost var before := keys;
      keys := keys[..i] + [k] + keys[i..];
      todo := todo - {k};
      assert before == before[..i] + before[i..];
      assert forall x :: x in keys <==> x in before || x == k;
    }
  }

  lemma InsertKeepsOrder(keys: seq<string>, i: nat, k: string)
    requires Sorted(keys) && Distinct(keys) && k !in keys
    requires i <= |keys|
    requires forall j :: 0 <= j < i ==> Leq(keys[j], k)
    requires i < |keys| ==> !Leq(keys[i], k)
    ensures Sorted(keys[..i] + [k] + keys[i..])
    ensures Distinct(keys[..i] + [k] + keys[i..])
  {
    forall j | i <= j < |keys| ensures Leq(k, keys[j]) {
      LeqTotal(keys[i], k);
      if j > i { LeqTransitive(k, keys[i], keys[j]); }
    }
  }

  lemma {:induction false} LeqAntisymmetric(a: string, b: string)
    requires Leq(a, b) && Leq(b, a)
    ensures a == b
  {
    if a != [] {
      LeqAntisymmetric(a[1..], b[1..]);
      assert a == [a[0]] + a[1..] && b == [b[0]] + b[1..];
    }
  }

  /** Where k goes in a sorted list: after everything that is not greater. */
  function Place(keys: seq<string>, k: string, from: nat): (i: nat)
    requires from <= |keys| && forall j :: 0 <= j < from ==> Leq(keys[j], k)
    ensures from <= i <= |keys|
    ensures forall j :: 0 <= j < i ==> Leq(keys[j], k)
    ensures i < |keys| ==> !Leq(keys[i], k)
    decreases |keys| - from
  {
    if from < |keys| && Leq(keys[from], k) then Place(keys, k, from + 1) else from
  }

  /** The names of a set in order. */
  ghost function Listing(names: set<string>): (keys: seq<string>)
    ensures Lists(keys, names)
  {
    if names == {} then []
    else
      var k :| k in names;
      var rest := Listing(names - {k});
      var i := Place(rest, k, 0);
      InsertLists(rest, names - {k}, i, k);
      assert names - {k} + {k} == names;
      rest[..i] + [k] + rest[i..]
  }

  lemma InsertLists(rest: seq<string>, names: set<string>, i: nat, k: string)
    requires Lists(rest, names) && k !in names && i <= |rest|
    requires forall j :: 0 <= j < i ==> Leq(rest[j], k)
    requires i < |rest| ==> !Leq(rest[i], k)
    ensures Lists(rest[..i] + [k] + rest[i..], names + {k})
  {
    hide Sorted, Distinct, Leq;
    InsertKeepsOrder(rest, i, k);
    assert rest == rest[..i] + rest[i..];
    assert forall x :: x in rest[..i] + [k] + rest[i..] <==> x in rest || x == k;
  }

  lemma {:induction false} ListsFit(a: seq<string>, b: seq<string>)
    requires Sorted(a) && Distinct(a) && Sorted(b) && Distinct(b)
    requires forall x :: x in a ==> x in b
    ensures |a| <= |b|
  {
    if a != [] {
      var n := |a| - 1;
      assert a[n] in a;
      var p :| 0 <= p < |b| && b[p] == a[n];
      forall e | e in a[..n] ensures e in b[..p] {
        assert e in a;
        var q, q' :| 0 <= q < |b| && b[q] == e && 0 <= q' < n && a[q'] == e;
        if q >= p {
          assert Leq(b[p], b[q]) || p == q;
          LeqAntisymmetric(a[q'], a[n]);
        }
      }
      ListsFit(a[..n], b[..p]);
    }
  }

  /** There is only one sorted list of a set: the map iteration order does not show. */
  lemma {:induction false} ListsUnique(a: seq<string>, b: seq<string>, names: set<string>)
    requires Lists(a, names) && Lists(b, names)
    ensures a == b
  {
    ListsFit(a, b);
    ListsFit(b, a);
    if a != [] {
      var n := |a| - 1;
      assert a[n] in names && b[n] in names;
      assert Leq(a[n], b[n]) by {
        var q :| 0 <= q < |b| && b[q] == a[n];
        if q == n { LeqTotal(a[n], a[n]); }
      }
      assert Leq(b[n], a[n]) by {
        var q :| 0 <= q < |a| && a[q] == b[n];
        if q == n { LeqTotal(a[n], a[n]); }
      }
      LeqAntisymmetric(a[n], b[n]);
      var rest := names - {a[n]};
      assert Lists(a[..n], rest) by { FrontLists(a, names); }
      assert Lists(b[..n], rest) by { FrontLists(b, names); }
      ListsUnique(a[..n], b[..n], rest);
      assert a == a[..n] + [a[n]] && b == b[..n] + [b[n]];
    }
  }

  lemma FrontLists(a: seq<string>, names: set<string>)
    requires Lists(a, names) && a != []
    ensures Lists(a[..|a| - 1], names - {a[|a| - 1]})
  {
    var n := |a| - 1;
    forall k ensures k in a[..n] <==> k in names - {a[n]} {
      if k in names - {a[n]} {
        assert k in a;
        var q :| 0 <= q < |a| && a[q] == k;
        assert a[..n][q] == k;
      }
      if k in a[..n] {
        assert k in a;
      }
    }
  }

  lemma {:induction false} ListsCount(keys: seq<string>, names: set<string>)
    requires Lists(keys, names)
    ensures |keys| == |names|
  {
    if keys == [] {
      assert names == {};
    } else {
      FrontLists(keys, names);
      assert keys[|keys| - 1] in names;
      ListsCount(keys[..|keys| - 1], names - {keys[|keys| - 1]});
    }
  }
}
