/** What the adapters take from Go: maps that start as nil, and sorting by arrival number. */
module Go {

  /** A Go map: nil until it is made. A nil map can be read and deleted from, not written to. */
  datatype GoMap<K, V> = Nil | Made(rows: map<K, V>)
  {
    function Rows(): map<K, V> { if Nil? then map[] else rows }
    function Set(k: K, v: V): GoMap<K, V> requires Made? { Made(rows[k := v]) }
    function Delete(k: K): GoMap<K, V> { if Nil? then Nil else Made(rows - {k}) }
    function Make(): GoMap<K, V> { if Nil? then Made(map[]) else this }
  }

  lemma MadeRows<K, V>(g: GoMap<K, V>)
    ensures g.Make().Made? && g.Make().Rows() == g.Rows()
  {
  }

  lemma SetRows<K, V>(g: GoMap<K, V>, k: K, v: V)
    requires g.Made?
    ensures g.Set(k, v).Made? && g.Set(k, v).Rows() == g.Rows()[k := v]
  {
  }

  lemma DeleteRows<K, V>(g: GoMap<K, V>, k: K)
    ensures g.Delete(k).Made? == g.Made? && g.Delete(k).Rows() == g.Rows() - {k}
  {
  }

  lemma SetKeys<K, V>(g: GoMap<K, V>, k: K, v: V)
    requires g.Made?
    ensures g.Set(k, v).Made? && g.Set(k, v).Rows().Keys == g.Rows().Keys + {k}
  {
  }

  datatype Arrival<T> = Arrival(seqNo: nat, item: T)

  predicate Sorted<T>(es: seq<Arrival<T>>) {
    forall i, j :: 0 <= i < j < |es| ==> es[i].seqNo < es[j].seqNo
  }

  lemma {:induction false} SortedFits<T>(a: seq<Arrival<T>>, b: seq<Arrival<T>>)
    requires Sorted(a) && Sorted(b)
    requires forall x :: x in a ==> x in b
    ensures |a| <= |b|
  {
    if a != [] {
      var a', x := a[..|a| - 1], a[|a| - 1];
      assert x in a;
      var p :| 0 <= p < |b| && b[p] == x;
      forall e | e in a' ensures e in b[..p] {
        assert e in a;
        var q :| 0 <= q < |b| && b[q] == e;
        assert q < p;
      }
      SortedFits(a', b[..p]);
    }
  }

  /** Two strictly sorted lists with the same rows are the same list. */
  lemma {:induction false} SortedUnique<T>(a: seq<Arrival<T>>, b: seq<Arrival<T>>)
    requires Sorted(a) && Sorted(b)
    requires forall x :: x in a <==> x in b
    ensures a == b
  {
    SortedFits(a, b);
    SortedFits(b, a);
    if a != [] {
      var n := |a| - 1;
      LastSame(a, b);
      forall e ensures e in a[..n] <==> e in b[..n] {
        if e in a[..n] { assert e in a && e != a[n]; }
        if e in b[..n] { assert e in b && e != b[n]; }
      }
      SortedUnique(a[..n], b[..n]);
      assert a == a[..n] + [a[n]] && b == b[..n] + [b[n]];
    }
  }

  lemma LastSame<T>(a: seq<Arrival<T>>, b: seq<Arrival<T>>)
    requires Sorted(a) && Sorted(b) && |a| == |b| > 0
    requires forall x :: x in a <==> x in b
    ensures a[|a| - 1] == b[|a| - 1]
  {
    var n := |a| - 1;
    assert a[n] in b && b[n] in a;
  }

  lemma InsertKeepsOrder<T>(r: seq<Arrival<T>>, i: nat, e: Arrival<T>)
    requires Sorted(r) && i <= |r|
    requires forall j :: 0 <= j < i ==> r[j].seqNo < e.seqNo
    requires i < |r| ==> e.seqNo < r[i].seqNo
    ensures Sorted(r[..i] + [e] + r[i..])
    ensures forall x :: x in r[..i] + [e] + r[i..] <==> x in r || x == e
  {
    assert r == r[..i] + r[i..];
    forall j | i <= j < |r| ensures e.seqNo < r[j].seqNo {
      if j > i { assert r[i].seqNo < r[j].seqNo; }
    }
  }

  /** Insertion by arrival number: slices.SortFunc over rows with distinct numbers. */
  method SortRows<T(==)>(es: seq<Arrival<T>>) returns (r: seq<Arrival<T>>)
    requires forall i, j :: 0 <= i < j < |es| ==> es[i].seqNo != es[j].seqNo
    ensures Sorted(r)
    ensures forall x :: x in r <==> x in es
  {
    r := [];
    for n := 0 to |es|
      invariant Sorted(r)
      invariant forall x :: x in r <==> x in es[..n]
    {
      var i := 0;
      while i < |r| && r[i].seqNo < es[n].seqNo
        invariant 0 <= i <= |r|
        invariant forall j :: 0 <= j < i ==> r[j].seqNo < es[n].seqNo
      {
        i := i + 1;
      }
      assert i < |r| ==> r[i] in es[..n];
      InsertKeepsOrder(r, i, es[n]);
      r := r[..i] + [es[n]] + r[i..];
      assert es[..n + 1] == es[..n] + [es[n]];
    }
    assert es[..|es|] == es;
  }
}
