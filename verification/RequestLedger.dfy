/**
  The once-only request ledger that both agent adapters implement.

  A request key is fresh, then open, then settled, and never goes back. The ledger keeps the
  open requests in the order in which they arrived, so that it also says in which order the
  requests still open at the end of a turn are to be closed. Every request carries a tag (what
  its settlement has to agree with: the session it came from, or the kind of the request).
 */
module RequestLedger {
  import Lists

  datatype Act<K, V> = Ask(key: K, tag: V) | Settle(key: K, tag: V)

  datatype Open<K, V> = Open(key: K, tag: V)

  datatype Ledger<K, V> = Ledger(open: seq<Open<K, V>>, settled: set<K>)

  predicate IsOpen<K(==), V>(open: seq<Open<K, V>>, k: K) {
    exists i :: 0 <= i < |open| && open[i].key == k
  }

  /** An ask needs a fresh key; a settlement needs an open request with the same tag. */
  predicate Legal<K, V(==)>(l: Ledger<K, V>, a: Act<K, V>) {
    match a
    case Ask(k, v) => !IsOpen(l.open, k) && k !in l.settled
    case Settle(k, v) => Open(k, v) in l.open
  }

  function KeyIn<K, V>(o: Open<K, V>): K { o.key }

  /** The open requests whose key is among ks, in order. */
  function Among<K(==), V>(open: seq<Open<K, V>>, ks: set<K>): seq<Open<K, V>> { Lists.Pick(open, KeyIn, ks) }

  /** The open requests whose key is not among ks, in order. */
  function Outside<K(==), V>(open: seq<Open<K, V>>, ks: set<K>): seq<Open<K, V>> { Lists.Drop(open, KeyIn, ks) }

  lemma Members<K, V>(open: seq<Open<K, V>>, ks: set<K>)
    ensures forall o :: o in Among(open, ks) ==> o in open && o.key in ks
    ensures forall o :: o in open && o.key in ks ==> o in Among(open, ks)
    ensures forall o :: o in Outside(open, ks) ==> o in open && o.key !in ks
    ensures forall o :: o in open && o.key !in ks ==> o in Outside(open, ks)
  {
    Lists.Chosen(open, KeyIn, ks);
  }

  function Apply<K(==), V(==)>(l: Ledger<K, V>, a: Act<K, V>): Ledger<K, V> {
    match a
    case Ask(k, v) => l.(open := l.open + [Open(k, v)])
    case Settle(k, v) => Ledger(Outside(l.open, {k}), l.settled + {k})
  }

  function Replay<K(==), V(==)>(l: Ledger<K, V>, acts: seq<Act<K, V>>): Ledger<K, V> {
    if acts == [] then l
    else Apply(Replay(l, acts[..|acts| - 1]), acts[|acts| - 1])
  }

  /** Every act of the sequence is legal when its turn comes. */
  predicate Lawful<K(==), V(==)>(l: Ledger<K, V>, acts: seq<Act<K, V>>) {
    acts == [] ||
    (Lawful(l, acts[..|acts| - 1]) && Legal(Replay(l, acts[..|acts| - 1]), acts[|acts| - 1]))
  }

  function Empty<K, V>(): Ledger<K, V> { Ledger([], {}) }

  /** Replaying two stretches one after the other is replaying their concatenation. */
  lemma {:induction false} ReplayConcat<K, V>(l: Ledger<K, V>, a: seq<Act<K, V>>, b: seq<Act<K, V>>)
    ensures Replay(l, a + b) == Replay(Replay(l, a), b)
    ensures Lawful(l, a + b) <==> Lawful(l, a) && Lawful(Replay(l, a), b)
  {
    if b == [] {
      assert a + b == a;
    } else {
      ReplayConcat(l, a, b[..|b| - 1]);
      assert (a + b)[..|a + b| - 1] == a + b[..|b| - 1];
    }
  }

  lemma ReplayOne<K, V>(l: Ledger<K, V>, a: Act<K, V>)
    ensures Replay(l, [a]) == Apply(l, a)
    ensures Lawful(l, [a]) <==> Legal(l, a)
  {
    assert [a][..0] == [];
  }

  lemma {:induction false} OutsideConcat<K, V>(a: seq<Open<K, V>>, b: seq<Open<K, V>>, ks: set<K>)
    ensures Outside(a + b, ks) == Outside(a, ks) + Outside(b, ks)
  {
    if b == [] {
      assert a + b == a;
    } else {
      OutsideConcat(a, b[..|b| - 1], ks);
      assert (a + b)[..|a + b| - 1] == a + b[..|b| - 1];
    }
  }

  lemma {:induction false} OutsideUntouched<K, V>(open: seq<Open<K, V>>, ks: set<K>)
    requires forall o :: o in open ==> o.key !in ks
    ensures Outside(open, ks) == open
  {
    if open != [] {
      assert open[|open| - 1] in open;
      assert open == open[..|open| - 1] + [open[|open| - 1]];
      OutsideUntouched(open[..|open| - 1], ks);
    }
  }

  // ----- what a lawful sequence of acts means, counted from the outside -----

  function Asks<K(==), V>(acts: seq<Act<K, V>>, k: K): nat {
    if acts == [] then 0
    else Asks(acts[..|acts| - 1], k) + if acts[|acts| - 1].Ask? && acts[|acts| - 1].key == k then 1 else 0
  }

  function Settles<K(==), V>(acts: seq<Act<K, V>>, k: K): nat {
    if acts == [] then 0
    else Settles(acts[..|acts| - 1], k) + if acts[|acts| - 1].Settle? && acts[|acts| - 1].key == k then 1 else 0
  }

  ghost predicate Distinct<K, V>(open: seq<Open<K, V>>) {
    forall i, j :: 0 <= i < j < |open| ==> open[i].key != open[j].key
  }

  lemma {:induction false} OutsideDistinct<K, V>(open: seq<Open<K, V>>, ks: set<K>)
    requires Distinct(open)
    ensures Distinct(Outside(open, ks))
  {
    if open != [] {
      OutsideDistinct(open[..|open| - 1], ks);
      Members(open[..|open| - 1], ks);
      var r := Outside(open[..|open| - 1], ks);
      forall i | 0 <= i < |r| ensures r[i].key != open[|open| - 1].key {
        assert r[i] in r;
        var j :| 0 <= j < |open| - 1 && open[..|open| - 1][j] == r[i];
      }
    }
  }

  lemma OpenAfterAsk<K, V>(open: seq<Open<K, V>>, o: Open<K, V>, k: K)
    ensures IsOpen(open + [o], k) <==> IsOpen(open, k) || k == o.key
  {
    var after := open + [o];
    assert after[|open|] == o;
    if IsOpen(open, k) {
      var i :| 0 <= i < |open| && open[i].key == k;
      assert after[i].key == k;
    }
  }

  lemma OpenAfterSettle<K, V>(open: seq<Open<K, V>>, ks: set<K>, k: K)
    ensures IsOpen(Outside(open, ks), k) <==> IsOpen(open, k) && k !in ks
  {
    Members(open, ks);
    var after := Outside(open, ks);
    if IsOpen(open, k) && k !in ks {
      var i :| 0 <= i < |open| && open[i].key == k;
      assert open[i] in after;
    }
    if IsOpen(after, k) {
      var i :| 0 <= i < |after| && after[i].key == k;
      assert after[i] in open;
    }
  }

  /**
    The law of the ledger: in a lawful sequence each key is asked for at most once and settled
    at most once, only after it was asked for; it is open exactly while it has been asked for
    and not settled.
   */
  lemma {:induction false} OnceOnly<K, V>(acts: seq<Act<K, V>>, k: K)
    requires Lawful(Empty(), acts)
    ensures Settles(acts, k) <= Asks(acts, k) <= 1
    ensures IsOpen(Replay(Empty<K, V>(), acts).open, k) <==> Asks(acts, k) - Settles(acts, k) == 1
    ensures k in Replay(Empty<K, V>(), acts).settled <==> Settles(acts, k) == 1
    ensures Distinct(Replay(Empty<K, V>(), acts).open)
  {
    if acts != [] {
      var before := acts[..|acts| - 1];
      var l := Replay(Empty<K, V>(), before);
      var a := acts[|acts| - 1];
      OnceOnly(before, k);
      match a
      case Ask(k', v) =>
        OpenAfterAsk(l.open, Open(k', v), k);
        assert forall i :: 0 <= i < |l.open| ==> l.open[i].key != k';
      case Settle(k', v) =>
        OutsideDistinct(l.open, {k'});
        OpenAfterSettle(l.open, {k'}, k);
        var j :| 0 <= j < |l.open| && l.open[j] == Open(k', v);
        assert IsOpen(l.open, k');
    }
  }

  /** What is open was asked for with the tag under which it is open. */
  lemma {:induction false} OpenWasAsked<K, V>(acts: seq<Act<K, V>>, o: Open<K, V>)
    requires Lawful(Empty(), acts)
    requires o in Replay(Empty<K, V>(), acts).open
    ensures Ask(o.key, o.tag) in acts
  {
    if acts != [] {
      var before := acts[..|acts| - 1];
      var l := Replay(Empty<K, V>(), before);
      if acts[|acts| - 1].Settle? {
        Members(l.open, {acts[|acts| - 1].key});
      }
      if o in l.open {
        OpenWasAsked(before, o);
      } else {
        assert acts[|acts| - 1] == Ask(o.key, o.tag);
      }
    }
  }

  /** A settlement comes after the ask with the same key and the same tag. */
  lemma SettledAsAsked<K, V>(acts: seq<Act<K, V>>, j: nat)
    requires Lawful(Empty(), acts)
    requires j < |acts| && acts[j].Settle?
    ensures Ask(acts[j].key, acts[j].tag) in acts[..j]
  {
    LawfulPrefix(acts, j + 1);
    assert acts[..j + 1][..j] == acts[..j];
    OpenWasAsked(acts[..j], Open(acts[j].key, acts[j].tag));
  }

  /** The open requests stand in the order in which they were asked for. */
  lemma {:induction false} AskedInOrder<K, V>(acts: seq<Act<K, V>>, i: nat, j: nat) returns (p: nat, q: nat)
    requires Lawful(Empty(), acts)
    requires i < j < |Replay(Empty<K, V>(), acts).open|
    ensures var open := Replay(Empty<K, V>(), acts).open;
      && p < q < |acts|
      && acts[p] == Ask(open[i].key, open[i].tag) && acts[q] == Ask(open[j].key, open[j].tag)
  {
    var before, a := acts[..|acts| - 1], acts[|acts| - 1];
    var l := Replay(Empty<K, V>(), before);
    match a
    case Ask(k, v) =>
      if j < |l.open| {
        p, q := AskedInOrder(before, i, j);
      } else {
        OpenWasAsked(before, l.open[i]);
        p :| 0 <= p < |before| && before[p] == Ask(l.open[i].key, l.open[i].tag);
        q := |before|;
      }
    case Settle(k, v) =>
      var i', j' := OutsideKeepsOrder(l.open, {k}, i, j);
      p, q := AskedInOrder(before, i', j');
  }

  lemma {:induction false} OutsideKeepsOrder<K, V>(open: seq<Open<K, V>>, ks: set<K>, i: nat, j: nat) returns (i': nat, j': nat)
    requires i < j < |Outside(open, ks)|
    ensures i' < j' < |open| && open[i'] == Outside(open, ks)[i] && open[j'] == Outside(open, ks)[j]
  {
    var front := open[..|open| - 1];
    if j < |Outside(front, ks)| {
      i', j' := OutsideKeepsOrder(front, ks, i, j);
    } else {
      Members(front, ks);
      assert Outside(front, ks)[i] in front;
      i' :| 0 <= i' < |front| && front[i'] == Outside(front, ks)[i];
      j' := |front|;
    }
  }

  lemma LawfulPrefix<K, V>(acts: seq<Act<K, V>>, n: nat)
    requires Lawful(Empty(), acts)
    requires n <= |acts|
    ensures Lawful(Empty(), acts[..n])
  {
    assert acts[..n] + acts[n..] == acts;
    ReplayConcat(Empty<K, V>(), acts[..n], acts[n..]);
  }

  // ----- closing a batch of open requests in arrival order -----

  function Cancels<K, V>(open: seq<Open<K, V>>): seq<Act<K, V>> {
    seq(|open|, i requires 0 <= i < |open| => Settle(open[i].key, open[i].tag))
  }

  function KeysOf<K(==), V>(open: seq<Open<K, V>>): set<K> {
    if open == [] then {} else KeysOf(open[..|open| - 1]) + {open[|open| - 1].key}
  }

  /** Cancelling the chosen requests of the front of the list, one after the other, leaves the others. */
  lemma {:induction false} CancelFront<K, V>(a: seq<Open<K, V>>, b: seq<Open<K, V>>, settled: set<K>, ks: set<K>)
    requires Distinct(a + b)
    ensures Lawful(Ledger(a + b, settled), Cancels(Among(a, ks)))
    ensures Replay(Ledger(a + b, settled), Cancels(Among(a, ks))) ==
            Ledger(Outside(a, ks) + b, settled + KeysOf(Among(a, ks)))
  {
    if a == [] {
      assert a + b == b == Outside(a, ks) + b;
      assert settled + KeysOf(Among(a, ks)) == settled;
    } else {
      var front, x := a[..|a| - 1], a[|a| - 1];
      assert a + b == front + ([x] + b) by { assert a == front + [x]; }
      CancelFront(front, [x] + b, settled, ks);
      CancelNext(front, x, b, settled, ks);
    }
  }

  lemma CancelNext<K, V>(front: seq<Open<K, V>>, x: Open<K, V>, b: seq<Open<K, V>>, settled: set<K>, ks: set<K>)
    requires Distinct(front + ([x] + b))
    requires Lawful(Ledger(front + ([x] + b), settled), Cancels(Among(front, ks)))
    requires Replay(Ledger(front + ([x] + b), settled), Cancels(Among(front, ks))) ==
             Ledger(Outside(front, ks) + ([x] + b), settled + KeysOf(Among(front, ks)))
    ensures var a := front + [x]; var l := Ledger(front + ([x] + b), settled);
      && Lawful(l, Cancels(Among(a, ks)))
      && Replay(l, Cancels(Among(a, ks))) == Ledger(Outside(a, ks) + b, settled + KeysOf(Among(a, ks)))
  {
    hide Replay, Lawful, Among, Outside, Distinct;
    var a, l := front + [x], Ledger(front + ([x] + b), settled);
    Snoc(front, x, ks);
    if x.key !in ks {
      assert Outside(front, ks) + ([x] + b) == Outside(a, ks) + b;
    } else {
      var done, last := Among(front, ks), Settle(x.key, x.tag);
      assert Cancels(done + [x]) == Cancels(done) + [last];
      ReplayConcat(l, Cancels(done), [last]);
      var mid := Ledger(Outside(front, ks) + ([x] + b), settled + KeysOf(done));
      ReplayOne(mid, last);
      assert mid.open[|Outside(front, ks)|] == Open(x.key, x.tag);
      CancelOne(front, x, b, ks);
      assert (done + [x])[..|done|] == done;
      assert settled + KeysOf(done) + {x.key} == settled + (KeysOf(done) + {x.key});
    }
  }

  lemma Snoc<K, V>(front: seq<Open<K, V>>, x: Open<K, V>, ks: set<K>)
    ensures Among(front + [x], ks) == if x.key in ks then Among(front, ks) + [x] else Among(front, ks)
    ensures Outside(front + [x], ks) == if x.key in ks then Outside(front, ks) else Outside(front, ks) + [x]
  {
    assert (front + [x])[..|front|] == front;
  }

  lemma ElsewhereDiffers<K, V>(front: seq<Open<K, V>>, x: Open<K, V>, b: seq<Open<K, V>>)
    requires Distinct(front + ([x] + b))
    ensures forall o :: o in front ==> o.key != x.key
    ensures forall o :: o in b ==> o.key != x.key
  {
    var all := front + ([x] + b);
    assert all[|front|] == x;
    assert forall i :: 0 <= i < |front| ==> all[i] == front[i];
    assert forall i :: 0 <= i < |b| ==> all[|front| + 1 + i] == b[i];
  }

  lemma CancelOne<K, V>(front: seq<Open<K, V>>, x: Open<K, V>, b: seq<Open<K, V>>, ks: set<K>)
    requires Distinct(front + ([x] + b))
    ensures Outside(Outside(front, ks) + ([x] + b), {x.key}) == Outside(front, ks) + b
  {
    hide Distinct, Outside;
    var kept := Outside(front, ks);
    Members(front, ks);
    ElsewhereDiffers(front, x, b);
    OutsideConcat(kept, [x] + b, {x.key});
    OutsideConcat([x], b, {x.key});
    OutsideUntouched(kept, {x.key});
    OutsideUntouched(b, {x.key});
    Snoc([], x, {x.key});
    assert [] + [x] == [x];
    OutsideUntouched<K, V>([], {x.key});
  }

  /** Cancelling every open request with a key in ks, in arrival order, is lawful and leaves the others. */
  lemma CancelBatch<K, V>(l: Ledger<K, V>, ks: set<K>)
    requires Distinct(l.open)
    ensures Lawful(l, Cancels(Among(l.open, ks)))
    ensures Replay(l, Cancels(Among(l.open, ks))) ==
            Ledger(Outside(l.open, ks), l.settled + KeysOf(Among(l.open, ks)))
  {
    assert l.open + [] == l.open;
    assert Outside(l.open, ks) + [] == Outside(l.open, ks);
    CancelFront(l.open, [], l.settled, ks);
  }
}
