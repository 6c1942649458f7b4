/** sandbox/bwrap: the order of the mounts. */
module Bwrap {
  import opened Strings
  import opened Contract

  datatype Bind = Bind(src: string, dst: string, rw: bool, inHome: bool)

  /** The operations that bwrap carries out one after the other. */
  datatype Op = Link(dst: string) | Fixed(dst: string) | Tmpfs(dst: string) | BindAt(bind: Bind)
  {
    function Dst(): string { if BindAt? then bind.dst else dst }
  }

  // ----- ancestorsFirst -----

  /** No bind stands before one that it is below. */
  predicate Ordered(bs: seq<Bind>) {
    forall i, j :: 0 <= i < j < |bs| ==> !Below(bs[i].dst, bs[j].dst)
  }

  /** The first bind that is below dst. */
  function Place(bs: seq<Bind>, dst: string): (i: nat)
    ensures i <= |bs| && (i < |bs| ==> Below(bs[i].dst, dst))
    ensures forall j :: 0 <= j < i ==> !Below(bs[j].dst, dst)
  {
    if bs == [] || Below(bs[0].dst, dst) then 0
    else
      var i := Place(bs[1..], dst);
      assert forall j :: 1 <= j < |bs| ==> bs[j] == bs[1..][j - 1];
      i + 1
  }

  function Insert(bs: seq<Bind>, b: Bind): seq<Bind> {
    var i := Place(bs, b.dst);
    bs[..i] + [b] + bs[i..]
  }

  function Arrange(bs: seq<Bind>): seq<Bind> {
    if bs == [] then [] else Insert(Arrange(bs[..|bs| - 1]), bs[|bs| - 1])
  }

  lemma InsertSame(bs: seq<Bind>, b: Bind, i: nat)
    requires i <= |bs|
    ensures multiset(bs[..i] + [b] + bs[i..]) == multiset(bs) + multiset{b}
  {
    assert bs == bs[..i] + bs[i..];
  }

  /** Nothing from the place on is above what is put there. */
  lemma NoneAbove(bs: seq<Bind>, dst: string, i: nat, j: nat)
    requires Ordered(bs) && i <= j < |bs| && Below(bs[i].dst, dst)
    ensures !Below(dst, bs[j].dst)
  {
    hide Below;
    if Below(dst, bs[j].dst) {
      BelowTrans(bs[i].dst, dst, bs[j].dst);
      BelowLonger(bs[i].dst, bs[j].dst);
    }
  }

  lemma InsertOrdered(bs: seq<Bind>, b: Bind)
    requires Ordered(bs)
    ensures Ordered(Insert(bs, b)) && multiset(Insert(bs, b)) == multiset(bs) + multiset{b}
  {
    hide Below, Place;
    var i := Place(bs, b.dst);
    var out := Insert(bs, b);
    InsertSame(bs, b, i);
    forall k, j | 0 <= k < j < |out| ensures !Below(out[k].dst, out[j].dst) {
      if j == i {
        assert out[k] == bs[k];
      } else if k == i {
        assert out[j] == bs[j - 1];
        NoneAbove(bs, b.dst, i, j - 1);
      } else {
        assert out[k] == bs[if k < i then k else k - 1] && out[j] == bs[if j < i then j else j - 1];
      }
    }
  }

  /** The arranged binds are the same binds, none before one that it is below. */
  lemma {:induction false} ArrangeOrdered(bs: seq<Bind>)
    ensures Ordered(Arrange(bs)) && multiset(Arrange(bs)) == multiset(bs)
  {
    hide Insert;
    if bs != [] {
      ArrangeOrdered(bs[..|bs| - 1]);
      InsertOrdered(Arrange(bs[..|bs| - 1]), bs[|bs| - 1]);
      assert bs == bs[..|bs| - 1] + [bs[|bs| - 1]];
    }
  }

  /** ancestorsFirst, as the loops of the source do it. */
  method AncestorsFirst(binds: seq<Bind>) returns (out: seq<Bind>)
    ensures out == Arrange(binds)
  {
    hide Below, Arrange, Place, Insert;
    out := [];
    ArrangeNone();
    for n := 0 to |binds|
      invariant out == Arrange(binds[..n])
    {
      var b, at := binds[n], 0;
      while at < |out| && !Below(out[at].dst, b.dst)
        invariant at <= |out|
        invariant forall j :: 0 <= j < at ==> !Below(out[j].dst, b.dst)
      {
        at := at + 1;
      }
      InsertAt(out, b, at);
      ArrangeNext(binds, n);
      out := out[..at] + [b] + out[at..];
    }
    assert binds[..|binds|] == binds;
  }

  lemma ArrangeNone()
    ensures Arrange([]) == []
  {
  }

  lemma ArrangeNext(binds: seq<Bind>, n: nat)
    requires n < |binds|
    ensures Arrange(binds[..n + 1]) == Insert(Arrange(binds[..n]), binds[n])
  {
    hide Insert;
    assert binds[..n + 1][..n] == binds[..n];
  }

  lemma InsertAt(bs: seq<Bind>, b: Bind, at: nat)
    requires at <= |bs| && (at < |bs| ==> Below(bs[at].dst, b.dst))
    requires forall j :: 0 <= j < at ==> !Below(bs[j].dst, b.dst)
    ensures Insert(bs, b) == bs[..at] + [b] + bs[at..]
  {
    hide Below, Place;
    var i := Place(bs, b.dst);
    assert i == at;
  }

  // ----- translate and argv -----

  const USR := Bind("/usr", "/usr", false, false)

  function BindsOf(ms: seq<Mount>, rw: bool): seq<Bind> {
    seq(|ms|, i requires 0 <= i < |ms| => Bind(ms[i].hostPath, ms[i].Guest(), rw, ms[i].inHome))
  }

  function AllBinds(s: Spec): seq<Bind> {
    (if s.system then [USR] else []) + BindsOf(s.read, false) + BindsOf(s.write, true)
  }

  function Links(s: Spec): seq<Op> {
    if s.system then [Link("/lib"), Link("/lib64"), Link("/bin"), Link("/sbin")] else []
  }

  function TmpfsOps(ps: seq<string>): seq<Op> { seq(|ps|, i requires 0 <= i < |ps| => Tmpfs(ps[i])) }

  function BindOps(bs: seq<Bind>): seq<Op> { seq(|bs|, i requires 0 <= i < |bs| => BindAt(bs[i])) }

  function Before(s: Spec): seq<Op> { Links(s) + [Fixed("/proc"), Fixed("/dev")] + TmpfsOps(s.scratch) }

  function Ops(s: Spec): seq<Op> { Before(s) + BindOps(Arrange(AllBinds(s))) }

  predicate Linux(r: Rules) { r.policy == LINUX && r.pathRemap }

  /** Operation i is the last one at or above q: what is to be seen at q. */
  ghost predicate Visible(ops: seq<Op>, q: string, i: nat) {
    i < |ops| && Under(q, ops[i].Dst()) && forall j :: i < j < |ops| ==> !Under(q, ops[j].Dst())
  }

  lemma {:induction false} LastUnder(ops: seq<Op>, q: string) returns (i: nat)
    requires exists k :: 0 <= k < |ops| && Under(q, ops[k].Dst())
    ensures Visible(ops, q, i)
  {
    hide Under;
    i := |ops| - 1;
    if !Under(q, ops[i].Dst()) {
      var front := ops[..i];
      var k :| 0 <= k < |ops| && Under(q, ops[k].Dst());
      assert front[k] == ops[k];
      i := LastUnder(front, q);
    }
  }

  lemma ArrangedSame(bs: seq<Bind>)
    ensures forall b :: b in Arrange(bs) <==> b in bs
  {
    hide Arrange;
    ArrangeOrdered(bs);
    forall b ensures b in Arrange(bs) <==> b in bs {
      assert b in multiset(Arrange(bs)) <==> b in multiset(bs);
    }
  }

  /** Where a bind goes is claimed, and is not the root. */
  lemma BindClaimed(r: Rules, s: Spec, b: Bind)
    requires Linux(r) && b in AllBinds(s)
    ensures b.dst in MountGuests(s) + SystemBinds(r, s)
  {
    if b in BindsOf(s.read, false) {
      var i :| 0 <= i < |s.read| && BindsOf(s.read, false)[i] == b;
      assert Guests(s.read)[i] == b.dst;
    } else if b in BindsOf(s.write, true) {
      var i :| 0 <= i < |s.write| && BindsOf(s.write, true)[i] == b;
      assert Guests(s.write)[i] == b.dst;
    }
  }

  lemma DstOk(r: Rules, s: Spec, b: Bind)
    requires Linux(r) && Valid(r, s) && b in AllBinds(s)
    ensures b.dst != "/" && b.dst != "" && GuestOk(r, b.dst)
  {
    hide AllBinds;
    BindClaimed(r, s, b);
    assert b.dst in Claims(r, s);
  }

  /**
    The deepest bind wins: wherever a bind lies at or above a path, what is to be seen there is a
    bind, and every bind at or above the path is at or above that one.
   */
  lemma DeepestBindWins(r: Rules, s: Spec, q: string, b: Bind) returns (i: nat)
    requires Linux(r) && Valid(r, s) && b in AllBinds(s) && Under(q, b.dst)
    ensures Visible(Ops(s), q, i) && Ops(s)[i].BindAt? && Ops(s)[i].bind in AllBinds(s)
    ensures forall c :: c in AllBinds(s) && Under(q, c.dst) ==> Under(Ops(s)[i].bind.dst, c.dst)
  {
    hide Valid, AllBinds, Arrange, Under, Below, Ordered;
    var ops, arranged, n := Ops(s), Arrange(AllBinds(s)), |Before(s)|;
    ArrangedSame(AllBinds(s));
    ArrangeOrdered(AllBinds(s));
    var k :| 0 <= k < |arranged| && arranged[k] == b;
    assert ops[n + k] == BindAt(b);
    i := LastUnder(ops, q);
    assert i >= n;
    var top := arranged[i - n];
    assert ops[i] == BindAt(top) && top in arranged;
    forall c | c in AllBinds(s) && Under(q, c.dst) ensures Under(top.dst, c.dst) {
      assert c in arranged;
      var m :| 0 <= m < |arranged| && arranged[m] == c;
      assert ops[n + m] == BindAt(c);
      assert m <= i - n;
      DstOk(r, s, c);
      DstOk(r, s, top);
      AboveEarlier(arranged, m, i - n, q);
    }
  }

  lemma AboveEarlier(bs: seq<Bind>, m: nat, i: nat, q: string)
    requires Ordered(bs) && m <= i < |bs| && Under(q, bs[m].dst) && Under(q, bs[i].dst)
    requires bs[m].dst != "/" && bs[i].dst != "/"
    ensures Under(bs[i].dst, bs[m].dst)
  {
    hide Below;
    Comparable(q, bs[m].dst, bs[i].dst);
  }

  lemma SameDst(r: Rules, s: Spec, b: Bind, c: Bind)
    requires Linux(r) && Valid(r, s) && b in AllBinds(s) && c in AllBinds(s) && b.dst == c.dst
    ensures b == c
  {
    hide Valid, AllBinds, SystemBinds, MountGuests;
    var bs, gs := AllBinds(s), SystemBinds(r, s) + MountGuests(s);
    BindDsts(r, s);
    var i :| 0 <= i < |bs| && bs[i] == b;
    var j :| 0 <= j < |bs| && bs[j] == c;
    DistinctGuests(r, s);
    assert gs[i] == gs[j];
  }

  lemma BindDsts(r: Rules, s: Spec)
    requires Linux(r)
    ensures var bs, gs := AllBinds(s), SystemBinds(r, s) + MountGuests(s);
      |bs| == |gs| && forall i :: 0 <= i < |bs| ==> bs[i].dst == gs[i]
  {
  }

  lemma DistinctGuests(r: Rules, s: Spec)
    requires Valid(r, s)
    ensures Distinct(SystemBinds(r, s) + MountGuests(s))
  {
    hide GuestOk, MountOk, ScratchOk, Under, Distinct;
    var binds, links, mounts := SystemBinds(r, s), SystemLinks(r, s), MountGuests(s);
    ClaimsJoin(binds + links + mounts, s.scratch);
    ClaimsJoin(binds + links, mounts);
    ClaimsJoin(binds, links);
    ClaimsJoin(binds, mounts);
  }

  lemma MutuallyUnder(a: string, b: string)
    requires Under(a, b) && Under(b, a) && a != "/" && b != "/"
    ensures a == b
  {
  }

  /** At the guest path of every mount, that mount is what is to be seen: read-only or not as it was asked for. */
  lemma MountIsVisible(r: Rules, s: Spec, b: Bind) returns (i: nat)
    requires Linux(r) && Valid(r, s) && b in AllBinds(s)
    ensures Visible(Ops(s), b.dst, i) && Ops(s)[i] == BindAt(b)
  {
    hide Valid, AllBinds, Ops, Below;
    DstOk(r, s, b);
    i := DeepestBindWins(r, s, b.dst, b);
    var top := Ops(s)[i].bind;
    DstOk(r, s, top);
    MutuallyUnder(top.dst, b.dst);
    SameDst(r, s, top, b);
  }

  lemma ProcDevOpen(r: Rules, g: string)
    requires Linux(r) && GuestOk(r, g)
    ensures !Under("/proc", g) && !Under("/dev", g)
  {
    hide CleanPath;
    assert "/proc" in LINUX.guestReserved && "/dev" in LINUX.guestReserved;
    assert g != "" by { CleanNonEmpty(g); }
    ShortRoot("/proc", g);
    ShortRoot("/dev", g);
  }

  lemma CleanNonEmpty(p: string)
    requires CleanPath(p)
    ensures p != "" && p[0] == '/'
  {
  }

  /** No bind lies at or above a scratch directory, /proc or /dev. */
  lemma NothingCovered(r: Rules, s: Spec, b: Bind)
    requires Linux(r) && Valid(r, s) && b in AllBinds(s)
    ensures !Under("/proc", b.dst) && !Under("/dev", b.dst)
    ensures forall p :: p in s.scratch ==> !Under(p, b.dst)
  {
    hide AllBinds, MountOk, GuestOk, Under;
    DstOk(r, s, b);
    ProcDevOpen(r, b.dst);
    BindClaimed(r, s, b);
    ScratchApart(r, s);
    forall p | p in s.scratch ensures !Under(p, b.dst) {
      assert ScratchOk(r, s, p);
    }
  }

  lemma ScratchApart(r: Rules, s: Spec)
    requires Valid(r, s)
    ensures forall p :: p in s.scratch ==> p !in MountGuests(s) && p !in SystemBinds(r, s)
  {
    hide GuestOk, MountOk, ScratchOk, Under, Distinct;
    ClaimsJoin(SystemBinds(r, s) + SystemLinks(r, s) + MountGuests(s), s.scratch);
  }

  /** What is to be seen at a scratch directory is scratch: nothing written there reaches the host. */
  lemma ScratchStaysScratch(r: Rules, s: Spec, p: string) returns (i: nat)
    requires Linux(r) && Valid(r, s) && p in s.scratch
    ensures Visible(Ops(s), p, i) && Ops(s)[i].Tmpfs?
  {
    hide Valid, AllBinds, Arrange, Under;
    var ops, n := Ops(s), |Links(s)|;
    ArrangedSame(AllBinds(s));
    var k :| 0 <= k < |s.scratch| && s.scratch[k] == p;
    assert ops[n + 2 + k] == Tmpfs(p);
    assert Under(p, p) by { Itself(p); }
    i := LastUnder(ops, p);
    assert i >= n + 2 + k;
    if i >= |Before(s)| {
      var b := Arrange(AllBinds(s))[i - |Before(s)|];
      assert ops[i] == BindAt(b) && b in Arrange(AllBinds(s));
      NothingCovered(r, s, b);
    }
  }

  lemma Itself(p: string)
    ensures Under(p, p)
  {
  }

  /** Scratch directories are not arranged: of two nested ones, the inner is its own only when it comes later. */
  lemma OwnScratchIff(r: Rules, s: Spec, k: nat)
    requires Linux(r) && Valid(r, s) && k < |s.scratch|
    ensures (exists i: nat :: Visible(Ops(s), s.scratch[k], i) && Ops(s)[i] == Tmpfs(s.scratch[k])) <==>
      forall j :: k < j < |s.scratch| ==> !Under(s.scratch[k], s.scratch[j])
  {
    hide Valid, AllBinds, Arrange, Under;
    var ops, n, p := Ops(s), |Links(s)| + 2, s.scratch[k];
    assert forall j :: 0 <= j < |s.scratch| ==> ops[n + j] == Tmpfs(s.scratch[j]);
    assert Under(p, p) by { Itself(p); }
    DistinctScratch(r, s);
    var i := ScratchStaysScratch(r, s, p);
    assert ops[n + k] == Tmpfs(p);
    assert i >= n + k && i < |Before(s)|;
    assert ops[i] == Tmpfs(s.scratch[i - n]);
    if forall j :: k < j < |s.scratch| ==> !Under(p, s.scratch[j]) {
      assert i == n + k;
    }
  }

  lemma DistinctScratch(r: Rules, s: Spec)
    requires Valid(r, s)
    ensures Distinct(s.scratch)
  {
    hide GuestOk, MountOk, ScratchOk, Under, Distinct;
    ClaimsJoin(SystemBinds(r, s) + SystemLinks(r, s) + MountGuests(s), s.scratch);
  }

  const ANY_HOST := Host("/home", [])

  const NESTED_SCRATCH := Spec(false, [], [], ["/a/b", "/a"])

  /** An accepted specification whose first scratch directory is covered by its second one. */
  lemma NestedScratchIsCovered()
    ensures var r := Rules(ANY_HOST, LINUX, true);
      && Valid(r, NESTED_SCRATCH)
      && !exists i: nat :: Visible(Ops(NESTED_SCRATCH), "/a/b", i) && Ops(NESTED_SCRATCH)[i] == Tmpfs("/a/b")
  {
    hide Ops, Visible;
    var r, s := Rules(ANY_HOST, LINUX, true), NESTED_SCRATCH;
    assert Valid(r, s) by { NestedValid(r); }
    assert Under("/a/b", "/a") by { assert "/a/b"[..3] == "/a" + "/"; }
    assert s.scratch[0] == "/a/b" && s.scratch[1] == "/a";
    OwnScratchIff(r, s, 0);
  }

  lemma NestedValid(r: Rules)
    requires r == Rules(ANY_HOST, LINUX, true)
    ensures Valid(r, NESTED_SCRATCH)
  {
    hide CleanPath, Under, LINUX;
    var s := NESTED_SCRATCH;
    CleanOne("a");
    CleanOne("b");
    CleanOne("home");
    CleanMore("a", "b");
    assert "/" + "a" == "/a" && "/" + "home" == "/home" && "/" + "a" + "/" + "b" == "/a/b";
    assert Claims(r, s) == ["/a/b", "/a"] && SystemLinks(r, s) == [] && MountGuests(s) == [] && SystemBinds(r, s) == [];
    assert GuestOk(r, "/a") && GuestOk(r, "/a/b") by { NotReserved("/a"); NotReserved("/a/b"); }
  }

  lemma NotReserved(g: string)
    requires |g| > 1 && g[1] != 'p' && g[1] != 'd'
    ensures forall p :: p in LINUX.guestReserved ==> !Under(g, p)
  {
  }

  /** A name that may stand in a clean path. */
  predicate PlainName(a: string) {
    a != "" && a != "." && a != ".." && '/' !in a && forall i :: 0 <= i < |a| ==> !Control(a[i])
  }

  lemma CleanOne(a: string)
    requires PlainName(a)
    ensures CleanPath("/" + a)
  {
    assert ("/" + a)[1..] == a;
    IndexOfUnique(a, '/', "");
  }

  lemma CleanMore(a: string, rest: string)
    requires PlainName(a) && CleanPath("/" + rest) && rest != ""
    ensures CleanPath("/" + a + "/" + rest)
  {
    hide Split;
    assert ("/" + rest)[1..] == rest;
    assert ("/" + a + "/" + rest)[1..] == a + "/" + rest;
    SplitCons(a, '/', rest);
    assert forall i :: 0 <= i < |rest| ==> rest[i] == ("/" + rest)[i + 1];
  }

  // ----- bwrap's own check -----

  function Dsts(bs: seq<Bind>): seq<string> { seq(|bs|, i requires 0 <= i < |bs| => bs[i].dst) }

  function LinkDsts(s: Spec): seq<string> { if s.system then ["/lib", "/lib64", "/bin", "/sbin"] else [] }

  predicate BindOk(h: Host, b: Bind) { SourceOk(Rules(h, LINUX, true), b.inHome, b.src, b.rw, true, []) }

  /** The mounts part of Spec.validate in package bwrap: links, scratch, then the arranged binds. */
  ghost predicate BwrapValid(h: Host, s: Spec) {
    var binds := Arrange(AllBinds(s));
    var claims := LinkDsts(s) + s.scratch + Dsts(binds);
    && h.Ok() && Claimable(Rules(h, LINUX, true), claims)
    && (forall b :: b in binds ==> BindOk(h, b))
    && (forall g, l :: g in claims && l in LinkDsts(s) ==> g == l || !Under(g, l))
  }

  lemma InsertDistinct(bs: seq<Bind>, b: Bind)
    requires Distinct(Dsts(bs)) && b.dst !in Dsts(bs)
    ensures Distinct(Dsts(Insert(bs, b)))
  {
    hide Place;
    var i := Place(bs, b.dst);
    var out, ds := Dsts(Insert(bs, b)), Dsts(bs);
    assert forall j :: 0 <= j < |ds| ==> ds[j] in ds;
    assert forall j :: 0 <= j < i ==> out[j] == ds[j];
    assert out[i] == b.dst;
    assert forall j :: i < j < |out| ==> out[j] == ds[j - 1];
  }

  lemma {:induction false} ArrangeDistinct(bs: seq<Bind>)
    requires Distinct(Dsts(bs))
    ensures Distinct(Dsts(Arrange(bs)))
  {
    hide Insert;
    if bs != [] {
      var front, last := bs[..|bs| - 1], bs[|bs| - 1];
      assert forall i :: 0 <= i < |front| ==> Dsts(front)[i] == Dsts(bs)[i];
      ArrangeDistinct(front);
      ArrangedSame(front);
      var arranged := Arrange(front);
      forall d | d in Dsts(arranged) ensures d != last.dst {
        var i :| 0 <= i < |arranged| && Dsts(arranged)[i] == d;
        assert arranged[i] in front;
        var j :| 0 <= j < |front| && front[j] == arranged[i];
        assert Dsts(bs)[j] != Dsts(bs)[|bs| - 1];
      }
      InsertDistinct(arranged, last);
    }
  }

  lemma DstsOf(r: Rules, s: Spec)
    requires Linux(r)
    ensures Dsts(AllBinds(s)) == SystemBinds(r, s) + MountGuests(s)
    ensures SystemLinks(r, s) == LinkDsts(s)
  {
    BindDsts(r, s);
  }

  lemma ArrangedDsts(s: Spec)
    ensures forall d :: d in Dsts(Arrange(AllBinds(s))) <==> d in Dsts(AllBinds(s))
  {
    hide AllBinds, Arrange;
    var bs, arranged := AllBinds(s), Arrange(AllBinds(s));
    ArrangedSame(bs);
    forall d ensures d in Dsts(arranged) <==> d in Dsts(bs) {
      if d in Dsts(arranged) {
        var i :| 0 <= i < |arranged| && arranged[i].dst == d;
        assert arranged[i] in bs;
        var j :| 0 <= j < |bs| && bs[j] == arranged[i];
        assert Dsts(bs)[j] == d;
      }
      if d in Dsts(bs) {
        var i :| 0 <= i < |bs| && bs[i].dst == d;
        assert bs[i] in arranged;
        var j :| 0 <= j < |arranged| && arranged[j] == bs[i];
        assert Dsts(arranged)[j] == d;
      }
    }
  }

  /** The two packages claim the same paths. */
  lemma SameClaims(r: Rules, s: Spec)
    requires Linux(r) && Valid(r, s)
    ensures var claims := LinkDsts(s) + s.scratch + Dsts(Arrange(AllBinds(s)));
      Distinct(claims) && forall g :: g in claims <==> g in Claims(r, s)
  {
    hide AllBinds, Arrange, Dsts, Distinct, GuestOk, MountOk, ScratchOk, Under;
    var a, b, c, d := SystemBinds(r, s), SystemLinks(r, s), MountGuests(s), s.scratch;
    var ds := Dsts(Arrange(AllBinds(s)));
    DstsOf(r, s);
    ArrangedDsts(s);
    DistinctGuests(r, s);
    ArrangeDistinct(AllBinds(s));
    ClaimsJoin(a + b + c, d);
    ClaimsJoin(a + b, c);
    ClaimsJoin(a, b);
    ClaimsJoin(b, d);
    ClaimsJoin(b + d, ds);
  }

  lemma BindFrom(s: Spec, b: Bind)
    requires b in AllBinds(s)
    ensures || (s.system && b == USR)
            || (!b.rw && exists m :: m in s.read && b.src == m.hostPath && b.inHome == m.inHome)
            || (b.rw && exists m :: m in s.write && b.src == m.hostPath && b.inHome == m.inHome)
  {
    if b in BindsOf(s.read, false) {
      var i :| 0 <= i < |s.read| && BindsOf(s.read, false)[i] == b;
      assert s.read[i] in s.read;
    } else if b in BindsOf(s.write, true) {
      var i :| 0 <= i < |s.write| && BindsOf(s.write, true)[i] == b;
      assert s.write[i] in s.write;
    }
  }

  /** The system's own bind is never checked by the contract: here is what bwrap asks of it. */
  predicate UsrShareable(h: Host) { !Under(h.home, "/usr") && forall sec :: sec in h.secrets ==> !Overlap("/usr", sec) }

  lemma UsrBind(h: Host)
    ensures BindOk(h, USR) <==> UsrShareable(h) && !Under("/usr", h.home)
  {
    hide IsHomeSecret, Rel, CleanPath, Under, LINUX;
    UsrClean();
    UsrApart();
  }

  lemma UsrClean()
    ensures CleanPath("/usr")
  {
    assert "/usr"[1..] == "usr";
    IndexOfUnique("usr", '/', "");
    assert "usr" + "" == "usr";
  }

  lemma UsrApart()
    ensures forall p :: p in LINUX.protectedTrees ==> !Overlap("/usr", p)
    ensures "/usr" !in LINUX.wholeDenied
  {
    hide OtherTop;
    TreesElsewhere();
    forall p | p in LINUX.protectedTrees ensures !Overlap("/usr", p) { OtherTree(p); }
    assert "/usr" != "/tmp" by { assert "/usr"[1] != "/tmp"[1]; }
    assert "/usr" != "/var/tmp" by { assert "/usr"[1] != "/var/tmp"[1]; }
  }

  /** The first name of p has at least three letters and does not begin like usr. */
  predicate OtherTop(p: string) { |p| > 3 && p[1] != 'u' && p[1] != '/' && p[2] != '/' && p[3] != '/' }

  lemma TreesElsewhere()
    ensures forall p :: p in LINUX.protectedTrees ==> OtherTop(p)
  {
    var ps := LINUX.protectedTrees;
    assert forall i :: 0 <= i < 8 ==> OtherTop(ps[i]);
    assert forall i :: 8 <= i < |ps| ==> OtherTop(ps[i]);
  }

  lemma OtherTree(p: string)
    requires OtherTop(p)
    ensures !Overlap("/usr", p)
  {
    if Below("/usr", p) { SlashAfter("/usr", p); }
    assert |p| > 4 ==> p[..5][1] == p[1];
  }

  lemma HomeNotAboveUsr(h: Host)
    requires h.Ok() && Under("/usr", h.home)
    ensures h.home == "/usr"
  {
    hide CleanPath;
    CleanNonEmpty(h.home);
    if Below("/usr", h.home) { SlashAfter("/usr", h.home); }
  }

  /**
    What the contract accepts bwrap accepts as well, with one exception: the bind of /usr, which
    only bwrap checks. It is refused exactly when HOME or a secret of the host lies there.
   */
  lemma BwrapAgrees(r: Rules, s: Spec)
    requires Linux(r) && Valid(r, s)
    ensures BwrapValid(r.host, s) <==> (s.system ==> UsrShareable(r.host))
  {
    hide AllBinds, Arrange, Distinct, GuestOk, ScratchOk, Under, SourceOk, Dsts, Claims, LinkDsts, CleanPath;
    var h := r.host;
    assert r == Rules(h, LINUX, true);
    SameClaims(r, s);
    DstsOf(r, s);
    ArrangedSame(AllBinds(s));
    assert (forall b :: b in Arrange(AllBinds(s)) ==> BindOk(h, b)) <==> (s.system ==> UsrShareable(h)) by {
      SourcesAgree(r, s);
    }
  }

  lemma SourcesAgree(r: Rules, s: Spec)
    requires Linux(r) && Valid(r, s)
    ensures (forall b :: b in Arrange(AllBinds(s)) ==> BindOk(r.host, b)) <==> (s.system ==> UsrShareable(r.host))
  {
    hide AllBinds, Arrange, Distinct, GuestOk, ScratchOk, Under, SourceOk, Claims, CleanPath, UsrShareable;
    var h := r.host;
    ArrangedSame(AllBinds(s));
    UsrBind(h);
    if Under("/usr", h.home) { HomeNotAboveUsr(h); HomeIsUsr(h); }
    forall b | b in AllBinds(s) && b != USR ensures BindOk(h, b) {
      BindFrom(s, b);
      assert r == Rules(h, LINUX, true);
    }
    if s.system { UsrIn(s); }
    assert USR in AllBinds(s) && !s.system ==> BindOk(h, USR) by {
      if USR in AllBinds(s) && !s.system {
        BindFrom(s, USR);
        assert r == Rules(h, LINUX, true);
      }
    }
  }

  lemma HomeIsUsr(h: Host)
    requires h.home == "/usr"
    ensures !UsrShareable(h)
  {
  }

  lemma UsrIn(s: Spec)
    requires s.system
    ensures USR in AllBinds(s)
  {
    assert AllBinds(s)[0] == USR;
  }

  const HOST_IN_USR := Host("/usr/home/u", [])

  const SYSTEM_ONLY := Spec(true, [], [], [])

  /** On a host whose HOME lies in /usr the contract accepts the system's mounts and bwrap refuses them. */
  lemma HomeInUsrIsRefused()
    ensures Valid(Rules(HOST_IN_USR, LINUX, true), SYSTEM_ONLY) && !BwrapValid(HOST_IN_USR, SYSTEM_ONLY)
  {
    hide Valid, BwrapValid;
    var r := Rules(HOST_IN_USR, LINUX, true);
    SystemValid(r);
    assert Under("/usr/home/u", "/usr") by { assert "/usr/home/u"[..5] == "/usr" + "/"; }
    BwrapAgrees(r, SYSTEM_ONLY);
  }

  lemma SystemValid(r: Rules)
    requires r == Rules(HOST_IN_USR, LINUX, true)
    ensures Valid(r, SYSTEM_ONLY)
  {
    hide CleanPath, Under, GuestOk, OneName, Distinct;
    var s, all := SYSTEM_ONLY, ["/usr", "/lib", "/lib64", "/bin", "/sbin"];
    assert r.host.Ok() by { HomeClean(); }
    assert Claims(r, s) == all;
    assert Distinct(all) by { DifferentNames(); }
    assert forall i :: 0 <= i < |all| ==> GuestOk(r, all[i]) && OneName(all[i]) by {
      TopLevel(r, "usr");
      TopLevel(r, "lib");
      TopLevel(r, "lib64");
      TopLevel(r, "bin");
      TopLevel(r, "sbin");
      NamesOfSystem();
    }
    forall g, l | g in all && l in LINUX.systemLinks ensures g == l || !Under(g, l) { ShortRoot(g, l); }
  }

  lemma NamesOfSystem()
    ensures "/" + "usr" == "/usr" && "/" + "lib" == "/lib" && "/" + "lib64" == "/lib64"
    ensures "/" + "bin" == "/bin" && "/" + "sbin" == "/sbin"
  {
  }

  lemma DifferentNames()
    ensures Distinct(["/usr", "/lib", "/lib64", "/bin", "/sbin"])
  {
    assert |"/lib"| != |"/lib64"| && |"/sbin"| != |"/bin"|;
    assert "/usr"[1] != "/lib"[1] && "/usr"[1] != "/bin"[1] && "/lib"[1] != "/bin"[1];
  }

  lemma TopLevel(r: Rules, a: string)
    requires Linux(r) && PlainName(a) && a[0] != 'p' && a[0] != 'd'
    ensures GuestOk(r, "/" + a) && OneName("/" + a)
  {
    hide CleanPath, Under;
    CleanOne(a);
    NotReserved("/" + a);
  }

  lemma HomeClean()
    ensures CleanPath("/usr/home/u")
  {
    hide CleanPath;
    CleanOne("u");
    CleanMore("home", "u");
    assert "/" + "home" + "/" + "u" == "/" + "home/u";
    CleanMore("usr", "home/u");
    assert "/" + "usr" + "/" + "home/u" == "/usr/home/u";
  }
}
