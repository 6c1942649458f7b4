/**
  tools/docgen/walk.go: the budgets of a run. Every entry visited is counted, every file read or
  written also as a file and with its bytes.
 */
module DocgenBudget {
  import opened Wrappers
  import opened DocgenWalk

  /** The texts of files by their paths. */
  type Expected = map<Path, string>

  datatype Limits = Limits(maxEntries: nat, maxFiles: nat, maxFileBytes: nat, maxTotalBytes: nat, maxDepth: nat)

  datatype Budget = Budget(entries: nat, files: nat, bytes: nat)

  function Tick(b: Budget, lim: Limits): Option<Budget> {
    if b.entries + 1 > lim.maxEntries then None else Some(b.(entries := b.entries + 1))
  }

  function ChargeFile(b: Budget, lim: Limits, size: nat): Option<Budget> {
    if b.files + 1 > lim.maxFiles || size > lim.maxFileBytes || b.bytes + size > lim.maxTotalBytes then None
    else Some(b.(files := b.files + 1, bytes := b.bytes + size))
  }

  /** The cost of reading or writing one file. */
  function ChargeOne(b: Budget, lim: Limits, size: nat): Option<Budget> {
    var t := Tick(b, lim);
    if t.None? then None else ChargeFile(t.value, lim, size)
  }

  /** The cost of writing all these files and then removing so many entries. */
  function ChargePlan(b: Budget, lim: Limits, writes: seq<Path>, expected: Expected, removes: nat): Option<Budget>
    requires forall p :: p in writes ==> p in expected
    decreases |writes|, removes
  {
    if writes != [] then
      var c := ChargeOne(b, lim, |expected[writes[0]]|);
      if c.None? then None else ChargePlan(c.value, lim, writes[1..], expected, removes)
    else if removes > 0 then
      var c := Tick(b, lim);
      if c.None? then None else ChargePlan(c.value, lim, [], expected, removes - 1)
    else Some(b)
  }

  // ----- the sums -----

  /** The bytes of these files together. */
  ghost function Total(texts: Expected, ps: set<Path>): nat
    requires forall p :: p in ps ==> p in texts
  {
    if ps == {} then 0 else var p :| p in ps; |texts[p]| + Total(texts, ps - {p})
  }

  lemma {:induction false} TotalPick(texts: Expected, ps: set<Path>, p: Path)
    requires (forall q :: q in ps ==> q in texts) && p in ps
    ensures Total(texts, ps) == |texts[p]| + Total(texts, ps - {p})
    decreases |ps|
  {
    var q :| q in ps && Total(texts, ps) == |texts[q]| + Total(texts, ps - {q});
    if p != q {
      TotalPick(texts, ps - {q}, p);
      TotalPick(texts, ps - {p}, q);
      assert ps - {q} - {p} == ps - {p} - {q};
    }
  }

  lemma TotalNone(texts: Expected)
    ensures Total(texts, {}) == 0
  {
  }

  lemma {:induction false} TotalSame(a: Expected, b: Expected, ps: set<Path>)
    requires forall p :: p in ps ==> p in a && p in b && a[p] == b[p]
    ensures Total(a, ps) == Total(b, ps)
    decreases |ps|
  {
    if ps != {} {
      var p :| p in ps;
      TotalPick(a, ps, p);
      TotalPick(b, ps, p);
      TotalSame(a, b, ps - {p});
    }
  }

  lemma {:induction false} TotalSubset(texts: Expected, few: set<Path>, ps: set<Path>)
    requires (forall p :: p in ps ==> p in texts) && few <= ps
    ensures Total(texts, few) <= Total(texts, ps)
    decreases |few|
  {
    if few != {} {
      var p :| p in few;
      TotalPick(texts, few, p);
      TotalPick(texts, ps, p);
      TotalSubset(texts, few - {p}, ps - {p});
    }
  }

  /** The budgets cover reading or writing these files and removing so many entries, in whatever order. */
  ghost predicate Affordable(b: Budget, lim: Limits, texts: Expected, ps: set<Path>, removes: nat)
    requires forall p :: p in ps ==> p in texts
  {
    && (|ps| + removes > 0 ==> b.entries + |ps| + removes <= lim.maxEntries)
    && (ps != {} ==> b.files + |ps| <= lim.maxFiles && b.bytes + Total(texts, ps) <= lim.maxTotalBytes)
    && forall p :: p in ps ==> |texts[p]| <= lim.maxFileBytes
  }

  /** What is spent after that. */
  ghost function Spent(b: Budget, texts: Expected, ps: set<Path>, removes: nat): Budget
    requires forall p :: p in ps ==> p in texts
  {
    Budget(b.entries + |ps| + removes, b.files + |ps|, b.bytes + Total(texts, ps))
  }

  lemma NothingSpent(b: Budget, lim: Limits, texts: Expected)
    ensures Affordable(b, lim, texts, {}, 0) && Spent(b, texts, {}, 0) == b
  {
    TotalNone(texts);
  }

  /** One more file can be read or written exactly when it is affordable together with the ones before. */
  lemma OneMoreSpent(b: Budget, lim: Limits, texts: Expected, done: set<Path>, p: Path)
    requires (forall q :: q in done ==> q in texts) && p in texts && p !in done && Affordable(b, lim, texts, done, 0)
    ensures ChargeOne(Spent(b, texts, done, 0), lim, |texts[p]|) ==
      if Affordable(b, lim, texts, done + {p}, 0) then Some(Spent(b, texts, done + {p}, 0)) else None
  {
    var ps := done + {p};
    hide Total;
    TotalPick(texts, ps, p);
    assert ps - {p} == done && |ps| == |done| + 1;
    assert forall q :: q in ps <==> q in done || q == p;
  }

  lemma AffordableSubset(b: Budget, lim: Limits, texts: Expected, few: set<Path>, ps: set<Path>)
    requires (forall p :: p in ps ==> p in texts) && few <= ps && Affordable(b, lim, texts, ps, 0)
    ensures Affordable(b, lim, texts, few, 0)
  {
    hide Total;
    TotalSubset(texts, few, ps);
    SubsetCount(few, ps);
  }

  lemma AffordableSame(b: Budget, lim: Limits, x: Expected, y: Expected, ps: set<Path>)
    requires forall p :: p in ps ==> p in x && p in y && x[p] == y[p]
    ensures Affordable(b, lim, x, ps, 0) <==> Affordable(b, lim, y, ps, 0)
  {
    hide Total;
    TotalSame(x, y, ps);
  }

  // ----- a plan costs its sums -----

  ghost predicate NoTwice(ps: seq<Path>) { forall i, j :: 0 <= i < j < |ps| ==> ps[i] != ps[j] }

  function SetOf(ps: seq<Path>): set<Path> { set p | p in ps }

  lemma SetOfRest(ps: seq<Path>)
    requires ps != [] && NoTwice(ps)
    ensures SetOf(ps[1..]) == SetOf(ps) - {ps[0]} && ps[0] in SetOf(ps) && NoTwice(ps[1..])
  {
    assert ps == [ps[0]] + ps[1..];
    assert ps[0] !in ps[1..];
  }

  lemma SetOfNone()
    ensures SetOf([]) == {}
  {
  }

  lemma {:induction false} RemovesAffordable(b: Budget, lim: Limits, expected: Expected, removes: nat)
    ensures ChargePlan(b, lim, [], expected, removes) ==
      if removes > 0 ==> b.entries + removes <= lim.maxEntries then Some(b.(entries := b.entries + removes)) else None
    decreases removes
  {
    if removes > 0 && Tick(b, lim).Some? { RemovesAffordable(Tick(b, lim).value, lim, expected, removes - 1); }
  }

  /** Charging a plan step by step succeeds exactly when the budgets cover its sums, and then spends them. */
  lemma {:induction false} PlanAffordable(b: Budget, lim: Limits, writes: seq<Path>, expected: Expected, removes: nat)
    requires (forall p :: p in writes ==> p in expected) && NoTwice(writes)
    ensures ChargePlan(b, lim, writes, expected, removes) ==
      if Affordable(b, lim, expected, SetOf(writes), removes) then Some(Spent(b, expected, SetOf(writes), removes)) else None
    decreases |writes|
  {
    hide NoTwice, SetOf;
    if writes == [] {
      RemovesAffordable(b, lim, expected, removes);
      SetOfNone();
      TotalNone(expected);
    } else {
      SetOfRest(writes);
      PlanStep(b, lim, writes, expected, removes);
    }
  }

  lemma PlanStep(b: Budget, lim: Limits, writes: seq<Path>, expected: Expected, removes: nat)
    requires (forall p :: p in writes ==> p in expected) && NoTwice(writes) && writes != [] && NoTwice(writes[1..])
    requires SetOf(writes[1..]) == SetOf(writes) - {writes[0]} && writes[0] in SetOf(writes)
    ensures ChargePlan(b, lim, writes, expected, removes) ==
      if Affordable(b, lim, expected, SetOf(writes), removes) then Some(Spent(b, expected, SetOf(writes), removes)) else None
    decreases |writes|, 0
  {
    hide NoTwice, Total;
    var ps, p := SetOf(writes), writes[0];
    TotalPick(expected, ps, p);
    assert |ps - {p}| == |ps| - 1;
    var c := ChargeOne(b, lim, |expected[p]|);
    if c.Some? {
      PlanAffordable(c.value, lim, writes[1..], expected, removes);
      AffordRest(b, c.value, lim, expected, ps, p, removes);
    }
  }

  lemma AffordRest(b: Budget, c: Budget, lim: Limits, expected: Expected, ps: set<Path>, p: Path, removes: nat)
    requires (forall q :: q in ps ==> q in expected) && p in ps && ChargeOne(b, lim, |expected[p]|) == Some(c)
    requires Total(expected, ps) == |expected[p]| + Total(expected, ps - {p})
    ensures Affordable(c, lim, expected, ps - {p}, removes) <==> Affordable(b, lim, expected, ps, removes)
    ensures Spent(c, expected, ps - {p}, removes) == Spent(b, expected, ps, removes)
  {
    hide Total;
    assert |ps - {p}| == |ps| - 1;
    if ps - {p} == {} {
      assert ps == {p};
      TotalNone(expected);
    }
  }
}
