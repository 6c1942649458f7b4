/**
  tools/docgen: the generated files are planned, the plan is checked, and then carried out on the
  tree. A path is the list of its names from the root of the repository.
 */
module DocgenTree {
  import opened Wrappers
  import opened DocgenWalk
  import opened DocgenBudget

  // ----- what is expected, and what is too much -----

  const ADR_README: Path := ["docs", "adr", "README.md"]

  /** What the analysis guarantees: the files go below the reference directory or are the index, and none is above another. */
  ghost predicate Placed(expected: Expected) {
    && (forall p :: p in expected ==> p == ADR_README || Below(p, REFERENCE))
    && (forall p, q :: p in expected && q in expected ==> !Below(p, q))
  }

  // ----- checkOutputTree: no expected file is above another, also where case does not count -----

  function LowerChar(c: char): char { if 'A' <= c <= 'Z' then (c as int + 32) as char else c }

  function LowerName(s: string): string { seq(|s|, i requires 0 <= i < |s| => LowerChar(s[i])) }

  function LowerPath(p: Path): Path { seq(|p|, i requires 0 <= i < |p| => LowerName(p[i])) }

  /** Only the capital letters are changed, each to its small one. */
  lemma LowerTells(p: Path)
    ensures |LowerPath(p)| == |p| && forall i :: 0 <= i < |p| ==> |LowerPath(p)[i]| == |p[i]|
    ensures forall i, j :: 0 <= i < |p| && 0 <= j < |p[i]| ==>
      LowerPath(p)[i][j] == if 'A' <= p[i][j] <= 'Z' then (p[i][j] as int - 'A' as int + 'a' as int) as char else p[i][j]
  {
  }

  predicate Apart(expected: Expected) {
    forall p, q :: p in expected && q in expected ==>
      !(Below(LowerPath(p), LowerPath(q)) && Below(LowerPath(q), REFERENCE))
  }

  /** The directories above each file, up to the reference directory, are looked up among the files. */
  method CheckOutputTree(expected: Expected) returns (ok: bool)
    ensures ok == Apart(expected)
  {
    var lower := set p | p in expected :: LowerPath(p);
    var todo := expected.Keys;
    while todo != {}
      invariant todo <= expected.Keys
      invariant forall p, q :: p in expected && p !in todo && q in expected ==>
        !(Below(LowerPath(p), LowerPath(q)) && Below(LowerPath(q), REFERENCE))
    {
      var p :| p in todo;
      var low := LowerPath(p);
      var k := |p| - 1;
      while k >= 0 && Below(low[..k], REFERENCE)
        invariant -1 <= k < |p|
        invariant forall j :: k < j < |p| && Below(low[..j], REFERENCE) ==> low[..j] !in lower
      {
        if low[..k] in lower {
          var q :| q in expected && LowerPath(q) == low[..k];
          return false;
        }
        k := k - 1;
      }
      forall q | q in expected && Below(low, LowerPath(q)) ensures !Below(LowerPath(q), REFERENCE) {
        NoneFurtherUp(low, k, |LowerPath(q)|);
        assert LowerPath(q) == low[..|LowerPath(q)|] && LowerPath(q) in lower;
      }
      todo := todo - {p};
    }
    return true;
  }

  /** Once a prefix is not below the reference directory, no shorter one is. */
  lemma NoneFurtherUp(low: Path, k: int, j: nat)
    requires -1 <= k < |low| && (k >= 0 ==> !Below(low[..k], REFERENCE)) && j <= |low|
    ensures j <= k ==> !Below(low[..j], REFERENCE)
  {
    if j <= k && |REFERENCE| < j { assert low[..j][..2] == low[..k][..2]; }
  }

  lemma LowerBelow(p: Path, q: Path)
    requires Below(p, q)
    ensures Below(LowerPath(p), LowerPath(q))
  {
    assert LowerPath(p)[..|q|] == LowerPath(q) by {
      forall i | 0 <= i < |q| ensures p[i] == q[i] { assert p[..|q|][i] == q[i]; }
    }
  }

  lemma LowerReference()
    ensures LowerPath(REFERENCE) == REFERENCE
  {
    assert LowerName("docs") == "docs" && LowerName("reference") == "reference";
  }

  /** What passes is placed as the plan needs it. */
  lemma ApartIsPlaced(expected: Expected)
    requires Apart(expected) && forall p :: p in expected ==> p == ADR_README || Below(p, REFERENCE)
    ensures Placed(expected)
  {
    forall p, q | p in expected && q in expected ensures !Below(p, q) {
      if Below(p, q) {
        LowerBelow(p, q);
        LowerReference();
        if q != ADR_README { LowerBelow(q, REFERENCE); }
      }
    }
  }

  predicate Wanted(expected: Expected, d: Path) { exists p :: p in expected && Below(p, d) }

  predicate IsExtra(e: Entry, expected: Expected) {
    if e.dir then !Wanted(expected, e.path) else e.path !in expected
  }

  /** extraEntries: the entries that are neither expected nor above what is, in the order of the listing. */
  function Extra(ref: seq<Entry>, expected: Expected): seq<Entry> {
    if ref == [] then []
    else
      var rest := Extra(ref[..|ref| - 1], expected);
      if IsExtra(ref[|ref| - 1], expected) then rest + [ref[|ref| - 1]] else rest
  }

  lemma {:induction false} ExtraMembers(ref: seq<Entry>, expected: Expected)
    ensures forall e :: e in Extra(ref, expected) <==> e in ref && IsExtra(e, expected)
  {
    hide IsExtra;
    if ref != [] {
      ExtraMembers(ref[..|ref| - 1], expected);
      assert ref == ref[..|ref| - 1] + [ref[|ref| - 1]];
    }
  }

  /** Nothing stands before a directory that it lies in. */
  ghost predicate ParentsFirst(ref: seq<Entry>) {
    forall i, j :: 0 <= i < j < |ref| ==> ref[i].path != ref[j].path && !Below(ref[i].path, ref[j].path)
  }

  lemma {:induction false} ExtraOrdered(ref: seq<Entry>, expected: Expected)
    requires ParentsFirst(ref)
    ensures ParentsFirst(Extra(ref, expected))
  {
    hide IsExtra, Below;
    if ref != [] {
      var front, last := ref[..|ref| - 1], ref[|ref| - 1];
      ExtraOrdered(front, expected);
      ExtraMembers(front, expected);
      var rest := Extra(front, expected);
      forall i | 0 <= i < |rest| ensures rest[i].path != last.path && !Below(rest[i].path, last.path) {
        assert rest[i] in front;
        var j :| 0 <= j < |front| && front[j] == rest[i];
        assert ref[j] == rest[i];
      }
    }
  }

  function Reverse(s: seq<Entry>): seq<Entry> { seq(|s|, i requires 0 <= i < |s| => s[|s| - 1 - i]) }

  /** Nothing comes after a directory that it lies in. */
  ghost predicate ChildrenFirst(s: seq<Entry>) {
    forall i, j :: 0 <= i < j < |s| ==> s[i].path != s[j].path && !Below(s[j].path, s[i].path)
  }

  lemma ReverseOrder(s: seq<Entry>)
    requires ParentsFirst(s)
    ensures ChildrenFirst(Reverse(s)) && forall e :: e in Reverse(s) <==> e in s
  {
    hide Below;
    forall e | e in s ensures e in Reverse(s) {
      var i :| 0 <= i < |s| && s[i] == e;
      assert Reverse(s)[|s| - 1 - i] == e;
    }
  }

  /** The tree holds the expected files and, below the reference directory, nothing else. */
  ghost predicate InSync(fs: Fs, expected: Expected) {
    && (forall p :: p in expected ==> p in fs && fs[p] == File(expected[p]))
    && (forall p :: p in fs && Below(p, REFERENCE) ==> if fs[p].Dir? then Wanted(expected, p) else p in expected)
  }

  // ----- writing -----

  function Above(p: Path): set<Path> { set k | 0 <= k < |p| :: p[..k] }

  /** Nothing is in the way of a file at p: no directory there, no file above it. */
  ghost predicate Writable(fs: Fs, p: Path) {
    && p != [] && (p in fs ==> fs[p].File?)
    && forall d :: d in fs && Below(p, d) ==> fs[d] == Dir
  }

  ghost function AfterWrite(fs: Fs, p: Path, text: string): Fs {
    (fs + map d | d in Above(p) :: Dir)[p := File(text)]
  }

  lemma AboveIs(p: Path, d: Path)
    ensures d in Above(p) <==> Below(p, d)
  {
    if Below(p, d) { assert d == p[..|d|]; }
  }

  lemma AfterWriteFormed(fs: Fs, p: Path, text: string)
    requires Formed(fs) && Writable(fs, p)
    ensures Formed(AfterWrite(fs, p, text))
  {
    var fs' := AfterWrite(fs, p, text);
    AboveIs(p, []);
    forall q, d | q in fs' && Below(q, d) ensures d in fs' && fs'[d] == Dir {
      AboveIs(p, d);
      AboveIs(p, q);
      if q == p || Below(p, q) {
        if q != p { BelowTrans(p, q, d); }
      } else {
        assert q in fs;
        assert d in fs && fs[d] == Dir;
      }
    }
  }

  // ----- when the plan can be carried out -----

  ghost function ToWrite(fs: Fs, expected: Expected): set<Path> {
    set p | p in expected && !(p in fs && fs[p] == File(expected[p]))
  }

  ghost function ToRemove(fs: Fs, expected: Expected): set<Path> {
    set p | p in fs && Below(p, REFERENCE) && IsExtra(Entry(p, fs[p].Dir?), expected)
  }

  /** Below the reference directory no directory stands at p and no file above it. */
  ghost predicate Free(fs: Fs, p: Path) {
    && (p in fs && Below(p, REFERENCE) ==> fs[p].File?)
    && forall d :: d in fs && Below(d, REFERENCE) && Below(p, d) ==> fs[d] == Dir
  }

  /** The reference directory can be listed: nothing else is in its place, and nothing in it is too deep. */
  ghost predicate Listable(fs: Fs, maxDepth: nat) {
    && (forall d :: d in fs && (d == ["docs"] || d == REFERENCE) ==> fs[d] == Dir)
    && !TooDeep(fs, REFERENCE, maxDepth)
  }

  /** One entry for each directory looked at on the way, and the walk. */
  ghost function ListCost(fs: Fs): nat {
    if ["docs"] !in fs then 1 else if REFERENCE !in fs then 2 else 2 + WalkCost(fs, REFERENCE)
  }

  ghost predicate CanList(fs: Fs, b: Budget, lim: Limits) {
    Listable(fs, lim.maxDepth) && b.entries + ListCost(fs) <= lim.maxEntries
  }

  ghost function Listed(fs: Fs, b: Budget): Budget { b.(entries := b.entries + ListCost(fs)) }

  ghost function Texts(fs: Fs): Expected { map p | p in fs && fs[p].File? :: fs[p].text }

  /** The generated files that are there, and so are read. */
  ghost function ToRead(fs: Fs, expected: Expected): set<Path> {
    set p | p in expected && Below(p, REFERENCE) && p in fs && fs[p].File?
  }

  /** The budgets cover listing what is there and reading the files to be compared. */
  ghost predicate CanRead(fs: Fs, b: Budget, lim: Limits, expected: Expected) {
    CanList(fs, b, lim) && Affordable(Listed(fs, b), lim, Texts(fs), ToRead(fs, expected), 0)
  }

  ghost function AfterReading(fs: Fs, b: Budget, expected: Expected): Budget {
    Spent(Listed(fs, b), Texts(fs), ToRead(fs, expected), 0)
  }

  /** What is there can be listed and read, nothing is in the way of a write, and the budgets cover all writes and removals. */
  ghost predicate CanCarryOut(fs: Fs, b: Budget, lim: Limits, expected: Expected) {
    && CanRead(fs, b, lim, expected)
    && (forall p :: p in ToWrite(fs, expected) ==> Free(fs, p))
    && Affordable(AfterReading(fs, b, expected), lim, expected, ToWrite(fs, expected), |ToRemove(fs, expected)|)
  }

  ghost function AfterOutputs(fs: Fs, b: Budget, expected: Expected): Budget {
    Spent(AfterReading(fs, b, expected), expected, ToWrite(fs, expected), |ToRemove(fs, expected)|)
  }

  ghost function AllAbove(expected: Expected): set<Path> { set p, d | p in expected && d in Above(p) :: d }

  /** The tree with the expected files, the directories above them, and nothing else below the reference directory. */
  ghost function Outcome(fs: Fs, expected: Expected): Fs {
    (map p | p in fs && !Below(p, REFERENCE) :: fs[p])
      + (map p | p in AllAbove(expected) :: Dir) + (map p | p in expected :: File(expected[p]))
  }

  lemma AllAboveIs(expected: Expected, d: Path)
    ensures d in AllAbove(expected) <==> Wanted(expected, d)
  {
    if Wanted(expected, d) {
      var p :| p in expected && Below(p, d);
      AboveIs(p, d);
    }
    if d in AllAbove(expected) {
      var p :| p in expected && d in Above(p);
      AboveIs(p, d);
    }
  }

  lemma OutcomeAt(fs0: Fs, expected: Expected, p: Path)
    ensures var out := Outcome(fs0, expected);
      && (p in out <==> p in expected || Wanted(expected, p) || (p in fs0 && !Below(p, REFERENCE)))
      && (p in out ==> out[p] == if p in expected then File(expected[p]) else if Wanted(expected, p) then Dir else fs0[p])
  {
    hide Wanted, AllAbove, Below;
    AllAboveIs(expected, p);
  }

  lemma WantedIsDir(fs: Fs, expected: Expected, d: Path)
    requires Formed(fs) && InSync(fs, expected) && Wanted(expected, d)
    ensures d in fs && fs[d] == Dir && d !in expected
  {
    var p :| p in expected && Below(p, d);
    assert p in fs;
  }

  lemma IsOutcome(fs0: Fs, fs: Fs, expected: Expected)
    requires Formed(fs) && InSync(fs, expected)
    requires forall p :: p in fs0 && !Below(p, REFERENCE) && p !in expected ==> p in fs && fs[p] == fs0[p]
    requires forall p :: p in fs && p !in fs0 && p !in expected ==> fs[p] == Dir && Wanted(expected, p)
    ensures fs == Outcome(fs0, expected)
  {
    hide Wanted, Formed, Outcome, Below;
    var out := Outcome(fs0, expected);
    forall p ensures (p in fs <==> p in out) && (p in fs ==> fs[p] == out[p]) {
      OutcomeAt(fs0, expected, p);
      if Wanted(expected, p) { WantedIsDir(fs, expected, p); }
    }
  }

  lemma {:induction false} PathsCount(es: seq<Entry>)
    requires forall i, j :: 0 <= i < j < |es| ==> es[i].path != es[j].path
    ensures |PathsOf(es)| == |es|
  {
    if es != [] {
      var front, last := es[..|es| - 1], es[|es| - 1];
      PathsCount(front);
      assert es == front + [last];
      assert PathsOf(es) == PathsOf(front) + {last.path};
      assert last.path !in PathsOf(front);
    }
  }

  lemma RemovesAre(fs: Fs, expected: Expected, ref: seq<Entry>, removes: seq<Entry>)
    requires Lists(fs, REFERENCE, ref) && ChildrenFirst(removes)
    requires forall e :: e in removes <==> e in ref && IsExtra(e, expected)
    ensures PathsOf(removes) == ToRemove(fs, expected) && |removes| == |ToRemove(fs, expected)|
  {
    hide IsExtra;
    PathsCount(removes);
    forall p | p in ToRemove(fs, expected) ensures p in PathsOf(removes) {
      assert Entry(p, fs[p].Dir?) in removes;
    }
    assert PathsOf(removes) == ToRemove(fs, expected);
  }

  lemma ClearIsFree(fs: Fs, isFile: set<Path>, isDir: set<Path>, p: Path)
    requires forall q :: q in isFile <==> q in fs && Below(q, REFERENCE) && fs[q].File?
    requires forall q :: q in isDir <==> q in fs && Below(q, REFERENCE) && fs[q].Dir?
    ensures Clear(p, isFile, isDir) <==> Free(fs, p)
  {
  }

  class Tree {
    var fs: Fs
    var budget: Budget
    const lim: Limits

    constructor (fs: Fs, budget: Budget, lim: Limits)
      ensures this.fs == fs && this.budget == budget && this.lim == lim
    {
      this.fs, this.budget, this.lim := fs, budget, lim;
    }

    /**
      listReference: nothing when there is no such directory. It fails exactly when something else is
      in its place, a directory in it is too deep, or the entries left do not cover the listing.
     */
    method ListReference() returns (r: Option<seq<Entry>>)
      requires Formed(fs)
      modifies this`budget
      ensures r.Some? <==> CanList(fs, old(budget), lim)
      ensures r.Some? ==> Lists(fs, REFERENCE, r.value) && budget == Listed(fs, old(budget))
    {
      hide Lists, Formed, TooDeep, WalkCost;
      var docs := ["docs"];
      assert Below(REFERENCE, docs) by { assert REFERENCE[..1] == docs; }
      var b := Tick(budget, lim);
      if b.None? { return None; }
      budget := b.value;
      if docs !in fs {
        NothingListed(fs, docs, lim.maxDepth);
        return Some([]);
      }
      if fs[docs] != Dir { return None; }
      b := Tick(budget, lim);
      if b.None? { return None; }
      budget := b.value;
      if REFERENCE !in fs {
        NothingListed(fs, docs, lim.maxDepth);
        return Some([]);
      }
      if fs[REFERENCE] != Dir { return None; }
      var w := Walk(fs, REFERENCE, 2, lim.maxDepth, budget.entries, lim.maxEntries);
      if w.None? { return None; }
      budget := budget.(entries := w.value.entries);
      return Some(w.value.ref);
    }

    static lemma NothingListed(fs: Fs, docs: Path, maxDepth: nat)
      requires Formed(fs) && Below(REFERENCE, docs) && (docs !in fs || REFERENCE !in fs)
      ensures Lists(fs, REFERENCE, []) && REFERENCE !in fs && !TooDeep(fs, REFERENCE, maxDepth)
    {
      assert forall p :: p in fs && Below(p, REFERENCE) ==> REFERENCE in fs;
    }

    /** mkdirAll: the missing directories above p, one by one, unless a file is in the way. */
    method MkdirAll(p: Path) returns (ok: bool)
      requires Formed(fs) && p != []
      modifies this`fs
      ensures ok <==> forall d :: d in old(fs) && Below(p, d) ==> old(fs)[d] == Dir
      ensures ok ==> fs == old(fs) + map d | d in Above(p) :: Dir
      ensures forall d :: d in old(fs) ==> d in fs && fs[d] == old(fs)[d]
    {
      for k := 1 to |p|
        invariant forall d :: d in fs <==> d in old(fs) || exists j :: 1 <= j < k && d == p[..j]
        invariant forall d :: d in fs ==> fs[d] == if d in old(fs) then old(fs)[d] else Dir
        invariant forall j :: 1 <= j < k ==> p[..j] in fs && fs[p[..j]] == Dir
      {
        if p[..k] in fs && fs[p[..k]] != Dir {
          assert Below(p, p[..k]);
          return false;
        }
        fs := if p[..k] in fs then fs else fs[p[..k] := Dir];
      }
      forall d ensures d in Above(p) <==> Below(p, d) { AboveIs(p, d); }
      assert p[..0] == [];
      assert forall j :: 1 <= j < |p| ==> Below(p, p[..j]);
      forall d | d in old(fs) && Below(p, d) ensures old(fs)[d] == Dir { assert d == p[..|d|]; }
      assert fs == old(fs) + map d | d in Above(p) :: Dir;
      return true;
    }

    /** writeFile: refused when the budget does not allow it or something is in the way. */
    method WriteFile(p: Path, text: string) returns (ok: bool)
      requires Formed(fs) && p != []
      modifies this
      ensures ok <==> ChargeOne(old(budget), lim, |text|).Some? && Writable(old(fs), p)
      ensures ok ==> fs == AfterWrite(old(fs), p, text) && Formed(fs)
      ensures ok ==> Some(budget) == ChargeOne(old(budget), lim, |text|)
    {
      var b := ChargeOne(budget, lim, |text|);
      if b.None? { return false; }
      budget := b.value;
      if Writable(fs, p) { AfterWriteFormed(fs, p, text); }
      ok := MkdirAll(p);
      if !ok { return; }
      forall d ensures d in Above(p) <==> Below(p, d) { AboveIs(p, d); }
      if p in fs && fs[p].Dir? { return false; }
      fs := fs[p := File(text)];
    }

    /** remove: a file or an empty directory. */
    method Remove(p: Path) returns (ok: bool)
      requires Formed(fs) && p != []
      modifies this
      ensures ok <==> Tick(old(budget), lim).Some? && p in old(fs) && forall q :: q in old(fs) ==> !Below(q, p)
      ensures ok ==> fs == old(fs) - {p} && Formed(fs) && Some(budget) == Tick(old(budget), lim)
      ensures !ok ==> fs == old(fs)
    {
      var b := Tick(budget, lim);
      if b.None? { return false; }
      budget := b.value;
      if p !in fs || exists q :: q in fs && Below(q, p) { return false; }
      fs := fs - {p};
      return true;
    }

    /** checkPlan: what could stop the plan half-way is looked for on the listing and on a copy of the budget. */
    method CheckPlan(expected: Expected, writes: seq<Path>, removes: seq<Entry>, isFile: set<Path>, isDir: set<Path>)
      returns (ok: bool)
      requires forall p :: p in writes ==> p in expected
      ensures ok <==>
        && (forall p :: p in writes ==> Clear(p, isFile, isDir))
        && ChargePlan(budget, lim, writes, expected, |removes|).Some?
    {
      hide Clear, ChargeOne, Tick;
      var c := budget;
      for i := 0 to |writes|
        invariant forall j :: 0 <= j < i ==> Clear(writes[j], isFile, isDir)
        invariant forall p :: p in writes[i..] ==> p in expected
        invariant ChargePlan(budget, lim, writes, expected, |removes|) == ChargePlan(c, lim, writes[i..], expected, |removes|)
      {
        assert writes[i] in writes && writes[i..][0] == writes[i] && writes[i..][1..] == writes[i + 1..];
        if !Clear(writes[i], isFile, isDir) { return false; }
        var next := ChargeOne(c, lim, |expected[writes[i]]|);
        if next.None? { return false; }
        c := next.value;
      }
      assert writes[|writes|..] == [];
      for i := 0 to |removes|
        invariant ChargePlan(budget, lim, writes, expected, |removes|) == ChargePlan(c, lim, [], expected, |removes| - i)
      {
        var next := Tick(c, lim);
        if next.None? { return false; }
        c := next.value;
      }
      return true;
    }

    /**
      The files to write: those that are not there, or not as expected. What is there is read, and the
      budgets have to cover that; the text of the index is already at hand.
     */
    method PlanWrites(expected: Expected, isFile: set<Path>) returns (writes: Option<seq<Path>>)
      requires forall p :: p in isFile <==> p in fs && Below(p, REFERENCE) && fs[p].File?
      requires forall p :: p in expected ==> p == ADR_README || Below(p, REFERENCE)
      requires ADR_README in expected ==> ADR_README in fs && fs[ADR_README].File?
      modifies this`budget
      ensures writes.Some? <==> Affordable(old(budget), lim, Texts(fs), ToRead(fs, expected), 0)
      ensures writes.Some? ==> budget == Spent(old(budget), Texts(fs), ToRead(fs, expected), 0)
      ensures writes.Some? ==> (forall p :: p in writes.value <==> p in ToWrite(fs, expected)) && NoTwice(writes.value)
    {
      hide Affordable, Spent, ChargeOne, Texts, Below, ToRead, ToWrite, NoTwice, Planned, ReadSoFar;
      var out: seq<Path> := [];
      var todo := expected.Keys;
      ghost var b0 := budget;
      NothingPlanned(fs, expected);
      NothingRead(fs, expected, b0, lim);
      ReadAre(fs, expected, isFile);
      while todo != {}
        invariant todo <= expected.Keys && Planned(fs, expected, todo, out)
        invariant ReadSoFar(fs, expected, b0, lim, todo, budget)
      {
        var p :| p in todo;
        var have: Option<string> := None;
        ReadNext(fs, expected, b0, lim, todo, budget, p);
        if p == ADR_README {
          have := Some(fs[p].text);
        } else if p in isFile {
          have := ReadFile(p);
          if have.None? { return None; }
        }
        OneMorePlanned(fs, expected, todo, out, p);
        if have != Some(expected[p]) { out := out + [p]; }
        todo := todo - {p};
      }
      AllPlanned(fs, expected, out);
      AllRead(fs, expected, b0, lim, budget);
      return Some(out);
    }

    /** These are, each once, the files to write among those already looked at. */
    static ghost predicate Planned(fs: Fs, expected: Expected, todo: set<Path>, out: seq<Path>) {
      NoTwice(out) && forall p :: p in out <==> p in expected && p !in todo && p in ToWrite(fs, expected)
    }

    static lemma NothingPlanned(fs: Fs, expected: Expected)
      ensures Planned(fs, expected, expected.Keys, [])
    {
    }

    static lemma OneMorePlanned(fs: Fs, expected: Expected, todo: set<Path>, out: seq<Path>, p: Path)
      requires Planned(fs, expected, todo, out) && p in todo && todo <= expected.Keys
      ensures Planned(fs, expected, todo - {p}, if p in fs && fs[p] == File(expected[p]) then out else out + [p])
    {
    }

    static lemma AllPlanned(fs: Fs, expected: Expected, out: seq<Path>)
      requires Planned(fs, expected, {}, out)
      ensures (forall p :: p in out <==> p in ToWrite(fs, expected)) && NoTwice(out)
    {
    }

    /** The budget holds what reading the files already looked at costs. */
    static ghost predicate ReadSoFar(fs: Fs, expected: Expected, b0: Budget, lim: Limits, todo: set<Path>, b: Budget) {
      var done := ToRead(fs, expected) - todo;
      Affordable(b0, lim, Texts(fs), done, 0) && b == Spent(b0, Texts(fs), done, 0)
    }

    static lemma NothingRead(fs: Fs, expected: Expected, b0: Budget, lim: Limits)
      ensures ReadSoFar(fs, expected, b0, lim, expected.Keys, b0)
    {
      hide Affordable, Spent;
      assert ToRead(fs, expected) - expected.Keys == {};
      NothingSpent(b0, lim, Texts(fs));
    }

    static lemma AllRead(fs: Fs, expected: Expected, b0: Budget, lim: Limits, b: Budget)
      requires ReadSoFar(fs, expected, b0, lim, {}, b)
      ensures Affordable(b0, lim, Texts(fs), ToRead(fs, expected), 0)
      ensures b == Spent(b0, Texts(fs), ToRead(fs, expected), 0)
    {
      hide Affordable, Spent, ToRead;
      assert ToRead(fs, expected) - {} == ToRead(fs, expected);
    }

    /** Reading the next file fails only when the budgets do not cover all files. */
    static lemma ReadNext(fs: Fs, expected: Expected, b0: Budget, lim: Limits, todo: set<Path>, b: Budget, p: Path)
      requires ReadSoFar(fs, expected, b0, lim, todo, b) && p in todo
      ensures p !in ToRead(fs, expected) ==> ReadSoFar(fs, expected, b0, lim, todo - {p}, b)
      ensures p in ToRead(fs, expected) ==>
        match ChargeOne(b, lim, |Texts(fs)[p]|)
        case Some(c) => ReadSoFar(fs, expected, b0, lim, todo - {p}, c)
        case None => !Affordable(b0, lim, Texts(fs), ToRead(fs, expected), 0)
    {
      hide Affordable, Spent, ChargeOne;
      var texts, there := Texts(fs), ToRead(fs, expected);
      var done := there - todo;
      if p in there {
        assert there - (todo - {p}) == done + {p};
        OneMoreSpent(b0, lim, texts, done, p);
        if Affordable(b0, lim, texts, there, 0) { AffordableSubset(b0, lim, texts, done + {p}, there); }
      } else {
        assert there - (todo - {p}) == done;
      }
    }

    /** readFile: the text of a file, unless the budget does not allow it. */
    method ReadFile(p: Path) returns (text: Option<string>)
      requires p in fs && fs[p].File?
      modifies this`budget
      ensures text == if ChargeOne(old(budget), lim, |fs[p].text|).Some? then Some(fs[p].text) else None
      ensures text.Some? ==> Some(budget) == ChargeOne(old(budget), lim, |fs[p].text|)
    {
      var b := ChargeOne(budget, lim, |fs[p].text|);
      if b.None? { return None; }
      budget := b.value;
      return Some(fs[p].text);
    }

    static lemma ReadAre(fs: Fs, expected: Expected, isFile: set<Path>)
      requires forall p :: p in isFile <==> p in fs && Below(p, REFERENCE) && fs[p].File?
      ensures forall p :: p in ToRead(fs, expected) <==> p in expected && p != ADR_README && p in isFile
      ensures forall p :: p in ToRead(fs, expected) ==> p in Texts(fs) && Texts(fs)[p] == fs[p].text
    {
      assert ADR_README[..2][1] == "adr";
    }

    /** Writes the planned files; the budget was found to suffice and nothing to be in the way. */
    method CarryOutWrites(expected: Expected, writes: seq<Path>, ghost removes: nat) returns (ok: bool)
      requires Formed(fs) && forall p :: p in writes ==> p in expected && Ready(fs, expected, p)
      requires ChargePlan(budget, lim, writes, expected, removes).Some?
      modifies this
      ensures ok && Wrote(old(fs), fs, expected, SetOf(writes))
      ensures ChargePlan(budget, lim, [], expected, removes) == ChargePlan(old(budget), lim, writes, expected, removes)
    {
      hide Wrote, Ready, Writable, Formed, ChargeOne, ChargePlan, AfterWrite;
      ghost var fs0, done: set<Path> := fs, {};
      NothingWritten(fs0, expected);
      for i := 0 to |writes|
        invariant done == SetOf(writes[..i])
        invariant forall p :: p in writes ==> Ready(fs0, expected, p)
        invariant Wrote(fs0, fs, expected, done)
        invariant forall p :: p in writes[i..] ==> p in expected
        invariant ChargePlan(budget, lim, writes[i..], expected, removes) == ChargePlan(old(budget), lim, writes, expected, removes)
      {
        var p := writes[i];
        assert writes[..i + 1] == writes[..i] + [p];
        ChargeNext(budget, lim, writes, i, expected, removes);
        ReadyFacts(fs0, fs, expected, done, p);
        StillWritable(fs0, fs, expected, done, p);
        OneMoreWritten(fs0, fs, expected, done, p);
        ok := WriteFile(p, expected[p]);
        if !ok { return; }
        done := done + {p};
      }
      assert writes[..|writes|] == writes && writes[|writes|..] == [];
      return true;
    }

    static lemma ChargeNext(b: Budget, lim: Limits, writes: seq<Path>, i: nat, expected: Expected, removes: nat)
      requires i < |writes| && forall p :: p in writes ==> p in expected
      requires (forall p :: p in writes[i..] ==> p in expected) && ChargePlan(b, lim, writes[i..], expected, removes).Some?
      ensures writes[i] in writes && forall p :: p in writes[i + 1..] ==> p in expected
      ensures var c := ChargeOne(b, lim, |expected[writes[i]]|);
        && c.Some?
        && ChargePlan(c.value, lim, writes[i + 1..], expected, removes) == ChargePlan(b, lim, writes[i..], expected, removes)
    {
      assert writes[i..][0] == writes[i] && writes[i..][1..] == writes[i + 1..];
    }

    static lemma NothingWritten(fs0: Fs, expected: Expected)
      requires Formed(fs0)
      ensures Wrote(fs0, fs0, expected, {})
    {
    }

    static lemma ReadyFacts(fs0: Fs, fs: Fs, expected: Expected, done: set<Path>, p: Path)
      requires Ready(fs0, expected, p) && Wrote(fs0, fs, expected, done)
      ensures p in expected && p != [] && Formed(fs)
    {
    }

    /** Removes the extra entries, what lies in a directory before the directory. */
    method CarryOutRemovals(expected: Expected, removes: seq<Entry>, ghost ref: seq<Entry>, ghost fs0: Fs, ghost done: set<Path>)
      returns (ok: bool)
      requires Formed(fs0) && Wrote(fs0, fs, expected, done) && Lists(fs0, REFERENCE, ref)
      requires ChildrenFirst(removes) && forall e :: e in removes <==> e in ref && IsExtra(e, expected)
      requires ChargePlan(budget, lim, [], expected, |removes|).Some?
      modifies this
      ensures ok && fs == old(fs) - PathsOf(removes) && Formed(fs)
      ensures Some(budget) == ChargePlan(old(budget), lim, [], expected, |removes|)
    {
      hide Wrote, Lists, ChildrenFirst, Formed, IsExtra;
      ghost var fs1 := fs;
      assert Formed(fs) by { WroteFormed(fs0, fs, expected, done); }
      assert fs == fs1 - PathsOf(removes[..0]);
      for i := 0 to |removes|
        invariant fs == fs1 - PathsOf(removes[..i]) && Formed(fs)
        invariant ChargePlan(budget, lim, [], expected, |removes| - i) == ChargePlan(old(budget), lim, [], expected, |removes|)
      {
        var e := removes[i];
        assert e in removes;
        assert removes[..i + 1] == removes[..i] + [e];
        assert PathsOf(removes[..i + 1]) == PathsOf(removes[..i]) + {e.path};
        NextIsThere(fs0, fs1, expected, done, ref, removes, i);
        forall q | q in fs ensures !Below(q, e.path) {
          if Below(q, e.path) {
            NothingInside(fs0, fs1, expected, done, ref, removes, i, q);
          }
        }
        ok := Remove(e.path);
        if !ok { return; }
        assert fs == fs1 - PathsOf(removes[..i + 1]);
      }
      assert removes[..|removes|] == removes;
      return true;
    }

    static lemma WroteFormed(fs0: Fs, fs: Fs, expected: Expected, done: set<Path>)
      requires Wrote(fs0, fs, expected, done)
      ensures Formed(fs)
    {
    }

    static lemma NextIsThere(fs0: Fs, fs1: Fs, expected: Expected, done: set<Path>, ref: seq<Entry>, removes: seq<Entry>, i: nat)
      requires Wrote(fs0, fs1, expected, done) && Lists(fs0, REFERENCE, ref) && ChildrenFirst(removes)
      requires (forall e :: e in removes ==> e in ref) && i < |removes|
      ensures removes[i].path in fs1 && removes[i].path !in PathsOf(removes[..i]) && removes[i].path != []
    {
      assert removes[i] in removes && removes[i] in ref;
    }

    /**
      writeOutputs: it succeeds exactly when the plan can be made and carried out. Then the tree is in
      sync, everything else is as it was, and the budgets hold what was listed, read, written and
      removed; otherwise nothing is touched.
     */
    method WriteOutputs(expected: Expected) returns (ok: bool)
      requires Formed(fs) && Placed(expected)
      requires ADR_README in expected ==> ADR_README in fs && fs[ADR_README].File?
      modifies this
      ensures ok <==> CanCarryOut(old(fs), old(budget), lim, expected)
      ensures Formed(fs) && (!ok ==> fs == old(fs))
      ensures ok ==> InSync(fs, expected) && fs == Outcome(old(fs), expected)
      ensures ok ==> forall p :: p in old(fs) && !Below(p, REFERENCE) && p !in expected ==> p in fs && fs[p] == old(fs)[p]
      ensures ok && ToWrite(old(fs), expected) == {} && ToRemove(old(fs), expected) == {} ==> fs == old(fs)
      ensures ok ==> budget == AfterOutputs(old(fs), old(budget), expected)
    {
      hide Lists, Wrote, Formed, InSync, ChildrenFirst, ParentsFirst, IsExtra, Extra, Reverse, ChargePlan, Clear, Free,
        Affordable, Spent, Outcome, ToWrite, ToRemove, ToRead, Listable, Listed, CanList, NoTwice, SetOf, PathsOf;
      ghost var fs0, b0 := fs, budget;
      var ref := ListReference();
      if ref.None? { return false; }
      var isFile := set e | e in ref.value && !e.dir :: e.path;
      var isDir := set e | e in ref.value && e.dir :: e.path;
      ListedKinds(fs, ref.value);
      var plan := PlanWrites(expected, isFile);
      if plan.None? { return false; }
      var writes := plan.value;
      var removes := Reverse(Extra(ref.value, expected));
      RemovesFacts(fs, expected, ref.value);
      WritesFacts(fs, budget, lim, expected, writes, |removes|);
      assert (writes != [] ==> writes[0] in writes) && (ToRemove(fs, expected) == {} ==> removes == []);
      forall p ensures Clear(p, isFile, isDir) <==> Free(fs, p) { ClearIsFree(fs, isFile, isDir, p); }
      ok := CheckPlan(expected, writes, removes, isFile, isDir);
      if !ok { return; }
      forall p | p in writes ensures Ready(fs0, expected, p) { PlanReady(fs0, b0, lim, expected, p); }
      ok := CarryOutWrites(expected, writes, |removes|);
      if !ok { return; }
      ghost var done, fs1 := SetOf(writes), fs;
      SyncedAfter(fs0, fs1, expected, writes, ref.value, removes);
      ok := CarryOutRemovals(expected, removes, ref.value, fs0, done);
      IsOutcome(fs0, fs, expected);
    }

    static lemma RemovesFacts(fs: Fs, expected: Expected, ref: seq<Entry>)
      requires Lists(fs, REFERENCE, ref)
      ensures var removes := Reverse(Extra(ref, expected));
        && ChildrenFirst(removes) && (forall e :: e in removes <==> e in ref && IsExtra(e, expected))
        && PathsOf(removes) == ToRemove(fs, expected) && |removes| == |ToRemove(fs, expected)|
    {
      hide Lists, ChildrenFirst, ParentsFirst, IsExtra, Extra, Reverse;
      ExtraMembers(ref, expected);
      ListedOrder(fs, ref);
      ExtraOrdered(ref, expected);
      ReverseOrder(Extra(ref, expected));
      RemovesAre(fs, expected, ref, Reverse(Extra(ref, expected)));
    }

    static lemma WritesFacts(fs: Fs, b: Budget, lim: Limits, expected: Expected, writes: seq<Path>, removes: nat)
      requires NoTwice(writes) && forall p :: p in writes <==> p in ToWrite(fs, expected)
      ensures SetOf(writes) == ToWrite(fs, expected) && forall p :: p in writes ==> p in expected
      ensures ChargePlan(b, lim, writes, expected, removes) ==
        if Affordable(b, lim, expected, ToWrite(fs, expected), removes)
        then Some(Spent(b, expected, ToWrite(fs, expected), removes)) else None
    {
      hide NoTwice, ChargePlan, Affordable, Spent;
      assert SetOf(writes) == ToWrite(fs, expected);
      PlanAffordable(b, lim, writes, expected, removes);
    }

    static lemma SyncedAfter(fs0: Fs, fs1: Fs, expected: Expected, writes: seq<Path>, ref: seq<Entry>, removes: seq<Entry>)
      requires Wrote(fs0, fs1, expected, SetOf(writes)) && Lists(fs0, REFERENCE, ref)
      requires forall e :: e in removes <==> e in ref && IsExtra(e, expected)
      requires forall p :: p in writes <==> p in ToWrite(fs0, expected)
      requires forall p :: p in writes ==> Ready(fs0, expected, p)
      ensures var fs2 := fs1 - PathsOf(removes);
        && InSync(fs2, expected)
        && (forall p :: p in fs0 && !Below(p, REFERENCE) && p !in expected ==> p in fs2 && fs2[p] == fs0[p])
        && (forall p :: p in fs2 && p !in fs0 && p !in expected ==> fs2[p] == Dir && Wanted(expected, p))
        && (writes == [] && removes == [] ==> fs2 == fs0)
    {
      hide Lists, IsExtra, InSync;
      var done := SetOf(writes);
      WrittenWereFiles(fs0, expected, done);
      Synced(fs0, fs1, expected, done, ref, removes);
      if writes == [] && removes == [] {
        assert done == {} && PathsOf(removes) == {};
        assert fs1 == fs0;
        assert fs1 - PathsOf(removes) == fs1;
      }
    }

    static lemma WrittenWereFiles(fs0: Fs, expected: Expected, done: set<Path>)
      requires forall p :: p in done ==> Ready(fs0, expected, p)
      ensures forall p :: p in done && Below(p, REFERENCE) && p in fs0 ==> fs0[p].File?
    {
    }

    static lemma ListedKinds(fs: Fs, ref: seq<Entry>)
      requires Lists(fs, REFERENCE, ref)
      ensures forall p :: p in (set e | e in ref && !e.dir :: e.path) <==> p in fs && Below(p, REFERENCE) && fs[p].File?
      ensures forall p :: p in (set e | e in ref && e.dir :: e.path) <==> p in fs && Below(p, REFERENCE) && fs[p].Dir?
    {
      forall p | p in fs && Below(p, REFERENCE)
        ensures fs[p].File? ==> p in set e | e in ref && !e.dir :: e.path
        ensures fs[p].Dir? ==> p in set e | e in ref && e.dir :: e.path
      {
        assert Entry(p, fs[p].Dir?) in ref;
      }
    }

    static lemma ListedOrder(fs: Fs, ref: seq<Entry>)
      requires Lists(fs, REFERENCE, ref)
      ensures ParentsFirst(ref)
    {
    }

    static lemma PlanReady(fs0: Fs, b: Budget, lim: Limits, expected: Expected, p: Path)
      requires Formed(fs0) && Placed(expected) && p in expected && Free(fs0, p) && CanList(fs0, b, lim)
      requires ADR_README in expected ==> ADR_README in fs0 && fs0[ADR_README].File?
      ensures Ready(fs0, expected, p)
    {
    }

    /**
      compare: fails exactly when the budgets do not cover the listing and the reading or the listing
      fails, and finds exactly what is to write or to remove.
     */
    method Compare(expected: Expected) returns (findings: Option<seq<Path>>)
      requires Formed(fs) && Placed(expected)
      requires ADR_README in expected ==> ADR_README in fs && fs[ADR_README].File?
      modifies this`budget
      ensures findings.Some? <==> CanRead(fs, old(budget), lim, expected)
      ensures findings.Some? ==>
        forall p :: p in findings.value <==> p in ToWrite(fs, expected) || p in ToRemove(fs, expected)
      ensures findings == Some([]) <==> CanRead(fs, old(budget), lim, expected) && InSync(fs, expected)
    {
      hide Lists, Formed, IsExtra, Extra, ToWrite, ToRemove, ToRead, InSync, Affordable, Listed, CanList, Spent;
      var ref := ListReference();
      if ref.None? { return None; }
      var isFile := set e | e in ref.value && !e.dir :: e.path;
      ListedKinds(fs, ref.value);
      var plan := PlanWrites(expected, isFile);
      if plan.None? { return None; }
      var out: seq<Path> := plan.value;
      var extra := Extra(ref.value, expected);
      ExtraPaths(fs, expected, ref.value);
      for i := 0 to |extra|
        invariant forall p :: p in out <==> p in ToWrite(fs, expected) || p in PathsOf(extra[..i])
      {
        assert extra[..i + 1] == extra[..i] + [extra[i]];
        assert PathsOf(extra[..i + 1]) == PathsOf(extra[..i]) + {extra[i].path};
        out := out + [extra[i].path];
      }
      assert extra[..|extra|] == extra;
      InSyncIff(fs, expected);
      assert out != [] ==> out[0] in out;
      return Some(out);
    }

    static lemma ExtraPaths(fs: Fs, expected: Expected, ref: seq<Entry>)
      requires Lists(fs, REFERENCE, ref)
      ensures PathsOf(Extra(ref, expected)) == ToRemove(fs, expected)
    {
      hide IsExtra, Extra;
      ExtraMembers(ref, expected);
      forall p | p in ToRemove(fs, expected) ensures p in PathsOf(Extra(ref, expected)) {
        assert Entry(p, fs[p].Dir?) in Extra(ref, expected);
      }
    }

    /**
      Writing, then comparing, then writing again. The two later runs begin with what their own
      analysis has spent. The comparison finds nothing, and the second writing changes nothing, exactly
      when no expected file is so deep that its directory cannot be listed and those budgets cover
      listing and reading the expected files; otherwise they fail, although the first writing succeeded.
     */
    method WriteThenCompare(expected: Expected, second: Budget, third: Budget)
      returns (ok: bool, findings: Option<seq<Path>>, again: bool)
      requires Formed(fs) && Placed(expected)
      requires ADR_README in expected ==> ADR_README in fs && fs[ADR_README].File?
      modifies this
      ensures ok <==> CanCarryOut(old(fs), old(budget), lim, expected)
      ensures ok ==> InSync(fs, expected) && fs == Outcome(old(fs), expected)
      ensures ok ==> findings == (if Refound(old(fs), second, lim, expected) then Some([]) else None)
      ensures ok ==> again == Refound(old(fs), third, lim, expected)
      ensures !ok ==> fs == old(fs)
    {
      hide InSync, Refound, CanCarryOut, CanRead, Outcome, ToWrite, ToRemove, Formed, Placed, AfterOutputs;
      ok := WriteOutputs(expected);
      findings, again := None, false;
      if !ok { return; }
      IndexStays(fs, expected);
      RefoundIff(old(fs), old(budget), fs, second, lim, expected);
      budget := second;
      findings := Compare(expected);
      RefoundIff(old(fs), old(budget), fs, third, lim, expected);
      NothingToDo(fs, third, lim, expected);
      budget := third;
      again := WriteOutputs(expected);
    }

    static lemma IndexStays(fs: Fs, expected: Expected)
      requires InSync(fs, expected)
      ensures ADR_README in expected ==> ADR_README in fs && fs[ADR_README].File?
    {
    }

    static lemma NothingToDo(fs: Fs, b: Budget, lim: Limits, expected: Expected)
      requires InSync(fs, expected)
      ensures CanCarryOut(fs, b, lim, expected) <==> CanRead(fs, b, lim, expected)
      ensures ToWrite(fs, expected) == {} && ToRemove(fs, expected) == {}
    {
      hide InSync, CanRead, ToWrite, ToRemove, Free, AfterReading;
      InSyncIff(fs, expected);
    }
  }

  /** Nothing is to be written or removed exactly when the tree is in sync. */
  lemma InSyncIff(fs: Fs, expected: Expected)
    ensures InSync(fs, expected) <==> ToWrite(fs, expected) == {} && ToRemove(fs, expected) == {}
  {
    hide Wanted;
    if ToWrite(fs, expected) == {} && ToRemove(fs, expected) == {} {
      forall p | p in expected ensures p in fs && fs[p] == File(expected[p]) {
        assert p !in ToWrite(fs, expected);
      }
      forall p | p in fs && Below(p, REFERENCE) ensures if fs[p].Dir? then Wanted(expected, p) else p in expected {
        assert p !in ToRemove(fs, expected);
      }
    }
  }

  // ----- how deep the expected files may lie -----

  /** No expected file lies in a directory below the reference directory that is too deep to be listed. */
  predicate Shallow(expected: Expected, maxDepth: nat) {
    forall p :: p in expected && Below(p, REFERENCE) && |p| > |REFERENCE| + 1 ==> |p| - 1 <= maxDepth
  }

  lemma DeepIff(fs: Fs, maxDepth: nat, expected: Expected)
    requires Formed(fs) && InSync(fs, expected)
    ensures TooDeep(fs, REFERENCE, maxDepth) <==> !Shallow(expected, maxDepth)
  {
    if TooDeep(fs, REFERENCE, maxDepth) {
      var d :| d in fs && Below(d, REFERENCE) && fs[d].Dir? && |d| > maxDepth;
      assert Wanted(expected, d);
      var p :| p in expected && Below(p, d);
      BelowTrans(p, d, REFERENCE);
      assert !Shallow(expected, maxDepth);
    }
    if !Shallow(expected, maxDepth) {
      var p :| p in expected && Below(p, REFERENCE) && |p| > |REFERENCE| + 1 && |p| - 1 > maxDepth;
      var d := p[..|p| - 1];
      assert Below(p, d) && p in fs;
      assert d in fs && fs[d] == Dir && Below(d, REFERENCE);
    }
  }

  // ----- what another run spends on the expected files -----

  function Generated(expected: Expected): set<Path> { set p | p in expected && Below(p, REFERENCE) }

  /** The directories between the reference directory and the files in it. */
  function Folders(expected: Expected): set<Path> {
    set p, k | p in expected && Below(p, REFERENCE) && |REFERENCE| < k < |p| :: p[..k]
  }

  /** The two directories on the way, the reference directory, and each file and directory in it; a directory is also opened. */
  function RelistCost(fs0: Fs, expected: Expected): nat {
    if Generated(expected) != {} then 3 + |Generated(expected)| + 2 * |Folders(expected)|
    else if ["docs"] !in fs0 then 1 else if REFERENCE !in fs0 then 2 else 3
  }

  /** The expected files, once written, can be listed and read with these budgets. */
  ghost predicate Refound(fs0: Fs, b: Budget, lim: Limits, expected: Expected) {
    var cost := RelistCost(fs0, expected);
    && Shallow(expected, lim.maxDepth) && b.entries + cost <= lim.maxEntries
    && Affordable(b.(entries := b.entries + cost), lim, expected, Generated(expected), 0)
  }

  lemma FolderIs(expected: Expected, d: Path)
    ensures d in Folders(expected) <==> Below(d, REFERENCE) && Wanted(expected, d)
  {
    if Below(d, REFERENCE) && Wanted(expected, d) {
      var p :| p in expected && Below(p, d);
      BelowTrans(p, d, REFERENCE);
      assert p[..|d|] == d;
    }
    if d in Folders(expected) {
      var p, k :| p in expected && Below(p, REFERENCE) && |REFERENCE| < k < |p| && d == p[..k];
      assert d[..2] == p[..2] && Below(p, d);
    }
  }

  /** Below the reference directory are the files and their directories. */
  lemma InsideIs(fs: Fs, expected: Expected)
    requires Formed(fs) && InSync(fs, expected)
    ensures DirsInside(fs, REFERENCE) == Folders(expected) && ToRead(fs, expected) == Generated(expected)
    ensures |Inside(fs, REFERENCE)| == |Generated(expected)| + |Folders(expected)|
  {
    hide Wanted;
    forall d ensures d in Folders(expected) <==> Below(d, REFERENCE) && Wanted(expected, d) { FolderIs(expected, d); }
    forall d | d in Folders(expected) ensures d in fs && fs[d] == Dir { WantedIsDir(fs, expected, d); }
    var a, b := Generated(expected), Folders(expected);
    assert Inside(fs, REFERENCE) == a + b && a !! b;
  }

  /** The way to the reference directory is there when it was, or when a file was put there. */
  lemma WayThere(fs0: Fs, fs: Fs, expected: Expected, d: Path)
    requires Formed(fs) && Placed(expected) && InSync(fs, expected) && fs == Outcome(fs0, expected)
    requires d == ["docs"] || d == REFERENCE
    requires ADR_README in expected ==> ["docs"] in fs0
    ensures d in fs <==> Generated(expected) != {} || d in fs0
  {
    assert ["docs"] == REFERENCE[..1];
    assert Below(REFERENCE, ["docs"]);
    OutcomeAt(fs0, expected, d);
    if p :| p in Generated(expected) {
      if d != REFERENCE { BelowTrans(p, REFERENCE, d); }
      WantedIsDir(fs, expected, d);
    }
    if Wanted(expected, d) && Generated(expected) == {} {
      var p :| p in expected && Below(p, d);
      assert p !in Generated(expected);
      assert p == ADR_README;
      assert d == ["docs"] by { assert ADR_README[..2] != REFERENCE by { assert ADR_README[..2][1] == "adr"; } }
    }
  }

  lemma RelistIs(fs0: Fs, fs: Fs, expected: Expected)
    requires Formed(fs) && Placed(expected) && InSync(fs, expected) && fs == Outcome(fs0, expected)
    requires ADR_README in expected ==> ["docs"] in fs0
    ensures ListCost(fs) == RelistCost(fs0, expected)
  {
    hide Formed, Placed, InSync, Outcome, Generated, Folders, Inside, DirsInside, ToRead;
    WayThere(fs0, fs, expected, ["docs"]);
    WayThere(fs0, fs, expected, REFERENCE);
    InsideIs(fs, expected);
    if Generated(expected) == {} { NoFolders(expected); }
  }

  lemma NoFolders(expected: Expected)
    requires Generated(expected) == {}
    ensures Folders(expected) == {}
  {
    assert forall p :: p in expected && Below(p, REFERENCE) ==> p in Generated(expected);
  }

  /** A run over the outcome lists and reads it exactly when the budgets cover the expected files. */
  lemma RefoundIff(fs0: Fs, b0: Budget, fs: Fs, b: Budget, lim: Limits, expected: Expected)
    requires Formed(fs0) && Formed(fs) && Placed(expected) && InSync(fs, expected) && fs == Outcome(fs0, expected)
    requires CanCarryOut(fs0, b0, lim, expected)
    requires ADR_README in expected ==> ADR_README in fs0 && fs0[ADR_README].File?
    ensures CanRead(fs, b, lim, expected) <==> Refound(fs0, b, lim, expected)
  {
    hide Formed, Placed, InSync, Outcome, Affordable, ListCost, RelistCost, Shallow, Texts, Generated, ToRead, TooDeep;
    assert ADR_README in expected ==> ["docs"] in fs0 by { IndexInDocs(fs0, expected); }
    RelistIs(fs0, fs, expected);
    InsideIs(fs, expected);
    DeepIff(fs, lim.maxDepth, expected);
    WayIsDir(fs0, fs, lim.maxDepth, expected);
    TextsExpected(fs, expected);
    AffordableSame(Listed(fs, b), lim, Texts(fs), expected, Generated(expected));
  }

  lemma IndexInDocs(fs0: Fs, expected: Expected)
    requires Formed(fs0) && (ADR_README in expected ==> ADR_README in fs0)
    ensures ADR_README in expected ==> ["docs"] in fs0
  {
    assert ADR_README[..1] == ["docs"];
    assert Below(ADR_README, ["docs"]);
  }

  lemma WayIsDir(fs0: Fs, fs: Fs, maxDepth: nat, expected: Expected)
    requires Placed(expected) && fs == Outcome(fs0, expected) && Listable(fs0, maxDepth)
    ensures forall d :: d in fs && (d == ["docs"] || d == REFERENCE) ==> fs[d] == Dir
  {
    hide Outcome, Wanted;
    forall d | d in fs && (d == ["docs"] || d == REFERENCE) ensures fs[d] == Dir {
      OutcomeAt(fs0, expected, d);
      assert d !in expected;
    }
  }

  lemma TextsExpected(fs: Fs, expected: Expected)
    requires InSync(fs, expected)
    ensures forall p :: p in Generated(expected) ==> p in Texts(fs) && p in expected && Texts(fs)[p] == expected[p]
  {
  }

  // ----- runs that succeed once -----

  /** The limits of the source. */
  const DEFAULT_LIMITS := Limits(100000, 5000, 0x10_0000, 0x400_0000, 64)

  const EMPTY_REPOSITORY: Fs := map[[] := Dir]

  /** In an empty repository a single file below the reference directory costs one look at docs and its own writing. */
  lemma SingleFile(b: Budget, lim: Limits, p: Path, text: string)
    requires Below(p, REFERENCE) && b.entries + 2 <= lim.maxEntries
    requires b.files + 1 <= lim.maxFiles && |text| <= lim.maxFileBytes && b.bytes + |text| <= lim.maxTotalBytes
    ensures var expected := map[p := text];
      && Formed(EMPTY_REPOSITORY) && Placed(expected) && ADR_README !in expected
      && CanCarryOut(EMPTY_REPOSITORY, b, lim, expected) && Generated(expected) == {p}
  {
    var fs, expected: Expected := EMPTY_REPOSITORY, map[p := text];
    assert p[..2][1] == "reference" && ADR_README[1] == "adr";
    assert ToRead(fs, expected) == {} && ToWrite(fs, expected) == {p} && ToRemove(fs, expected) == {};
    NothingSpent(Listed(fs, b), lim, Texts(fs));
    TotalPick(expected, {p}, p);
    assert {p} - {p} == {};
    TotalNone(expected);
  }

  /** The file of a package whose directory is as deep as the sources may be: 64 names. */
  const DEEP_FILE: Path := REFERENCE + seq(64, i => "d")

  /**
    In an empty repository the file of such a package can be written, and after that neither a
    comparison nor another writing succeeds, whatever the budgets.
   */
  lemma DeepFileIsWrittenOnce(text: string)
    requires |text| <= DEFAULT_LIMITS.maxFileBytes
    ensures var fs, expected := EMPTY_REPOSITORY, map[DEEP_FILE := text];
      && Formed(fs) && Placed(expected) && ADR_README !in expected
      && CanCarryOut(fs, Budget(0, 0, 0), DEFAULT_LIMITS, expected)
      && forall b :: !Refound(fs, b, DEFAULT_LIMITS, expected)
  {
    var expected: Expected := map[DEEP_FILE := text];
    assert |DEEP_FILE| == 66 && DEEP_FILE[..2] == REFERENCE && Below(DEEP_FILE, REFERENCE);
    SingleFile(Budget(0, 0, 0), DEFAULT_LIMITS, DEEP_FILE, text);
    assert DEEP_FILE in expected;
    assert !Shallow(expected, 64);
  }

  const SHALLOW_FILE: Path := REFERENCE + ["x.md"]

  /** With three entries left a shallow file can be written, and runs that begin with as much spent do not find it. */
  lemma ShallowFileIsWrittenOnce(text: string)
    requires |text| <= DEFAULT_LIMITS.maxFileBytes
    ensures var fs, expected, b := EMPTY_REPOSITORY, map[SHALLOW_FILE := text], Budget(99997, 0, 0);
      && Formed(fs) && Placed(expected) && ADR_README !in expected
      && CanCarryOut(fs, b, DEFAULT_LIMITS, expected)
      && Shallow(expected, DEFAULT_LIMITS.maxDepth) && !Refound(fs, b, DEFAULT_LIMITS, expected)
  {
    var expected: Expected := map[SHALLOW_FILE := text];
    assert SHALLOW_FILE[..2] == REFERENCE && Below(SHALLOW_FILE, REFERENCE);
    SingleFile(Budget(99997, 0, 0), DEFAULT_LIMITS, SHALLOW_FILE, text);
  }

  /** A generated file that has grown beyond the limit of one file is never replaced: reading it fails. */
  lemma LargeFileIsNeverReplaced(fs: Fs, b: Budget, lim: Limits, expected: Expected, p: Path)
    requires p in expected && Below(p, REFERENCE) && p in fs && fs[p].File? && |fs[p].text| > lim.maxFileBytes
    ensures !CanRead(fs, b, lim, expected) && !CanCarryOut(fs, b, lim, expected)
  {
    assert p in ToRead(fs, expected) && |Texts(fs)[p]| > lim.maxFileBytes;
  }

  /** No directory stands at p, and below the reference directory no file above it. */
  predicate Clear(p: Path, isFile: set<Path>, isDir: set<Path>) {
    p !in isDir && forall d :: d in isFile ==> !Below(p, d)
  }

  // ----- the writes -----

  /** The tree when the files in done have been written and nothing was removed yet. */
  ghost predicate Wrote(fs0: Fs, fs: Fs, expected: Expected, done: set<Path>) {
    && Formed(fs) && (forall p :: p in done ==> p in expected)
    && (forall p :: p in fs0 && p !in done ==> p in fs && fs[p] == fs0[p])
    && (forall p :: p in done ==> p in fs && fs[p] == File(expected[p]))
    && (forall p :: p in fs && p !in fs0 && p !in done ==> fs[p] == Dir && exists q :: q in done && Below(q, p))
  }

  /** What the listing and the plan say about the tree before the first write. */
  ghost predicate Ready(fs0: Fs, expected: Expected, p: Path) {
    && p in expected && Placed(expected) && Formed(fs0)
    && (ADR_README in expected ==> ADR_README in fs0 && fs0[ADR_README].File?)
    && (forall d :: d in fs0 && (d == ["docs"] || d == REFERENCE) ==> fs0[d] == Dir)
    && (Below(p, REFERENCE) && p in fs0 ==> fs0[p].File?)
    && (forall d :: d in fs0 && Below(p, d) && Below(d, REFERENCE) ==> fs0[d] == Dir)
  }

  lemma AboveReference(d: Path)
    requires Below(REFERENCE, d)
    ensures d == [] || d == ["docs"]
  {
    if |d| == 1 { assert d == REFERENCE[..1]; }
  }

  /** A directory above a path below another directory is above, at, or below that one. */
  lemma Between(p: Path, d: Path, r: Path)
    requires Below(p, d) && Below(p, r)
    ensures Below(r, d) || d == r || Below(d, r)
  {
    if |d| < |r| { assert r[..|d|] == p[..|r|][..|d|]; }
    else if |d| > |r| { assert d[..|r|] == p[..|d|][..|r|]; }
    else { assert d == p[..|d|] && r == p[..|r|]; }
  }

  lemma FirstFree(fs0: Fs, expected: Expected, p: Path, d: Path)
    requires Ready(fs0, expected, p) && d in fs0 && Below(p, d)
    ensures fs0[d] == Dir
  {
    if Below(p, REFERENCE) {
      Between(p, d, REFERENCE);
      if Below(REFERENCE, d) { AboveReference(d); }
    }
  }

  lemma StillWritable(fs0: Fs, fs: Fs, expected: Expected, done: set<Path>, p: Path)
    requires Wrote(fs0, fs, expected, done) && Ready(fs0, expected, p)
    ensures Writable(fs, p)
  {
    forall d | d in fs && Below(p, d) ensures fs[d] == Dir {
      assert d !in done;
      if d in fs0 { FirstFree(fs0, expected, p, d); }
    }
  }

  lemma OneMoreWritten(fs0: Fs, fs: Fs, expected: Expected, done: set<Path>, p: Path)
    requires Wrote(fs0, fs, expected, done) && Ready(fs0, expected, p) && Writable(fs, p)
    ensures Wrote(fs0, AfterWrite(fs, p, expected[p]), expected, done + {p})
  {
    var fs' := AfterWrite(fs, p, expected[p]);
    AfterWriteFormed(fs, p, expected[p]);
    forall d ensures d in Above(p) <==> Below(p, d) { AboveIs(p, d); }
    forall q | q in done + {p} ensures q in fs' && fs'[q] == File(expected[q]) {
      if q != p { assert !Below(p, q); }
    }
    forall q | q in fs' && q !in fs0 && q !in done + {p} ensures fs'[q] == Dir && exists x :: x in done + {p} && Below(x, q) {
      if Below(p, q) {
        assert p in done + {p};
      } else {
        var x :| x in done && Below(x, q);
        assert x in done + {p};
      }
    }
  }

  // ----- the removals -----

  /** When everything before it is gone, an extra entry has nothing in it. */
  lemma NothingInside(fs0: Fs, fs1: Fs, expected: Expected, done: set<Path>, ref: seq<Entry>, removes: seq<Entry>, i: nat, p: Path)
    requires Formed(fs0) && Wrote(fs0, fs1, expected, done) && Lists(fs0, REFERENCE, ref)
    requires ChildrenFirst(removes) && (forall e :: e in removes <==> e in ref && IsExtra(e, expected)) && i < |removes|
    requires p in fs1 && Below(p, removes[i].path)
    ensures p in PathsOf(removes[..i])
  {
    hide ChildrenFirst;
    var e := removes[i];
    assert e in removes;
    BelowTrans(p, e.path, REFERENCE);
    assert e.path !in done by { NotWritten(fs0, fs1, expected, done, p, e); }
    assert fs1[e.path] == Dir && fs1[e.path] == fs0[e.path];
    assert e.dir && !Wanted(expected, e.path);
    NotWanted(expected, e.path, p);
    assert p !in done;
    if p !in fs0 {
      var q :| q in done && Below(q, p);
      NotWanted(expected, e.path, q);
      BelowTrans(q, p, e.path);
      assert false;
    }
    var x := Entry(p, fs0[p].Dir?);
    assert x in ref;
    assert IsExtra(x, expected) by {
      if x.dir && Wanted(expected, p) {
        var q :| q in expected && Below(q, p);
        BelowTrans(q, p, e.path);
      }
    }
    assert x in removes;
    var k :| 0 <= k < |removes| && removes[k] == x;
    Earlier(removes, i, k);
    assert removes[..i][k] == x;
  }

  lemma NotWritten(fs0: Fs, fs1: Fs, expected: Expected, done: set<Path>, p: Path, e: Entry)
    requires Wrote(fs0, fs1, expected, done) && p in fs1 && Below(p, e.path)
    ensures e.path !in done
  {
    assert e.path in fs1 && fs1[e.path] == Dir;
  }

  lemma NotWanted(expected: Expected, d: Path, p: Path)
    requires !Wanted(expected, d)
    ensures Below(p, d) ==> p !in expected
  {
  }

  lemma Earlier(removes: seq<Entry>, i: nat, k: nat)
    requires ChildrenFirst(removes) && i < |removes| && k < |removes| && Below(removes[k].path, removes[i].path)
    ensures k < i
  {
  }

  function PathsOf(es: seq<Entry>): set<Path> { set e | e in es :: e.path }

  /** After the removals the tree is in sync. */
  lemma Synced(fs0: Fs, fs1: Fs, expected: Expected, done: set<Path>, ref: seq<Entry>, removes: seq<Entry>)
    requires Wrote(fs0, fs1, expected, done) && Lists(fs0, REFERENCE, ref)
    requires forall e :: e in removes <==> e in ref && IsExtra(e, expected)
    requires forall p :: p in expected && p !in done ==> p in fs0 && fs0[p] == File(expected[p])
    requires forall p :: p in done && Below(p, REFERENCE) && p in fs0 ==> fs0[p].File?
    ensures InSync(fs1 - PathsOf(removes), expected)
    ensures forall p :: p in fs0 && !Below(p, REFERENCE) && p !in expected ==>
      p in fs1 - PathsOf(removes) && (fs1 - PathsOf(removes))[p] == fs0[p]
  {
    var fs2, gone := fs1 - PathsOf(removes), PathsOf(removes);
    forall p | p in expected ensures p in fs2 && fs2[p] == File(expected[p]) {
      assert forall e :: e in removes ==> e in ref && IsExtra(e, expected);
    }
    forall p | p in fs2 && Below(p, REFERENCE) ensures if fs2[p].Dir? then Wanted(expected, p) else p in expected {
      if p in fs0 {
        var e := Entry(p, fs0[p].Dir?);
        assert e in ref;
        assert IsExtra(e, expected) ==> e in removes;
      } else if p !in done {
        var q :| q in done && Below(q, p);
        assert q in expected;
      }
    }
    forall p | p in fs0 && !Below(p, REFERENCE) && p !in expected ensures p in fs2 && fs2[p] == fs0[p] {
      assert forall e :: e in removes ==> e in ref;
    }
  }
}
