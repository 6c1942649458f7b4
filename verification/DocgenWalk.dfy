/**
  tools/docgen/walk.go: the listing of the reference directory. It spends one entry of the budget
  for each directory that it opens and one for each name that it finds, and has a depth limit. A
  path is the list of its names from the root of the repository.
 */
module DocgenWalk {
  import opened Wrappers
  import Order

  type Path = seq<string>

  datatype Node = Dir | File(text: string)

  type Fs = map<Path, Node>

  const REFERENCE: Path := ["docs", "reference"]

  datatype Entry = Entry(path: Path, dir: bool)

  // ----- paths -----

  predicate Below(p: Path, d: Path) { |d| < |p| && p[..|d|] == d }

  /** Every path of the tree has its parents, and they are directories. */
  ghost predicate Formed(fs: Fs) {
    && [] in fs && fs[[]] == Dir
    && forall p, d :: p in fs && Below(p, d) ==> d in fs && fs[d] == Dir
  }

  lemma BelowTrans(a: Path, b: Path, c: Path)
    requires Below(a, b) && Below(b, c)
    ensures Below(a, c)
  {
    assert a[..|c|] == a[..|b|][..|c|];
  }

  /** What stands between a path and a directory above it: the child it is at or below. */
  lemma ChildOn(p: Path, d: Path)
    requires Below(p, d)
    ensures var c := d + [p[|d|]]; p == c || Below(p, c)
  {
    var c := d + [p[|d|]];
    assert p[..|c|] == c;
    if |p| == |c| { assert p[..|p|] == p; }
  }

  // ----- the listing of the reference directory -----

  /** ref lists what lies below d, each once, nothing before a directory that it lies in. */
  ghost predicate Lists(fs: Fs, d: Path, ref: seq<Entry>) {
    && (forall e :: e in ref ==> Below(e.path, d) && e.path in fs && e.dir == fs[e.path].Dir?)
    && (forall p :: p in fs && Below(p, d) ==> Entry(p, fs[p].Dir?) in ref)
    && (forall i, j :: 0 <= i < j < |ref| ==> ref[i].path != ref[j].path && !Below(ref[i].path, ref[j].path))
  }

  ghost function Names(fs: Fs, d: Path): set<string> { set p | p in fs && |p| == |d| + 1 && Below(p, d) :: p[|d|] }

  /** The part of the listing that lies at or below the children with these names. */
  ghost predicate ListsSome(fs: Fs, d: Path, names: set<string>, ref: seq<Entry>) {
    && (forall e :: e in ref ==> Below(e.path, d) && e.path[|d|] in names && e.path in fs && e.dir == fs[e.path].Dir?)
    && (forall p :: p in fs && Below(p, d) && p[|d|] in names ==> Entry(p, fs[p].Dir?) in ref)
    && (forall i, j :: 0 <= i < j < |ref| ==> ref[i].path != ref[j].path && !Below(ref[i].path, ref[j].path))
  }

  lemma AddFile(fs: Fs, d: Path, names: set<string>, ref: seq<Entry>, name: string)
    requires Formed(fs) && ListsSome(fs, d, names, ref) && name !in names
    requires d + [name] in fs && !fs[d + [name]].Dir?
    ensures ListsSome(fs, d, names + {name}, ref + [Entry(d + [name], false)])
  {
    var c := d + [name];
    var all := ref + [Entry(c, false)];
    assert Below(c, d) && c[|d|] == name;
    forall p | p in fs && Below(p, d) && p[|d|] in names + {name} ensures Entry(p, fs[p].Dir?) in all {
      if p[|d|] == name {
        ChildOn(p, d);
        assert !Below(p, c);
      } else {
        assert Entry(p, fs[p].Dir?) in ref;
      }
    }
    forall i, j | 0 <= i < j < |all| ensures all[i].path != all[j].path && !Below(all[i].path, all[j].path) {
      if j == |ref| {
        assert ref[i] in ref;
        OtherChild(ref[i].path, d, name);
      }
    }
  }

  /** What lies at or below one child is neither at nor below another. */
  lemma OtherChild(p: Path, d: Path, name: string)
    requires Below(p, d) && p[|d|] != name
    ensures p != d + [name] && !Below(p, d + [name])
  {
    var c := d + [name];
    assert c[|d|] == name;
    assert |c| <= |p| ==> p[..|c|][|d|] == p[|d|];
  }

  lemma AddDir(fs: Fs, d: Path, names: set<string>, ref: seq<Entry>, name: string, sub: seq<Entry>)
    requires Formed(fs) && ListsSome(fs, d, names, ref) && name !in names
    requires d + [name] in fs && fs[d + [name]].Dir? && Lists(fs, d + [name], sub)
    ensures ListsSome(fs, d, names + {name}, ref + [Entry(d + [name], true)] + sub)
  {
    var c := d + [name];
    var all := ref + [Entry(c, true)] + sub;
    assert Below(c, d) && c[|d|] == name;
    forall e | e in sub ensures Below(e.path, d) && e.path[|d|] == name {
      BelowTrans(e.path, c, d);
      assert e.path[..|c|][|d|] == c[|d|];
    }
    forall p | p in fs && Below(p, d) && p[|d|] in names + {name} ensures Entry(p, fs[p].Dir?) in all {
      if p[|d|] == name {
        ChildOn(p, d);
        if p != c { assert Entry(p, fs[p].Dir?) in sub; }
      } else {
        assert Entry(p, fs[p].Dir?) in ref;
      }
    }
    AllOrdered(d, ref, c, sub, names, name);
  }

  lemma AllOrdered(d: Path, ref: seq<Entry>, c: Path, sub: seq<Entry>, names: set<string>, name: string)
    requires c == d + [name] && name !in names
    requires forall e :: e in ref ==> Below(e.path, d) && e.path[|d|] in names
    requires forall e :: e in sub ==> Below(e.path, c) && Below(e.path, d) && e.path[|d|] == name
    requires forall i, j :: 0 <= i < j < |ref| ==> ref[i].path != ref[j].path && !Below(ref[i].path, ref[j].path)
    requires forall i, j :: 0 <= i < j < |sub| ==> sub[i].path != sub[j].path && !Below(sub[i].path, sub[j].path)
    ensures var all := ref + [Entry(c, true)] + sub;
      forall i, j :: 0 <= i < j < |all| ==> all[i].path != all[j].path && !Below(all[i].path, all[j].path)
  {
    var all, n := ref + [Entry(c, true)] + sub, |ref|;
    forall i, j | 0 <= i < j < |all| ensures all[i].path != all[j].path && !Below(all[i].path, all[j].path) {
      if i < n && j >= n {
        assert ref[i] in ref;
        OtherChild(ref[i].path, d, name);
        if j > n {
          assert sub[j - n - 1] in sub;
          if Below(ref[i].path, sub[j - n - 1].path) { BelowTrans(ref[i].path, sub[j - n - 1].path, c); }
        }
      } else if i == n && j > n {
        assert sub[j - n - 1] in sub;
      } else if i > n {
        assert all[i] == sub[i - n - 1] && all[j] == sub[j - n - 1];
      }
    }
  }

  /** A directory below d lies deeper than the limit allows. */
  ghost predicate TooDeep(fs: Fs, d: Path, maxDepth: nat) {
    exists p :: p in fs && Below(p, d) && fs[p].Dir? && |p| > maxDepth
  }

  /** No directory at or below the children with these names is too deep. */
  ghost predicate ShallowSome(fs: Fs, d: Path, names: set<string>, maxDepth: nat) {
    forall p :: p in fs && Below(p, d) && p[|d|] in names && fs[p].Dir? ==> |p| <= maxDepth
  }

  // ----- what the walk spends -----

  ghost function Inside(fs: Fs, d: Path): set<Path> { set p | p in fs && Below(p, d) }

  ghost function DirsInside(fs: Fs, d: Path): set<Path> { set p | p in fs && Below(p, d) && fs[p].Dir? }

  /** One for each directory opened, one for each name found. */
  ghost function WalkCost(fs: Fs, d: Path): nat { 1 + |DirsInside(fs, d)| + |Inside(fs, d)| }

  /** What lies below the children with these names. */
  ghost function Deeper(fs: Fs, d: Path, names: set<string>): set<Path> {
    set p | p in fs && Below(p, d) && |p| > |d| + 1 && p[|d|] in names
  }

  /** The directories at or below the children with these names. */
  ghost function DirsAt(fs: Fs, d: Path, names: set<string>): set<Path> {
    set p | p in fs && Below(p, d) && p[|d|] in names && fs[p].Dir?
  }

  /** What has been spent when the names of d were read and these children walked. */
  ghost function CostSome(fs: Fs, d: Path, names: set<string>): nat {
    1 + |Names(fs, d)| + |DirsAt(fs, d, names)| + |Deeper(fs, d, names)|
  }

  lemma CostFile(fs: Fs, d: Path, names: set<string>, name: string)
    requires Formed(fs) && d + [name] in fs && fs[d + [name]].File?
    ensures CostSome(fs, d, names + {name}) == CostSome(fs, d, names)
  {
    var c := d + [name];
    forall p | p in fs && Below(p, d) && p[|d|] == name ensures p == c {
      ChildOn(p, d);
      assert !Below(p, c);
    }
    assert DirsAt(fs, d, names + {name}) == DirsAt(fs, d, names);
    assert Deeper(fs, d, names + {name}) == Deeper(fs, d, names);
  }

  lemma CostDir(fs: Fs, d: Path, names: set<string>, name: string)
    requires Formed(fs) && name !in names && d + [name] in fs && fs[d + [name]].Dir?
    ensures CostSome(fs, d, names + {name}) == CostSome(fs, d, names) + WalkCost(fs, d + [name])
  {
    var c := d + [name];
    forall p ensures p in fs && Below(p, d) && p[|d|] == name <==> p in fs && (p == c || Below(p, c)) {
      if p in fs && Below(p, d) && p[|d|] == name { ChildOn(p, d); }
      if p in fs && Below(p, c) {
        assert Below(c, d);
        BelowTrans(p, c, d);
        assert p[..|c|][|d|] == c[|d|];
      }
    }
    SplitDirs(fs, d, names, name);
    SplitDeeper(fs, d, names, name);
  }

  lemma SplitDirs(fs: Fs, d: Path, names: set<string>, name: string)
    requires name !in names && d + [name] in fs && fs[d + [name]].Dir?
    requires forall p :: p in fs && Below(p, d) && p[|d|] == name <==> p in fs && (p == d + [name] || Below(p, d + [name]))
    ensures |DirsAt(fs, d, names + {name})| == |DirsAt(fs, d, names)| + 1 + |DirsInside(fs, d + [name])|
  {
    var c := d + [name];
    var a, b := DirsAt(fs, d, names), DirsInside(fs, c);
    assert DirsAt(fs, d, names + {name}) == a + ({c} + b);
    assert c !in b && a !! ({c} + b);
    assert |{c} + b| == 1 + |b|;
  }

  lemma SplitDeeper(fs: Fs, d: Path, names: set<string>, name: string)
    requires name !in names
    requires forall p :: p in fs && Below(p, d) && p[|d|] == name <==> p in fs && (p == d + [name] || Below(p, d + [name]))
    ensures |Deeper(fs, d, names + {name})| == |Deeper(fs, d, names)| + |Inside(fs, d + [name])|
  {
    var c := d + [name];
    var a, b := Deeper(fs, d, names), Inside(fs, c);
    forall p | p in fs && Below(p, d) && |p| > |d| + 1 && p[|d|] == name ensures p in b { assert p != c; }
    assert Deeper(fs, d, names + {name}) == a + b;
    assert a !! b;
  }

  lemma SubsetCount<T>(a: set<T>, b: set<T>)
    requires a <= b
    ensures |a| <= |b|
  {
    assert b == a + (b - a);
  }

  /** The children of d are as many as its names. */
  lemma {:induction false} ChildrenCount(d: Path, names: set<string>, children: set<Path>)
    requires forall n :: n in names ==> d + [n] in children
    requires forall p :: p in children ==> exists n :: n in names && p == d + [n]
    ensures |children| == |names|
    decreases |names|
  {
    if names == {} {
      assert children == {};
    } else {
      var n :| n in names;
      var rest := children - {d + [n]};
      forall m | m in names - {n} ensures d + [m] in rest { assert (d + [m])[|d|] != (d + [n])[|d|]; }
      forall p | p in rest ensures exists m :: m in names - {n} && p == d + [m] {
        var m :| m in names && p == d + [m];
        assert m in names - {n};
      }
      ChildrenCount(d, names - {n}, rest);
    }
  }

  lemma NamesCount(fs: Fs, d: Path, children: set<Path>)
    requires children == set p | p in fs && Below(p, d) && |p| == |d| + 1
    ensures |children| == |Names(fs, d)|
  {
    var all := Names(fs, d);
    forall p | p in children ensures p == d + [p[|d|]] && p[|d|] in all { assert p == p[..|d|] + [p[|d|]]; }
    forall n | n in all ensures d + [n] in children { IsChild(fs, d, all, n); assert Below(d + [n], d); }
    ChildrenCount(d, all, children);
  }

  /** Having walked all children is the whole cost, and walking some never more. */
  lemma CostAll(fs: Fs, d: Path, names: set<string>)
    requires Formed(fs)
    ensures CostSome(fs, d, names) <= WalkCost(fs, d)
    ensures names == Names(fs, d) ==> CostSome(fs, d, names) == WalkCost(fs, d)
  {
    hide Names, Formed;
    var all := Names(fs, d);
    var children := set p | p in fs && Below(p, d) && |p| == |d| + 1;
    NamesCount(fs, d, children);
    forall p | p in fs && Below(p, d) ensures p[|d|] in all { NamedAbove(fs, d, p); }
    var deep := Deeper(fs, d, all);
    assert Inside(fs, d) == children + deep && children !! deep;
    assert DirsAt(fs, d, all) == DirsInside(fs, d);
    SubsetCount(Deeper(fs, d, names), deep);
    SubsetCount(DirsAt(fs, d, names), DirsInside(fs, d));
  }

  lemma CostNone(fs: Fs, d: Path)
    ensures CostSome(fs, d, {}) == 1 + |Names(fs, d)|
  {
    assert DirsAt(fs, d, {}) == {} && Deeper(fs, d, {}) == {};
  }

  datatype Walked = Walked(ref: seq<Entry>, entries: nat)

  /** tick, n times. */
  method Ticks(entries: nat, n: nat, maxEntries: nat) returns (r: Option<nat>)
    requires entries <= maxEntries
    ensures r == if entries + n <= maxEntries then Some(entries + n) else None
  {
    var e := entries;
    for i := 0 to n
      invariant e == entries + i <= maxEntries
    {
      e := e + 1;
      if e > maxEntries { return None; }
    }
    return Some(e);
  }

  /**
    The walk of listReference: the names of a directory in order, each directory before what lies
    in it. It fails exactly when there is a directory beyond the depth limit or the entries left do
    not cover the directories and the names.
   */
  method Walk(fs: Fs, d: Path, depth: nat, maxDepth: nat, entries: nat, maxEntries: nat) returns (r: Option<Walked>)
    requires Formed(fs) && depth == |d|
    ensures r.Some? <==> !TooDeep(fs, d, maxDepth) && entries + WalkCost(fs, d) <= maxEntries
    ensures r.Some? ==> Lists(fs, d, r.value.ref) && r.value.entries == entries + WalkCost(fs, d)
    decreases maxDepth - depth
  {
    hide Formed, Lists, ListsSome, TooDeep, ShallowSome, WalkCost, CostSome, Below;
    var names := set p | p in fs && |p| == |d| + 1 && Below(p, d) :: p[|d|];
    var keys := Order.SortedNames(names);
    Order.ListsCount(keys, names);
    CostNone(fs, d);
    CostAll(fs, d, {});
    if entries + 1 > maxEntries { return None; }
    var spent := Ticks(entries + 1, |keys|, maxEntries);
    if spent.None? { return None; }
    var e := spent.value;
    var out: seq<Entry> := [];
    ghost var done: set<string> := {};
    StartList(fs, d, maxDepth);
    for i := 0 to |keys|
      invariant ListsSome(fs, d, done, out) && ShallowSome(fs, d, done, maxDepth)
      invariant done == set k | k in keys[..i]
      invariant e == entries + CostSome(fs, d, done) <= maxEntries
    {
      var name := keys[i];
      var c := d + [name];
      assert name in names && c in fs by { IsChild(fs, d, names, name); }
      assert keys[..i + 1] == keys[..i] + [name];
      assert name !in done;
      if fs[c].Dir? {
        if depth + 1 > maxDepth {
          DeepChild(fs, d, name, maxDepth);
          return None;
        }
        CostDir(fs, d, done, name);
        CostAll(fs, d, done + {name});
        var sub := Walk(fs, c, depth + 1, maxDepth, e, maxEntries);
        if sub.None? {
          if TooDeep(fs, c, maxDepth) { DeepBelow(fs, d, name, maxDepth); }
          return None;
        }
        AddDir(fs, d, done, out, name, sub.value.ref);
        ShallowDir(fs, d, done, name, maxDepth);
        out := out + [Entry(c, true)] + sub.value.ref;
        e := sub.value.entries;
      } else {
        AddFile(fs, d, done, out, name);
        ShallowFile(fs, d, done, name, maxDepth);
        CostFile(fs, d, done, name);
        out := out + [Entry(c, false)];
      }
      done := done + {name};
    }
    assert keys[..|keys|] == keys;
    AllListed(fs, d, done, out);
    AllShallow(fs, d, done, maxDepth);
    CostAll(fs, d, done);
    return Some(Walked(out, e));
  }

  lemma DeepChild(fs: Fs, d: Path, name: string, maxDepth: nat)
    requires d + [name] in fs && fs[d + [name]].Dir? && |d| + 1 > maxDepth
    ensures TooDeep(fs, d, maxDepth)
  {
    assert Below(d + [name], d);
  }

  lemma DeepBelow(fs: Fs, d: Path, name: string, maxDepth: nat)
    requires TooDeep(fs, d + [name], maxDepth)
    ensures TooDeep(fs, d, maxDepth)
  {
    var p :| p in fs && Below(p, d + [name]) && fs[p].Dir? && |p| > maxDepth;
    assert Below(d + [name], d);
    BelowTrans(p, d + [name], d);
  }

  lemma ShallowDir(fs: Fs, d: Path, names: set<string>, name: string, maxDepth: nat)
    requires ShallowSome(fs, d, names, maxDepth) && |d| + 1 <= maxDepth && !TooDeep(fs, d + [name], maxDepth)
    ensures ShallowSome(fs, d, names + {name}, maxDepth)
  {
    forall p | p in fs && Below(p, d) && p[|d|] == name && fs[p].Dir? ensures |p| <= maxDepth {
      ChildOn(p, d);
    }
  }

  lemma ShallowFile(fs: Fs, d: Path, names: set<string>, name: string, maxDepth: nat)
    requires Formed(fs) && ShallowSome(fs, d, names, maxDepth) && d + [name] in fs && fs[d + [name]].File?
    ensures ShallowSome(fs, d, names + {name}, maxDepth)
  {
    forall p | p in fs && Below(p, d) && p[|d|] == name ensures fs[p].File? {
      ChildOn(p, d);
      assert !Below(p, d + [name]);
    }
  }

  lemma AllShallow(fs: Fs, d: Path, names: set<string>, maxDepth: nat)
    requires Formed(fs) && ShallowSome(fs, d, names, maxDepth) && names == Names(fs, d)
    ensures !TooDeep(fs, d, maxDepth)
  {
    forall p | p in fs && Below(p, d) ensures p[|d|] in names { NamedAbove(fs, d, p); }
  }

  lemma StartList(fs: Fs, d: Path, maxDepth: nat)
    ensures ListsSome(fs, d, {}, []) && ShallowSome(fs, d, {}, maxDepth)
  {
  }

  lemma IsChild(fs: Fs, d: Path, names: set<string>, name: string)
    requires name in names && names == Names(fs, d)
    ensures d + [name] in fs
  {
    var p :| p in fs && |p| == |d| + 1 && Below(p, d) && p[|d|] == name;
    assert p == p[..|d|] + [p[|d|]];
  }

  lemma AllListed(fs: Fs, d: Path, names: set<string>, out: seq<Entry>)
    requires Formed(fs) && ListsSome(fs, d, names, out) && names == Names(fs, d)
    ensures Lists(fs, d, out)
  {
    forall p | p in fs && Below(p, d) ensures p[|d|] in names { NamedAbove(fs, d, p); }
  }

  lemma NamedAbove(fs: Fs, d: Path, p: Path)
    requires Formed(fs) && p in fs && Below(p, d)
    ensures p[|d|] in Names(fs, d)
  {
    ChildOn(p, d);
    var c := d + [p[|d|]];
    assert c in fs && |c| == |d| + 1 && Below(c, d) && c[|d|] == p[|d|];
  }
}
