/** sandbox/bwrap/argv.go: the arguments for the mounts, word by word, and what they show and let write. */
module BwrapArgv {
  import opened Strings
  import opened Contract
  import opened Bwrap

  /** The words of one operation; a link of the system points to the directory of that name in usr. */
  function Words(op: Op): seq<string> {
    match op
    case Link(dst) => ["--symlink", "usr" + dst, dst]
    case Fixed(dst) => [if dst == "/proc" then "--proc" else "--dev", dst]
    case Tmpfs(dst) => ["--tmpfs", dst]
    case BindAt(b) => [if b.rw then "--bind" else "--ro-bind", b.src, b.dst]
  }

  function AllWords(ops: seq<Op>): seq<string> {
    if ops == [] then [] else AllWords(ops[..|ops| - 1]) + Words(ops[|ops| - 1])
  }

  lemma {:induction false} WordsConcat(a: seq<Op>, b: seq<Op>)
    ensures AllWords(a + b) == AllWords(a) + AllWords(b)
  {
    hide Words;
    if b == [] {
      assert a + b == a;
    } else {
      WordsConcat(a, b[..|b| - 1]);
      assert (a + b)[..|a + b| - 1] == a + b[..|b| - 1];
    }
  }

  method LinkArgs(s: Spec) returns (a: seq<string>)
    ensures a == AllWords(Links(s))
  {
    a := [];
    var links := Links(s);
    for i := 0 to |links|
      invariant a == AllWords(links[..i])
    {
      assert links[..i + 1][..i] == links[..i];
      LinkWords(s, i);
      a := a + ["--symlink", "usr" + links[i].dst, links[i].dst];
    }
    assert links[..|links|] == links;
  }

  method ScratchArgs(scratch: seq<string>) returns (a: seq<string>)
    ensures a == AllWords(TmpfsOps(scratch))
  {
    a := [];
    ghost var ops := TmpfsOps(scratch);
    for i := 0 to |scratch|
      invariant a == AllWords(ops[..i])
    {
      assert ops[..i + 1][..i] == ops[..i];
      a := a + ["--tmpfs", scratch[i]];
    }
    assert ops[..|ops|] == ops;
  }

  method BindArgs(binds: seq<Bind>) returns (a: seq<string>)
    ensures a == AllWords(BindOps(binds))
  {
    hide Words;
    a := [];
    ghost var ops := BindOps(binds);
    for i := 0 to |binds|
      invariant a == AllWords(ops[..i])
    {
      assert ops[..i + 1][..i] == ops[..i];
      BindWords(binds[i]);
      if binds[i].rw {
        a := a + ["--bind", binds[i].src, binds[i].dst];
      } else {
        a := a + ["--ro-bind", binds[i].src, binds[i].dst];
      }
    }
    assert ops[..|ops|] == ops;
  }

  /** The part of argv that mounts: links, /proc and /dev, scratch, then the binds. */
  method MountArgs(s: Spec) returns (a: seq<string>)
    ensures a == AllWords(Ops(s))
  {
    hide AllWords, Links, TmpfsOps, BindOps, Arrange, AllBinds;
    a := LinkArgs(s);
    var scratch := ScratchArgs(s.scratch);
    var binds := AncestorsFirst(AllBinds(s));
    var bound := BindArgs(binds);
    FixedWords();
    WordsConcat(Links(s), [Fixed("/proc"), Fixed("/dev")]);
    WordsConcat(Links(s) + [Fixed("/proc"), Fixed("/dev")], TmpfsOps(s.scratch));
    WordsConcat(Before(s), BindOps(binds));
    a := a + ["--proc", "/proc", "--dev", "/dev"] + scratch + bound;
  }

  lemma LinkWords(s: Spec, i: nat)
    requires i < |Links(s)|
    ensures Links(s)[i].Link? && Words(Links(s)[i]) == ["--symlink", "usr" + Links(s)[i].dst, Links(s)[i].dst]
  {
  }

  lemma FixedWords()
    ensures AllWords([Fixed("/proc"), Fixed("/dev")]) == ["--proc", "/proc", "--dev", "/dev"]
  {
    var a, b := Fixed("/proc"), Fixed("/dev");
    assert [a, b][..1] == [a] && [a][..0] == [];
    assert "/dev" != "/proc" by { assert "/dev"[1] != "/proc"[1]; }
    assert AllWords([a]) == ["--proc", "/proc"];
  }

  lemma BindWords(b: Bind)
    ensures Words(BindAt(b)) == if b.rw then ["--bind", b.src, b.dst] else ["--ro-bind", b.src, b.dst]
  {
  }

  /** The operation stands in the arguments with its own words. */
  ghost predicate Given(args: seq<string>, op: Op) { exists k: nat :: StandsAt(args, k, Words(op)) }

  predicate StandsAt(args: seq<string>, k: nat, words: seq<string>) {
    k + |words| <= |args| && args[k..k + |words|] == words
  }

  /** The mount is bound from its host path to its place, to be read or to be written. */
  predicate Binds(op: Op, m: Mount, rw: bool) {
    && op.BindAt? && op.bind.src == m.hostPath && op.bind.rw == rw && op.bind.inHome == m.inHome
    && op.bind.dst == if m.guestPath != "" then m.guestPath else m.hostPath
  }

  /** What is bound to be written is a writable mount of the specification, and what is bound to be read one to be read, or /usr. */
  lemma BindsTell(s: Spec, op: Op)
    requires op in Ops(s) && op.BindAt?
    ensures if op.bind.rw then exists m :: m in s.write && Binds(op, m, true)
            else (s.system && op.bind.src == "/usr" && op.bind.dst == "/usr") || exists m :: m in s.read && Binds(op, m, false)
  {
    hide Arrange, AllBinds;
    var b := op.bind;
    ArrangedSame(AllBinds(s));
    assert b in Arrange(AllBinds(s)) by { OpOfBind(s, op); }
    FromMount(s, b);
  }

  lemma OpOfBind(s: Spec, op: Op)
    requires op in Ops(s) && op.BindAt?
    ensures op.bind in Arrange(AllBinds(s))
  {
    hide Arrange, AllBinds;
    var i :| 0 <= i < |Ops(s)| && Ops(s)[i] == op;
    var n := |Before(s)|;
    assert forall j :: 0 <= j < n ==> Ops(s)[j] == Before(s)[j] && !Before(s)[j].BindAt?;
    assert op == BindAt(Arrange(AllBinds(s))[i - n]);
  }

  lemma FromMount(s: Spec, b: Bind)
    requires b in AllBinds(s)
    ensures if b.rw then exists m :: m in s.write && Binds(BindAt(b), m, true)
            else (s.system && b.src == "/usr" && b.dst == "/usr") || exists m :: m in s.read && Binds(BindAt(b), m, false)
  {
    if b in BindsOf(s.read, false) {
      var i :| 0 <= i < |s.read| && BindsOf(s.read, false)[i] == b;
      assert s.read[i] in s.read && Binds(BindAt(b), s.read[i], false);
    } else if b in BindsOf(s.write, true) {
      var i :| 0 <= i < |s.write| && BindsOf(s.write, true)[i] == b;
      assert s.write[i] in s.write && Binds(BindAt(b), s.write[i], true);
    }
  }

  /** Every mount is bound, and the system's directory when it is asked for. */
  lemma MountsGiven(s: Spec)
    ensures forall m :: m in s.read ==> exists op :: op in Ops(s) && Binds(op, m, false)
    ensures forall m :: m in s.write ==> exists op :: op in Ops(s) && Binds(op, m, true)
    ensures s.system ==> exists op :: op in Ops(s) && op.BindAt? && op.bind.src == "/usr" && op.bind.dst == "/usr" && !op.bind.rw
  {
    hide Arrange, AllBinds;
    ArrangedSame(AllBinds(s));
    forall m | m in s.read ensures exists op :: op in Ops(s) && Binds(op, m, false) { BoundAt(s, m, false); }
    forall m | m in s.write ensures exists op :: op in Ops(s) && Binds(op, m, true) { BoundAt(s, m, true); }
    if s.system {
      UsrIn(s);
      OpIn(s, USR);
    }
  }

  lemma OpIn(s: Spec, b: Bind)
    requires b in Arrange(AllBinds(s))
    ensures BindAt(b) in Ops(s)
  {
    hide Arrange, AllBinds;
    var i :| 0 <= i < |Arrange(AllBinds(s))| && Arrange(AllBinds(s))[i] == b;
    assert Ops(s)[|Before(s)| + i] == BindAt(b);
  }

  lemma BoundAt(s: Spec, m: Mount, rw: bool)
    requires if rw then m in s.write else m in s.read
    ensures exists op :: op in Ops(s) && Binds(op, m, rw)
  {
    hide Arrange;
    var b := Bind(m.hostPath, m.Guest(), rw, m.inHome);
    assert b in AllBinds(s) by {
      var ms := if rw then s.write else s.read;
      var i :| 0 <= i < |ms| && ms[i] == m;
      assert BindsOf(ms, rw)[i] == b;
    }
    ArrangedSame(AllBinds(s));
    OpIn(s, b);
    assert Binds(BindAt(b), m, rw);
  }

  /** What comes before the binds, in its order: the links of the system, /proc and /dev, and scratch. */
  lemma FrontTells(s: Spec)
    ensures var links := if s.system then 4 else 0;
      && links + 2 + |s.scratch| <= |Ops(s)|
      && (s.system ==> Ops(s)[..4] == [Link("/lib"), Link("/lib64"), Link("/bin"), Link("/sbin")])
      && Ops(s)[links..links + 2] == [Fixed("/proc"), Fixed("/dev")]
      && (forall k :: 0 <= k < |s.scratch| ==> Ops(s)[links + 2 + k] == Tmpfs(s.scratch[k]))
      && forall k :: links + 2 + |s.scratch| <= k < |Ops(s)| ==> Ops(s)[k].BindAt?
  {
    hide Arrange, AllBinds;
  }

  /** Every operation stands in the arguments with its own words. */
  lemma {:induction false} AllGiven(ops: seq<Op>, op: Op)
    requires op in ops
    ensures Given(AllWords(ops), op)
  {
    hide Words;
    var front, last := ops[..|ops| - 1], ops[|ops| - 1];
    var args := AllWords(ops);
    if op == last {
      assert StandsAt(args, |AllWords(front)|, Words(op));
    } else {
      assert op in front;
      AllGiven(front, op);
      var k: nat :| StandsAt(AllWords(front), k, Words(op));
      assert args[k..k + |Words(op)|] == AllWords(front)[k..k + |Words(op)|];
      assert StandsAt(args, k, Words(op));
    }
  }
}
