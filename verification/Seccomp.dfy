/**
  cmd/goronation/landlock_seccomp_linux.go: the assembler that turns the labels of a classic BPF
  program into offsets, and the filter that is shipped.
 */
module Seccomp {
  import opened Wrappers

  datatype Op = LdAbs | And | Jeq | Jge | Jset | Ret

  /** An instruction with names for jump targets; an empty name is the next instruction. */
  datatype Step = Step(name: string, op: Op, k: bv32, jt: string, jf: string)

  /** An instruction as the kernel has it; jt and jf fit one byte. */
  datatype Instr = Instr(op: Op, jt: nat, jf: nat, k: bv32)

  /** Stuck: past the end, or a load from outside the data. */
  datatype Outcome = Returned(value: bv32) | Stuck

  /** seccomp_data: nr, arch, the instruction pointer, then six arguments, each as two words, the low one first. */
  type Data = words: seq<bv32> | |words| == 16 witness [0, 0, 0, 0, 0, 0, 0, 0, 0, 0, 0, 0, 0, 0, 0, 0]

  function Nr(d: Data): bv32 { d[0] }

  function Arch(d: Data): bv32 { d[1] }

  /** The low word of an argument. */
  function Arg(d: Data, i: nat): bv32
    requires i < 6
  {
    d[4 + 2 * i]
  }

  /** A load is of one of the sixteen aligned words. */
  function Load(d: Data, k: bv32): Option<bv32> {
    if k == 0 then Some(d[0]) else if k == 4 then Some(d[1]) else if k == 8 then Some(d[2]) else if k == 12 then Some(d[3])
    else if k == 16 then Some(d[4]) else if k == 20 then Some(d[5]) else if k == 24 then Some(d[6]) else if k == 28 then Some(d[7])
    else if k == 32 then Some(d[8]) else if k == 36 then Some(d[9]) else if k == 40 then Some(d[10]) else if k == 44 then Some(d[11])
    else if k == 48 then Some(d[12]) else if k == 52 then Some(d[13]) else if k == 56 then Some(d[14]) else if k == 60 then Some(d[15])
    else None
  }

  /** A load is from four bytes times i, for one of the sixteen words, and finds that word. */
  lemma LoadTells(d: Data, k: bv32)
    ensures Load(d, k).Some? ==> k as nat % 4 == 0 && k as nat < 64 && Load(d, k).value == d[k as nat / 4]
  {
  }

  lemma LoadFinds(d: Data, k: bv32)
    requires k as nat % 4 == 0 && k as nat < 64
    ensures Load(d, k).Some?
  {
    var i := k as nat / 4;
    assert k as nat == 4 * i;
    assert i in {0, 1, 2, 3, 4, 5, 6, 7, 8, 9, 10, 11, 12, 13, 14, 15};
  }

  predicate Jumps(op: Op) { op.Jeq? || op.Jge? || op.Jset? }

  predicate Taken(op: Op, acc: bv32, k: bv32) {
    match op
    case Jeq => acc == k
    case Jge => acc >= k
    case Jset => acc & k != 0
    case _ => false
  }

  /** What an instruction that does not end the program leaves in the accumulator. */
  function Accumulate(op: Op, k: bv32, d: Data, acc: bv32): Option<bv32> {
    match op
    case LdAbs => Load(d, k)
    case And => Some(acc & k)
    case _ => Some(acc)
  }

  // ----- the meaning of a program with names -----

  /** The last instruction with this name, which is what the map of names keeps. */
  function At(steps: seq<Step>, name: string): Option<nat> {
    if steps == [] then None
    else if steps[|steps| - 1].name == name then Some(|steps| - 1)
    else At(steps[..|steps| - 1], name)
  }

  /** Where control goes from pc; any target is a target here, also one behind. */
  function Target(steps: seq<Step>, pc: nat, name: string): Option<nat> {
    if name == "" then Some(pc + 1) else At(steps, name)
  }

  /** At most `fuel` instructions of the program with names: None when it has not ended by then. */
  function RunNamed(steps: seq<Step>, d: Data, pc: nat, acc: bv32, fuel: nat): Option<Outcome>
    decreases fuel
  {
    if pc >= |steps| then Some(Stuck)
    else if steps[pc].op.Ret? then Some(Returned(steps[pc].k))
    else if fuel == 0 then None
    else
      var s := steps[pc];
      var acc' := Accumulate(s.op, s.k, d, acc);
      var to := if !Jumps(s.op) then Some(pc + 1) else Target(steps, pc, if Taken(s.op, acc, s.k) then s.jt else s.jf);
      if acc'.None? || to.None? then Some(Stuck)
      else RunNamed(steps, d, to.value, acc'.value, fuel - 1)
  }

  // ----- the meaning of an assembled program -----

  function Run(prog: seq<Instr>, d: Data, pc: nat, acc: bv32): Outcome
    decreases |prog| - pc
  {
    if pc >= |prog| then Stuck
    else if prog[pc].op.Ret? then Returned(prog[pc].k)
    else
      var s := prog[pc];
      var acc' := Accumulate(s.op, s.k, d, acc);
      if acc'.None? then Stuck
      else Run(prog, d, pc + 1 + (if !Jumps(s.op) then 0 else if Taken(s.op, acc, s.k) then s.jt else s.jf), acc'.value)
  }

  // ----- assembling -----

  function Offset(steps: seq<Step>, i: nat, name: string): Option<nat> {
    if name == "" then Some(0)
    else
      var to := At(steps, name);
      if to.None? || to.value <= i || to.value - i - 1 > 255 then None else Some(to.value - i - 1)
  }

  function AssembleStep(steps: seq<Step>, i: nat): Option<Instr>
    requires i < |steps|
  {
    var jt, jf := Offset(steps, i, steps[i].jt), Offset(steps, i, steps[i].jf);
    if jt.None? || jf.None? then None else Some(Instr(steps[i].op, jt.value, jf.value, steps[i].k))
  }

  function Assemble(steps: seq<Step>): Option<seq<Instr>> {
    if forall i :: 0 <= i < |steps| ==> AssembleStep(steps, i).Some?
    then Some(seq(|steps|, i requires 0 <= i < |steps| => AssembleStep(steps, i).value))
    else None
  }

  /** No later instruction has the name. */
  predicate LastNamed(steps: seq<Step>, to: nat, name: string) {
    to < |steps| && steps[to].name == name && forall j :: to < j < |steps| ==> steps[j].name != name
  }

  /** A name that can be jumped to from i: the next instruction, or one at most 256 further on. */
  predicate Reachable(steps: seq<Step>, i: nat, name: string) {
    name == "" || exists to :: i < to < |steps| && to <= i + 256 && LastNamed(steps, to, name)
  }

  lemma {:induction false} AtIs(steps: seq<Step>, name: string)
    ensures At(steps, name).None? ==> forall j :: 0 <= j < |steps| ==> steps[j].name != name
    ensures At(steps, name).Some? ==> LastNamed(steps, At(steps, name).value, name)
  {
    if steps != [] { AtIs(steps[..|steps| - 1], name); }
  }

  lemma OffsetIff(steps: seq<Step>, i: nat, name: string)
    requires i < |steps|
    ensures Offset(steps, i, name).Some? <==> Reachable(steps, i, name)
    ensures Offset(steps, i, name).Some? ==> Target(steps, i, name) == Some(i + 1 + Offset(steps, i, name).value)
  {
    hide At;
    AtIs(steps, name);
    if name != "" && Reachable(steps, i, name) {
      var to :| i < to < |steps| && to <= i + 256 && LastNamed(steps, to, name);
      assert At(steps, name).Some?;
    }
  }

  /** A program assembles exactly when each of its jumps goes forward by at most 256 instructions. */
  lemma AssemblesIff(steps: seq<Step>)
    ensures Assemble(steps).Some? <==>
      forall i :: 0 <= i < |steps| ==> Reachable(steps, i, steps[i].jt) && Reachable(steps, i, steps[i].jf)
  {
    hide Offset, Reachable;
    forall i | 0 <= i < |steps|
      ensures AssembleStep(steps, i).Some? <==> Reachable(steps, i, steps[i].jt) && Reachable(steps, i, steps[i].jf)
    {
      OffsetIff(steps, i, steps[i].jt);
      OffsetIff(steps, i, steps[i].jf);
    }
  }

  lemma AssembledAt(steps: seq<Step>, i: nat)
    requires Assemble(steps).Some? && i < |steps|
    ensures |Assemble(steps).value| == |steps| && AssembleStep(steps, i) == Some(Assemble(steps).value[i])
  {
    hide AssembleStep;
  }

  /**
    Assembling keeps the meaning: on every input the program with names ends, after at most as
    many instructions as it has, with what the assembled one returns.
   */
  lemma {:induction false} AssemblePreserves(steps: seq<Step>, d: Data, pc: nat, acc: bv32, fuel: nat)
    requires Assemble(steps).Some? && pc + fuel >= |steps|
    ensures RunNamed(steps, d, pc, acc, fuel) == Some(Run(Assemble(steps).value, d, pc, acc))
    decreases |steps| - pc
  {
    hide Assemble, Offset, Target, Load, Taken, Accumulate;
    if pc < |steps| {
      AssembledAt(steps, pc);
      var s, t := steps[pc], Assemble(steps).value[pc];
      if !s.op.Ret? {
        OffsetIff(steps, pc, s.jt);
        OffsetIff(steps, pc, s.jf);
        var acc' := Accumulate(s.op, s.k, d, acc);
        var off := if !Jumps(s.op) then 0 else if Taken(s.op, acc, s.k) then t.jt else t.jf;
        if acc'.Some? {
          AssemblePreserves(steps, d, pc + 1 + off, acc'.value, fuel - 1);
        }
      }
    } else {
      SameLength(steps);
    }
  }

  lemma SameLength(steps: seq<Step>)
    requires Assemble(steps).Some?
    ensures |Assemble(steps).value| == |steps|
  {
  }

  /** seccompProgram: the names into a map, then each instruction into the array. */
  method Program(steps: seq<Step>) returns (r: Option<seq<Instr>>)
    ensures r == Assemble(steps)
  {
    hide At;
    var at: map<string, nat> := map[];
    NothingAt();
    for i := 0 to |steps|
      invariant forall name :: name != "" ==> At(steps[..i], name) == Lookup(at, name)
      invariant "" !in at
    {
      ghost var before := at;
      if steps[i].name != "" { at := at[steps[i].name := i]; }
      forall name | name != "" ensures At(steps[..i + 1], name) == Lookup(at, name) {
        NextAt(steps, i, name);
        assert At(steps[..i], name) == Lookup(before, name);
      }
    }
    assert steps[..|steps|] == steps;
    var out := new Instr[|steps|](_ => Instr(Ret, 0, 0, 0));
    for i := 0 to |steps|
      invariant forall j :: 0 <= j < i ==> AssembleStep(steps, j) == Some(out[j])
    {
      var jt := Off(at, i, steps[i].jt);
      var jf := Off(at, i, steps[i].jf);
      assert jt == Offset(steps, i, steps[i].jt) && jf == Offset(steps, i, steps[i].jf);
      assert AssembleStep(steps, i).None? <==> jt.None? || jf.None?;
      if jt.None? || jf.None? { return None; }
      out[i] := Instr(steps[i].op, jt.value, jf.value, steps[i].k);
    }
    assert forall i :: 0 <= i < |steps| ==> AssembleStep(steps, i).Some?;
    assert out[..] == Assemble(steps).value;
    return Some(out[..]);
  }

  function Lookup(at: map<string, nat>, name: string): Option<nat> { if name in at then Some(at[name]) else None }

  lemma NothingAt()
    ensures forall name :: At([], name) == None
  {
  }

  lemma NextAt(steps: seq<Step>, i: nat, name: string)
    requires i < |steps|
    ensures At(steps[..i + 1], name) == if steps[i].name == name then Some(i) else At(steps[..i], name)
  {
    assert steps[..i + 1][..i] == steps[..i];
  }

  method Off(at: map<string, nat>, i: nat, name: string) returns (r: Option<nat>)
    ensures r == if name == "" then Some(0)
                 else if name !in at || at[name] <= i || at[name] - i - 1 > 255 then None
                 else Some(at[name] - i - 1)
  {
    if name == "" { return Some(0); }
    if name !in at || at[name] <= i || at[name] - i - 1 > 255 { return None; }
    return Some(at[name] - i - 1);
  }

  // ----- the filter -----

  const ARCH_X86_64: bv32 := 0xc000003e
  const X32_BIT: bv32 := 0x40000000
  const SYS_SOCKET: bv32 := 41
  const SYS_SENDTO: bv32 := 44
  const SYS_SENDMSG: bv32 := 46
  const SYS_SENDMMSG: bv32 := 307
  const SYS_IO_URING_SETUP: bv32 := 425
  const SYS_IO_URING_ENTER: bv32 := 426
  const SYS_IO_URING_REGISTER: bv32 := 427
  const AF_UNIX: bv32 := 1
  const AF_INET: bv32 := 2
  const AF_INET6: bv32 := 10
  const AF_NETLINK: bv32 := 16
  const SOCK_TYPE_MASK: bv32 := 0xf
  const SOCK_STREAM: bv32 := 1
  const IPPROTO_TCP: bv32 := 6
  const MSG_FASTOPEN: bv32 := 0x20000000
  const RET_ALLOW: bv32 := 0x7fff0000
  const RET_EPERM: bv32 := 0x00050001

  function Ld(name: string, k: bv32): Step { Step(name, LdAbs, k, "", "") }

  function Filter(): seq<Step> {
    [
    Ld("", 4),
    Step("", Jeq, ARCH_X86_64, "", "deny"),
    Ld("", 0),
    Step("", Jge, X32_BIT, "deny", ""),
    Step("", Jeq, SYS_SOCKET, "socket", ""),
    Step("", Jeq, SYS_SENDTO, "sendto", ""),
    Step("", Jeq, SYS_SENDMSG, "sendmsg", ""),
    Step("", Jeq, SYS_SENDMMSG, "sendmmsg", ""),
    Step("", Jeq, SYS_IO_URING_SETUP, "deny", ""),
    Step("", Jeq, SYS_IO_URING_ENTER, "deny", ""),
    Step("", Jeq, SYS_IO_URING_REGISTER, "deny", ""),
    Step("", Ret, RET_ALLOW, "", ""),
    Ld("socket", 16),
    Step("", Jeq, AF_UNIX, "allow", ""),
    Step("", Jeq, AF_NETLINK, "allow", ""),
    Step("", Jeq, AF_INET, "inet", ""),
    Step("", Jeq, AF_INET6, "inet", "deny"),
    Ld("inet", 24),
    Step("", And, SOCK_TYPE_MASK, "", ""),
    Step("", Jeq, SOCK_STREAM, "", "deny"),
    Ld("", 32),
    Step("", Jeq, 0, "allow", ""),
    Step("", Jeq, IPPROTO_TCP, "allow", "deny"),
    Ld("sendto", 40),
    Step("", Jset, MSG_FASTOPEN, "deny", "allow"),
    Ld("sendmsg", 32),
    Step("", Jset, MSG_FASTOPEN, "deny", "allow"),
    Ld("sendmmsg", 40),
    Step("", Jset, MSG_FASTOPEN, "deny", "allow"),
    Step("deny", Ret, RET_EPERM, "", ""),
    Step("allow", Ret, RET_ALLOW, "", "")]
  }

  /** A TCP socket over IP, or one that stays on the host. */
  predicate SocketAllowed(domain: bv32, kind: bv32, protocol: bv32) {
    || domain == AF_UNIX || domain == AF_NETLINK
    || ((domain == AF_INET || domain == AF_INET6) && kind & SOCK_TYPE_MASK == SOCK_STREAM &&
        (protocol == 0 || protocol == IPPROTO_TCP))
  }

  predicate Allowed(d: Data) {
    && Arch(d) == ARCH_X86_64 && Nr(d) < X32_BIT
    && Nr(d) !in {SYS_IO_URING_SETUP, SYS_IO_URING_ENTER, SYS_IO_URING_REGISTER}
    && (Nr(d) == SYS_SOCKET ==> SocketAllowed(Arg(d, 0), Arg(d, 1), Arg(d, 2)))
    && (Nr(d) == SYS_SENDTO || Nr(d) == SYS_SENDMMSG ==> Arg(d, 3) & MSG_FASTOPEN == 0)
    && (Nr(d) == SYS_SENDMSG ==> Arg(d, 2) & MSG_FASTOPEN == 0)
  }

  lemma AtLast(steps: seq<Step>, to: nat, name: string)
    requires LastNamed(steps, to, name)
    ensures At(steps, name) == Some(to)
  {
    AtIs(steps, name);
  }

  lemma EndNames()
    ensures At(Filter(), "deny") == Some(29) && At(Filter(), "allow") == Some(30)
  {
    hide At;
    AtLast(Filter(), 29, "deny");
    AtLast(Filter(), 30, "allow");
  }

  lemma SendNames()
    ensures At(Filter(), "sendto") == Some(23) && At(Filter(), "sendmsg") == Some(25) && At(Filter(), "sendmmsg") == Some(27)
  {
    hide At;
    AtLast(Filter(), 27, "sendmmsg");
    AtLast(Filter(), 25, "sendmsg");
    AtLast(Filter(), 23, "sendto");
  }

  lemma SocketNames()
    ensures At(Filter(), "socket") == Some(12) && At(Filter(), "inet") == Some(17)
  {
    hide At;
    AtLast(Filter(), 17, "inet");
    AtLast(Filter(), 12, "socket");
  }

  lemma Names()
    ensures At(Filter(), "deny") == Some(29) && At(Filter(), "allow") == Some(30)
    ensures At(Filter(), "socket") == Some(12) && At(Filter(), "inet") == Some(17)
    ensures At(Filter(), "sendto") == Some(23) && At(Filter(), "sendmsg") == Some(25) && At(Filter(), "sendmmsg") == Some(27)
  {
    hide At, Filter;
    EndNames();
    SendNames();
    SocketNames();
  }

  /** One instruction of the filter. */
  lemma Exec(d: Data, pc: nat, acc: bv32, fuel: nat)
    requires pc < 31 && fuel > 0 && !Filter()[pc].op.Ret?
    ensures var s := Filter()[pc];
      var acc' := Accumulate(s.op, s.k, d, acc);
      var to := if !Jumps(s.op) then Some(pc + 1) else Target(Filter(), pc, if Taken(s.op, acc, s.k) then s.jt else s.jf);
      acc'.Some? && to.Some? ==> RunNamed(Filter(), d, pc, acc, fuel) == RunNamed(Filter(), d, to.value, acc'.value, fuel - 1)
  {
  }

  function Verdict(ok: bool): Option<Outcome> { Some(Returned(if ok then RET_ALLOW else RET_EPERM)) }

  lemma Ends(d: Data, acc: bv32, fuel: nat)
    ensures RunNamed(Filter(), d, 29, acc, fuel) == Verdict(false)
    ensures RunNamed(Filter(), d, 30, acc, fuel) == Verdict(true)
    ensures RunNamed(Filter(), d, 11, acc, fuel) == Verdict(true)
  {
  }

  lemma Flags(d: Data, acc: bv32, fuel: nat)
    requires fuel >= 2
    ensures RunNamed(Filter(), d, 23, acc, fuel) == Verdict(Arg(d, 3) & MSG_FASTOPEN == 0)
    ensures RunNamed(Filter(), d, 25, acc, fuel) == Verdict(Arg(d, 2) & MSG_FASTOPEN == 0)
    ensures RunNamed(Filter(), d, 27, acc, fuel) == Verdict(Arg(d, 3) & MSG_FASTOPEN == 0)
  {
    hide RunNamed, At;
    Names();
    Exec(d, 23, acc, fuel);
    Exec(d, 25, acc, fuel);
    Exec(d, 27, acc, fuel);
    Exec(d, 24, Arg(d, 3), fuel - 1);
    Exec(d, 26, Arg(d, 2), fuel - 1);
    Exec(d, 28, Arg(d, 3), fuel - 1);
    Ends(d, Arg(d, 3), fuel - 2);
    Ends(d, Arg(d, 2), fuel - 2);
  }

  /** The instruction at pc compares with k and goes to a or to b. */
  predicate Branches(pc: nat, k: bv32, a: nat, b: nat) {
    && pc < |Filter()| && Filter()[pc].op.Jeq? && Filter()[pc].k == k
    && Target(Filter(), pc, Filter()[pc].jt) == Some(a) && Target(Filter(), pc, Filter()[pc].jf) == Some(b)
  }

  lemma Branch(d: Data, pc: nat, acc: bv32, fuel: nat, k: bv32, a: nat, b: nat)
    requires Branches(pc, k, a, b) && fuel > 0
    ensures RunNamed(Filter(), d, pc, acc, fuel) == RunNamed(Filter(), d, if acc == k then a else b, acc, fuel - 1)
  {
    hide At, Filter;
  }

  lemma InetBranches()
    ensures Branches(19, SOCK_STREAM, 20, 29) && Branches(21, 0, 30, 22) && Branches(22, IPPROTO_TCP, 30, 29)
  {
    hide At;
    Names();
  }

  lemma LoadKind(d: Data, acc: bv32, fuel: nat)
    requires fuel >= 2
    ensures RunNamed(Filter(), d, 17, acc, fuel) == RunNamed(Filter(), d, 19, Arg(d, 1) & SOCK_TYPE_MASK, fuel - 2)
  {
    hide RunNamed;
    Exec(d, 17, acc, fuel);
    Exec(d, 18, Arg(d, 1), fuel - 1);
  }

  lemma LoadProtocol(d: Data, acc: bv32, fuel: nat)
    requires fuel > 0
    ensures RunNamed(Filter(), d, 20, acc, fuel) == RunNamed(Filter(), d, 21, Arg(d, 2), fuel - 1)
  {
    hide RunNamed;
    Exec(d, 20, acc, fuel);
  }

  lemma Inet(d: Data, acc: bv32, fuel: nat)
    requires fuel >= 6
    ensures RunNamed(Filter(), d, 17, acc, fuel) ==
      Verdict(Arg(d, 1) & SOCK_TYPE_MASK == SOCK_STREAM && (Arg(d, 2) == 0 || Arg(d, 2) == IPPROTO_TCP))
  {
    hide RunNamed, At, Filter, Branches, Verdict;
    var kind, protocol := Arg(d, 1) & SOCK_TYPE_MASK, Arg(d, 2);
    LoadKind(d, acc, fuel);
    InetBranches();
    Branch(d, 19, kind, fuel - 2, SOCK_STREAM, 20, 29);
    Ends(d, kind, fuel - 3);
    LoadProtocol(d, kind, fuel - 3);
    Branch(d, 21, protocol, fuel - 4, 0, 30, 22);
    Ends(d, protocol, fuel - 5);
    Branch(d, 22, protocol, fuel - 5, IPPROTO_TCP, 30, 29);
    Ends(d, protocol, fuel - 6);
  }

  lemma SocketBranches()
    ensures Branches(13, AF_UNIX, 30, 14) && Branches(14, AF_NETLINK, 30, 15)
    ensures Branches(15, AF_INET, 17, 16) && Branches(16, AF_INET6, 17, 29)
  {
    hide At;
    Names();
  }

  lemma CallBranches()
    ensures Branches(4, SYS_SOCKET, 12, 5) && Branches(5, SYS_SENDTO, 23, 6)
  {
    hide At;
    Names();
  }

  lemma SendBranches()
    ensures Branches(6, SYS_SENDMSG, 25, 7) && Branches(7, SYS_SENDMMSG, 27, 8)
  {
    hide At;
    Names();
  }

  lemma RingBranches()
    ensures Branches(8, SYS_IO_URING_SETUP, 29, 9) && Branches(9, SYS_IO_URING_ENTER, 29, 10)
    ensures Branches(10, SYS_IO_URING_REGISTER, 29, 11)
  {
    hide At;
    Names();
  }

  lemma Socket(d: Data, acc: bv32, fuel: nat)
    requires fuel >= 11
    ensures RunNamed(Filter(), d, 12, acc, fuel) == Verdict(SocketAllowed(Arg(d, 0), Arg(d, 1), Arg(d, 2)))
  {
    hide RunNamed, At, Filter, Branches, Verdict;
    var dom := Arg(d, 0);
    LoadDomain(d, acc, fuel);
    SocketBranches();
    Branch(d, 13, dom, fuel - 1, AF_UNIX, 30, 14);
    Branch(d, 14, dom, fuel - 2, AF_NETLINK, 30, 15);
    Branch(d, 15, dom, fuel - 3, AF_INET, 17, 16);
    Branch(d, 16, dom, fuel - 4, AF_INET6, 17, 29);
    Ends(d, dom, fuel - 2);
    Ends(d, dom, fuel - 3);
    Ends(d, dom, fuel - 5);
    Inet(d, dom, fuel - 4);
    Inet(d, dom, fuel - 5);
  }

  lemma LoadDomain(d: Data, acc: bv32, fuel: nat)
    requires fuel > 0
    ensures RunNamed(Filter(), d, 12, acc, fuel) == RunNamed(Filter(), d, 13, Arg(d, 0), fuel - 1)
  {
    hide RunNamed;
    Exec(d, 12, acc, fuel);
  }

  lemma Rings(d: Data, nr: bv32, fuel: nat)
    requires fuel >= 3
    ensures RunNamed(Filter(), d, 8, nr, fuel) ==
      Verdict(nr != SYS_IO_URING_SETUP && nr != SYS_IO_URING_ENTER && nr != SYS_IO_URING_REGISTER)
  {
    hide RunNamed, At, Filter, Branches, Verdict;
    RingBranches();
    Branch(d, 8, nr, fuel, SYS_IO_URING_SETUP, 29, 9);
    Branch(d, 9, nr, fuel - 1, SYS_IO_URING_ENTER, 29, 10);
    Branch(d, 10, nr, fuel - 2, SYS_IO_URING_REGISTER, 29, 11);
    Ends(d, nr, fuel - 1);
    Ends(d, nr, fuel - 2);
    Ends(d, nr, fuel - 3);
  }

  /** From the switch on the system call on. */
  lemma Switch(d: Data, fuel: nat)
    requires fuel >= 18 && Arch(d) == ARCH_X86_64 && Nr(d) < X32_BIT
    ensures RunNamed(Filter(), d, 4, Nr(d), fuel) == Verdict(Allowed(d))
  {
    hide RunNamed, At, SocketAllowed, Filter, Branches, Verdict;
    var nr := Nr(d);
    CallBranches();
    SendBranches();
    Branch(d, 4, nr, fuel, SYS_SOCKET, 12, 5);
    Branch(d, 5, nr, fuel - 1, SYS_SENDTO, 23, 6);
    Branch(d, 6, nr, fuel - 2, SYS_SENDMSG, 25, 7);
    Branch(d, 7, nr, fuel - 3, SYS_SENDMMSG, 27, 8);
    Socket(d, nr, fuel - 1);
    Flags(d, nr, fuel - 2);
    Flags(d, nr, fuel - 3);
    Flags(d, nr, fuel - 4);
    Rings(d, nr, fuel - 4);
  }

  lemma CheckArch(d: Data, fuel: nat)
    requires fuel >= 2
    ensures RunNamed(Filter(), d, 0, 0, fuel) == RunNamed(Filter(), d, if Arch(d) == ARCH_X86_64 then 2 else 29, Arch(d), fuel - 2)
  {
    hide RunNamed, At;
    Names();
    Exec(d, 0, 0, fuel);
    Exec(d, 1, Arch(d), fuel - 1);
  }

  lemma CheckBit(d: Data, acc: bv32, fuel: nat)
    requires fuel >= 2
    ensures RunNamed(Filter(), d, 2, acc, fuel) == RunNamed(Filter(), d, if Nr(d) >= X32_BIT then 29 else 4, Nr(d), fuel - 2)
  {
    hide RunNamed, At;
    Names();
    Exec(d, 2, acc, fuel);
    Exec(d, 3, Nr(d), fuel - 1);
  }

  /** The filter with names allows exactly what it is meant to. */
  lemma NamedFilterAllows(d: Data, fuel: nat)
    requires fuel >= 22
    ensures RunNamed(Filter(), d, 0, 0, fuel) == Verdict(Allowed(d))
  {
    hide RunNamed, At, SocketAllowed, Filter, Verdict;
    CheckArch(d, fuel);
    CheckBit(d, Arch(d), fuel - 2);
    Ends(d, Arch(d), fuel - 2);
    Ends(d, Nr(d), fuel - 4);
    if Arch(d) == ARCH_X86_64 && Nr(d) < X32_BIT { Switch(d, fuel - 4); }
  }

  /** Where the filter's names stand; -1 for any other. */
  function Position(name: string): int {
    if name == "socket" then 12 else if name == "inet" then 17 else if name == "sendto" then 23
    else if name == "sendmsg" then 25 else if name == "sendmmsg" then 27
    else if name == "deny" then 29 else if name == "allow" then 30 else -1
  }

  lemma Forward(i: nat)
    requires i < |Filter()|
    ensures |Filter()| == 31 && (Filter()[i].jt == "" || Position(Filter()[i].jt) > i)
    ensures Filter()[i].jf == "" || Position(Filter()[i].jf) > i
  {
  }

  lemma Near(i: nat, name: string)
    requires i < |Filter()| == 31 && (name == "" || Position(name) > i)
    ensures Reachable(Filter(), i, name)
  {
    hide At, Filter, Reachable;
    Names();
    OffsetIff(Filter(), i, name);
  }

  lemma JumpsReach(i: nat)
    requires i < |Filter()|
    ensures Reachable(Filter(), i, Filter()[i].jt) && Reachable(Filter(), i, Filter()[i].jf)
  {
    hide Filter, Reachable, Position;
    Forward(i);
    Near(i, Filter()[i].jt);
    Near(i, Filter()[i].jf);
  }

  lemma FilterAssembles()
    ensures Assemble(Filter()).Some?
  {
    hide At, Assemble, Filter, Reachable;
    AssemblesIff(Filter());
    forall i | 0 <= i < |Filter()| ensures Reachable(Filter(), i, Filter()[i].jt) && Reachable(Filter(), i, Filter()[i].jf) {
      JumpsReach(i);
    }
  }

  /**
    The calls that are allowed, by the words of the data: of this architecture, no io_uring; a socket
    is local, a netlink one, or a TCP one over IP; nothing is sent with MSG_FASTOPEN.
   */
  predicate Permitted(d: Data) {
    && d[1] == 0xc000003e && d[0] < 0x40000000 && d[0] != 425 && d[0] != 426 && d[0] != 427
    && (d[0] == 41 ==>
          || d[4] == 1 || d[4] == 16
          || ((d[4] == 2 || d[4] == 10) && d[6] & 0xf == 1 && (d[8] == 0 || d[8] == 6)))
    && (d[0] == 44 || d[0] == 307 ==> d[10] & 0x20000000 == 0)
    && (d[0] == 46 ==> d[8] & 0x20000000 == 0)
  }

  lemma AllowedIs(d: Data)
    ensures Allowed(d) <==> Permitted(d)
  {
  }

  /**
    The shipped filter assembles, and what the kernel runs returns ALLOW for exactly the permitted
    system calls and EPERM for all others: it never gets stuck.
   */
  lemma FilterAllowsExactly(d: Data)
    ensures Assemble(Filter()).Some?
    ensures Run(Assemble(Filter()).value, d, 0, 0) == Returned(if Permitted(d) then 0x7fff0000 else 0x00050001)
  {
    hide RunNamed, Run, Assemble, Allowed, Permitted;
    AllowedIs(d);
    FilterAssembles();
    NamedFilterAllows(d, 31);
    AssemblePreserves(Filter(), d, 0, 0, 31);
  }
}
