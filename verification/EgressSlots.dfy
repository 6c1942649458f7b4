/**
  egress/egress.go and egress/serveboth.go: connections that share one pool of slots, and the
  shutdown, as steps of goroutines that interleave in any order.
 */
module EgressSlots {

  /**
    Where a connection is. A CONNECT takes a slot, is tracked and counted, is handled, and then
    undoes the three in the order of its deferred calls: tracked, slot, count. Another connection
    has only a slot, given back when net/http reports its end.
   */
  datatype Phase =
    | Sniffing | WantsConnect | WantsOther
    | Holding | Returning
    | Running | Handled | Untracked | Freed
    | OtherLive
    | Gone

  predicate HoldsSlot(p: Phase) {
    p.Holding? || p.Returning? || p.Running? || p.Handled? || p.Untracked? || p.OtherLive?
  }

  predicate Tracked(p: Phase) { p.Running? || p.Handled? }

  /** Between wg.Add and wg.Done: a CONNECT handler goroutine exists. */
  predicate Counted(p: Phase) { p.Running? || p.Handled? || p.Untracked? || p.Freed? }

  datatype Closer = Waiting | Returned

  datatype Server = Server(
    capacity: nat, closed: bool, sem: nat, wg: nat, conns: set<nat>, phases: map<nat, Phase>, closers: map<nat, Closer>,
    acquired: multiset<nat>, released: multiset<nat>)

  datatype Route = Connect | Other | Bad

  datatype Step =
    | Arrive(c: nat)
    | Dispatch(c: nat, route: Route)
    | TakeSlot(c: nat)
    | AddConn(c: nat)
    | GiveBack(c: nat)
    | Finish(c: nat)
    | RemoveConn(c: nat)
    | Release(c: nat)
    | CountDown(c: nat)
    | CallClose(k: nat)
    | ReturnFromClose(k: nat)

  function Fresh(capacity: nat): Server { Server(capacity, false, 0, 0, {}, map[], map[], multiset{}, multiset{}) }

  function Go(s: Server, c: nat, p: Phase): Server { s.(phases := s.phases[c := p]) }

  predicate At(s: Server, c: nat, p: Phase) { c in s.phases && s.phases[c] == p }

  /** One step; a step that is not possible here changes nothing. */
  function Next(s: Server, st: Step): Server {
    match st
    case Arrive(c) => if c in s.phases then s else Go(s, c, Sniffing)
    case Dispatch(c, route) =>
      if !At(s, c, Sniffing) then s
      else Go(s, c, match route case Connect => WantsConnect case Other => WantsOther case Bad => Gone)
    case TakeSlot(c) =>
      if !At(s, c, WantsConnect) && !At(s, c, WantsOther) then s
      else if s.sem >= s.capacity then Go(s, c, Gone)
      else Go(s, c, if At(s, c, WantsConnect) then Holding else OtherLive).(sem := s.sem + 1, acquired := s.acquired + multiset{c})
    case AddConn(c) =>
      if !At(s, c, Holding) then s
      else if s.closed then Go(s, c, Returning)
      else Go(s, c, Running).(conns := s.conns + {c}, wg := s.wg + 1)
    case GiveBack(c) => if At(s, c, Returning) then FreeSlot(Go(s, c, Gone), c) else s
    case Finish(c) => if At(s, c, Running) then Go(s, c, Handled) else s
    case RemoveConn(c) => if At(s, c, Handled) then Go(s, c, Untracked).(conns := s.conns - {c}) else s
    case Release(c) =>
      if At(s, c, Untracked) then FreeSlot(Go(s, c, Freed), c)
      else if At(s, c, OtherLive) then FreeSlot(Go(s, c, Gone), c)
      else s
    case CountDown(c) => if At(s, c, Freed) && s.wg > 0 then Go(s, c, Gone).(wg := s.wg - 1) else s
    case CallClose(k) => if k in s.closers then s else s.(closed := true, closers := s.closers[k := Waiting])
    case ReturnFromClose(k) =>
      if k in s.closers && s.closers[k] == Waiting && s.wg == 0 then s.(closers := s.closers[k := Returned]) else s
  }

  /** A receive from the channel; it would block on an empty one. */
  function FreeSlot(s: Server, c: nat): Server {
    if s.sem == 0 then s else s.(sem := s.sem - 1, released := s.released + multiset{c})
  }

  function Run(capacity: nat, steps: seq<Step>): Server {
    if steps == [] then Fresh(capacity) else Next(Run(capacity, steps[..|steps| - 1]), steps[|steps| - 1])
  }

  // ----- the invariant -----

  ghost function Holders(phases: map<nat, Phase>): set<nat> { set c | c in phases && HoldsSlot(phases[c]) }

  ghost function Handlers(phases: map<nat, Phase>): set<nat> { set c | c in phases && Counted(phases[c]) }

  ghost function TrackedOnes(phases: map<nat, Phase>): set<nat> { set c | c in phases && Tracked(phases[c]) }

  /** Whether the connection has passed the point where it asks for a slot. */
  predicate Asked(p: Phase) { !p.Sniffing? && !p.WantsConnect? && !p.WantsOther? }

  ghost predicate Slots(s: Server) {
    && s.sem == |Holders(s.phases)| <= s.capacity
    && s.wg == |Handlers(s.phases)|
    && s.conns == TrackedOnes(s.phases)
  }

  ghost predicate Once(s: Server) {
    && (forall c :: s.released[c] <= s.acquired[c] <= 1)
    && (forall c :: s.acquired[c] - s.released[c] == 1 <==> c in Holders(s.phases))
    && (forall c :: s.acquired[c] == 1 ==> c in s.phases && Asked(s.phases[c]))
  }

  ghost predicate Shut(s: Server) {
    && (s.closers != map[] ==> s.closed)
    && (forall k :: k in s.closers && s.closers[k] == Returned ==> Handlers(s.phases) == {})
  }

  ghost predicate Inv(s: Server) { Slots(s) && Once(s) && Shut(s) }

  lemma Moved(phases: map<nat, Phase>, c: nat, p: Phase)
    ensures Holders(phases[c := p]) == if HoldsSlot(p) then Holders(phases) + {c} else Holders(phases) - {c}
    ensures Handlers(phases[c := p]) == if Counted(p) then Handlers(phases) + {c} else Handlers(phases) - {c}
    ensures TrackedOnes(phases[c := p]) == if Tracked(p) then TrackedOnes(phases) + {c} else TrackedOnes(phases) - {c}
  {
    hide HoldsSlot, Counted, Tracked;
  }

  /** A move between two phases that hold, count and track alike. */
  lemma PlainMove(s: Server, c: nat, p: Phase)
    requires Inv(s)
    requires c in s.phases ==> HoldsSlot(p) == HoldsSlot(s.phases[c]) && Counted(p) == Counted(s.phases[c]) && Tracked(p) == Tracked(s.phases[c])
    requires c in s.phases ==> (Asked(s.phases[c]) ==> Asked(p))
    requires c !in s.phases ==> !HoldsSlot(p) && !Counted(p) && !Tracked(p)
    ensures Inv(Go(s, c, p))
  {
    hide HoldsSlot, Counted, Tracked, Asked, Slots, Once, Shut;
    var s' := Go(s, c, p);
    SameSets(s, c, p);
    assert Slots(s') by { SlotsSame(s, s'); }
    assert Once(s') by { OnceSame(s, c, p); }
    assert Shut(s') by { ShutSame(s, s'); }
  }

  lemma SameSets(s: Server, c: nat, p: Phase)
    requires c in s.phases ==> HoldsSlot(p) == HoldsSlot(s.phases[c]) && Counted(p) == Counted(s.phases[c]) && Tracked(p) == Tracked(s.phases[c])
    requires c !in s.phases ==> !HoldsSlot(p) && !Counted(p) && !Tracked(p)
    ensures Holders(s.phases[c := p]) == Holders(s.phases) && Handlers(s.phases[c := p]) == Handlers(s.phases)
    ensures TrackedOnes(s.phases[c := p]) == TrackedOnes(s.phases)
  {
    hide HoldsSlot, Counted, Tracked;
  }

  lemma SlotsSame(s: Server, s': Server)
    requires Slots(s) && Holders(s'.phases) == Holders(s.phases) && Handlers(s'.phases) == Handlers(s.phases)
    requires TrackedOnes(s'.phases) == TrackedOnes(s.phases) && s' == s.(phases := s'.phases)
    ensures Slots(s')
  {
    hide Holders, Handlers, TrackedOnes;
  }

  lemma OnceSame(s: Server, c: nat, p: Phase)
    requires Once(s) && Holders(s.phases[c := p]) == Holders(s.phases)
    requires c in s.phases ==> (Asked(s.phases[c]) ==> Asked(p))
    ensures Once(Go(s, c, p))
  {
    hide Holders, Asked;
    forall x | s.acquired[x] == 1 ensures x in s.phases[c := p] && Asked(s.phases[c := p][x]) {
      assert x in s.phases && Asked(s.phases[x]);
    }
  }

  lemma ShutSame(s: Server, s': Server)
    requires Shut(s) && Handlers(s'.phases) == Handlers(s.phases) && s' == s.(phases := s'.phases)
    ensures Shut(s')
  {
    hide Handlers;
  }

  lemma TakeOk(s: Server, c: nat, p: Phase)
    requires Inv(s) && c in s.phases && !Asked(s.phases[c]) && s.sem < s.capacity && (p == Holding || p == OtherLive)
    ensures Inv(Go(s, c, p).(sem := s.sem + 1, acquired := s.acquired + multiset{c}))
  {
    hide Holders, Handlers, TrackedOnes, Slots, Once, Shut;
    var s' := Go(s, c, p).(sem := s.sem + 1, acquired := s.acquired + multiset{c});
    NotYet(s, c);
    Moved(s.phases, c, p);
    assert Slots(s') by { TakeSlots(s, s', c); }
    assert Once(s') by { TakeOnce(s, s', c); }
    assert Shut(s') by { TakeShut(s, s', c); }
  }

  lemma TakeSlots(s: Server, s': Server, c: nat)
    requires Slots(s) && s.sem < s.capacity && c !in Holders(s.phases) && c !in Handlers(s.phases) && c !in TrackedOnes(s.phases)
    requires Holders(s'.phases) == Holders(s.phases) + {c} && Handlers(s'.phases) == Handlers(s.phases) - {c}
    requires TrackedOnes(s'.phases) == TrackedOnes(s.phases) - {c} && s'.sem == s.sem + 1
    requires s'.wg == s.wg && s'.conns == s.conns && s'.capacity == s.capacity
    ensures Slots(s')
  {
    hide Holders, Handlers, TrackedOnes;
    assert Handlers(s'.phases) == Handlers(s.phases);
  }

  lemma TakeOnce(s: Server, s': Server, c: nat)
    requires Once(s) && s.acquired[c] == 0 && s.released[c] == 0 && c in s'.phases && Asked(s'.phases[c])
    requires s' == s.(phases := s.phases[c := s'.phases[c]], sem := s'.sem, acquired := s.acquired + multiset{c})
    requires Holders(s'.phases) == Holders(s.phases) + {c}
    ensures Once(s')
  {
    hide Holders, Asked;
    forall x ensures s'.acquired[x] == s.acquired[x] + if x == c then 1 else 0 { }
  }

  lemma TakeShut(s: Server, s': Server, c: nat)
    requires Shut(s) && Handlers(s'.phases) == Handlers(s.phases) - {c} && s'.closers == s.closers && s'.closed == s.closed
    ensures Shut(s')
  {
    hide Handlers;
  }

  lemma NotYet(s: Server, c: nat)
    requires Once(s) && c in s.phases && !Asked(s.phases[c])
    ensures s.acquired[c] == 0 && s.released[c] == 0
    ensures c !in Holders(s.phases) && c !in Handlers(s.phases) && c !in TrackedOnes(s.phases)
  {
  }

  lemma FreeOk(s: Server, c: nat, p: Phase)
    requires Inv(s) && c in s.phases && HoldsSlot(s.phases[c]) && !Tracked(s.phases[c]) && Asked(p)
    requires !HoldsSlot(p) && !Tracked(p) && Counted(p) == Counted(s.phases[c])
    ensures Inv(FreeSlot(Go(s, c, p), c)) && s.sem > 0
  {
    hide Holders, Handlers, TrackedOnes, Slots, Once, Shut;
    var s' := FreeSlot(Go(s, c, p), c);
    Moved(s.phases, c, p);
    HoldingHolds(s, c);
    SomeSlot(s, c);
    SameOthers(s, c, p);
    assert Slots(s') by { FreeSlots(s, s', c); }
    assert Once(s') by { FreeOnce(s, s', c); }
    assert Shut(s') by { FreeShut(s, s'); }
  }

  lemma SomeSlot(s: Server, c: nat)
    requires Slots(s) && c in Holders(s.phases)
    ensures s.sem > 0
  {
    assert Holders(s.phases) != {};
  }

  lemma FreeSlots(s: Server, s': Server, c: nat)
    requires Slots(s) && c in Holders(s.phases) && s.sem > 0 && s'.sem == s.sem - 1
    requires Holders(s'.phases) == Holders(s.phases) - {c} && Handlers(s'.phases) == Handlers(s.phases)
    requires TrackedOnes(s'.phases) == TrackedOnes(s.phases)
    requires s'.wg == s.wg && s'.conns == s.conns && s'.capacity == s.capacity
    ensures Slots(s')
  {
    hide Holders, Handlers, TrackedOnes;
  }

  lemma FreeOnce(s: Server, s': Server, c: nat)
    requires Once(s) && c in Holders(s.phases) && c in s'.phases && Asked(s'.phases[c])
    requires s' == s.(phases := s.phases[c := s'.phases[c]], sem := s'.sem, released := s.released + multiset{c})
    requires Holders(s'.phases) == Holders(s.phases) - {c}
    ensures Once(s')
  {
    hide Holders, Asked;
    forall x ensures s'.released[x] == s.released[x] + if x == c then 1 else 0 { }
  }

  lemma FreeShut(s: Server, s': Server)
    requires Shut(s) && Handlers(s'.phases) == Handlers(s.phases) && s'.closers == s.closers && s'.closed == s.closed
    ensures Shut(s')
  {
    hide Handlers;
  }

  lemma SameOthers(s: Server, c: nat, p: Phase)
    requires c in s.phases && !Tracked(s.phases[c]) && !Tracked(p) && Counted(p) == Counted(s.phases[c])
    ensures Handlers(s.phases[c := p]) == Handlers(s.phases) && TrackedOnes(s.phases[c := p]) == TrackedOnes(s.phases)
  {
    Moved(s.phases, c, p);
  }

  lemma AddOk(s: Server, c: nat)
    requires Inv(s) && At(s, c, Holding) && !s.closed
    ensures Inv(Go(s, c, Running).(conns := s.conns + {c}, wg := s.wg + 1))
  {
    hide Holders, Handlers, TrackedOnes, Slots, Once, Shut;
    var s' := Go(s, c, Running).(conns := s.conns + {c}, wg := s.wg + 1);
    Moved(s.phases, c, Running);
    HoldingHolds(s, c);
    NotCounted(s, c);
    assert Holders(s'.phases) == Holders(s.phases);
    assert Slots(s') by { AddSlots(s, s', c); }
    assert Once(s') by { OnceSame(s, c, Running); OnceOf(Go(s, c, Running), s'); }
    assert Shut(s') by { ShutOpen(s, s'); }
  }

  lemma NotCounted(s: Server, c: nat)
    requires c in s.phases && !Counted(s.phases[c])
    ensures c !in Handlers(s.phases)
  {
  }

  lemma AddSlots(s: Server, s': Server, c: nat)
    requires Slots(s) && c !in Handlers(s.phases) && Holders(s'.phases) == Holders(s.phases)
    requires Handlers(s'.phases) == Handlers(s.phases) + {c} && TrackedOnes(s'.phases) == TrackedOnes(s.phases) + {c}
    requires s'.sem == s.sem && s'.capacity == s.capacity && s'.wg == s.wg + 1 && s'.conns == s.conns + {c}
    ensures Slots(s')
  {
    hide Holders, Handlers, TrackedOnes;
  }

  lemma OnceOf(s: Server, s': Server)
    requires Once(s) && s'.phases == s.phases && s'.acquired == s.acquired && s'.released == s.released
    ensures Once(s')
  {
    hide Holders, Asked;
  }

  lemma ShutOpen(s: Server, s': Server)
    requires Shut(s) && !s.closed && s'.closers == s.closers && s'.closed == s.closed
    ensures Shut(s')
  {
    hide Handlers;
    assert s.closers == map[];
  }

  lemma HoldingHolds(s: Server, c: nat)
    requires c in s.phases && HoldsSlot(s.phases[c])
    ensures c in Holders(s.phases)
  {
  }

  lemma RemoveOk(s: Server, c: nat)
    requires Inv(s) && At(s, c, Handled)
    ensures Inv(Go(s, c, Untracked).(conns := s.conns - {c}))
  {
    hide Holders, Handlers;
    Moved(s.phases, c, Untracked);
    HoldingHolds(s, c);
    CountedIn(s, c);
    assert Holders(s.phases[c := Untracked]) == Holders(s.phases);
    assert Handlers(s.phases[c := Untracked]) == Handlers(s.phases);
  }

  lemma CountedIn(s: Server, c: nat)
    requires c in s.phases && Counted(s.phases[c])
    ensures c in Handlers(s.phases)
  {
  }

  lemma CountDownOk(s: Server, c: nat)
    requires Inv(s) && At(s, c, Freed) && s.wg > 0
    ensures Inv(Go(s, c, Gone).(wg := s.wg - 1))
  {
    hide Holders, Handlers, TrackedOnes, Slots, Once, Shut;
    var s' := Go(s, c, Gone).(wg := s.wg - 1);
    Moved(s.phases, c, Gone);
    CountedIn(s, c);
    FreedHoldsNone(s, c);
    assert Holders(s'.phases) == Holders(s.phases);
    assert Slots(s') by { DownSlots(s, s', c); }
    assert Once(s') by { OnceSame(s, c, Gone); OnceOf(Go(s, c, Gone), s'); }
    assert Shut(s') by { TakeShut(s, s', c); }
  }

  lemma DownSlots(s: Server, s': Server, c: nat)
    requires Slots(s) && c in Handlers(s.phases) && c !in TrackedOnes(s.phases) && Holders(s'.phases) == Holders(s.phases)
    requires Handlers(s'.phases) == Handlers(s.phases) - {c} && TrackedOnes(s'.phases) == TrackedOnes(s.phases) - {c}
    requires s'.sem == s.sem && s'.capacity == s.capacity && s'.wg == s.wg - 1 && s'.conns == s.conns
    ensures Slots(s')
  {
    hide Holders, Handlers, TrackedOnes;
  }

  lemma FreedHoldsNone(s: Server, c: nat)
    requires At(s, c, Freed)
    ensures c !in Holders(s.phases) && c !in TrackedOnes(s.phases)
  {
  }

  lemma CloseOk(s: Server, st: Step)
    requires Inv(s) && (st.CallClose? || st.ReturnFromClose?)
    ensures Inv(Next(s, st))
  {
    hide Holders, TrackedOnes;
    if st.ReturnFromClose? && st.k in s.closers && s.closers[st.k] == Waiting && s.wg == 0 {
      assert Handlers(s.phases) == {};
    }
  }

  lemma NextKeeps(s: Server, st: Step)
    requires Inv(s)
    ensures Inv(Next(s, st))
  {
    hide Inv;
    match st
    case Arrive(c) => if c !in s.phases { PlainMove(s, c, Sniffing); }
    case Dispatch(c, route) =>
      if At(s, c, Sniffing) { PlainMove(s, c, match route case Connect => WantsConnect case Other => WantsOther case Bad => Gone); }
    case TakeSlot(c) =>
      if At(s, c, WantsConnect) || At(s, c, WantsOther) {
        if s.sem >= s.capacity { PlainMove(s, c, Gone); }
        else { TakeOk(s, c, if At(s, c, WantsConnect) then Holding else OtherLive); }
      }
    case AddConn(c) =>
      if At(s, c, Holding) {
        if s.closed { PlainMove(s, c, Returning); } else { AddOk(s, c); }
      }
    case GiveBack(c) => if At(s, c, Returning) { FreeOk(s, c, Gone); }
    case Finish(c) => if At(s, c, Running) { PlainMove(s, c, Handled); }
    case RemoveConn(c) => if At(s, c, Handled) { RemoveOk(s, c); }
    case Release(c) =>
      if At(s, c, Untracked) { FreeOk(s, c, Freed); }
      else if At(s, c, OtherLive) { FreeOk(s, c, Gone); }
    case CountDown(c) => if At(s, c, Freed) && s.wg > 0 { CountDownOk(s, c); }
    case CallClose(k) => CloseOk(s, st);
    case ReturnFromClose(k) => CloseOk(s, st);
  }

  lemma {:induction false} RunKeeps(capacity: nat, steps: seq<Step>)
    ensures Inv(Run(capacity, steps)) && Run(capacity, steps).capacity == capacity
  {
    hide Inv, Next;
    if steps == [] {
      FreshOk(capacity);
    } else {
      RunKeeps(capacity, steps[..|steps| - 1]);
      NextKeeps(Run(capacity, steps[..|steps| - 1]), steps[|steps| - 1]);
      SameCapacity(Run(capacity, steps[..|steps| - 1]), steps[|steps| - 1]);
    }
  }

  lemma FreshOk(capacity: nat)
    ensures Inv(Fresh(capacity))
  {
  }

  lemma SameCapacity(s: Server, st: Step)
    ensures Next(s, st).capacity == s.capacity
  {
  }

  // ----- the laws of every interleaving -----

  ghost function ConnectHolders(s: Server): set<nat> { set c | c in s.phases && HoldsSlot(s.phases[c]) && s.phases[c] != OtherLive }

  ghost function Others(s: Server): set<nat> { set c | c in s.phases && s.phases[c] == OtherLive }

  /** The slots in use are those of the CONNECT connections that hold one and of the others that live, never too many. */
  lemma SlotsAreAccounted(capacity: nat, steps: seq<Step>)
    ensures var s := Run(capacity, steps); s.sem == |ConnectHolders(s)| + |Others(s)| <= capacity
  {
    hide Run, Inv;
    RunKeeps(capacity, steps);
    var s := Run(capacity, steps);
    InvSlots(s);
    assert Holders(s.phases) == ConnectHolders(s) + Others(s);
    assert ConnectHolders(s) !! Others(s);
  }

  lemma InvSlots(s: Server)
    requires Inv(s)
    ensures s.sem == |Holders(s.phases)| <= s.capacity && s.wg == |Handlers(s.phases)| && s.conns == TrackedOnes(s.phases)
  {
  }

  /** No connection takes two slots, gives back one it has not, or keeps one when it is gone. */
  lemma ReleasedExactlyOnce(capacity: nat, steps: seq<Step>, c: nat)
    ensures var s := Run(capacity, steps);
      && s.released[c] <= s.acquired[c] <= 1
      && (c in s.phases && s.phases[c].Gone? ==> s.released[c] == s.acquired[c])
  {
    hide Run;
    RunKeeps(capacity, steps);
  }

  /** From when a Close returns on, no CONNECT handler runs, none can start, and nothing is tracked. */
  lemma {:induction false} NothingAfterClose(capacity: nat, steps: seq<Step>, n: nat, k: nat, c: nat)
    requires n <= |steps|
    requires var s := Run(capacity, steps[..n]); k in s.closers && s.closers[k] == Returned
    ensures var s := Run(capacity, steps); s.closed && s.conns == {} && (c in s.phases ==> !Counted(s.phases[c]))
  {
    hide Run, Next;
    StaysReturned(capacity, steps, n, k);
    RunKeeps(capacity, steps);
    var s := Run(capacity, steps);
    assert Handlers(s.phases) == {};
    assert forall x :: x in TrackedOnes(s.phases) ==> x in Handlers(s.phases);
    assert forall x :: x in s.phases && Counted(s.phases[x]) ==> x in Handlers(s.phases);
  }

  lemma {:induction false} StaysReturned(capacity: nat, steps: seq<Step>, n: nat, k: nat)
    requires n <= |steps|
    requires var s := Run(capacity, steps[..n]); k in s.closers && s.closers[k] == Returned
    ensures var s := Run(capacity, steps); k in s.closers && s.closers[k] == Returned
  {
    hide Next;
    if n == |steps| {
      assert steps[..n] == steps;
    } else {
      var front := steps[..|steps| - 1];
      assert front[..n] == steps[..n];
      StaysReturned(capacity, front, n, k);
      KeepsReturned(Run(capacity, front), steps[|steps| - 1], k);
    }
  }

  lemma KeepsReturned(s: Server, st: Step, k: nat)
    requires k in s.closers && s.closers[k] == Returned
    ensures k in Next(s, st).closers && Next(s, st).closers[k] == Returned
  {
  }

  /** A step that receives from the channel or counts down never finds nothing there. */
  lemma NeverBlocks(capacity: nat, steps: seq<Step>, c: nat)
    ensures var s := Run(capacity, steps);
      && (c in s.phases && HoldsSlot(s.phases[c]) ==> s.sem > 0)
      && (c in s.phases && Counted(s.phases[c]) ==> s.wg > 0)
  {
    hide Run, Inv;
    RunKeeps(capacity, steps);
    var s := Run(capacity, steps);
    InvSlots(s);
    if c in s.phases && HoldsSlot(s.phases[c]) { assert c in Holders(s.phases); }
    if c in s.phases && Counted(s.phases[c]) { assert c in Handlers(s.phases); }
  }

  lemma RunSnoc(capacity: nat, steps: seq<Step>, st: Step)
    ensures Run(capacity, steps + [st]) == Next(Run(capacity, steps), st)
  {
    assert (steps + [st])[..|steps|] == steps;
  }

  /** What Close promises it promises for CONNECT only: another connection can take a slot after it has returned. */
  lemma OthersOutliveClose()
    ensures var s := Run(1, [CallClose(0)] + [ReturnFromClose(0)] + [Arrive(1)] + [Dispatch(1, Other)] + [TakeSlot(1)]);
      0 in s.closers && s.closers[0] == Returned && s.sem == 1 && At(s, 1, OtherLive)
  {
    hide Run;
    var a := [CallClose(0)] + [ReturnFromClose(0)];
    RunNone(1);
    RunSnoc(1, [], CallClose(0));
    assert [] + [CallClose(0)] == [CallClose(0)];
    RunSnoc(1, [CallClose(0)], ReturnFromClose(0));
    RunSnoc(1, a, Arrive(1));
    RunSnoc(1, a + [Arrive(1)], Dispatch(1, Other));
    RunSnoc(1, a + [Arrive(1)] + [Dispatch(1, Other)], TakeSlot(1));
    ClosedThenOther();
  }

  lemma ClosedThenOther()
    ensures var shut := Next(Next(Fresh(1), CallClose(0)), ReturnFromClose(0));
      var s := Next(Next(Next(shut, Arrive(1)), Dispatch(1, Other)), TakeSlot(1));
      0 in s.closers && s.closers[0] == Returned && s.sem == 1 && At(s, 1, OtherLive)
  {
    var shut := Next(Next(Fresh(1), CallClose(0)), ReturnFromClose(0));
    assert shut.closers[0] == Returned && shut.sem == 0 && shut.phases == map[] && shut.capacity == 1;
    OtherTakes(shut);
  }

  lemma OtherTakes(shut: Server)
    requires shut.sem == 0 && shut.phases == map[] && shut.capacity == 1
    ensures var s := Next(Next(Next(shut, Arrive(1)), Dispatch(1, Other)), TakeSlot(1));
      s.closers == shut.closers && s.sem == 1 && At(s, 1, OtherLive)
  {
    var a := Next(shut, Arrive(1));
    assert a == shut.(phases := map[1 := Sniffing]);
    var b := Next(a, Dispatch(1, Other));
    assert b == shut.(phases := map[1 := WantsOther]);
  }

  lemma RunNone(capacity: nat)
    ensures Run(capacity, []) == Fresh(capacity)
  {
  }

  // ----- connections from their arrival to their end -----

  /** Some steps one after the other. */
  function After(s: Server, steps: seq<Step>): Server
    decreases |steps|
  {
    if steps == [] then s else After(Next(s, steps[0]), steps[1..])
  }

  lemma AfterStep(s: Server, st: Step, more: seq<Step>)
    ensures After(s, [st] + more) == After(Next(s, st), more)
  {
    assert ([st] + more)[1..] == more;
  }

  /** What a connection leaves that had a slot and gave it back: nothing but its marks. */
  function Served(s: Server, c: nat): Server {
    s.(phases := s.phases[c := Gone], acquired := s.acquired + multiset{c}, released := s.released + multiset{c})
  }

  /** With a slot free and the server open, a CONNECT has one slot and is tracked and counted while it runs, and leaves everything as it was. */
  lemma ConnectGoesThrough(s: Server, c: nat)
    requires c !in s.phases && c !in s.conns && s.sem < s.capacity && !s.closed
    ensures var running := After(s, [Arrive(c), Dispatch(c, Connect), TakeSlot(c), AddConn(c)]);
      && running.sem == s.sem + 1 && running.wg == s.wg + 1 && running.conns == s.conns + {c} && At(running, c, Running)
      && After(running, [Finish(c), RemoveConn(c), Release(c), CountDown(c)]) == Served(s, c)
  {
    hide After, Next;
    FourSteps(s, Arrive(c), Dispatch(c, Connect), TakeSlot(c), AddConn(c));
    ConnectBegins(s, c);
    FourSteps(Handling(s, c), Finish(c), RemoveConn(c), Release(c), CountDown(c));
    ConnectEnds(s, c);
  }

  /** The state while the handler of the connection runs. */
  function Handling(s: Server, c: nat): Server {
    s.(phases := s.phases[c := Running], sem := s.sem + 1, wg := s.wg + 1, conns := s.conns + {c}, acquired := s.acquired + multiset{c})
  }

  lemma ConnectBegins(s: Server, c: nat)
    requires c !in s.phases && s.sem < s.capacity && !s.closed
    ensures Next(Next(Next(Next(s, Arrive(c)), Dispatch(c, Connect)), TakeSlot(c)), AddConn(c)) == Handling(s, c)
  {
    var s3 := Next(Next(Next(s, Arrive(c)), Dispatch(c, Connect)), TakeSlot(c));
    assert s3.phases == s.phases[c := Holding];
    assert s3.phases[c := Running] == s.phases[c := Running];
  }

  lemma ConnectEnds(s: Server, c: nat)
    requires c !in s.phases && c !in s.conns
    ensures Next(Next(Next(Next(Handling(s, c), Finish(c)), RemoveConn(c)), Release(c)), CountDown(c)) == Served(s, c)
  {
    HandlerEnds(s, c);
    var s6 := Next(Next(Handling(s, c), Finish(c)), RemoveConn(c));
    var s8 := Next(Next(s6, Release(c)), CountDown(c));
    assert s6.phases[c := Freed][c := Gone] == s.phases[c := Gone];
  }

  lemma HandlerEnds(s: Server, c: nat)
    requires c !in s.phases && c !in s.conns
    ensures Next(Next(Handling(s, c), Finish(c)), RemoveConn(c)) == Handling(s, c).(phases := s.phases[c := Untracked], conns := s.conns)
  {
    var h := Handling(s, c);
    assert h.phases[c := Handled][c := Untracked] == s.phases[c := Untracked];
    assert h.conns - {c} == s.conns;
  }

  lemma FourSteps(s: Server, a: Step, b: Step, x: Step, y: Step)
    ensures After(s, [a, b, x, y]) == Next(Next(Next(Next(s, a), b), x), y)
  {
    hide Next;
    assert [a, b, x, y] == [a] + ([b] + ([x] + ([y] + [])));
    AfterStep(s, a, [b] + ([x] + ([y] + [])));
    AfterStep(Next(s, a), b, [x] + ([y] + []));
    AfterStep(Next(Next(s, a), b), x, [y] + []);
    AfterStep(Next(Next(Next(s, a), b), x), y, []);
  }

  /** Another connection has a slot while it lives and gives it back. */
  lemma OtherGoesThrough(s: Server, c: nat)
    requires c !in s.phases && s.sem < s.capacity
    ensures After(s, [Arrive(c), Dispatch(c, Other), TakeSlot(c), Release(c)]) == Served(s, c)
    ensures Next(Next(Next(s, Arrive(c)), Dispatch(c, Other)), TakeSlot(c)).sem == s.sem + 1
  {
    hide After;
    FourSteps(s, Arrive(c), Dispatch(c, Other), TakeSlot(c), Release(c));
    var s4 := Next(Next(Next(Next(s, Arrive(c)), Dispatch(c, Other)), TakeSlot(c)), Release(c));
    assert s4.phases == s.phases[c := Gone];
  }

  /** Without a free slot, or without a known request, a connection ends at once and takes nothing. */
  lemma RefusedTells(s: Server, c: nat, route: Route)
    requires c !in s.phases && (route == Bad || s.sem >= s.capacity)
    ensures Next(Next(Next(s, Arrive(c)), Dispatch(c, route)), TakeSlot(c)) == Go(s, c, Gone)
  {
    var s2 := Next(Next(s, Arrive(c)), Dispatch(c, route));
    assert c in s2.phases && s2 == s.(phases := s2.phases);
    assert s2.phases[c := Gone] == s.phases[c := Gone];
    assert s2.phases[c] == Gone ==> s2.phases == s.phases[c := Gone];
  }

  /** After the server was closed a CONNECT that got a slot gives it back and is not handled. */
  lemma ClosedTells(s: Server, c: nat)
    requires c !in s.phases && s.sem < s.capacity && s.closed
    ensures var held := Next(Next(Next(s, Arrive(c)), Dispatch(c, Connect)), TakeSlot(c));
      var turned := Next(held, AddConn(c));
      && At(turned, c, Returning) && turned.conns == s.conns && turned.wg == s.wg
      && Next(turned, GiveBack(c)) == Served(s, c)
  {
    var held := Next(Next(Next(s, Arrive(c)), Dispatch(c, Connect)), TakeSlot(c));
    assert Next(Next(held, AddConn(c)), GiveBack(c)).phases == s.phases[c := Gone];
  }

  /** Close closes at once, and returns exactly when no handler is counted any more. */
  lemma CloseTells(s: Server, k: nat)
    requires k !in s.closers
    ensures var called := Next(s, CallClose(k));
      && called == s.(closed := true, closers := s.closers[k := Waiting])
      && Next(called, ReturnFromClose(k)) == if s.wg == 0 then called.(closers := s.closers[k := Returned]) else called
  {
    assert s.closers[k := Waiting][k := Returned] == s.closers[k := Returned];
  }
}
