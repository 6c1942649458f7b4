/** The laws of every run of the claude adapter, from its first frame on. */
module ClaudeRuns {
  import opened Wrappers
  import opened Lists
  import opened Json
  import opened V0
  import opened ClaudeForm
  import opened ClaudeModel
  import L = RequestLedger
  import P = ClaudePermission

  datatype Input = Received(frame: Frame) | Commanded(command: Command)

  datatype Obs = Emitted(event: Event) | Wrote(line: Line)

  function EmittedAll(es: seq<Event>): seq<Obs> { seq(|es|, i requires 0 <= i < |es| => Emitted(es[i])) }

  function WroteAll(ls: seq<Line>): seq<Obs> { seq(|ls|, i requires 0 <= i < |ls| => Wrote(ls[i])) }

  /** One input: the new state and what is seen from outside, the lines before the events they go with. */
  ghost function Next(m: Model, i: Input): (Model, seq<Obs>) {
    match i
    case Received(f) => var (m', es) := Decode(m, f); (m', EmittedAll(es))
    case Commanded(c) =>
      var (m', r) := Encode(m, c);
      (m', if r.Refused? then [] else WroteAll(r.lines) + EmittedAll(r.events))
  }

  ghost function Run(inputs: seq<Input>): (Model, seq<Obs>) {
    if inputs == [] then (INITIAL, [])
    else
      var (m, trace) := Run(inputs[..|inputs| - 1]);
      var (m', obs) := Next(m, inputs[|inputs| - 1]);
      (m', trace + obs)
  }

  /** What an observation does to the ledger. */
  function ActsOf(o: Obs): seq<L.Act<string, Kind>> {
    if o.Wrote? then []
    else match o.event
      case PermissionRequested(r) => [L.Ask(r.requestId, Permission)]
      case FormRequested(f) => [L.Ask(f.requestId, Form)]
      case PermissionResolved(_, _, id) => [L.Settle(id, Permission)]
      case FormResolved(_, _, id, _) => [L.Settle(id, Form)]
      case _ => []
  }

  function Acts(trace: seq<Obs>): seq<L.Act<string, Kind>> { Collect(trace, ActsOf) }

  // ----- the invariant -----

  ghost predicate Listed(m: Model, o: L.Open<string, Kind>) {
    && o.key in m.pending && m.pending[o.key].Kind() == o.tag
    && o.key in m.seen && o.key != ""
    && m.pending[o.key].seqNo <= m.nextSeq && m.pending[o.key].input.Object?
  }

  ghost predicate Before(m: Model, a: L.Open<string, Kind>, b: L.Open<string, Kind>) {
    a.key in m.pending && b.key in m.pending && m.pending[a.key].seqNo < m.pending[b.key].seqNo
  }

  /** The list and the table hold the same requests, the list in the order of the arrival numbers. */
  ghost predicate Inv(m: Model) {
    && L.Distinct(m.open)
    && (forall o :: o in m.open ==> Listed(m, o))
    && (forall id :: id in m.pending ==> L.IsOpen(m.open, id))
    && (forall i, j :: 0 <= i < j < |m.open| ==> Before(m, m.open[i], m.open[j]))
    && |m.pending| <= MAX_PENDING
  }

  ghost predicate Matches(l: L.Ledger<string, Kind>, m: Model) {
    l.open == m.open && l.settled <= m.seen
  }

  lemma InTable(m: Model, id: string)
    requires Inv(m)
    ensures id in m.pending <==> L.IsOpen(m.open, id)
    ensures id in m.pending ==> L.Open(id, m.pending[id].Kind()) in m.open
  {
    if L.IsOpen(m.open, id) {
      var i :| 0 <= i < |m.open| && m.open[i].key == id;
      assert Listed(m, m.open[i]);
    }
  }

  lemma AdmitInv(m: Model, id: string, p: Pending)
    requires Inv(m) && id != "" && id !in m.seen && |m.pending| < MAX_PENDING
    requires p.seqNo == m.nextSeq + 1 && p.input.Object?
    ensures Inv(Admit(m, id, p))
  {
    InTable(m, id);
    var m', o := Admit(m, id, p), L.Open(id, p.Kind());
    forall x | x in m'.open ensures Listed(m', x) {
      if x in m.open { assert Listed(m, x); }
    }
    forall k | k in m'.pending ensures L.IsOpen(m'.open, k) {
      InTable(m, k);
      L.OpenAfterAsk(m.open, o, k);
    }
    forall i, j | 0 <= i < j < |m'.open| ensures Before(m', m'.open[i], m'.open[j]) {
      assert Listed(m, m.open[i]);
      if j < |m.open| { assert Before(m, m.open[i], m.open[j]) && Listed(m, m.open[j]); }
    }
  }

  lemma SettleInv(m: Model, id: string)
    requires Inv(m) && id in m.pending
    ensures Inv(Settle(m, id))
  {
    hide L.Outside, L.IsOpen, Listed, Before;
    var m' := Settle(m, id);
    L.Members(m.open, {id});
    L.OutsideDistinct(m.open, {id});
    forall x | x in m'.open ensures Listed(m', x) {
      assert Listed(m, x);
      StillListed(m, id, x);
    }
    forall k | k in m'.pending ensures L.IsOpen(m'.open, k) {
      InTable(m, k);
      L.OpenAfterSettle(m.open, {id}, k);
    }
    forall i, j | 0 <= i < j < |m'.open| ensures Before(m', m'.open[i], m'.open[j]) {
      StillBefore(m, id, i, j);
    }
    assert m'.pending.Keys <= m.pending.Keys;
    SubsetSize(m'.pending.Keys, m.pending.Keys);
    assert |m'.pending.Keys| == |m'.pending| && |m.pending.Keys| == |m.pending|;
  }

  lemma StillListed(m: Model, id: string, x: L.Open<string, Kind>)
    requires Listed(m, x) && x.key != id
    ensures Listed(Settle(m, id), x)
  {
    hide L.Outside;
  }

  /** The requests that stay keep their order. */
  lemma StillBefore(m: Model, id: string, i: nat, j: nat)
    requires Inv(m) && i < j < |Settle(m, id).open|
    ensures var open := Settle(m, id).open; Before(Settle(m, id), open[i], open[j])
  {
    hide L.Outside, L.Distinct, L.IsOpen, Listed;
    var open := Settle(m, id).open;
    var i', j' := L.OutsideKeepsOrder(m.open, {id}, i, j);
    assert Before(m, m.open[i'], m.open[j']);
    L.Members(m.open, {id});
    assert open[i] in open && open[j] in open;
  }

  lemma {:induction false} SubsetSize(a: set<string>, b: set<string>)
    requires a <= b
    ensures |a| <= |b|
  {
    if a != {} {
      var x :| x in a;
      SubsetSize(a - {x}, b - {x});
    }
  }

  // ----- one step -----

  /** A step follows the ledger. */
  ghost predicate StepOk(m: Model, m': Model, obs: seq<Obs>, l: L.Ledger<string, Kind>) {
    && Inv(m')
    && L.Lawful(l, Acts(obs))
    && Matches(L.Replay(l, Acts(obs)), m')
  }

  lemma NoAct(m: Model, m': Model, obs: seq<Obs>, l: L.Ledger<string, Kind>)
    requires Matches(l, m) && Inv(m') && m'.open == m.open && m.seen <= m'.seen
    requires forall i :: 0 <= i < |obs| ==> ActsOf(obs[i]) == []
    ensures StepOk(m, m', obs, l)
  {
    CollectNone(obs, ActsOf);
  }

  lemma OneAct(obs: seq<Obs>, n: nat, a: L.Act<string, Kind>)
    requires n < |obs| && ActsOf(obs[n]) == [a]
    requires forall i :: 0 <= i < |obs| && i != n ==> ActsOf(obs[i]) == []
    ensures Acts(obs) == [a]
  {
    var front, back := obs[..n], obs[n + 1..];
    assert obs == front + ([obs[n]] + back);
    CollectConcat(front, [obs[n]] + back, ActsOf);
    CollectConcat([obs[n]], back, ActsOf);
    CollectOne(obs[n], ActsOf);
    CollectNone(front, ActsOf);
    CollectNone(back, ActsOf);
  }

  lemma AskOk(m: Model, id: string, p: Pending, obs: seq<Obs>, l: L.Ledger<string, Kind>)
    requires Inv(m) && Matches(l, m) && id != "" && id !in m.seen && |m.pending| < MAX_PENDING
    requires p.seqNo == m.nextSeq + 1 && p.input.Object?
    requires |obs| == 1 && ActsOf(obs[0]) == [L.Ask(id, p.Kind())]
    ensures StepOk(m, Admit(m, id, p), obs, l)
  {
    hide Inv;
    AdmitInv(m, id, p);
    NotOpenUnseen(m, id);
    OneAct(obs, 0, L.Ask(id, p.Kind()));
    L.ReplayOne(l, L.Ask(id, p.Kind()));
  }

  lemma NotOpenUnseen(m: Model, id: string)
    requires Inv(m) && id !in m.seen
    ensures !L.IsOpen(m.open, id)
  {
    assert forall i :: 0 <= i < |m.open| ==> Listed(m, m.open[i]);
  }

  lemma SettleOk(m: Model, id: string, obs: seq<Obs>, n: nat, l: L.Ledger<string, Kind>)
    requires Inv(m) && Matches(l, m) && id in m.pending
    requires n < |obs| && ActsOf(obs[n]) == [L.Settle(id, m.pending[id].Kind())]
    requires forall i :: 0 <= i < |obs| && i != n ==> ActsOf(obs[i]) == []
    ensures StepOk(m, Settle(m, id), obs, l)
  {
    hide Inv;
    var a := L.Settle(id, m.pending[id].Kind());
    SettleInv(m, id);
    InTable(m, id);
    SeenWhenOpen(m, id);
    OneAct(obs, n, a);
    L.ReplayOne(l, a);
  }

  lemma SeenWhenOpen(m: Model, id: string)
    requires Inv(m) && id in m.pending
    ensures id in m.seen && id != "" && m.pending[id].input.Object?
  {
    InTable(m, id);
    assert Listed(m, L.Open(id, m.pending[id].Kind()));
  }

  lemma ControlOk(m: Model, id: Field<string>, use: Option<ToolUse>, l: L.Ledger<string, Kind>)
    requires Inv(m) && Matches(l, m)
    ensures var (m', es) := OnControlRequest(m, id, use); StepOk(m, m', EmittedAll(es), l)
  {
    hide Inv, StepOk, OnToolUse;
    var (m', es) := OnControlRequest(m, id, use);
    if CanUseTool(id, use) && Text(id) !in m.seen && !Full(m) {
      ToolUseOk(m, Text(id), use.value, l);
    } else {
      NoAct(m, m', EmittedAll(es), l);
    }
  }

  lemma ToolUseOk(m: Model, k: string, use: ToolUse, l: L.Ledger<string, Kind>)
    requires Inv(m) && Matches(l, m) && k != "" && k !in m.seen && |m.pending| < MAX_PENDING && use.input.Object?
    ensures var (m', es) := OnToolUse(m, k, use); StepOk(m, m', EmittedAll(es), l)
  {
    hide Inv, StepOk, FormOf, P.Permission, PermissionRequest.Valid, Admit, Matches;
    var (m', es) := OnToolUse(m, k, use);
    if Text(use.name) == ASK_USER_QUESTION && FormOf(k, use.callId, use.input).Some? {
      var b := FormOf(k, use.callId, use.input);
      FormIsFor(k, use.callId, use.input);
      AskOk(m, k, Pending(use.input, m.nextSeq + 1, Some(b.value.held)), EmittedAll(es), l);
    } else if Text(use.name) != ASK_USER_QUESTION &&
              P.Permission(k, use.callId, Text(use.name), use.input, use.description).Valid() {
      PermissionIsFor(k, use.callId, Text(use.name), use.input, use.description);
      AskOk(m, k, Pending(use.input, m.nextSeq + 1, None), EmittedAll(es), l);
    } else {
      NotedInv(m, k);
      NoAct(m, m', EmittedAll(es), l);
    }
  }

  lemma NotedInv(m: Model, id: string)
    requires Inv(m)
    ensures Inv(m.(seen := m.seen + {id}))
  {
    var m' := m.(seen := m.seen + {id});
    forall o | o in m'.open ensures Listed(m', o) { assert Listed(m, o); }
    forall i, j | 0 <= i < j < |m'.open| ensures Before(m', m'.open[i], m'.open[j]) { assert Before(m, m.open[i], m.open[j]); }
  }

  lemma FormIsFor(id: string, callId: string, input: Value)
    ensures FormOf(id, callId, input).Some? ==> FormOf(id, callId, input).value.form.requestId == id
  {
  }

  lemma PermissionIsFor(id: string, callId: string, tool: string, input: Value, title: string)
    ensures var r := P.Permission(id, callId, tool, input, title); r.requestId == id && r.input == input
  {
  }

  lemma FlagsInv(m: Model, sawInit: bool, sentInit: bool)
    requires Inv(m)
    ensures Inv(m.(sawInit := sawInit, sentInit := sentInit))
  {
    var m' := m.(sawInit := sawInit, sentInit := sentInit);
    forall o | o in m'.open ensures Listed(m', o) { assert Listed(m, o); }
    forall i, j | 0 <= i < j < |m'.open| ensures Before(m', m'.open[i], m'.open[j]) { assert Before(m, m.open[i], m.open[j]); }
  }

  lemma CancelOk(m: Model, id: Field<string>, l: L.Ledger<string, Kind>)
    requires Inv(m) && Matches(l, m)
    ensures var (m', es) := OnCancelRequest(m, id); StepOk(m, m', EmittedAll(es), l)
  {
    hide Inv, StepOk, Settle;
    var (m', es) := OnCancelRequest(m, id);
    if Text(id) in m.pending {
      SeenWhenOpen(m, Text(id));
      SettleOk(m, Text(id), EmittedAll(es), 0, l);
    } else {
      NoAct(m, m', EmittedAll(es), l);
    }
  }

  lemma {:induction false} CancelActs(open: seq<L.Open<string, Kind>>)
    ensures Acts(EmittedAll(CancelEvents(open))) == L.Cancels(open)
  {
    if open != [] {
      var front, last := open[..|open| - 1], open[|open| - 1];
      CancelActs(front);
      var all := EmittedAll(CancelEvents(open));
      assert all[..|all| - 1] == EmittedAll(CancelEvents(front));
      assert L.Cancels(open) == L.Cancels(front) + [L.Settle(last.key, last.tag)];
    }
  }

  /** Everything in ks: the whole list is among it and nothing is outside. */
  lemma {:induction false} AllChosen(open: seq<L.Open<string, Kind>>, ks: set<string>)
    requires forall o :: o in open ==> o.key in ks
    ensures L.Among(open, ks) == open && L.Outside(open, ks) == []
    ensures forall k :: k in L.KeysOf(open) ==> k in ks
  {
    if open != [] {
      var front, last := open[..|open| - 1], open[|open| - 1];
      assert last in open;
      AllChosen(front, ks);
      assert open == front + [last];
    }
  }

  lemma ResultActs(m: Model, f: Frame)
    requires f.Result?
    ensures Acts(EmittedAll(Decode(m, f).1)) == L.Cancels(m.open)
  {
    hide CancelEvents, L.Cancels, TurnEvents, ActsOf;
    var cancels, turn := CancelEvents(m.open), TurnEvents(f.isError, f.result, f.terminalReason, f.stopReason, f.status);
    assert EmittedAll(cancels + turn) == EmittedAll(cancels) + EmittedAll(turn);
    CollectConcat(EmittedAll(cancels), EmittedAll(turn), ActsOf);
    TurnHasNoAct(f);
    CollectNone(EmittedAll(turn), ActsOf);
    CancelActs(m.open);
  }

  lemma TurnHasNoAct(f: Frame)
    requires f.Result?
    ensures var turn := EmittedAll(TurnEvents(f.isError, f.result, f.terminalReason, f.stopReason, f.status));
      forall i :: 0 <= i < |turn| ==> ActsOf(turn[i]) == []
  {
  }

  lemma ResultOk(m: Model, f: Frame, l: L.Ledger<string, Kind>)
    requires Inv(m) && Matches(l, m) && f.Result?
    ensures var (m', es) := Decode(m, f); StepOk(m, m', EmittedAll(es), l)
  {
    hide L.Replay, L.Lawful, L.Among, L.Outside, L.Distinct, L.KeysOf, L.Cancels, Inv, CancelEvents, EmittedAll, Acts, TurnEvents;
    ResultActs(m, f);
    OpenSeen(m);
    AllChosen(m.open, m.seen);
    L.CancelBatch(l, m.seen);
    EmptyInv(m);
  }

  lemma OpenSeen(m: Model)
    requires Inv(m)
    ensures L.Distinct(m.open) && forall o :: o in m.open ==> o.key in m.seen
  {
    forall o | o in m.open ensures o.key in m.seen { assert Listed(m, o); }
  }

  lemma EmptyInv(m: Model)
    ensures Inv(m.(pending := map[], open := []))
  {
  }

  lemma FrameOk(m: Model, f: Frame, l: L.Ledger<string, Kind>)
    requires Inv(m) && Matches(l, m)
    ensures var (m', es) := Decode(m, f); StepOk(m, m', EmittedAll(es), l)
  {
    hide Inv, StepOk, OnControlRequest, OnCancelRequest;
    match f
    case ControlRequest(id, use) => ControlOk(m, id, use, l);
    case CancelRequest(id) => CancelOk(m, id, l);
    case Result(_, _, _, _, _) => ResultOk(m, f, l);
    case _ =>
      var (m', es) := Decode(m, f);
      FlagsInv(m, m'.sawInit, m'.sentInit);
      NoAct(m, m', EmittedAll(es), l);
  }

  lemma CommandOk(m: Model, c: Command, l: L.Ledger<string, Kind>)
    requires Inv(m) && Matches(l, m)
    ensures var (m', obs) := Next(m, Commanded(c)); StepOk(m, m', obs, l)
  {
    hide Inv, StepOk, Settle, UpdatedInput;
    var (m', obs) := Next(m, Commanded(c));
    var r := Encode(m, c).1;
    if r.Sent? && c.ResolvePermission? {
      SettleOk(m, c.id, obs, 1, l);
    } else if r.Sent? && c.ResolveForm? {
      SettleOk(m, c.resolve.requestId, obs, 1, l);
    } else {
      FlagsInv(m, m'.sawInit, m'.sentInit);
      NoAct(m, m', obs, l);
    }
  }

  lemma NextOk(m: Model, i: Input, l: L.Ledger<string, Kind>)
    requires Inv(m) && Matches(l, m)
    ensures var (m', obs) := Next(m, i); StepOk(m, m', obs, l)
  {
    hide Inv, StepOk, Decode, Encode;
    match i
    case Received(f) => FrameOk(m, f, l);
    case Commanded(c) => CommandOk(m, c, l);
  }

  // ----- the laws of every run -----

  /** Every run keeps the invariant and takes the empty ledger to one that matches its state. */
  lemma {:induction false} RunFollowsLedger(inputs: seq<Input>)
    ensures var (m, trace) := Run(inputs);
      && Inv(m) && L.Lawful(L.Empty(), Acts(trace)) && Matches(L.Replay(L.Empty(), Acts(trace)), m)
  {
    hide Next, L.Replay, L.Lawful;
    if inputs == [] {
      StartOk();
    } else {
      var front := inputs[..|inputs| - 1];
      RunFollowsLedger(front);
      var (m, trace) := Run(front);
      var (m', obs) := Next(m, inputs[|inputs| - 1]);
      NextOk(m, inputs[|inputs| - 1], L.Replay(L.Empty(), Acts(trace)));
      CollectConcat(trace, obs, ActsOf);
      L.ReplayConcat(L.Empty(), Acts(trace), Acts(obs));
    }
  }

  lemma StartOk()
    ensures Inv(INITIAL) && L.Lawful(L.Empty(), Acts([])) && Matches(L.Replay(L.Empty(), Acts([])), INITIAL)
  {
  }

  lemma {:induction false} KeysCount(open: seq<L.Open<string, Kind>>)
    requires L.Distinct(open)
    ensures |L.KeysOf(open)| == |open|
    ensures forall k :: k in L.KeysOf(open) <==> L.IsOpen(open, k)
  {
    if open != [] {
      var front, last := open[..|open| - 1], open[|open| - 1];
      KeysCount(front);
      assert open == front + [last];
      forall k ensures k in L.KeysOf(open) <==> L.IsOpen(open, k) { L.OpenAfterAsk(front, last, k); }
      assert !L.IsOpen(front, last.key);
    }
  }

  /**
    Over a whole run every request is asked for at most once and settled at most once, later and
    as what it was asked for; it is in the table exactly between the two, and never more than 64 are.
   */
  lemma RequestsSettleOnce(inputs: seq<Input>, id: string)
    ensures var (m, trace) := Run(inputs); var acts := Acts(trace);
      && L.Settles(acts, id) <= L.Asks(acts, id) <= 1
      && (id in m.pending <==> L.Asks(acts, id) - L.Settles(acts, id) == 1)
      && |m.open| == |m.pending| <= MAX_PENDING
      && forall j :: 0 <= j < |acts| && acts[j].Settle? ==> L.Ask(acts[j].key, acts[j].tag) in acts[..j]
  {
    hide Run, L.Replay, L.Lawful, L.Asks, L.Settles;
    var (m, trace) := Run(inputs);
    var acts := Acts(trace);
    RunFollowsLedger(inputs);
    L.OnceOnly(acts, id);
    InTable(m, id);
    forall j | 0 <= j < |acts| && acts[j].Settle? ensures L.Ask(acts[j].key, acts[j].tag) in acts[..j] {
      L.SettledAsAsked(acts, j);
    }
    KeysCount(m.open);
    forall k ensures k in L.KeysOf(m.open) <==> k in m.pending.Keys { InTable(m, k); }
    assert L.KeysOf(m.open) == m.pending.Keys;
  }

  lemma NoTurn(m: Model, f: Frame)
    requires !f.Result?
    ensures forall e :: e in Decode(m, f).1 ==> !e.TurnCompleted?
  {
    hide FormOf, P.Permission, PermissionRequest.Valid;
  }

  lemma TurnLast(m: Model, f: Frame)
    requires f.Result?
    ensures var es := Decode(m, f).1;
      es != [] && es[|es| - 1].TurnCompleted? && forall j :: 0 <= j < |es| - 1 ==> !es[j].TurnCompleted?
  {
    var n := |m.open|;
    assert forall j :: 0 <= j < n ==> Decode(m, f).1[j] == CancelEvent(m.open[j].key, m.open[j].tag);
  }

  /** Only a result completes a turn, as the very last event, with nothing left open. */
  lemma TurnStep(m: Model, i: Input)
    ensures var (m', obs) := Next(m, i); forall j :: 0 <= j < |obs| && obs[j].Emitted? && obs[j].event.TurnCompleted? ==>
      i.Received? && i.frame.Result? && j == |obs| - 1 && m'.open == []
  {
    hide UpdatedInput;
    match i
    case Received(f) => if f.Result? { TurnLast(m, f); } else { NoTurn(m, f); ResultOnly(m, f); }
    case Commanded(c) => NoTurnByCommand(m, c);
  }

  lemma ResultOnly(m: Model, f: Frame)
    requires forall e :: e in Decode(m, f).1 ==> !e.TurnCompleted?
    ensures forall j :: 0 <= j < |Decode(m, f).1| ==> !Decode(m, f).1[j].TurnCompleted?
  {
  }

  lemma NoTurnByCommand(m: Model, c: Command)
    ensures Encode(m, c).1.Sent? ==> forall e :: e in Encode(m, c).1.events ==> !e.TurnCompleted?
  {
    hide UpdatedInput;
  }

  /** Whenever a turn is completed, everything asked for before it in the trace has been settled before it. */
  lemma {:induction false} TurnClosesAll(inputs: seq<Input>, j: nat)
    requires var trace := Run(inputs).1; j < |trace| && trace[j].Emitted? && trace[j].event.TurnCompleted?
    ensures L.Replay(L.Empty(), Acts(Run(inputs).1[..j])).open == []
  {
    hide Next, L.Replay, L.Lawful;
    var front, i := inputs[..|inputs| - 1], inputs[|inputs| - 1];
    var (m, trace) := Run(front);
    var (m', obs) := Next(m, i);
    var all := trace + obs;
    if j < |trace| {
      TurnClosesAll(front, j);
      assert all[..j] == trace[..j];
    } else {
      RunFollowsLedger(inputs);
      TurnStep(m, i);
      assert obs[j - |trace|] == all[j];
      assert all == all[..j] + [all[j]];
      CollectConcat(all[..j], [all[j]], ActsOf);
      CollectOne(all[j], ActsOf);
      assert Acts(all) == Acts(all[..j]);
    }
  }

  /** A result settles exactly the requests that are still open, as cancelled, in the order of their arrival. */
  lemma ResultCancelsInArrivalOrder(inputs: seq<Input>, f: Frame)
    requires f.Result?
    ensures var (m, trace) := Run(inputs);
      Acts(Next(m, Received(f)).1) == L.Cancels(L.Replay(L.Empty(), Acts(trace)).open)
  {
    hide Run, Decode, L.Replay, L.Lawful, L.Cancels;
    RunFollowsLedger(inputs);
    ResultActs(Run(inputs).0, f);
  }

  /** What is withdrawn, or closed by a result, is reported as cancelled by the agent and as what was asked for. */
  lemma ClosedAsCancelled(inputs: seq<Input>, id: string)
    requires id in Run(inputs).0.pending
    ensures var m := Run(inputs).0; var (m', es) := Decode(m, CancelRequest(Read(id)));
      && id !in m'.pending
      && es == [if m.pending[id].form.Some? then FormResolved("agent", "cancelled", id, None)
                else PermissionResolved("agent", "cancelled", id)]
      && forall f: Frame :: f.Result? ==> es[0] in Decode(m, f).1
  {
    hide Run, Inv, L.Outside;
    var m := Run(inputs).0;
    RunFollowsLedger(inputs);
    InTable(m, id);
    var o := L.Open(id, m.pending[id].Kind());
    forall f: Frame | f.Result? ensures CancelEvent(id, o.tag) in Decode(m, f).1 { CancelledByResult(m, o, f); }
  }

  lemma CancelledByResult(m: Model, o: L.Open<string, Kind>, f: Frame)
    requires o in m.open && f.Result?
    ensures CancelEvent(o.key, o.tag) in Decode(m, f).1
  {
    hide TurnEvents;
    var i :| 0 <= i < |m.open| && m.open[i] == o;
    assert Decode(m, f).1[i] == CancelEvents(m.open)[i];
  }

  // ----- what an allow carries -----

  /** The request event of the ID id is at position i of the trace. */
  ghost predicate RequestAt(trace: seq<Obs>, i: int, id: string) {
    && 0 <= i < |trace| && trace[i].Emitted?
    && (if trace[i].event.PermissionRequested? then trace[i].event.request.requestId == id
        else trace[i].event.FormRequested? && trace[i].event.form.requestId == id)
  }

  /** The agent's request with this ID to use a tool. */
  predicate IsRequest(i: Input, id: string) {
    i.Received? && i.frame.ControlRequest? && CanUseTool(i.frame.id, i.frame.use) && Text(i.frame.id) == id
  }

  /** Input n is the agent's request with this ID, and its step showed the request event at position i of the trace. */
  ghost predicate AskedIn(inputs: seq<Input>, n: int, i: int, id: string) {
    && 0 <= n < |inputs| && IsRequest(inputs[n], id)
    && |Run(inputs[..n]).1| <= i < |Run(inputs[..n + 1]).1| && RequestAt(Run(inputs).1, i, id)
  }

  /** The event shows the use of a tool that the agent asked for, and the table holds the input of that use. */
  ghost predicate AsksFor(e: Event, id: string, use: ToolUse, p: Pending) {
    && p.input == use.input
    && match p.form
       case None =>
         e.PermissionRequested? && e.request == P.Permission(id, use.callId, Text(use.name), use.input, use.description)
       case Some(held) => e.FormRequested? && FormOf(id, use.callId, use.input) == Some(Built(e.form, held))
  }

  ghost predicate ShownBy(inputs: seq<Input>, n: int, i: int, id: string, p: Pending) {
    AskedIn(inputs, n, i, id) && AsksFor(Run(inputs).1[i].event, id, inputs[n].frame.use.value, p)
  }

  /** What this step added to the table, its one event asks for. */
  lemma AskedByTool(m: Model, id: string, use: ToolUse, k: string)
    requires k in OnToolUse(m, id, use).0.pending && !(k in m.pending && OnToolUse(m, id, use).0.pending[k] == m.pending[k])
    ensures var (m', es) := OnToolUse(m, id, use);
      k == id && es != [] && AsksFor(es[0], id, use, m'.pending[id]) && RequestAt(EmittedAll(es), 0, id)
  {
    hide FormOf, P.Permission, PermissionRequest.Valid;
    FormIsFor(id, use.callId, use.input);
    PermissionIsFor(id, use.callId, Text(use.name), use.input, use.description);
  }

  /** What the table holds after a step it held before, or this step's input asks for it and its event shows it. */
  lemma NewlyHeld(m: Model, i: Input, k: string)
    requires k in Next(m, i).0.pending && !(k in m.pending && m.pending[k] == Next(m, i).0.pending[k])
    ensures var (m', obs) := Next(m, i);
      IsRequest(i, k) && RequestAt(obs, 0, k) && AsksFor(obs[0].event, k, i.frame.use.value, m'.pending[k])
  {
    hide OnToolUse, UpdatedInput, AsksFor;
    assert i.Received? && i.frame.ControlRequest?;
    AskedByTool(m, Text(i.frame.id), i.frame.use.value, k);
  }

  /** What was shown stays shown as the run goes on. */
  lemma StaysShown(front: seq<Input>, next: Input, n: int, i: int, id: string, p: Pending)
    requires ShownBy(front, n, i, id, p)
    ensures ShownBy(front + [next], n, i, id, p)
  {
    hide AsksFor, IsRequest, Next;
    var inputs := front + [next];
    assert inputs[..|front|] == front;
    assert inputs[..n] == front[..n] && inputs[..n + 1] == front[..n + 1];
  }

  lemma ShownNow(front: seq<Input>, next: Input, id: string, p: Pending)
    requires var obs := Next(Run(front).0, next).1;
      IsRequest(next, id) && RequestAt(obs, 0, id) && AsksFor(obs[0].event, id, next.frame.use.value, p)
    ensures ShownBy(front + [next], |front|, |Run(front).1|, id, p)
  {
    hide AsksFor, IsRequest, Next;
    var inputs := front + [next];
    assert inputs[..|front|] == front && inputs[..|front| + 1] == inputs;
  }

  /** What the table holds is what one received request asked for, and that request's own event shows it. */
  lemma {:induction false} HeldWasShown(inputs: seq<Input>, k: string)
    requires k in Run(inputs).0.pending
    ensures exists n, i :: ShownBy(inputs, n, i, k, Run(inputs).0.pending[k])
  {
    hide Next, ShownBy, AsksFor;
    var front, i := inputs[..|inputs| - 1], inputs[|inputs| - 1];
    var (m, trace) := Run(front);
    var (m', obs) := Next(m, i);
    assert inputs == front + [i];
    if k in m.pending && m.pending[k] == m'.pending[k] {
      HeldWasShown(front, k);
      var n, at :| ShownBy(front, n, at, k, m.pending[k]);
      StaysShown(front, i, n, at, k, m.pending[k]);
    } else {
      NewlyHeld(m, i, k);
      ShownNow(front, i, k, m'.pending[k]);
    }
  }

  lemma {:induction false} AsksConcat(a: seq<L.Act<string, Kind>>, b: seq<L.Act<string, Kind>>, k: string)
    ensures L.Asks(a + b, k) == L.Asks(a, k) + L.Asks(b, k)
  {
    if b == [] {
      assert a + b == a;
    } else {
      AsksConcat(a, b[..|b| - 1], k);
      assert (a + b)[..|a + b| - 1] == a + b[..|b| - 1];
    }
  }

  lemma AsksAt(trace: seq<Obs>, i: nat, k: string)
    requires RequestAt(trace, i, k)
    ensures L.Asks(Acts(trace), k) >= 1 + L.Asks(Acts(trace[..i]), k)
  {
    hide ActsOf, L.Asks, RequestAt;
    AskOf(trace, i, k);
    var a := ActsOf(trace[i]);
    assert trace == trace[..i] + ([trace[i]] + trace[i + 1..]);
    CollectConcat(trace[..i], [trace[i]] + trace[i + 1..], ActsOf);
    CollectConcat([trace[i]], trace[i + 1..], ActsOf);
    CollectOne(trace[i], ActsOf);
    AsksConcat(Acts(trace[..i]), a + Acts(trace[i + 1..]), k);
    AsksConcat(a, Acts(trace[i + 1..]), k);
  }

  lemma AskOf(trace: seq<Obs>, i: nat, k: string)
    requires RequestAt(trace, i, k)
    ensures i < |trace| && L.Asks(ActsOf(trace[i]), k) == 1
  {
    assert ActsOf(trace[i])[..0] == [];
  }

  /** No ID has two request events, of whichever kind. */
  lemma RequestedOnce(inputs: seq<Input>, i: nat, j: nat, id: string)
    requires RequestAt(Run(inputs).1, i, id) && RequestAt(Run(inputs).1, j, id)
    ensures i == j
  {
    hide Run, L.Asks, L.Settles, ActsOf;
    var trace := Run(inputs).1;
    RequestsSettleOnce(inputs, id);
    var p, q := if i < j then i else j, if i < j then j else i;
    AsksAt(trace, q, id);
    if p < q {
      assert RequestAt(trace[..q], p, id);
      AsksAt(trace[..q], p, id);
    }
  }

  /** The answer that a line allows is made of what the table held under its ID. */
  lemma AllowFromTable(m: Model, i: Input, j: nat)
    requires var obs := Next(m, i).1; j < |obs| && obs[j].Wrote? && obs[j].line.Response? && !obs[j].line.behavior.Deny?
    ensures var obs := Next(m, i).1; var id := obs[j].line.id;
      && id in m.pending
      && (obs[j].line.behavior.Allow? ==> m.pending[id].form.None? && obs[j].line.behavior.input == m.pending[id].input)
      && (obs[j].line.behavior.AllowRewritten? ==>
            && m.pending[id].form.Some? && i.Commanded? && i.command.ResolveForm? && i.command.resolve.requestId == id
            && UpdatedInput(m.pending[id].form.value, m.pending[id].input, i.command.resolve.answer) ==
                 Some(obs[j].line.behavior.fields))
  {
    hide UpdatedInput;
  }

  /** Where the trace wrote a line, the step that wrote it. */
  lemma {:induction false} WrittenBy(inputs: seq<Input>, j: nat) returns (n: nat, k: nat)
    requires j < |Run(inputs).1|
    ensures n < |inputs|
    ensures var (m, trace) := Run(inputs[..n]); var obs := Next(m, inputs[n]).1;
      && |trace| <= |Run(inputs).1| && trace == Run(inputs).1[..|trace|]
      && k < |obs| && j == |trace| + k && obs[k] == Run(inputs).1[j]
  {
    hide Next;
    var front := inputs[..|inputs| - 1];
    var (m, trace) := Run(front);
    var obs := Next(m, inputs[|inputs| - 1]).1;
    if j < |trace| {
      n, k := WrittenBy(front, j);
      assert front[..n] == inputs[..n];
      assert (trace + obs)[..|Run(front[..n]).1|] == trace[..|Run(front[..n]).1|];
    } else {
      n, k := |front|, j - |trace|;
      assert inputs[..n] == front;
    }
  }

  /**
    What a run held before input n, and later answered, was asked for by one received request, and
    there is no other request event with that ID in the whole run.
   */
  lemma HeldFromRequest(inputs: seq<Input>, n: nat, id: string) returns (q: nat, i: nat)
    requires n < |inputs| && id in Run(inputs[..n]).0.pending
    requires Run(inputs[..n]).1 <= Run(inputs).1
    ensures i < |Run(inputs[..n]).1| && AskedIn(inputs, q, i, id) && q < n
    ensures AsksFor(Run(inputs).1[i].event, id, inputs[q].frame.use.value, Run(inputs[..n]).0.pending[id])
    ensures forall i' :: RequestAt(Run(inputs).1, i', id) ==> i' == i
  {
    hide Run, AsksFor, IsRequest, ActsOf;
    var before := inputs[..n];
    HeldWasShown(before, id);
    var q', at :| ShownBy(before, q', at, id, Run(before).0.pending[id]);
    q, i := q', at;
    assert before[..q] == inputs[..q] && before[..q + 1] == inputs[..q + 1] && before[q] == inputs[q];
    assert Run(inputs).1[i] == Run(before).1[i];
    assert RequestAt(Run(inputs).1, i, id);
    forall i' | RequestAt(Run(inputs).1, i', id) ensures i' == i { RequestedOnce(inputs, i, i', id); }
  }

  /**
    A line that allows a permission carries exactly the input that the agent sent in the request with
    its ID, which is the input that the request event of that very step showed; there is no other
    request event with that ID in the whole run.
   */
  lemma AllowCarriesTheInput(inputs: seq<Input>, j: nat)
    requires var trace := Run(inputs).1; j < |trace| && trace[j].Wrote? && trace[j].line.Response? && trace[j].line.behavior.Allow?
    ensures var trace := Run(inputs).1; var line := trace[j].line;
      exists n, i ::
        && AskedIn(inputs, n, i, line.id) && i < j && trace[i].event.PermissionRequested?
        && line.behavior.input == inputs[n].frame.use.value.input == trace[i].event.request.input
        && forall i' :: RequestAt(trace, i', line.id) ==> i' == i
  {
    hide Run, Next, ActsOf, P.Permission;
    var trace := Run(inputs).1;
    var at, k := WrittenBy(inputs, j);
    var (m, before) := Run(inputs[..at]);
    AllowFromTable(m, inputs[at], k);
    var id := trace[j].line.id;
    var n, i := HeldFromRequest(inputs, at, id);
    var use := inputs[n].frame.use.value;
    PermissionIsFor(id, use.callId, Text(use.name), use.input, use.description);
  }

  /**
    A line that answers a form carries the input that the agent sent in the request with its ID, the
    one that the form was made of, in which every key that reads as "answers" has been replaced by
    the human's answers to the questions asked.
   */
  lemma AnswerCarriesTheInput(inputs: seq<Input>, j: nat)
    requires var trace := Run(inputs).1;
      j < |trace| && trace[j].Wrote? && trace[j].line.Response? && trace[j].line.behavior.AllowRewritten?
    ensures var trace := Run(inputs).1; var line := trace[j].line;
      exists n, i, held, answer ::
        && AskedIn(inputs, n, i, line.id) && i < j && trace[i].event.FormRequested?
        && FormOf(line.id, inputs[n].frame.use.value.callId, inputs[n].frame.use.value.input) ==
             Some(Built(trace[i].event.form, held))
        && UpdatedInput(held, inputs[n].frame.use.value.input, answer) == Some(line.behavior.fields)
        && j + 1 < |trace| && trace[j + 1] == Emitted(FormResolved("human", ANSWERED, line.id, Some(answer)))
        && forall i' :: RequestAt(trace, i', line.id) ==> i' == i
  {
    hide Run, ActsOf, FormOf, UpdatedInput, Next;
    var trace := Run(inputs).1;
    var at, k := WrittenBy(inputs, j);
    var (m, before) := Run(inputs[..at]);
    AllowFromTable(m, inputs[at], k);
    var id := trace[j].line.id;
    var n, i := HeldFromRequest(inputs, at, id);
    AnsweredNext(m, inputs[at], k);
    var j' := WrittenWith(inputs, at, k);
    assert UpdatedInput(m.pending[id].form.value, inputs[n].frame.use.value.input, inputs[at].command.resolve.answer) ==
      Some(trace[j].line.behavior.fields);
  }

  lemma AnsweredNext(m: Model, i: Input, k: nat)
    requires var obs := Next(m, i).1; k < |obs| && obs[k].Wrote? && obs[k].line.Response? && obs[k].line.behavior.AllowRewritten?
    ensures i.Commanded? && i.command.ResolveForm?
    ensures var obs := Next(m, i).1;
      k + 1 < |obs| && obs[k + 1] == Emitted(FormResolved("human", ANSWERED, obs[k].line.id, Some(i.command.resolve.answer)))
  {
    hide UpdatedInput;
  }

  /** What a step of the run shows is in the trace of the run. */
  lemma {:induction false} WrittenWith(inputs: seq<Input>, n: nat, k: nat) returns (j: nat)
    requires n < |inputs| && var (m, trace) := Run(inputs[..n]); k + 1 < |Next(m, inputs[n]).1|
    ensures var (m, trace) := Run(inputs[..n]); var obs := Next(m, inputs[n]).1;
      && j == |trace| + k && j + 1 < |Run(inputs).1|
      && Run(inputs).1[j] == obs[k] && Run(inputs).1[j + 1] == obs[k + 1]
  {
    hide Next;
    var front := inputs[..|inputs| - 1];
    if n < |front| {
      assert front[..n] == inputs[..n];
      j := WrittenWith(front, n, k);
    } else {
      assert inputs[..n] == front;
      j := |Run(front).1| + k;
    }
  }

  /** A command that is refused changes nothing. */
  lemma RefusedChangesNothing(m: Model, c: Command)
    requires Encode(m, c).1.Refused?
    ensures Encode(m, c).0 == m
  {
  }

  /** In every reachable state an open permission can be allowed or rejected and an open form cancelled. */
  lemma OpenCanBeAnswered(inputs: seq<Input>, id: string)
    requires id in Run(inputs).0.pending
    ensures var m := Run(inputs).0;
      if m.pending[id].form.None?
      then
        && Encode(m, ResolvePermission(id, ALLOW_ONCE)).1 ==
             Sent([Response(id, Allow(m.pending[id].input))], [PermissionResolved("human", ALLOW_ONCE, id)])
        && Encode(m, ResolvePermission(id, REJECT_ONCE)).1 ==
             Sent([Response(id, Deny)], [PermissionResolved("human", REJECT_ONCE, id)])
      else
        && Encode(m, ResolvePermission(id, ALLOW_ONCE)).1.Refused?
        && Encode(m, ResolveForm(FormResolve(id, CANCELLED, map[]))).1 ==
             Sent([Response(id, Deny)], [FormResolved("human", CANCELLED, id, None)])
        && forall answer :: Encode(m, ResolveForm(FormResolve(id, ANSWERED, answer))).1.Sent? <==>
             forall k :: k in answer ==> Fitting(m.pending[id].form.value, k, answer[k])
  {
    hide Run, Inv, Settle, UpdatedInput, Fitting;
    RunFollowsLedger(inputs);
    var m := Run(inputs).0;
    SeenWhenOpen(m, id);
    if m.pending[id].form.Some? {
      forall answer
        ensures Encode(m, ResolveForm(FormResolve(id, ANSWERED, answer))).1.Sent? <==>
          forall k :: k in answer ==> Fitting(m.pending[id].form.value, k, answer[k])
      {
        UpdatedIff(m.pending[id].form.value, m.pending[id].input, answer);
      }
    }
  }

  lemma UpdatedIff(fields: HeldForm, input: Value, answer: map<string, FormValue>)
    requires input.Object?
    ensures UpdatedInput(fields, input, answer).Some? <==> forall k :: k in answer ==> Fitting(fields, k, answer[k])
  {
    hide Fitting, Answers, ReadAsAnswers;
  }

  // ----- the start of the conversation -----

  function Initializes(trace: seq<Obs>): nat {
    if trace == [] then 0
    else Initializes(trace[..|trace| - 1]) + if trace[|trace| - 1] == Wrote(Initialize) then 1 else 0
  }

  lemma {:induction false} InitializesConcat(a: seq<Obs>, b: seq<Obs>)
    ensures Initializes(a + b) == Initializes(a) + Initializes(b)
  {
    if b == [] {
      assert a + b == a;
    } else {
      InitializesConcat(a, b[..|b| - 1]);
      assert (a + b)[..|a + b| - 1] == a + b[..|b| - 1];
    }
  }

  lemma {:induction false} InitializesNone(obs: seq<Obs>)
    requires forall i :: 0 <= i < |obs| ==> obs[i] != Wrote(Initialize)
    ensures Initializes(obs) == 0
  {
    if obs != [] { InitializesNone(obs[..|obs| - 1]); }
  }

  lemma FirstPrompt(m: Model, text: string)
    requires !m.sentInit && text != ""
    ensures var (m', obs) := Next(m, Commanded(Prompt(text)));
      obs == [Wrote(Initialize), Wrote(UserText(text)), Emitted(TurnStarted(text))] && Initializes(obs) == 1
  {
    var obs := Next(m, Commanded(Prompt(text))).1;
    assert obs == [Wrote(Initialize)] + obs[1..];
    InitializesConcat([Wrote(Initialize)], obs[1..]);
    InitializesNone(obs[1..]);
    assert [Wrote(Initialize)][..0] == [];
  }

  lemma StepInitializes(m: Model, i: Input)
    ensures var (m', obs) := Next(m, i);
      && Initializes(obs) == (if m'.sentInit then 1 else 0) - (if m.sentInit then 1 else 0)
      && forall j :: 0 <= j < |obs| && obs[j].Wrote? && obs[j].line.UserText? ==>
           m.sentInit || (j > 0 && obs[0] == Wrote(Initialize))
  {
    hide OnControlRequest, Settle, UpdatedInput;
    var (m', obs) := Next(m, i);
    if i.Commanded? && i.command.Prompt? && i.command.text != "" && !m.sentInit {
      FirstPrompt(m, i.command.text);
    } else {
      if i.Received? && i.frame.ControlRequest? { ControlKeepsFlags(m, i.frame.id, i.frame.use); }
      if i.Commanded? { SettleKeepsFlags(m); }
      if i.Received? { SettleKeepsFlags(m); }
      InitializesNone(obs);
    }
  }

  lemma ControlKeepsFlags(m: Model, id: Field<string>, use: Option<ToolUse>)
    ensures OnControlRequest(m, id, use).0.sentInit == m.sentInit
  {
    hide FormOf, P.Permission, PermissionRequest.Valid;
  }

  lemma SettleKeepsFlags(m: Model)
    ensures forall id :: Settle(m, id).sentInit == m.sentInit
  {
  }

  /** initialize is written at most once in a run, and before the first prompt. */
  lemma {:induction false} InitializedOnceFirst(inputs: seq<Input>)
    ensures var (m, trace) := Run(inputs);
      && Initializes(trace) == (if m.sentInit then 1 else 0)
      && forall j :: 0 <= j < |trace| && trace[j].Wrote? && trace[j].line.UserText? ==>
           exists i :: 0 <= i < j && trace[i] == Wrote(Initialize)
  {
    hide Next;
    if inputs != [] {
      var front, i := inputs[..|inputs| - 1], inputs[|inputs| - 1];
      InitializedOnceFirst(front);
      var (m, trace) := Run(front);
      var (m', obs) := Next(m, i);
      StepInitializes(m, i);
      InitializesConcat(trace, obs);
      var all := trace + obs;
      forall j | 0 <= j < |all| && all[j].Wrote? && all[j].line.UserText?
        ensures exists i :: 0 <= i < j && all[i] == Wrote(Initialize)
      {
        if j < |trace| {
          var n :| 0 <= n < j && trace[n] == Wrote(Initialize);
          assert all[n] == Wrote(Initialize);
        } else if m.sentInit {
          if forall n :: 0 <= n < |trace| ==> trace[n] != Wrote(Initialize) { InitializesNone(trace); }
          var n :| 0 <= n < |trace| && trace[n] == Wrote(Initialize);
          assert all[n] == Wrote(Initialize);
        } else {
          assert obs[j - |trace|] == all[j];
          assert all[|trace|] == Wrote(Initialize);
        }
      }
    }
  }
}
