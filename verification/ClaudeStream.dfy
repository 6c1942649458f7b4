/**
  agent/claude as the source has it: a Stream with a table of pending requests, updated line by
  line. Every method is proved to follow the machine of ClaudeModel, whatever order the map
  iterations take; a map that is still nil is never written to.
 */
module ClaudeStream {
  import opened Wrappers
  import opened Json
  import opened V0
  import opened ClaudeForm
  import opened ClaudeModel
  import opened ClaudeRuns
  import opened Go
  import L = RequestLedger
  import P = ClaudePermission

  type Row = Arrival<string>

  /** The open requests as rows, in arrival order. */
  ghost function Target(m: Model): seq<Row>
    requires Inv(m)
  {
    seq(|m.open|, i requires 0 <= i < |m.open| =>
      assert Listed(m, m.open[i]); Arrival(m.pending[m.open[i].key].seqNo, m.open[i].key))
  }

  lemma TargetRows(m: Model)
    requires Inv(m)
    ensures Sorted(Target(m))
    ensures forall x :: x in Target(m) <==> x.item in m.pending && x.seqNo == m.pending[x.item].seqNo
  {
    var target := Target(m);
    forall i, j | 0 <= i < j < |target| ensures target[i].seqNo < target[j].seqNo {
      assert Before(m, m.open[i], m.open[j]);
    }
    forall x: Row ensures x in target <==> x.item in m.pending && x.seqNo == m.pending[x.item].seqNo {
      if x in target {
        var i :| 0 <= i < |target| && target[i] == x;
        assert Listed(m, m.open[i]);
      }
      if x.item in m.pending && x.seqNo == m.pending[x.item].seqNo {
        InTable(m, x.item);
        var i :| 0 <= i < |m.open| && m.open[i].key == x.item;
        assert target[i] == x;
      }
    }
  }

  /** The state after the first n open requests were settled. */
  ghost function Settled(m: Model, n: nat): Model
    requires n <= |m.open|
  {
    m.(pending := m.pending - L.KeysOf(m.open[..n]), open := m.open[n..])
  }

  lemma DropNext(open: seq<L.Open<string, Kind>>, n: nat)
    requires L.Distinct(open) && n < |open|
    ensures L.Outside(open[n..], {open[n].key}) == open[n + 1..]
    ensures L.KeysOf(open[..n + 1]) == L.KeysOf(open[..n]) + {open[n].key}
    ensures open[n].key !in L.KeysOf(open[..n])
  {
    hide L.Outside;
    var x, rest := open[n], open[n + 1..];
    assert open[n..] == [] + ([x] + rest);
    L.CancelOne([], x, rest, {});
    L.OutsideUntouched<string, Kind>([], {});
    assert [] + rest == rest;
    assert open[..n + 1][..n] == open[..n];
    KeysCount(open[..n]);
  }

  lemma OpenFacts(m: Model)
    requires Inv(m)
    ensures L.Distinct(m.open)
    ensures forall i :: 0 <= i < |m.open| ==> m.open[i].key in m.pending && m.pending[m.open[i].key].Kind() == m.open[i].tag
  {
    assert forall i :: 0 <= i < |m.open| ==> Listed(m, m.open[i]);
  }

  lemma SettleNext(m: Model, n: nat)
    requires Inv(m) && n < |m.open|
    ensures Settle(Settled(m, n), m.open[n].key) == Settled(m, n + 1)
    ensures m.open[n].key in Settled(m, n).pending && Settled(m, n).pending[m.open[n].key].Kind() == m.open[n].tag
  {
    hide L.Outside, L.KeysOf, Inv, L.Distinct;
    OpenFacts(m);
    DropNext(m.open, n);
    assert m.pending - L.KeysOf(m.open[..n]) - {m.open[n].key} == m.pending - L.KeysOf(m.open[..n + 1]);
  }

  lemma AllSettled(m: Model)
    requires Inv(m)
    ensures Settled(m, 0) == m
    ensures Settled(m, |m.open|) == m.(pending := map[], open := [])
  {
    hide Inv, L.Distinct, L.IsOpen;
    assert m.open[..|m.open|] == m.open && m.open[0..] == m.open && m.open[|m.open|..] == [];
    OpenFacts(m);
    KeysCount(m.open);
    forall id | id in m.pending ensures id in L.KeysOf(m.open) { InTable(m, id); }
    assert m.pending - L.KeysOf(m.open) == map[];
    assert m.pending - {} == m.pending;
  }

  class Stream {
    var sawInit: bool
    var sentInit: bool
    var pending: GoMap<string, Pending>
    var seen: GoMap<string, ()>
    var nextSeq: nat
    ghost var open: seq<L.Open<string, Kind>>

    /** The state as a value, with the open requests in arrival order. */
    ghost function View(): Model
      reads this
    {
      Model(sawInit, sentInit, pending.Rows(), open, seen.Rows().Keys, nextSeq)
    }

    ghost predicate Valid()
      reads this
    {
      Inv(View()) && pending.Made? == seen.Made?
    }

    constructor ()
      ensures Valid() && View() == INITIAL
    {
      sawInit, sentInit, nextSeq, open := false, false, 0, [];
      pending, seen := Nil, Nil;
    }

    /** settle: takes id from the table, if it is there. */
    method SettleId(id: string) returns (req: Option<Pending>)
      requires Valid()
      modifies this
      ensures Valid()
      ensures id in old(View()).pending ==> req == Some(old(View()).pending[id]) && View() == Settle(old(View()), id)
      ensures id !in old(View()).pending ==> req.None? && View() == old(View())
    {
      hide Inv, L.Outside;
      if id !in pending.Rows() { return None; }
      SettleInv(View(), id);
      req := Some(pending.Rows()[id]);
      pending := pending.Delete(id);
      open := L.Outside(open, {id});
      assert View() == Settle(old(View()), id);
    }

    /** The part of a control request that is taken down: the ID is noted whatever becomes of it. */
    method OnControl(id: Field<string>, use: Option<ToolUse>) returns (es: seq<Event>)
      requires Valid()
      modifies this
      ensures Valid()
      ensures (View(), es) == OnControlRequest(old(View()), id, use)
    {
      hide Inv, FormOf, P.Permission, PermissionRequest.Valid;
      if use.None? || id.Unreadable? || Text(id) == "" || use.value.name.Unreadable? || Text(use.value.name) == "" ||
         !use.value.input.Object? {
        return [AgentFrame];
      }
      var k := Text(id);
      if k in seen.Rows() { return [AgentFrame]; }
      if |pending.Rows()| >= MAX_PENDING || |seen.Rows()| >= MAX_SEEN {
        assert |seen.Rows().Keys| == |seen.Rows()|;
        return [LIMIT];
      }
      assert |seen.Rows().Keys| == |seen.Rows()|;
      es := TakeDown(k, use.value);
    }

    /** Notes the ID; a nil table is made together with the set of IDs. */
    method Note(k: string)
      requires Valid()
      modifies this
      ensures Valid() && pending.Made?
      ensures View() == old(View()).(seen := old(View()).seen + {k})
    {
      hide Inv, GoMap.Rows, GoMap.Make, GoMap.Set;
      NotedInv(View(), k);
      MadeRows(pending);
      MadeRows(seen);
      if pending.Nil? { pending, seen := pending.Make(), seen.Make(); }
      SetKeys(seen, k, ());
      seen := seen.Set(k, ());
    }

    method Hold(k: string, input: Value, form: Option<HeldForm>, ghost before: Model)
      requires Valid() && pending.Made? && View() == before.(seen := before.seen + {k}) && Inv(before)
      requires k != "" && k !in before.seen && |before.pending| < MAX_PENDING && input.Object?
      modifies this
      ensures Valid()
      ensures View() == Admit(before, k, Pending(input, before.nextSeq + 1, form))
    {
      hide Inv;
      nextSeq := nextSeq + 1;
      var p := Pending(input, nextSeq, form);
      AdmitInv(before, k, p);
      pending := pending.Set(k, p);
      open := open + [L.Open(k, p.Kind())];
      assert View() == Admit(before, k, p);
    }

    method TakeDown(k: string, use: ToolUse) returns (es: seq<Event>)
      requires Valid() && k != "" && k !in seen.Rows() && |pending.Rows()| < MAX_PENDING && use.input.Object?
      modifies this
      ensures Valid()
      ensures (View(), es) == OnToolUse(old(View()), k, use)
    {
      hide Inv, FormOf, P.Permission, PermissionRequest.Valid, Admit;
      ghost var m := View();
      Note(k);
      var name := Text(use.name);
      if name == ASK_USER_QUESTION {
        var b := BuildForm(k, use.callId, use.input);
        if b.None? { return [AgentFrame, INVALID]; }
        Hold(k, use.input, Some(b.value.held), m);
        return [FormRequested(b.value.form)];
      }
      var req := P.BuildPermission(k, use.callId, name, use.input, use.description);
      if !req.Valid() { return [AgentFrame]; }
      Hold(k, use.input, None, m);
      return [PermissionRequested(req)];
    }

    method OnCancel(id: Field<string>) returns (es: seq<Event>)
      requires Valid()
      modifies this
      ensures Valid()
      ensures (View(), es) == OnCancelRequest(old(View()), id)
    {
      hide Inv, Settle;
      var req := SettleId(Text(id));
      if id.Unreadable? || req.None? { return [AgentFrame]; }
      return [CancelEvent(Text(id), req.value.Kind())];
    }

    /** The IDs in the table in whatever order the iteration takes, then sorted by arrival. */
    method SortedIds() returns (rows: seq<Row>)
      requires Valid()
      ensures rows == Target(View())
    {
      hide Inv, Target, Sorted;
      TargetRows(View());
      rows := [];
      var todo := pending.Rows().Keys;
      while todo != {}
        invariant todo <= pending.Rows().Keys
        invariant forall x :: x in rows <==> x in Target(View()) && x.item !in todo
        invariant forall i, j :: 0 <= i < j < |rows| ==> rows[i].item != rows[j].item
      {
        var id :| id in todo;
        assert forall i :: 0 <= i < |rows| ==> rows[i] in rows;
        rows := rows + [Arrival(pending.Rows()[id].seqNo, id)];
        todo := todo - {id};
      }
      NumbersDiffer(rows, Target(View()));
      rows := SortRows(rows);
      SortedUnique(rows, Target(View()));
    }

    static lemma NumbersDiffer(rows: seq<Row>, target: seq<Row>)
      requires Sorted(target) && forall x :: x in rows ==> x in target
      requires forall i, j :: 0 <= i < j < |rows| ==> rows[i].item != rows[j].item
      ensures forall i, j :: 0 <= i < j < |rows| ==> rows[i].seqNo != rows[j].seqNo
    {
      forall i, j | 0 <= i < j < |rows| ensures rows[i].seqNo != rows[j].seqNo {
        assert rows[i] in target && rows[j] in target;
        var p :| 0 <= p < |target| && target[p] == rows[i];
        var q :| 0 <= q < |target| && target[q] == rows[j];
        assert p != q;
      }
    }

    /** A result closes what is still pending, in arrival order. */
    method CloseAll() returns (es: seq<Event>)
      requires Valid()
      modifies this
      ensures Valid()
      ensures View() == old(View()).(pending := map[], open := [])
      ensures es == CancelEvents(old(View()).open)
    {
      hide Inv, Settled, Settle;
      ghost var m := View();
      var rows := SortedIds();
      AllSettled(m);
      es := [];
      for i := 0 to |rows|
        invariant Valid() && rows == Target(m)
        invariant View() == Settled(m, i)
        invariant es == CancelEvents(m.open[..i])
      {
        SettleNext(m, i);
        var req := SettleId(rows[i].item);
        es := es + [CancelEvent(rows[i].item, req.value.Kind())];
        assert m.open[..i + 1] == m.open[..i] + [m.open[i]];
      }
      assert m.open[..|rows|] == m.open;
    }

    method OnResult(isError: Field<bool>, result: string, terminalReason: string, stopReason: string, status: Option<int>)
      returns (es: seq<Event>)
      requires Valid()
      modifies this
      ensures Valid()
      ensures (View(), es) == Decode(old(View()), Result(isError, result, terminalReason, stopReason, status))
    {
      hide Inv, CancelEvents;
      es := CloseAll();
      if isError.Unreadable? || (isError.Read? && isError.value) {
        var msg := if result == "" then terminalReason else result;
        return es + [ErrorEvent(msg, status, Retryable(status)), Usage, TurnCompleted("error", true)];
      }
      return es + [Usage, TurnCompleted(StopReason(stopReason), false)];
    }

    // ----- the interface of the adapter -----

    method DecodeFrame(f: Frame) returns (es: seq<Event>)
      requires Valid()
      modifies this
      ensures Valid()
      ensures (View(), es) == Decode(old(View()), f)
    {
      hide Inv, OnControlRequest, OnCancelRequest, CancelEvents;
      match f
      case NotJson => es := [];
      case Init(session, cwd, mode) =>
        if sawInit { return [AgentFrame]; }
        FlagsInv(View(), true, sentInit);
        sawInit := true;
        es := [SessionStarted(session, cwd, mode)];
      case Activity(n) => es := if n == 0 then [AgentFrame] else Repeat(n);
      case ControlRequest(id, use) => es := OnControl(id, use);
      case CancelRequest(id) => es := OnCancel(id);
      case Denied(callId, tool) => es := [DeniedByPolicy(callId, tool)];
      case Result(isError, result, terminalReason, stopReason, status) =>
        es := OnResult(isError, result, terminalReason, stopReason, status);
    }

    method ResolvePerm(id: string, outcome: string) returns (r: Encoded)
      requires Valid()
      modifies this
      ensures Valid()
      ensures (View(), r) == EncodePermission(old(View()), id, outcome)
    {
      hide Inv, Settle;
      if id in pending.Rows() && pending.Rows()[id].form.Some? { return Refused; }
      var behavior := Deny;
      if outcome == ALLOW_ONCE {
        if id in pending.Rows() { behavior := Allow(pending.Rows()[id].input); }
      } else if outcome != REJECT_ONCE {
        return Refused;
      }
      var req := SettleId(id);
      if req.None? { return Refused; }
      return Sent([Response(id, behavior)], [PermissionResolved("human", outcome, id)]);
    }

    method ResolveFormWith(c: FormResolve) returns (r: Encoded)
      requires Valid()
      modifies this
      ensures Valid()
      ensures (View(), r) == EncodeForm(old(View()), c)
    {
      hide Inv, Settle, UpdatedInput;
      var id := c.requestId;
      if id !in pending.Rows() || pending.Rows()[id].form.None? { return Refused; }
      var p := pending.Rows()[id];
      var behavior, answer := Deny, None;
      if c.outcome == ANSWERED {
        var updated := AnswersInput(p.form.value, p.input, c.answer);
        if updated.None? { return Refused; }
        behavior, answer := AllowRewritten(updated.value), Some(c.answer);
      } else if c.outcome == CANCELLED {
        if |c.answer| != 0 { return Refused; }
      } else {
        return Refused;
      }
      var _ := SettleId(id);
      return Sent([Response(id, behavior)], [FormResolved("human", c.outcome, id, answer)]);
    }

    /** One command: the lines to write and the events to add, or a refusal that changes nothing. */
    method EncodeCommand(c: Command) returns (r: Encoded)
      requires Valid()
      modifies this
      ensures Valid()
      ensures (View(), r) == Encode(old(View()), c)
      ensures r.Refused? ==> View() == old(View())
    {
      hide Inv, Settle, UpdatedInput;
      match c
      case Unsupported => r := Refused;
      case Unreadable => r := Refused;
      case Prompt(text) =>
        if text == "" { return Refused; }
        var lines := [UserText(text)];
        FlagsInv(View(), sawInit, true);
        if !sentInit {
          lines := [Initialize] + lines;
          sentInit := true;
        }
        assert View() == old(View()).(sentInit := true);
        assert lines == if old(sentInit) then [UserText(text)] else [Initialize, UserText(text)];
        r := Sent(lines, [TurnStarted(text)]);
      case ResolvePermission(id, outcome) => r := ResolvePerm(id, outcome);
      case ResolveForm(resolve) => r := ResolveFormWith(resolve);
    }
  }

  /** One input, and what is seen of it from outside. */
  method Feed(s: Stream, i: Input) returns (obs: seq<Obs>)
    requires s.Valid()
    modifies s
    ensures s.Valid() && (s.View(), obs) == Next(old(s.View()), i)
  {
    hide Inv, Decode, Encode;
    match i
    case Received(f) =>
      var es := s.DecodeFrame(f);
      obs := EmittedAll(es);
    case Commanded(c) =>
      var r := s.EncodeCommand(c);
      obs := if r.Refused? then [] else WroteAll(r.lines) + EmittedAll(r.events);
  }

  /** A new stream that is fed any inputs shows the trace of the machine: all its laws are laws of the object. */
  method RunStream(inputs: seq<Input>) returns (s: Stream, trace: seq<Obs>)
    ensures fresh(s) && s.Valid() && (s.View(), trace) == Run(inputs)
  {
    hide Inv, Next;
    s := new Stream();
    trace := [];
    for n := 0 to |inputs|
      invariant s.Valid() && (s.View(), trace) == Run(inputs[..n])
    {
      assert inputs[..n + 1][..n] == inputs[..n];
      var obs := Feed(s, inputs[n]);
      trace := trace + obs;
    }
    assert inputs[..|inputs|] == inputs;
  }
}
