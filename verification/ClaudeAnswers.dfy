/**
  What the claude adapter answers, told from the run before it: for every line and every command
  the events, the lines to write and the new state, with the protocol's own words.
 */
module ClaudeAnswers {
  import opened Wrappers
  import opened Json
  import opened V0
  import opened ClaudeForm
  import opened ClaudeModel
  import opened ClaudeRuns
  import L = RequestLedger
  import P = ClaudePermission

  // ----- the end of a turn -----

  predicate ReportsCancelled(e: Event, o: L.Open<string, Kind>) {
    match o.tag
    case Permission => e == PermissionResolved("agent", "cancelled", o.key)
    case Form => e == FormResolved("agent", "cancelled", o.key, None)
  }

  /** How the turn ended: a flag that cannot be read counts as an error. */
  ghost predicate EndsWith(es: seq<Event>, f: Frame)
    requires f.Result?
  {
    if f.isError == Read(false) || f.isError == Absent then
      es == [Usage, TurnCompleted(if f.stopReason == "max_tokens" || f.stopReason == "refusal" then f.stopReason else "end_turn", false)]
    else
      && |es| == 3 && es[1] == Usage && es[2] == TurnCompleted("error", true)
      && es[0].ErrorEvent? && es[0].message == (if f.result != "" then f.result else f.terminalReason) && es[0].status == f.status
      && (es[0].retryable <==> f.status.Some? && (f.status.value == 429 || f.status.value >= 500))
  }

  /** A result shows all that is open as cancelled, in the order of arrival, and then how the turn ended. */
  lemma ResultTells(inputs: seq<Input>, f: Frame)
    requires f.Result?
    ensures var m := Run(inputs).0; var (m', es) := Decode(m, f);
      && |m.open| <= |es| && (forall j :: 0 <= j < |m.open| ==> ReportsCancelled(es[j], m.open[j]))
      && EndsWith(es[|m.open|..], f)
      && m' == m.(pending := map[], open := [])
  {
    hide Run;
    var m := Run(inputs).0;
    var es := Decode(m, f).1;
    assert forall j :: 0 <= j < |m.open| ==> es[j] == CancelEvent(m.open[j].key, m.open[j].tag);
    assert es[|m.open|..] == TurnEvents(f.isError, f.result, f.terminalReason, f.stopReason, f.status);
  }

  // ----- requests -----

  predicate NoRoom(m: Model) { |m.pending| >= 64 || |m.seen| >= 131072 }

  /** The agent asks to use a tool: readable IDs and names, and an object for the input. */
  predicate Requests(id: Field<string>, use: Option<ToolUse>) {
    && id.Read? && id.value != "" && use.Some? && use.value.name.Read? && use.value.name.value != "" && use.value.input.Object?
  }

  /** Exactly when a permission or a form is put before the human, and what is said when it is not. */
  lemma ControlTells(inputs: seq<Input>, id: Field<string>, use: Option<ToolUse>)
    ensures var m := Run(inputs).0; var (m', es) := Decode(m, ControlRequest(id, use));
      if !Requests(id, use) || id.value in m.seen then m' == m && es == [AgentFrame]
      else if NoRoom(m) then m' == m && es == [ErrorEvent("limit", None, false)]
      else
        var k, u, name := id.value, use.value, use.value.name.value;
        && m'.seen == m.seen + {k}
        && m'.sawInit == m.sawInit && m'.sentInit == m.sentInit
        && if name == "AskUserQuestion" then
             if FormOf(k, u.callId, u.input).None? then m'.pending == m.pending && es == [AgentFrame, ErrorEvent("invalid", None, false)]
             else
               && es == [FormRequested(FormOf(k, u.callId, u.input).value.form)]
               && m'.pending == m.pending[k := Pending(u.input, m.nextSeq + 1, Some(FormOf(k, u.callId, u.input).value.held))]
           else if |name| > 128 then m'.pending == m.pending && es == [AgentFrame]
           else
             && es == [PermissionRequested(P.Permission(k, u.callId, name, u.input, u.description))]
             && m'.pending == m.pending[k := Pending(u.input, m.nextSeq + 1, None)]
  {
    hide Run, OnToolUse, Requests, FormOf, P.Permission;
    CanUse(id, use);
    if Requests(id, use) { ToolUseTells(Run(inputs).0, id.value, use.value); }
  }

  lemma CanUse(id: Field<string>, use: Option<ToolUse>)
    ensures CanUseTool(id, use) <==> Requests(id, use)
    ensures Requests(id, use) ==> id.Read? && use.Some? && use.value.name.Read? && Text(id) == id.value
  {
  }

  /** What a request does that there is room for. */
  lemma ToolUseTells(m: Model, k: string, u: ToolUse)
    requires u.name.Read? && u.name.value != "" && k != "" && u.input.Object?
    ensures var (m', es) := OnToolUse(m, k, u);
      && m'.seen == m.seen + {k} && m'.sawInit == m.sawInit && m'.sentInit == m.sentInit
      && if u.name.value == "AskUserQuestion" then
           if FormOf(k, u.callId, u.input).None? then m'.pending == m.pending && es == [AgentFrame, ErrorEvent("invalid", None, false)]
           else
             && es == [FormRequested(FormOf(k, u.callId, u.input).value.form)]
             && m'.pending == m.pending[k := Pending(u.input, m.nextSeq + 1, Some(FormOf(k, u.callId, u.input).value.held))]
         else if |u.name.value| > 128 then m'.pending == m.pending && es == [AgentFrame]
         else
           && es == [PermissionRequested(P.Permission(k, u.callId, u.name.value, u.input, u.description))]
           && m'.pending == m.pending[k := Pending(u.input, m.nextSeq + 1, None)]
  {
    hide FormOf, P.Permission, PermissionRequest.Valid;
    P.ValidUnlessNameTooLong(k, u.callId, u.name.value, u.input, u.description);
  }

  /** The request was received when there was room for it. */
  ghost predicate TakenDown(inputs: seq<Input>, n: int, id: string) {
    0 <= n < |inputs| && IsRequest(inputs[n], id) && !NoRoom(Run(inputs[..n]).0)
  }

  /** The IDs that are not admitted again are those of all the requests that were ever taken down. */
  lemma {:induction false} SeenTells(inputs: seq<Input>, id: string)
    ensures id in Run(inputs).0.seen <==> exists n :: TakenDown(inputs, n, id)
  {
    hide Next, IsRequest, NoRoom;
    if inputs == [] {
      assert id !in Run(inputs).0.seen;
    } else {
      var front, i := inputs[..|inputs| - 1], inputs[|inputs| - 1];
      SeenTells(front, id);
      SeenStep(Run(front).0, i, id);
      assert inputs[..|front|] == front;
      if n :| TakenDown(front, n, id) {
        assert inputs[..n] == front[..n];
        assert TakenDown(inputs, n, id);
      }
      if n :| TakenDown(inputs, n, id) {
        if n < |front| {
          assert inputs[..n] == front[..n];
          assert TakenDown(front, n, id);
        }
      }
      if IsRequest(i, id) && !NoRoom(Run(front).0) { assert TakenDown(inputs, |front|, id); }
    }
  }

  lemma SeenStep(m: Model, i: Input, id: string)
    ensures id in Next(m, i).0.seen <==> id in m.seen || (IsRequest(i, id) && !NoRoom(m))
  {
    hide FormOf, P.Permission, PermissionRequest.Valid, UpdatedInput;
  }

  // ----- the other lines -----

  /** The lines that ask for nothing. */
  lemma OtherLinesTell(inputs: seq<Input>, f: Frame)
    requires !f.ControlRequest? && !f.Result?
    ensures var m := Run(inputs).0; var (m', es) := Decode(m, f);
      match f
      case NotJson => m' == m && es == []
      case Init(session, cwd, mode) =>
        && m' == m.(sawInit := true)
        && es == if WasInit(inputs) then [AgentFrame] else [SessionStarted(session, cwd, mode)]
      case Activity(n) => m' == m && if n == 0 then es == [AgentFrame] else |es| == n && forall e :: e in es ==> e == ActivityEvent
      case Denied(callId, tool) => m' == m && es == [DeniedByPolicy(callId, tool)]
      case CancelRequest(id) => (!id.Read? || id.value !in m.pending) ==> m' == m && es == [AgentFrame]
      case _ => true
  {
    hide Run, Inv;
    InitTells(inputs);
    RunFollowsLedger(inputs);
    NoEmptyId(Run(inputs).0);
  }

  lemma NoEmptyId(m: Model)
    requires Inv(m)
    ensures "" !in m.pending
  {
    if "" in m.pending { SeenWhenOpen(m, ""); }
  }

  /** Whether the session was announced before. */
  predicate WasInit(inputs: seq<Input>) { exists n :: 0 <= n < |inputs| && inputs[n].Received? && inputs[n].frame.Init? }

  lemma {:induction false} InitTells(inputs: seq<Input>)
    ensures Run(inputs).0.sawInit <==> WasInit(inputs)
  {
    hide Next;
    if inputs != [] {
      var front, i := inputs[..|inputs| - 1], inputs[|inputs| - 1];
      InitTells(front);
      InitStep(Run(front).0, i);
      assert forall n :: 0 <= n < |front| ==> front[n] == inputs[n];
    }
  }

  lemma InitStep(m: Model, i: Input)
    ensures Next(m, i).0.sawInit <==> m.sawInit || (i.Received? && i.frame.Init?)
  {
    hide FormOf, P.Permission, PermissionRequest.Valid, UpdatedInput;
  }

  // ----- commands -----

  predicate Answerable(m: Model, f: FormResolve)
    requires f.requestId in m.pending && m.pending[f.requestId].form.Some?
  {
    || (f.outcome == "cancelled" && f.answer == map[])
    || (f.outcome == "answered" && forall k :: k in f.answer ==> Fitting(m.pending[f.requestId].form.value, k, f.answer[k]))
  }

  /** What each command writes and shows, and exactly when it is refused. */
  lemma CommandTells(inputs: seq<Input>, c: Command)
    ensures var m := Run(inputs).0; var (m', e) := Encode(m, c);
      match c
      case Prompt(text) =>
        if text == "" then m' == m && e == Refused
        else
          && m' == m.(sentInit := true)
          && e == Sent(if m.sentInit then [UserText(text)] else [Initialize, UserText(text)], [TurnStarted(text)])
      case ResolvePermission(id, outcome) =>
        if id in m.pending && m.pending[id].form.None? && outcome in {"allow_once", "reject_once"} then
          && m'.pending == m.pending - {id}
          && e == Sent([Response(id, if outcome == "allow_once" then Allow(m.pending[id].input) else Deny)],
                       [PermissionResolved("human", outcome, id)])
        else m' == m && e == Refused
      case ResolveForm(f) =>
        var id := f.requestId;
        if id in m.pending && m.pending[id].form.Some? && Answerable(m, f) then
          && m'.pending == m.pending - {id} && e.Sent? && |e.lines| == 1 && e.lines[0].Response? && e.lines[0].id == id
          && (f.outcome == "cancelled" ==> e.lines[0].behavior == Deny && e.events == [FormResolved("human", "cancelled", id, None)])
          && (f.outcome == "answered" ==>
                && e.events == [FormResolved("human", "answered", id, Some(f.answer))]
                && e.lines[0].behavior.AllowRewritten?
                && Some(e.lines[0].behavior.fields) == UpdatedInput(m.pending[id].form.value, m.pending[id].input, f.answer))
        else m' == m && e == Refused
      case _ => m' == m && e == Refused
  {
    hide Run, Inv, UpdatedInput, Fitting, L.Outside;
    var m := Run(inputs).0;
    RunFollowsLedger(inputs);
    if c.ResolveForm? && c.resolve.requestId in m.pending && m.pending[c.resolve.requestId].form.Some? {
      var p := m.pending[c.resolve.requestId];
      SeenWhenOpen(m, c.resolve.requestId);
      UpdatedIff(p.form.value, p.input, c.resolve.answer);
    }
  }
}
