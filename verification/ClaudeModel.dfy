/**
  agent/claude as a machine over values: what one line of claude's output or one command does to
  the requests that wait for an answer. The list `open` keeps them in arrival order; the class
  in ClaudeStream has only the table and the arrival numbers and is proved to follow.
 */
module ClaudeModel {
  import opened Wrappers
  import opened Json
  import opened V0
  import opened ClaudeForm
  import L = RequestLedger
  import P = ClaudePermission

  const MAX_PENDING := 64
  const MAX_SEEN := 0x20000
  const ASK_USER_QUESTION := "AskUserQuestion"

  // ----- state -----

  datatype Kind = Permission | Form

  datatype Pending = Pending(input: Value, seqNo: nat, form: Option<HeldForm>)
  {
    function Kind(): Kind { if form.Some? then Form else Permission }
  }

  /** seen holds the IDs themselves, where the source keeps their SHA-256. */
  datatype Model = Model(
    sawInit: bool, sentInit: bool, pending: map<string, Pending>, open: seq<L.Open<string, Kind>>,
    seen: set<string>, nextSeq: nat)

  const INITIAL := Model(false, false, map[], [], {}, 0)

  // ----- what goes in -----

  datatype ToolUse = ToolUse(name: Field<string>, callId: string, input: Value, description: string)

  datatype Frame =
    | NotJson
    | Init(session: string, cwd: string, mode: string)
    | Activity(events: nat)
    | ControlRequest(id: Field<string>, use: Option<ToolUse>)
    | CancelRequest(id: Field<string>)
    | Denied(callId: string, tool: string)
    | Result(isError: Field<bool>, result: string, terminalReason: string, stopReason: string, status: Option<int>)

  datatype Command =
    | Unsupported
    | Unreadable
    | Prompt(text: string)
    | ResolvePermission(id: string, outcome: string)
    | ResolveForm(resolve: FormResolve)

  // ----- what comes out -----

  datatype Event =
    | AgentFrame
    | SessionStarted(session: string, cwd: string, mode: string)
    | ActivityEvent
    | ErrorEvent(message: string, status: Option<int>, retryable: bool)
    | PermissionRequested(request: PermissionRequest)
    | PermissionResolved(actor: string, outcome: string, id: string)
    | DeniedByPolicy(callId: string, tool: string)
    | FormRequested(form: FormRequest)
    | FormResolved(actor: string, outcome: string, id: string, answer: Option<map<string, FormValue>>)
    | Usage
    | TurnStarted(text: string)
    | TurnCompleted(stopReason: string, isError: bool)

  datatype Behavior = Allow(input: Value) | AllowRewritten(fields: map<string, Updated>) | Deny

  datatype Line = Initialize | UserText(text: string) | Response(id: string, behavior: Behavior)

  datatype Encoded = Refused | Sent(lines: seq<Line>, events: seq<Event>)

  const LIMIT := ErrorEvent("limit", None, false)
  const INVALID := ErrorEvent("invalid", None, false)

  // ----- the table -----

  predicate Full(m: Model) { |m.pending| >= MAX_PENDING || |m.seen| >= MAX_SEEN }

  function Admit(m: Model, id: string, p: Pending): Model {
    m.(pending := m.pending[id := p], open := m.open + [L.Open(id, p.Kind())], seen := m.seen + {id}, nextSeq := p.seqNo)
  }

  function Settle(m: Model, id: string): Model {
    m.(pending := m.pending - {id}, open := L.Outside(m.open, {id}))
  }

  function CancelEvent(id: string, kind: Kind): Event {
    if kind == Form then FormResolved("agent", CANCELLED, id, None) else PermissionResolved("agent", CANCELLED, id)
  }

  function CancelEvents(open: seq<L.Open<string, Kind>>): seq<Event> {
    seq(|open|, i requires 0 <= i < |open| => CancelEvent(open[i].key, open[i].tag))
  }

  // ----- frames -----

  predicate CanUseTool(id: Field<string>, use: Option<ToolUse>) {
    && use.Some? && !id.Unreadable? && Text(id) != ""
    && !use.value.name.Unreadable? && Text(use.value.name) != "" && use.value.input.Object?
  }

  ghost function OnControlRequest(m: Model, id: Field<string>, use: Option<ToolUse>): (Model, seq<Event>) {
    if !CanUseTool(id, use) || Text(id) in m.seen then (m, [AgentFrame])
    else if Full(m) then (m, [LIMIT])
    else OnToolUse(m, Text(id), use.value)
  }

  ghost function OnToolUse(m: Model, id: string, use: ToolUse): (Model, seq<Event>) {
    var name, seqNo := Text(use.name), m.nextSeq + 1;
    var noted := m.(seen := m.seen + {id});
    if name == ASK_USER_QUESTION then
      var b := FormOf(id, use.callId, use.input);
      if b.None? then (noted, [AgentFrame, INVALID])
      else (Admit(m, id, Pending(use.input, seqNo, Some(b.value.held))), [FormRequested(b.value.form)])
    else
      var req := P.Permission(id, use.callId, name, use.input, use.description);
      if !req.Valid() then (noted, [AgentFrame])
      else (Admit(m, id, Pending(use.input, seqNo, None)), [PermissionRequested(req)])
  }

  /** The withdrawal is taken from the table before its ID is known to be readable. */
  function OnCancelRequest(m: Model, id: Field<string>): (Model, seq<Event>) {
    var k := Text(id);
    if k !in m.pending then (m, [AgentFrame])
    else (Settle(m, k), if id.Unreadable? then [AgentFrame] else [CancelEvent(k, m.pending[k].Kind())])
  }

  predicate Retryable(status: Option<int>) { status.Some? && (status.value == 429 || status.value >= 500) }

  function StopReason(s: string): string { if s in {"max_tokens", "refusal"} then s else "end_turn" }

  function TurnEvents(isError: Field<bool>, result: string, terminalReason: string, stopReason: string, status: Option<int>)
    : seq<Event>
  {
    if isError.Unreadable? || (isError.Read? && isError.value)
    then [ErrorEvent(if result == "" then terminalReason else result, status, Retryable(status)), Usage,
          TurnCompleted("error", true)]
    else [Usage, TurnCompleted(StopReason(stopReason), false)]
  }

  function Repeat(n: nat): seq<Event> { seq(n, _ => ActivityEvent) }

  ghost function Decode(m: Model, f: Frame): (Model, seq<Event>) {
    match f
    case NotJson => (m, [])
    case Init(session, cwd, mode) =>
      if m.sawInit then (m, [AgentFrame]) else (m.(sawInit := true), [SessionStarted(session, cwd, mode)])
    case Activity(n) => (m, if n == 0 then [AgentFrame] else Repeat(n))
    case ControlRequest(id, use) => OnControlRequest(m, id, use)
    case CancelRequest(id) => OnCancelRequest(m, id)
    case Denied(callId, tool) => (m, [DeniedByPolicy(callId, tool)])
    case Result(isError, result, terminalReason, stopReason, status) =>
      (m.(pending := map[], open := []),
       CancelEvents(m.open) + TurnEvents(isError, result, terminalReason, stopReason, status))
  }

  // ----- commands -----

  function EncodePermission(m: Model, id: string, outcome: string): (Model, Encoded) {
    if id in m.pending && m.pending[id].form.Some? then (m, Refused)
    else if outcome != ALLOW_ONCE && outcome != REJECT_ONCE then (m, Refused)
    else if id !in m.pending then (m, Refused)
    else (Settle(m, id),
          Sent([Response(id, if outcome == ALLOW_ONCE then Allow(m.pending[id].input) else Deny)],
               [PermissionResolved("human", outcome, id)]))
  }

  function EncodeForm(m: Model, c: FormResolve): (Model, Encoded) {
    var id := c.requestId;
    if id !in m.pending || m.pending[id].form.None? then (m, Refused)
    else if c.outcome == ANSWERED then
      var updated := UpdatedInput(m.pending[id].form.value, m.pending[id].input, c.answer);
      if updated.None? then (m, Refused)
      else (Settle(m, id), Sent([Response(id, AllowRewritten(updated.value))],
                                [FormResolved("human", ANSWERED, id, Some(c.answer))]))
    else if c.outcome == CANCELLED && c.answer == map[] then
      (Settle(m, id), Sent([Response(id, Deny)], [FormResolved("human", CANCELLED, id, None)]))
    else (m, Refused)
  }

  function Encode(m: Model, c: Command): (Model, Encoded) {
    match c
    case Unsupported => (m, Refused)
    case Unreadable => (m, Refused)
    case Prompt(text) =>
      if text == "" then (m, Refused)
      else (m.(sentInit := true),
            Sent(if m.sentInit then [UserText(text)] else [Initialize, UserText(text)], [TurnStarted(text)]))
    case ResolvePermission(id, outcome) => EncodePermission(m, id, outcome)
    case ResolveForm(resolve) => EncodeForm(m, resolve)
  }
}
