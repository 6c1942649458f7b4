/**
  agent/opencode as a machine over values: what one frame or one command does to the sessions
  and to the open requests, with the open requests kept as one list in arrival order.
  The class in OpencodeStream keeps the same state in hash maps and is proved to follow this
  machine; the laws of whole runs are in OpencodeRuns.
 */
module OpencodeModel {
  import Lists
  import opened Wrappers
  import opened Json
  import opened V0
  import P = OpencodePermission

  const MAX_PENDING := 64
  const MAX_SEEN := 0x20000
  const MAX_CHILDREN := 1024

  predicate IdChar(c: char) {
    'a' <= c <= 'z' || 'A' <= c <= 'Z' || '0' <= c <= '9' || c == '_' || c == '-'
  }

  /** An ID that may stand as one segment of a URL path. */
  predicate ValidId(s: string) {
    0 < |s| <= 128 && forall i :: 0 <= i < |s| ==> IdChar(s[i])
  }

  // ----- state -----

  datatype Kind = Permission | Form

  /** What the source keeps as SHA-256 over the kind's prefix, NUL and the ID. */
  datatype Key = Key(kind: Kind, id: string)

  datatype Mark = Requested | ByUs | ByAgent

  datatype Child = Child(parent: string, callId: string)

  datatype PendingPerm = PendingPerm(sid: string, seqNo: nat, truncated: bool, callId: string)

  datatype PendingForm = PendingForm(sid: string, seqNo: nat, form: FormRequest)

  datatype Request = PermRequest(id: string, perm: PendingPerm) | FormRequested(id: string, form: PendingForm)
  {
    function Id(): Key { if PermRequest? then Key(Permission, id) else Key(Form, id) }
    function Sid(): string { if PermRequest? then perm.sid else form.sid }
    function SeqNo(): nat { if PermRequest? then perm.seqNo else form.seqNo }
  }

  datatype Model = Model(
    root: string, children: map<string, Child>, open: seq<Request>, seen: map<Key, Mark>, nextSeq: nat)

  const INITIAL := Model("", map[], [], map[], 0)

  // ----- what goes in -----

  datatype OptionData = OptionData(caption: string, value: string, description: string)

  datatype FieldData = FieldData(
    key: string, title: string, description: string, fieldType: Field<string>,
    custom: bool, required: bool, options: Field<seq<OptionData>>)

  datatype FormData = FormData(
    id: Field<string>, sid: Field<string>, title: string, kind: Field<string>, callId: string,
    fields: Field<seq<FieldData>>)

  datatype Ending = Succeeded | Failed(message: string, status: Option<int>) | Interrupted(reason: Field<string>)

  datatype Frame =
    | NotJson
    | Unmapped
    | Housekeeping
    | SessionCreated(sid: Field<string>, parent: Field<string>, cwd: string, version: string)
    | ToolProgress(sid: Field<string>, callId: Field<string>, child: string)
    | Activity(sid: Field<string>, readable: bool, silent: bool)
    | PermissionAsked(data: Value)
    | PermissionReplied(requestId: Field<string>, sid: Field<string>, reply: Field<string>)
    | FormCreated(form: Field<FormData>)
    | FormReplied(requestId: Field<string>, sid: Field<string>, answer: Option<map<string, FormValue>>)
    | FormCancelled(requestId: Field<string>, sid: Field<string>)
    | ExecutionEnded(sid: Field<string>, ending: Ending)

  datatype Command =
    | Unsupported
    | Unreadable
    | Prompt(text: string)
    | Cancel
    | ResolvePermission(id: string, outcome: string)
    | ResolveForm(resolve: FormResolve)

  // ----- what comes out -----

  datatype Origin = OfRoot | OfChild(id: string, callId: string)

  datatype Event =
    | AgentFrame
    | SessionStarted(session: string, cwd: string, version: string)
    | ActivityEvent(origin: Origin)
    | ErrorEvent(message: string, status: Option<int>, retryable: bool)
    | PermissionRequested(origin: Origin, request: PermissionRequest)
    | PermissionResolved(origin: Origin, actor: string, outcome: string, id: string)
    | FormRequestedEvent(origin: Origin, form: FormRequest)
    | FormResolved(origin: Origin, actor: string, outcome: string, id: string, answer: Option<map<string, FormValue>>)
    | TurnStarted(text: string)
    | TurnCompleted(stopReason: string, isError: bool, reason: string)

  datatype Body = NoBody | TextBody(text: string) | DecisionBody(decision: string) | AnswerBody(answer: map<string, FormValue>)

  /** The HTTP request that the transport is to make; the path is /api followed by the segments. */
  datatype Line = Http(verb: string, path: seq<string>, body: Body)

  datatype Encoded = Refused | Sent(line: Line, events: seq<Event>)

  const LIMIT := ErrorEvent("limit", None, false)
  const INVALID := ErrorEvent("invalid", None, false)

  // ----- sessions -----

  function Scope(m: Model, sid: string): Option<Origin> {
    if sid == "" || m.root == "" then None
    else if sid == m.root then Some(OfRoot)
    else if sid in m.children then Some(OfChild(sid, m.children[sid].callId))
    else None
  }

  function OriginOf(m: Model, sid: string): Origin {
    if Scope(m, sid).Some? then Scope(m, sid).value else OfRoot
  }

  function ClampRunes(s: string, max: nat): string
    requires max > 0
  {
    if |s| <= max then s else s[..max - 1] + "\U{2026}"
  }

  function OnSessionCreated(m: Model, sid: Field<string>, parent: Field<string>, cwd: string, version: string)
    : (Model, seq<Event>)
  {
    var s, p := Text(sid), Text(parent);
    if sid.Unreadable? || !ValidId(s) || parent.Unreadable? then (m, [AgentFrame])
    else if p != "" then
      if Scope(m, p).None? || Scope(m, s).Some? || |m.children| >= MAX_CHILDREN || !ValidId(p) then (m, [AgentFrame])
      else (m.(children := m.children[s := Child(p, "")]), [])
    else if m.root != "" then (m, [AgentFrame])
    else (m.(root := s), [SessionStarted(s, cwd, ClampRunes(version, 64))])
  }

  predicate Adopts(m: Model, sid: string, child: string) {
    child in m.children && m.children[child].parent == sid && m.children[child].callId == ""
  }

  function OnToolProgress(m: Model, sid: Field<string>, callId: Field<string>, child: string): (Model, seq<Event>) {
    var origin := Scope(m, Text(sid));
    if origin.None? || sid.Unreadable? || callId.Unreadable? || Text(callId) == "" then (m, [AgentFrame])
    else
      (if Adopts(m, Text(sid), child)
       then m.(children := m.children[child := m.children[child].(callId := Text(callId))])
       else m,
       [ActivityEvent(origin.value)])
  }

  function OnActivity(m: Model, sid: Field<string>, readable: bool, silent: bool): (Model, seq<Event>) {
    var origin := Scope(m, Text(sid));
    if origin.None? || sid.Unreadable? || !readable then (m, [AgentFrame])
    else (m, if silent then [] else [ActivityEvent(origin.value)])
  }

  // ----- the list of open requests -----

  function IdIn(r: Request): Key { r.Id() }

  function Among(open: seq<Request>, ks: set<Key>): seq<Request> { Lists.Pick(open, IdIn, ks) }

  function Outside(open: seq<Request>, ks: set<Key>): seq<Request> { Lists.Drop(open, IdIn, ks) }

  function Find(open: seq<Request>, k: Key): Option<Request> {
    if open == [] then None
    else if open[|open| - 1].Id() == k then Some(open[|open| - 1])
    else Find(open[..|open| - 1], k)
  }

  predicate Full(m: Model) { |m.open| >= MAX_PENDING || |m.seen| >= MAX_SEEN }

  function Admit(m: Model, r: Request): Model {
    m.(open := m.open + [r], seen := m.seen[r.Id() := Requested], nextSeq := m.nextSeq + 1)
  }

  function Settle(m: Model, k: Key, mark: Mark): Model {
    m.(open := Outside(m.open, {k}), seen := m.seen[k := mark])
  }

  // ----- permissions -----

  function OnPermissionAsked(m: Model, data: Value): (Model, seq<Event>) {
    var d := P.ReadAsked(data);
    var id, sid := Text(d.id), Text(d.sid);
    if Scope(m, sid).None? || d.sid.Unreadable? then (m, [AgentFrame])
    else if d.id.Unreadable? || !ValidId(id) || d.action.Unreadable? || Text(d.action) == "" || d.resources.Unreadable?
    then (m, [AgentFrame, INVALID])
    else if Key(Permission, id) in m.seen then (m, [AgentFrame])
    else if Full(m) then (m, [LIMIT])
    else
      var req := P.Permission(data);
      if !req.Valid() then (m, [AgentFrame, INVALID])
      else (Admit(m, PermRequest(id, PendingPerm(sid, m.nextSeq + 1, req.detailsTruncated, req.callId))),
            [PermissionRequested(Scope(m, sid).value, req)])
  }

  function ReplyOutcome(reply: string): string {
    if reply == "once" then ALLOW_ONCE else if reply == "always" then ALLOW_ALWAYS
    else if reply == "reject" then REJECT_ONCE else CANCELLED
  }

  function OnPermissionReplied(m: Model, requestId: Field<string>, sid: Field<string>, reply: Field<string>)
    : (Model, seq<Event>)
  {
    var id := Text(requestId);
    var k := Key(Permission, id);
    var r := Find(m.open, k);
    if requestId.Unreadable? || sid.Unreadable? || !ValidId(id) then (m, [AgentFrame])
    else if r.Some? then
      if r.value.Sid() != Text(sid) then (m, [AgentFrame])
      else (Settle(m, k, ByAgent),
            [PermissionResolved(OriginOf(m, r.value.Sid()), "agent", ReplyOutcome(Text(reply)), id)])
    else if k in m.seen && m.seen[k] == ByUs then (m, [])
    else (m, [AgentFrame])
  }

  // ----- forms -----

  predicate KindChar(c: char) { IdChar(c) || c == '.' }

  predicate SafeKind(k: string) {
    0 < |k| <= MAX_FORM_KIND_LEN && forall i :: 0 <= i < |k| ==> KindChar(k[i])
  }

  function OptionOf(o: OptionData): FormOption {
    FormOption(o.caption, if o.value == "" then o.caption else o.value, o.description)
  }

  function OptionsOf(f: FieldData): seq<FormOption> {
    var os := if f.options.Read? then f.options.value else [];
    seq(|os|, i requires 0 <= i < |os| => OptionOf(os[i]))
  }

  function FieldOf(f: FieldData): Option<FormField> {
    if f.fieldType.Unreadable? || f.options.Unreadable? then None
    else if Text(f.fieldType) == "multiselect"
    then Some(FormField(f.key, f.title, f.description, Multiselect, OptionsOf(f), f.custom, f.required))
    else if Text(f.fieldType) == "string"
    then Some(FormField(f.key, f.title, f.description, if OptionsOf(f) == [] then FreeText else Select,
                        OptionsOf(f), f.custom, f.required))
    else None
  }

  function FieldsOfForm(fs: seq<FieldData>): Option<seq<FormField>> {
    if fs == [] then Some([])
    else
      var rest, last := FieldsOfForm(fs[..|fs| - 1]), FieldOf(fs[|fs| - 1]);
      if rest.None? || last.None? then None else Some(rest.value + [last.value])
  }

  /** The form as protocol v0 has it, if every field has a type that can be answered. */
  function FormOf(f: FormData): Option<FormRequest> {
    var kind := if f.kind.Read? && SafeKind(f.kind.value) then f.kind.value else "other";
    var fields := FieldsOfForm(if f.fields.Read? then f.fields.value else []);
    if f.fields.Unreadable? || fields.None? then None
    else Some(FormRequest(Text(f.id), f.callId, kind, f.title, fields.value))
  }

  function OnFormCreated(m: Model, form: Field<FormData>): (Model, seq<Event>) {
    if !form.Read? then (m, [AgentFrame])
    else
      var f := form.value;
      var id, sid := Text(f.id), Text(f.sid);
      if Scope(m, sid).None? || f.sid.Unreadable? then (m, [AgentFrame])
      else if f.id.Unreadable? || !ValidId(id) then (m, [AgentFrame, INVALID])
      else if Key(Form, id) in m.seen then (m, [AgentFrame])
      else if Full(m) then (m, [LIMIT])
      else
        var req := FormOf(f);
        if req.None? || !req.value.Valid() then (m, [AgentFrame, INVALID])
        else (Admit(m, FormRequested(id, PendingForm(sid, m.nextSeq + 1, req.value))),
              [FormRequestedEvent(Scope(m, sid).value, req.value)])
  }

  function OnFormSettled(m: Model, requestId: Field<string>, sid: Field<string>, outcome: string,
                         answer: Option<map<string, FormValue>>): (Model, seq<Event>)
  {
    var id := Text(requestId);
    var k := Key(Form, id);
    var r := Find(m.open, k);
    if requestId.Unreadable? || sid.Unreadable? || !ValidId(id) then (m, [AgentFrame])
    else if r.Some? then
      if r.value.Sid() != Text(sid) then (m, [AgentFrame])
      else (Settle(m, k, ByAgent), [FormResolved(OriginOf(m, r.value.Sid()), "agent", outcome, id, answer)])
    else if k in m.seen && m.seen[k] == ByUs then (m, [])
    else (m, [AgentFrame])
  }

  // ----- the end of an execution -----

  /** The open requests that end with session sid: all of them when it is the root. */
  function Closing(m: Model, sid: string): set<Key> {
    set r | r in m.open && (sid == m.root || r.Sid() == sid) :: r.Id()
  }

  function CancelEvent(m: Model, r: Request): Event {
    if r.PermRequest? then PermissionResolved(OriginOf(m, r.Sid()), "agent", CANCELLED, r.id)
    else FormResolved(OriginOf(m, r.Sid()), "agent", CANCELLED, r.id, None)
  }

  function CancelEvents(m: Model, rs: seq<Request>): seq<Event> {
    seq(|rs|, i requires 0 <= i < |rs| => CancelEvent(m, rs[i]))
  }

  function CloseAs(m: Model, ks: set<Key>, mark: Mark): Model {
    m.(open := Outside(m.open, ks), seen := m.seen + map k | k in ks :: mark)
  }

  function Close(m: Model, ks: set<Key>): Model { CloseAs(m, ks, ByAgent) }

  predicate Retryable(status: Option<int>) { status.Some? && (status.value == 429 || status.value >= 500) }

  function TurnEvents(ending: Ending): seq<Event> {
    match ending
    case Succeeded => [TurnCompleted("end_turn", false, "")]
    case Interrupted(reason) =>
      [TurnCompleted("cancelled", false,
        if reason.Unreadable? || ByteLen(Text(reason)) > 32 || !ValidId(Text(reason)) then "" else Text(reason))]
    case Failed(message, status) =>
      [ErrorEvent(ClampRunes(message, 4000), status, Retryable(status)), TurnCompleted("error", true, "")]
  }

  function OnExecutionEnded(m: Model, sid: Field<string>, ending: Ending): (Model, seq<Event>) {
    var s := Text(sid);
    if Scope(m, s).None? || sid.Unreadable? then (m, [AgentFrame])
    else
      var ks := Closing(m, s);
      (Close(m, ks), CancelEvents(m, Among(m.open, ks)) + if s == m.root then TurnEvents(ending) else [])
  }

  // ----- one frame, one command -----

  function Decode(m: Model, f: Frame): (Model, seq<Event>) {
    match f
    case NotJson => (m, [])
    case Unmapped => (m, [AgentFrame])
    case Housekeeping => (m, [])
    case SessionCreated(sid, parent, cwd, version) => OnSessionCreated(m, sid, parent, cwd, version)
    case ToolProgress(sid, callId, child) => OnToolProgress(m, sid, callId, child)
    case Activity(sid, readable, silent) => OnActivity(m, sid, readable, silent)
    case PermissionAsked(data) => OnPermissionAsked(m, data)
    case PermissionReplied(id, sid, reply) => OnPermissionReplied(m, id, sid, reply)
    case FormCreated(form) => OnFormCreated(m, form)
    case FormReplied(id, sid, answer) => OnFormSettled(m, id, sid, ANSWERED, answer)
    case FormCancelled(id, sid) => OnFormSettled(m, id, sid, CANCELLED, None)
    case ExecutionEnded(sid, ending) => OnExecutionEnded(m, sid, ending)
  }

  function EncodePermission(m: Model, id: string, outcome: string): (Model, Encoded) {
    var k := Key(Permission, id);
    var r := Find(m.open, k);
    if outcome != ALLOW_ONCE && outcome != REJECT_ONCE then (m, Refused)
    else if r.None? || !r.value.PermRequest? then (m, Refused)
    else if outcome == ALLOW_ONCE && r.value.perm.truncated then (m, Refused)
    else if !ValidId(id) || !ValidId(r.value.Sid()) then (m, Refused)
    else
      (Settle(m, k, ByUs),
       Sent(Http("POST", ["session", r.value.Sid(), "permission", id, "reply"],
                 DecisionBody(if outcome == ALLOW_ONCE then "once" else "reject")),
            [PermissionResolved(OriginOf(m, r.value.Sid()), "human", outcome, id)]))
  }

  function EncodeForm(m: Model, c: FormResolve): (Model, Encoded) {
    var k := Key(Form, c.requestId);
    var r := Find(m.open, k);
    if r.None? || !r.value.FormRequested? || !c.Valid(r.value.form.form) then (m, Refused)
    else if !ValidId(c.requestId) || !ValidId(r.value.Sid()) then (m, Refused)
    else
      var path := ["session", r.value.Sid(), "form", c.requestId];
      (Settle(m, k, ByUs),
       Sent(if c.outcome == ANSWERED then Http("POST", path + ["reply"], AnswerBody(c.answer))
            else Http("DELETE", path, NoBody),
            [FormResolved(OriginOf(m, r.value.Sid()), "human", c.outcome, c.requestId,
                          if c.outcome == ANSWERED then Some(c.answer) else None)]))
  }

  function Encode(m: Model, c: Command): (Model, Encoded) {
    match c
    case Unsupported => (m, Refused)
    case Unreadable => (m, Refused)
    case Prompt(text) =>
      if text == "" || m.root == "" || !ValidId(m.root) then (m, Refused)
      else (m, Sent(Http("POST", ["session", m.root, "prompt"], TextBody(text)), [TurnStarted(text)]))
    case Cancel =>
      if m.root == "" || !ValidId(m.root) then (m, Refused)
      else (m, Sent(Http("POST", ["session", m.root, "interrupt"], NoBody), []))
    case ResolvePermission(id, outcome) => EncodePermission(m, id, outcome)
    case ResolveForm(r) => EncodeForm(m, r)
  }
}
