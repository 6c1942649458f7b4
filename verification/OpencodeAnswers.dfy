/**
  What the opencode adapter answers, told from the run before it: for every frame and every
  command the events, the line to write and the new state, with the protocol's own words.
 */
module OpencodeAnswers {
  import opened Wrappers
  import opened Json
  import opened V0
  import opened OpencodeModel
  import opened OpencodeRuns
  import L = RequestLedger
  import opened Lists
  import P = OpencodePermission

  // ----- IDs and origins -----

  /** Up to 128 letters, digits, hyphens and underscores. */
  predicate PlainId(s: string) {
    && 1 <= |s| <= 128
    && forall c :: c in s ==> 'a' <= c <= 'z' || 'A' <= c <= 'Z' || '0' <= c <= '9' || c in {'_', '-'}
  }

  lemma IdsArePlain(s: string)
    ensures ValidId(s) <==> PlainId(s)
  {
    if ValidId(s) {
      forall c | c in s ensures IdChar(c) { var i :| 0 <= i < |s| && s[i] == c; }
    } else if PlainId(s) {
      forall i | 0 <= i < |s| ensures IdChar(s[i]) { assert s[i] in s; }
    }
  }

  predicate Session(m: Model, sid: string) { m.root != "" && (sid == m.root || sid in m.children) }

  function From(m: Model, sid: string): Origin {
    if sid in m.children && sid != m.root then OfChild(sid, m.children[sid].callId) else OfRoot
  }

  lemma ScopeTells(m: Model, sid: string)
    requires Inv(m)
    ensures Scope(m, sid) == if Session(m, sid) then Some(From(m, sid)) else None
    ensures Session(m, sid) ==> sid != "" && OriginOf(m, sid) == From(m, sid)
  {
    if Session(m, sid) { KnownIsValid(m, sid); }
  }

  /** A text that is cut ends with an ellipsis. */
  ghost predicate CutTo(shown: string, s: string, max: nat) {
    if |s| <= max then shown == s
    else |shown| == max && max >= 1 && shown[..max - 1] == s[..max - 1] && shown[max - 1] == '\U{2026}'
  }

  lemma ClampTells(s: string, max: nat)
    requires max > 0
    ensures CutTo(ClampRunes(s, max), s, max)
  {
  }

  // ----- the end of an execution -----

  /** A request that is closed is reported as cancelled by the agent, from its own session. */
  predicate ReportsCancelled(m: Model, e: Event, r: Request) {
    match r
    case PermRequest(id, p) => e == PermissionResolved(From(m, p.sid), "agent", "cancelled", id)
    case FormRequested(id, p) => e == FormResolved(From(m, p.sid), "agent", "cancelled", id, None)
  }

  /** The reason of an interruption, when it is a short plain ID. */
  function Reason(reason: Field<string>): string {
    if reason.Read? && PlainId(reason.value) && |reason.value| <= 32 then reason.value else ""
  }

  /** How the turn ended, by the last events. */
  ghost predicate EndsWith(es: seq<Event>, ending: Ending) {
    match ending
    case Succeeded => es == [TurnCompleted("end_turn", false, "")]
    case Interrupted(reason) => es == [TurnCompleted("cancelled", false, Reason(reason))]
    case Failed(message, status) =>
      && |es| == 2 && es[1] == TurnCompleted("error", true, "")
      && es[0].ErrorEvent? && CutTo(es[0].message, message, 4000) && es[0].status == status
      && (es[0].retryable <==> status.Some? && (status.value == 429 || status.value >= 500))
  }

  lemma {:induction false} PlainBytes(s: string)
    requires forall i :: 0 <= i < |s| ==> IdChar(s[i])
    ensures ByteLen(s) == |s|
  {
    if s != "" { PlainBytes(s[1..]); }
  }

  lemma TurnTells(ending: Ending)
    ensures EndsWith(TurnEvents(ending), ending)
  {
    hide ValidId, PlainId, ByteLen, ClampRunes;
    match ending
    case Succeeded =>
    case Interrupted(reason) =>
      IdsArePlain(Text(reason));
      NotEmpty();
      if PlainId(Text(reason)) { IdBytes(Text(reason)); }
    case Failed(message, _) => ClampTells(message, 4000);
  }

  lemma NotEmpty()
    ensures !PlainId("")
  {
  }

  lemma IdBytes(s: string)
    requires PlainId(s)
    ensures ByteLen(s) == |s|
  {
    IdsArePlain(s);
    PlainBytes(s);
  }

  /** Everything that the end of the root's execution shows: the open requests as cancelled, then how the turn ended. */
  lemma RootEnds(inputs: seq<Input>, ending: Ending)
    requires Run(inputs).0.root != ""
    ensures var m := Run(inputs).0; var (m', es) := Decode(m, ExecutionEnded(Read(m.root), ending));
      && |m.open| <= |es| && (forall j :: 0 <= j < |m.open| ==> ReportsCancelled(m, es[j], m.open[j]))
      && EndsWith(es[|m.open|..], ending)
      && m'.open == [] && m'.root == m.root && m'.children == m.children && m'.nextSeq == m.nextSeq
  {
    hide Run, Inv, TurnEvents, CancelEvents, EndsWith, Among, Close;
    var m := Run(inputs).0;
    RunFollowsLedger(inputs);
    ScopeTells(m, m.root);
    TurnTells(ending);
    var ks := Closing(m, m.root);
    ClosesAll(m, ks);
    CancelledTell(m, m.open);
    assert (CancelEvents(m, m.open) + TurnEvents(ending))[|m.open|..] == TurnEvents(ending);
  }

  lemma ClosesAll(m: Model, ks: set<Key>)
    requires Inv(m) && ks == Closing(m, m.root)
    ensures Among(m.open, ks) == m.open && Close(m, ks).open == []
    ensures Close(m, ks).root == m.root && Close(m, ks).children == m.children && Close(m, ks).nextSeq == m.nextSeq
  {
    hide Inv;
    assert forall r :: r in m.open ==> r.Id() in ks;
    assert forall i :: 0 <= i < |m.open| ==> m.open[i] in m.open;
    NoneOutside(m.open, ks);
    AllAmong(m.open, ks);
  }

  lemma CancelledTell(m: Model, rs: seq<Request>)
    requires Inv(m) && forall r :: r in rs ==> r in m.open
    ensures |CancelEvents(m, rs)| == |rs|
    ensures forall j :: 0 <= j < |rs| ==> ReportsCancelled(m, CancelEvents(m, rs)[j], rs[j])
  {
    hide Inv, OriginOf;
    forall j | 0 <= j < |rs| ensures ReportsCancelled(m, CancelEvents(m, rs)[j], rs[j]) {
      assert rs[j] in m.open;
      OpenSession(m, rs[j]);
      ScopeTells(m, rs[j].Sid());
    }
  }

  lemma OpenSession(m: Model, r: Request)
    requires Inv(m) && r in m.open
    ensures Session(m, r.Sid())
  {
    assert Listed(m, r);
  }

  /** The end of another session's execution shows its own open requests as cancelled and no more; a stranger's changes nothing. */
  lemma OtherEnds(inputs: seq<Input>, sid: Field<string>, ending: Ending)
    requires var m := Run(inputs).0; Text(sid) != m.root || m.root == "" || !sid.Read?
    ensures var m := Run(inputs).0; var (m', es) := Decode(m, ExecutionEnded(sid, ending));
      if sid.Read? && Session(m, sid.value)
      then
        && |es| == |Own(m.open, sid.value)| && (forall j :: 0 <= j < |es| ==> ReportsCancelled(m, es[j], Own(m.open, sid.value)[j]))
        && (forall r :: r in m'.open <==> r in m.open && r.Sid() != sid.value)
      else m' == m && es == [AgentFrame]
  {
    hide Run, Inv, TurnEvents, CancelEvents, Among, Closing;
    var m := Run(inputs).0;
    RunFollowsLedger(inputs);
    ScopeTells(m, Text(sid));
    if sid.Read? && Session(m, sid.value) {
      var ks := Closing(m, sid.value);
      OwnAre(m, sid.value);
      Members(m.open, ks);
      CancelledTell(m, Among(m.open, ks));
    }
  }

  /** The requests of this session, in their order. */
  function Own(open: seq<Request>, sid: string): seq<Request> {
    if open == [] then []
    else
      var rest := Own(open[..|open| - 1], sid);
      if open[|open| - 1].Sid() == sid then rest + [open[|open| - 1]] else rest
  }

  lemma {:induction false} OwnAmong(open: seq<Request>, sid: string, ks: set<Key>)
    requires forall i :: 0 <= i < |open| ==> (open[i].Id() in ks <==> open[i].Sid() == sid)
    ensures Among(open, ks) == Own(open, sid)
  {
    if open != [] { OwnAmong(open[..|open| - 1], sid, ks); }
  }

  lemma OwnAre(m: Model, sid: string)
    requires Inv(m) && sid != m.root
    ensures var ks := Closing(m, sid);
      && Among(m.open, ks) == Own(m.open, sid)
      && (forall r :: r in m.open ==> (r.Id() in ks <==> r.Sid() == sid))
      && forall r :: r in Among(m.open, ks) ==> r in m.open
  {
    hide Inv, Closing, Among;
    InvIsOrdered(m);
    ClosingIs(m, sid);
    OwnAmong(m.open, sid, Closing(m, sid));
    forall r | r in m.open ensures r.Id() in Closing(m, sid) <==> r.Sid() == sid {
      var i :| 0 <= i < |m.open| && m.open[i] == r;
    }
    Members(m.open, Closing(m, sid));
  }

  // ----- which sessions there are -----

  predicate Given(p: Field<string>) { p.Read? && p.value != "" }

  /** The frame creates a session without a parent. */
  predicate CreatesRoot(i: Input) {
    && i.Received? && i.frame.SessionCreated? && i.frame.sid.Read? && PlainId(i.frame.sid.value)
    && !i.frame.parent.Unreadable? && !Given(i.frame.parent)
  }

  /** The first such frame makes the root, shows it as started, and no later one does anything. */
  lemma {:induction false} RootSince(inputs: seq<Input>)
    ensures var root := Run(inputs).0.root;
      if root == "" then forall n :: 0 <= n < |inputs| ==> !CreatesRoot(inputs[n])
      else exists n :: 0 <= n < |inputs| && CreatesRoot(inputs[n]) && root == inputs[n].frame.sid.value &&
             forall k :: 0 <= k < n ==> !CreatesRoot(inputs[k])
  {
    hide Next, PlainId, Inv;
    if inputs != [] {
      var front, i := inputs[..|inputs| - 1], inputs[|inputs| - 1];
      var m := Run(front).0;
      RootSince(front);
      RunFollowsLedger(front);
      RootStep(m, i);
      if m.root != "" {
        var n :| 0 <= n < |front| && CreatesRoot(front[n]) && m.root == front[n].frame.sid.value &&
          forall k :: 0 <= k < n ==> !CreatesRoot(front[k]);
        assert CreatesRoot(inputs[n]) && forall k :: 0 <= k < n ==> inputs[k] == front[k];
      } else {
        assert forall n :: 0 <= n < |front| ==> inputs[n] == front[n];
      }
    }
  }

  lemma RootStep(m: Model, i: Input)
    requires Inv(m)
    ensures Next(m, i).0.root == if m.root == "" && CreatesRoot(i) then i.frame.sid.value else m.root
    ensures m.root == "" && CreatesRoot(i) ==> i.frame.sid.value != ""
  {
    hide PlainId, ValidId, P.Permission, P.ReadAsked, FormOf, Find, Outside, Among, Closing, CancelEvents, TurnEvents,
      FormResolve.Valid, PermissionRequest.Valid, FormRequest.Valid, Inv;
    NotEmpty();
    if i.Received? && i.frame.SessionCreated? {
      IdsArePlain(Text(i.frame.sid));
      ScopeTells(m, Text(i.frame.parent));
    }
  }

  /** The frame creates a session below one that is known, and there is room for it. */
  predicate CreatesChild(m: Model, i: Input) {
    && i.Received? && i.frame.SessionCreated? && i.frame.sid.Read? && PlainId(i.frame.sid.value)
    && Given(i.frame.parent) && Session(m, i.frame.parent.value) && !Session(m, i.frame.sid.value) && |m.children| < 1024
  }

  /** The frame reports progress of a tool call in a known session. */
  predicate Progresses(m: Model, i: Input) {
    i.Received? && i.frame.ToolProgress? && i.frame.sid.Read? && Session(m, i.frame.sid.value) && Given(i.frame.callId)
  }

  /** The progress names a child of its own session that has no call yet. */
  predicate SetsCall(m: Model, i: Input) {
    && Progresses(m, i) && i.frame.child in m.children
    && m.children[i.frame.child] == Child(i.frame.sid.value, "")
  }

  /** How one input changes the children: a new one below its parent, the call of one that has none, or nothing. */
  lemma ChildrenStep(inputs: seq<Input>, i: Input)
    ensures var m := Run(inputs).0; var now := Next(m, i).0.children;
      now == if CreatesChild(m, i) then m.children[i.frame.sid.value := Child(i.frame.parent.value, "")]
             else if SetsCall(m, i) then m.children[i.frame.child := Child(i.frame.sid.value, i.frame.callId.value)]
             else m.children
  {
    hide Run, Inv, Next, CreatesChild, SetsCall;
    var m := Run(inputs).0;
    RunFollowsLedger(inputs);
    if i.Received? && i.frame.SessionCreated? { ChildCreated(m, i); }
    else if i.Received? && i.frame.ToolProgress? { CallSet(m, i); }
    else { ChildrenStay(m, i); }
  }

  lemma ChildCreated(m: Model, i: Input)
    requires Inv(m) && i.Received? && i.frame.SessionCreated?
    ensures !SetsCall(m, i)
    ensures Next(m, i).0.children ==
      if CreatesChild(m, i) then m.children[i.frame.sid.value := Child(i.frame.parent.value, "")] else m.children
  {
    hide PlainId, ValidId, Inv, Scope;
    NotEmpty();
    IdsArePlain(Text(i.frame.sid));
    IdsArePlain(Text(i.frame.parent));
    ScopeTells(m, Text(i.frame.parent));
    ScopeTells(m, Text(i.frame.sid));
    if Session(m, Text(i.frame.parent)) { SessionPlain(m, Text(i.frame.parent)); }
  }

  lemma CallSet(m: Model, i: Input)
    requires Inv(m) && i.Received? && i.frame.ToolProgress?
    ensures !CreatesChild(m, i)
    ensures Next(m, i).0.children ==
      if SetsCall(m, i) then m.children[i.frame.child := Child(i.frame.sid.value, i.frame.callId.value)] else m.children
  {
    hide Inv, Scope;
    ScopeTells(m, Text(i.frame.sid));
  }

  lemma ChildrenStay(m: Model, i: Input)
    requires !(i.Received? && (i.frame.SessionCreated? || i.frame.ToolProgress?))
    ensures Next(m, i).0.children == m.children && !CreatesChild(m, i) && !SetsCall(m, i)
  {
    hide P.Permission, P.ReadAsked, FormOf, Find, Outside, Closing, CancelEvents, TurnEvents, Scope, ValidId,
      FormResolve.Valid, PermissionRequest.Valid, FormRequest.Valid;
  }

  lemma SessionPlain(m: Model, sid: string)
    requires Inv(m) && Session(m, sid)
    ensures PlainId(sid)
  {
    KnownIsValid(m, sid);
    IdsArePlain(sid);
  }

  /** What the frames about sessions show. */
  lemma SessionFramesTell(inputs: seq<Input>, i: Input)
    requires i.Received? && (i.frame.SessionCreated? || i.frame.ToolProgress? || i.frame.Activity?)
    ensures var m := Run(inputs).0; var es := Decode(m, i.frame).1;
      match i.frame
      case SessionCreated(sid, parent, cwd, version) =>
        if m.root == "" && CreatesRoot(i)
        then |es| == 1 && es[0].SessionStarted? && es[0].session == sid.value && es[0].cwd == cwd && CutTo(es[0].version, version, 64)
        else es == if CreatesChild(m, i) then [] else [AgentFrame]
      case ToolProgress(sid, _, _) => es == [if Progresses(m, i) then ActivityEvent(From(m, sid.value)) else AgentFrame]
      case Activity(sid, readable, silent) =>
        if sid.Read? && Session(m, sid.value) && readable
        then es == if silent then [] else [ActivityEvent(From(m, sid.value))]
        else es == [AgentFrame]
      case _ => true
  {
    hide Run, PlainId, ValidId, Inv, Scope, ClampRunes, CutTo;
    var m := Run(inputs).0;
    RunFollowsLedger(inputs);
    NotEmpty();
    match i.frame
    case SessionCreated(sid, parent, cwd, version) =>
      IdsArePlain(Text(sid));
      IdsArePlain(Text(parent));
      ScopeTells(m, Text(parent));
      ScopeTells(m, Text(sid));
      if Session(m, Text(parent)) { SessionPlain(m, Text(parent)); }
      ClampTells(version, 64);
    case ToolProgress(sid, _, _) => ScopeTells(m, Text(sid));
    case Activity(sid, _, _) => ScopeTells(m, Text(sid));
    case _ =>
  }

  // ----- what is asked -----

  /** Whether the trace has a request event for this key. */
  ghost predicate Asked(trace: seq<Obs>, k: Key) { L.Asks(Acts(trace), k) > 0 }

  lemma SeenIsAsked(inputs: seq<Input>, k: Key)
    ensures var (m, trace) := Run(inputs); k in m.seen <==> Asked(trace, k)
  {
    hide Run, Inv, L.Replay, L.Lawful, L.Asks, L.Settles, Acts, LedgerOf;
    var (m, trace) := Run(inputs);
    RunFollowsLedger(inputs);
    L.OnceOnly(Acts(trace), k);
    SeenInLedger(m, k);
  }

  lemma SeenInLedger(m: Model, k: Key)
    requires Inv(m)
    ensures k in m.seen <==> L.IsOpen(LedgerOf(m).open, k) || k in LedgerOf(m).settled
  {
    if L.IsOpen(LedgerOf(m).open, k) {
      var i :| 0 <= i < |m.open| && LedgerOf(m).open[i].key == k;
      assert Listed(m, m.open[i]);
    }
    if k in m.seen && m.seen[k] == Requested {
      var r :| r in m.open && r.Id() == k;
      var i :| 0 <= i < |m.open| && m.open[i] == r;
      assert LedgerOf(m).open[i].key == k;
    }
  }

  predicate NoText(fields: map<string, Value>, name: string) { name in fields && !fields[name].Str? }

  /** The resources are absent or an array of texts. */
  predicate ReadableResources(fields: map<string, Value>) {
    "resources" in fields ==>
      fields["resources"].Array? && forall v :: v in fields["resources"].items ==> v.Str? || v.Null?
  }

  /** Nothing more is taken down: 64 requests are open, or too many were asked for. */
  predicate NoRoom(m: Model) { |m.open| >= 64 || |m.seen| >= 131072 }

  const REFUSED: seq<Event> := [AgentFrame, ErrorEvent("invalid", None, false)]

  /** Exactly when a permission is put before the human, and what is said when it is not. */
  lemma PermissionAskedTells(inputs: seq<Input>, data: Value)
    ensures var (m, trace) := Run(inputs); var f := FieldsOf(data);
      var id, sid, action := P.StringAt(f, "id"), P.StringAt(f, "sessionID"), P.StringAt(f, "action");
      var (m', es) := Decode(m, PermissionAsked(data));
      if NoText(f, "sessionID") || !Session(m, sid) then m' == m && es == [AgentFrame]
      else if NoText(f, "id") || !PlainId(id) || action == "" || !ReadableResources(f) then m' == m && es == REFUSED
      else if Asked(trace, Key(Permission, id)) then m' == m && es == [AgentFrame]
      else if NoRoom(m) then m' == m && es == [ErrorEvent("limit", None, false)]
      else if |action| > 128 then m' == m && es == REFUSED
      else
        && es == [PermissionRequested(From(m, sid), P.Permission(data))]
        && |m'.open| == |m.open| + 1 && m'.open[..|m.open|] == m.open && m'.open[|m.open|].Id() == Key(Permission, id)
        && m'.root == m.root && m'.children == m.children
  {
    hide Run, Inv, PlainId, ValidId, P.Permission, PermissionRequest.Valid, P.ReadAsked, Asked;
    var m, f := Run(inputs).0, FieldsOf(data);
    RunFollowsLedger(inputs);
    AskedFields(data);
    NotEmpty();
    IdsArePlain(P.StringAt(f, "id"));
    ScopeTells(m, P.StringAt(f, "sessionID"));
    SeenIsAsked(inputs, Key(Permission, P.StringAt(f, "id")));
    if PlainId(P.StringAt(f, "id")) && P.StringAt(f, "action") != "" { P.ValidUnlessNameTooLong(data); }
  }

  lemma AskedFields(data: Value)
    ensures var f, d := FieldsOf(data), P.ReadAsked(data);
      && Text(d.id) == P.StringAt(f, "id") && (d.id.Unreadable? <==> NoText(f, "id"))
      && Text(d.sid) == P.StringAt(f, "sessionID") && (d.sid.Unreadable? <==> NoText(f, "sessionID"))
      && Text(d.action) == P.StringAt(f, "action") && (d.action.Unreadable? <==> NoText(f, "action"))
      && (d.resources.Unreadable? <==> !ReadableResources(f))
  {
  }

  /** The form as it is put before the human, told from what the agent sent. */
  ghost predicate FormTells(f: FormData, r: FormRequest) {
    var fs := if f.fields.Read? then f.fields.value else [];
    && r.requestId == Text(f.id) && r.callId == f.callId && r.title == f.title
    && r.kind == (if f.kind.Read? && PlainKind(f.kind.value) then f.kind.value else "other")
    && |r.fields| == |fs| && forall i :: 0 <= i < |fs| ==> FieldTells(fs[i], r.fields[i])
  }

  /** Up to 64 letters, digits, dots, hyphens and underscores. */
  predicate PlainKind(k: string) {
    && 1 <= |k| <= 64
    && forall c :: c in k ==> 'a' <= c <= 'z' || 'A' <= c <= 'Z' || '0' <= c <= '9' || c in {'_', '-', '.'}
  }

  lemma KindsArePlain(k: string)
    ensures SafeKind(k) <==> PlainKind(k)
  {
    if SafeKind(k) {
      forall c | c in k ensures KindChar(c) { var i :| 0 <= i < |k| && k[i] == c; }
    } else if PlainKind(k) {
      forall i | 0 <= i < |k| ensures KindChar(k[i]) { assert k[i] in k; }
    }
  }

  /** A field can be answered with one of its options, with several, or with a text; an option without a value sends its caption. */
  ghost predicate FieldTells(d: FieldData, x: FormField) {
    var os := if d.options.Read? then d.options.value else [];
    && x.key == d.key && x.title == d.title && x.description == d.description && x.custom == d.custom && x.required == d.required
    && (if d.fieldType == Read("multiselect") then x.fieldType == Multiselect
        else d.fieldType == Read("string") && x.fieldType == if os == [] then FreeText else Select)
    && |x.options| == |os|
    && forall j :: 0 <= j < |os| ==>
         x.options[j] == FormOption(os[j].caption, if os[j].value != "" then os[j].value else os[j].caption, os[j].description)
  }

  /** A field whose type or whose options cannot be read or are not known. */
  predicate Unanswerable(d: FieldData) {
    || (d.fieldType != Read("multiselect") && d.fieldType != Read("string"))
    || d.options.Unreadable?
  }

  lemma FieldIs(d: FieldData)
    ensures FieldOf(d).None? <==> Unanswerable(d)
    ensures FieldOf(d).Some? ==> FieldTells(d, FieldOf(d).value)
  {
    var os := if d.options.Read? then d.options.value else [];
    assert |OptionsOf(d)| == |os| && (OptionsOf(d) == [] <==> os == []);
    assert forall j :: 0 <= j < |os| ==> OptionsOf(d)[j] == OptionOf(os[j]);
  }

  lemma {:induction false} FieldsAre(fs: seq<FieldData>)
    ensures FieldsOfForm(fs).None? <==> exists i :: 0 <= i < |fs| && Unanswerable(fs[i])
    ensures FieldsOfForm(fs).Some? ==> |FieldsOfForm(fs).value| == |fs|
    ensures FieldsOfForm(fs).Some? ==> forall i :: 0 <= i < |fs| ==> FieldTells(fs[i], FieldsOfForm(fs).value[i])
  {
    hide FieldOf, Unanswerable, FieldTells;
    if fs != [] {
      var front, last := fs[..|fs| - 1], fs[|fs| - 1];
      FieldsAre(front);
      FieldIs(last);
      if FieldsOfForm(front).None? {
        var i :| 0 <= i < |front| && Unanswerable(front[i]);
        assert Unanswerable(fs[i]);
      }
      assert forall i :: 0 <= i < |front| ==> front[i] == fs[i];
    }
  }

  /** A form can be built exactly when every field can be answered, and then it is the one that was sent. */
  lemma FormIs(f: FormData)
    ensures FormOf(f).None? <==>
      f.fields.Unreadable? || (f.fields.Read? && exists i :: 0 <= i < |f.fields.value| && Unanswerable(f.fields.value[i]))
    ensures FormOf(f).Some? ==> FormTells(f, FormOf(f).value)
  {
    hide FieldsOfForm, Unanswerable, FieldTells, SafeKind, PlainKind;
    FieldsAre(if f.fields.Read? then f.fields.value else []);
    if f.kind.Read? { KindsArePlain(f.kind.value); }
  }

  /** Exactly when a form is put before the human, and what is said when it is not. */
  lemma FormCreatedTells(inputs: seq<Input>, form: Field<FormData>)
    ensures var (m, trace) := Run(inputs); var (m', es) := Decode(m, FormCreated(form));
      if !form.Read? || !form.value.sid.Read? || !Session(m, form.value.sid.value) then m' == m && es == [AgentFrame]
      else
        var f, id := form.value, Text(form.value.id);
        if !PlainId(id) then m' == m && es == REFUSED
        else if Asked(trace, Key(Form, id)) then m' == m && es == [AgentFrame]
        else if NoRoom(m) then m' == m && es == [ErrorEvent("limit", None, false)]
        else if FormOf(f).None? || !FormOf(f).value.Valid() then m' == m && es == REFUSED
        else
          && es == [FormRequestedEvent(From(m, f.sid.value), FormOf(f).value)] && FormTells(f, FormOf(f).value)
          && |m'.open| == |m.open| + 1 && m'.open[..|m.open|] == m.open && m'.open[|m.open|].Id() == Key(Form, id)
          && m'.root == m.root && m'.children == m.children
  {
    hide Run, Inv, PlainId, ValidId, FormRequest.Valid, FormOf, FormTells, Asked;
    var m := Run(inputs).0;
    RunFollowsLedger(inputs);
    NotEmpty();
    if form.Read? {
      var f := form.value;
      IdsArePlain(Text(f.id));
      ScopeTells(m, Text(f.sid));
      SeenIsAsked(inputs, Key(Form, Text(f.id)));
      FormIs(f);
    }
  }

  // ----- settlements of what is not open -----

  /** The event of a decision that a human has sent for the key. */
  predicate HumanDecides(o: Obs, k: Key) {
    && o.Emitted?
    && match o.event
       case PermissionResolved(_, actor, _, id) => actor == "human" && k == Key(Permission, id)
       case FormResolved(_, actor, _, id, _) => actor == "human" && k == Key(Form, id)
       case _ => false
  }

  ghost predicate DecidedHere(trace: seq<Obs>, k: Key) { exists j :: 0 <= j < |trace| && HumanDecides(trace[j], k) }

  lemma {:induction false} MarkTells(inputs: seq<Input>, k: Key)
    ensures var (m, trace) := Run(inputs); k in m.seen && m.seen[k] == ByUs <==> DecidedHere(trace, k)
  {
    hide Next, Inv, HumanDecides;
    if inputs != [] {
      var front, i := inputs[..|inputs| - 1], inputs[|inputs| - 1];
      var (m, trace) := Run(front);
      var obs := Next(m, i).1;
      MarkTells(front, k);
      RunFollowsLedger(front);
      MarkStep(m, i, k);
      assert forall j :: 0 <= j < |trace| ==> (trace + obs)[j] == trace[j];
      assert forall j :: 0 <= j < |obs| ==> (trace + obs)[|trace| + j] == obs[j];
    }
  }

  lemma MarkStep(m: Model, i: Input, k: Key)
    requires Inv(m)
    ensures var (m', obs) := Next(m, i);
      k in m'.seen && m'.seen[k] == ByUs <==> (k in m.seen && m.seen[k] == ByUs) || DecidedHere(obs, k)
  {
    hide Inv, ValidId, P.Permission, P.ReadAsked, FormOf, Scope, OriginOf, Outside, Find, FormResolve.Valid,
      PermissionRequest.Valid, FormRequest.Valid, OnExecutionEnded, Encode;
    match i
    case Commanded(c) => MarkByCommand(m, c, k);
    case Received(f) =>
      match f
      case ExecutionEnded(sid, ending) => MarkByEnd(m, sid, ending, k);
      case PermissionReplied(id, _, _) => NotOpenMarks(m, Key(Permission, Text(id)));
      case FormReplied(id, _, _) => NotOpenMarks(m, Key(Form, Text(id)));
      case FormCancelled(id, _) => NotOpenMarks(m, Key(Form, Text(id)));
      case _ =>
  }

  lemma NotOpenMarks(m: Model, k: Key)
    requires Inv(m)
    ensures Find(m.open, k).Some? ==> k in m.seen && m.seen[k] == Requested
  {
    Found(m.open, k);
    if Find(m.open, k).Some? { assert Listed(m, Find(m.open, k).value); }
  }

  lemma MarkByCommand(m: Model, c: Command, k: Key)
    requires Inv(m)
    ensures var (m', obs) := Next(m, Commanded(c));
      k in m'.seen && m'.seen[k] == ByUs <==> (k in m.seen && m.seen[k] == ByUs) || DecidedHere(obs, k)
  {
    hide Inv, ValidId, OriginOf, Outside, Find, FormResolve.Valid;
    var (m', r) := Encode(m, c);
    if r.Sent? {
      var obs := Next(m, Commanded(c)).1;
      assert obs[0] == Wrote(r.line) && |obs| == 1 + |r.events|;
      if c.ResolvePermission? || c.ResolveForm? { assert obs[1] == Emitted(r.events[0]); }
    }
  }

  lemma MarkByEnd(m: Model, sid: Field<string>, ending: Ending, k: Key)
    requires Inv(m)
    ensures var (m', es) := OnExecutionEnded(m, sid, ending);
      && (k in m'.seen && m'.seen[k] == ByUs <==> k in m.seen && m.seen[k] == ByUs)
      && !DecidedHere(Emit(es), k)
  {
    hide Inv, Scope, OriginOf, Outside, Among, ByteLen, ValidId;
    forall r | r in m.open ensures r.Id() in m.seen && m.seen[r.Id()] == Requested { OpenMark(m, r); }
  }

  lemma OpenMark(m: Model, r: Request)
    requires Inv(m) && r in m.open
    ensures r.Id() in m.seen && m.seen[r.Id()] == Requested
  {
    assert Listed(m, r);
  }

  /** A reply for what is not open shows nothing when it echoes a decision of ours, and is passed over otherwise. */
  lemma NotOpenTells(inputs: seq<Input>, id: Field<string>, sid: Field<string>)
    ensures var (m, trace) := Run(inputs); var quiet := id.Read? && !sid.Unreadable?;
      && ((forall r :: r in m.open ==> r.Id() != Key(Permission, Text(id))) ==>
            forall reply :: Decode(m, PermissionReplied(id, sid, reply)) ==
              (m, if quiet && DecidedHere(trace, Key(Permission, id.value)) then [] else [AgentFrame]))
      && ((forall r :: r in m.open ==> r.Id() != Key(Form, Text(id))) ==>
            && (forall answer :: Decode(m, FormReplied(id, sid, answer)) ==
                 (m, if quiet && DecidedHere(trace, Key(Form, id.value)) then [] else [AgentFrame]))
            && Decode(m, FormCancelled(id, sid)) ==
                 (m, if quiet && DecidedHere(trace, Key(Form, id.value)) then [] else [AgentFrame]))
  {
    hide Run, Inv, ValidId, Find, DecidedHere;
    var m := Run(inputs).0;
    RunFollowsLedger(inputs);
    MarkTells(inputs, Key(Permission, Text(id)));
    MarkTells(inputs, Key(Form, Text(id)));
    SeenAreIds(inputs, Key(Permission, Text(id)));
    SeenAreIds(inputs, Key(Form, Text(id)));
    Found(m.open, Key(Permission, Text(id)));
    Found(m.open, Key(Form, Text(id)));
    NoEmptyId();
  }

  lemma NoEmptyId()
    ensures !ValidId("")
  {
  }

  /** Only readable IDs were ever asked for. */
  lemma {:induction false} SeenAreIds(inputs: seq<Input>, k: Key)
    ensures k in Run(inputs).0.seen ==> ValidId(k.id)
  {
    hide Next, Inv, ValidId;
    if inputs != [] {
      var front := inputs[..|inputs| - 1];
      SeenAreIds(front, k);
      RunFollowsLedger(front);
      SeenStep(Run(front).0, inputs[|inputs| - 1], k);
    }
  }

  lemma SeenStep(m: Model, i: Input, k: Key)
    requires Inv(m)
    ensures k in Next(m, i).0.seen ==> k in m.seen || ValidId(k.id)
  {
    hide Inv, ValidId, P.Permission, P.ReadAsked, FormOf, Scope, OriginOf, Outside, Among, Find, CancelEvents, TurnEvents,
      FormResolve.Valid, PermissionRequest.Valid, FormRequest.Valid;
    if i.Received? && i.frame.ExecutionEnded? { OpenAreIds(m); }
  }

  lemma OpenAreIds(m: Model)
    requires Inv(m)
    ensures forall r :: r in m.open ==> ValidId(r.Id().id)
  {
    hide ValidId;
    forall r | r in m.open ensures ValidId(r.id) { assert Listed(m, r); }
  }

  // ----- commands -----

  predicate MayBe(outcome: string, r: Request) {
    outcome == "reject_once" || (outcome == "allow_once" && r.PermRequest? && !r.perm.truncated)
  }

  /** What each command writes, when it is taken, and exactly when it is refused. */
  lemma CommandTells(inputs: seq<Input>, c: Command)
    ensures var m := Run(inputs).0; var (m', e) := Encode(m, c);
      match c
      case Prompt(text) =>
        m' == m && e == if text == "" || m.root == "" then Refused
                        else Sent(Http("POST", ["session", m.root, "prompt"], TextBody(text)), [TurnStarted(text)])
      case Cancel => m' == m && e == if m.root == "" then Refused else Sent(Http("POST", ["session", m.root, "interrupt"], NoBody), [])
      case ResolvePermission(id, outcome) =>
        e.Sent? <==> exists r :: r in m.open && r.Id() == Key(Permission, id) && MayBe(outcome, r)
      case ResolveForm(f) =>
        e.Sent? <==> exists r :: r in m.open && r.Id() == Key(Form, f.requestId) && f.Valid(r.form.form)
      case _ => e.Refused?
  {
    hide Run, Inv, ValidId, Find, FormResolve.Valid, Outside;
    var m := Run(inputs).0;
    RunFollowsLedger(inputs);
    RootIsId(m);
    match c
    case ResolvePermission(id, _) => OnlyFound(m, Key(Permission, id));
    case ResolveForm(f) => OnlyFound(m, Key(Form, f.requestId));
    case _ =>
  }

  lemma RootIsId(m: Model)
    requires Inv(m)
    ensures m.root != "" ==> ValidId(m.root)
  {
  }

  lemma OnlyFound(m: Model, k: Key)
    requires Inv(m)
    ensures Find(m.open, k).None? <==> forall r :: r in m.open ==> r.Id() != k
    ensures forall r :: r in m.open && r.Id() == k ==> Find(m.open, k) == Some(r) && ValidId(r.id) && ValidId(r.Sid())
  {
    hide Inv, ValidId, Find;
    Found(m.open, k);
    forall r | r in m.open && r.Id() == k ensures Find(m.open, k) == Some(r) && ValidId(r.id) && ValidId(r.Sid()) {
      OpenIsFound(m, r);
    }
  }
}
