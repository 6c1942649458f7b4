/**
  agent/opencode as the source has it: a Stream whose hash maps are updated frame by frame.
  Every method is proved to follow the machine of OpencodeModel, whatever order the map
  iterations take; a map that is still nil is never written to.
 */
module OpencodeStream {
  import opened Wrappers
  import opened Json
  import opened V0
  import opened OpencodeModel
  import opened OpencodeRuns
  import opened Go
  import P = OpencodePermission

  /** What closePending collects from the two tables before it sorts. */
  datatype Entry = Entry(key: Key, sid: string)

  type Row = Arrival<Entry>

  function RowOf(r: Request): Row { Arrival(r.SeqNo(), Entry(r.Id(), r.Sid())) }

  function RowsOf(rs: seq<Request>): seq<Row> {
    seq(|rs|, i requires 0 <= i < |rs| => RowOf(rs[i]))
  }

  // ----- the two tables against the list -----

  /** The two tables hold exactly the open requests. */
  ghost predicate Tables(pending: map<string, PendingPerm>, forms: map<string, PendingForm>, open: seq<Request>) {
    && (forall id :: id in pending ==> PermRequest(id, pending[id]) in open)
    && (forall id :: id in forms ==> FormRequested(id, forms[id]) in open)
    && (forall r :: r in open && r.PermRequest? ==> r.id in pending && pending[r.id] == r.perm)
    && (forall r :: r in open && r.FormRequested? ==> r.id in forms && forms[r.id] == r.form)
    && |pending| + |forms| == |open|
  }

  lemma TablesEnter(pending: map<string, PendingPerm>, forms: map<string, PendingForm>, open: seq<Request>, r: Request)
    requires Tables(pending, forms, open)
    ensures r.PermRequest? && r.id !in pending ==> Tables(pending[r.id := r.perm], forms, open + [r])
    ensures r.FormRequested? && r.id !in forms ==> Tables(pending, forms[r.id := r.form], open + [r])
  {
    if r.PermRequest? && r.id !in pending { TablesEnterPerm(pending, forms, open, r); }
    if r.FormRequested? && r.id !in forms { TablesEnterForm(pending, forms, open, r); }
  }

  lemma TablesEnterPerm(pending: map<string, PendingPerm>, forms: map<string, PendingForm>, open: seq<Request>, r: Request)
    requires Tables(pending, forms, open) && r.PermRequest? && r.id !in pending
    ensures Tables(pending[r.id := r.perm], forms, open + [r])
  {
    assert forall x :: x in open + [r] <==> x in open || x == r;
  }

  lemma TablesEnterForm(pending: map<string, PendingPerm>, forms: map<string, PendingForm>, open: seq<Request>, r: Request)
    requires Tables(pending, forms, open) && r.FormRequested? && r.id !in forms
    ensures Tables(pending, forms[r.id := r.form], open + [r])
  {
    assert forall x :: x in open + [r] <==> x in open || x == r;
  }

  lemma DropOne<V>(rows: map<string, V>, id: string)
    requires id in rows
    ensures |rows - {id}| == |rows| - 1
  {
    assert (rows - {id}).Keys == rows.Keys - {id};
  }

  lemma TablesLeavePerm(pending: map<string, PendingPerm>, forms: map<string, PendingForm>, open: seq<Request>, r: Request)
    requires Tables(pending, forms, open) && Ordered(open) && r in open && r.PermRequest?
    ensures Tables(pending - {r.id}, forms, Outside(open, {r.Id()}))
  {
    hide Ordered, Outside, Among;
    Members(open, {r.Id()});
    AmongOne(open, r);
    DropOne(pending, r.id);
  }

  lemma TablesLeaveForm(pending: map<string, PendingPerm>, forms: map<string, PendingForm>, open: seq<Request>, r: Request)
    requires Tables(pending, forms, open) && Ordered(open) && r in open && r.FormRequested?
    ensures Tables(pending, forms - {r.id}, Outside(open, {r.Id()}))
  {
    hide Ordered, Outside, Among;
    Members(open, {r.Id()});
    AmongOne(open, r);
    DropOne(forms, r.id);
  }

  lemma InvOrdered(m: Model)
    requires Inv(m)
    ensures Ordered(m.open)
  {
  }

  lemma TablesSeen(pending: map<string, PendingPerm>, forms: map<string, PendingForm>, m: Model)
    requires Tables(pending, forms, m.open) && Table(m)
    ensures forall id :: id in pending ==> Key(Permission, id) in m.seen
    ensures forall id :: id in forms ==> Key(Form, id) in m.seen
  {
    forall id | id in pending ensures Key(Permission, id) in m.seen {
      assert Listed(m, PermRequest(id, pending[id]));
    }
    forall id | id in forms ensures Key(Form, id) in m.seen {
      assert Listed(m, FormRequested(id, forms[id]));
    }
  }

  lemma AdmitInv(m: Model, r: Request)
    requires Inv(m) && !Full(m) && r.Id() !in m.seen && ValidId(r.id) && r.SeqNo() == m.nextSeq + 1
    requires Known(m, r.Sid()) && m.root != "" && (r.FormRequested? ==> r.form.form.requestId == r.id)
    ensures Inv(Admit(m, r))
  {
    hide Forest, Table, ValidId;
    AdmitTable(m, r);
  }

  lemma TablesUnseen(pending: map<string, PendingPerm>, forms: map<string, PendingForm>, m: Model, r: Request)
    requires Tables(pending, forms, m.open) && Inv(m) && r.Id() !in m.seen
    ensures r.PermRequest? ==> r.id !in pending
    ensures r.FormRequested? ==> r.id !in forms
  {
    hide Forest;
    TablesSeen(pending, forms, m);
  }

  lemma LeaveOk(m: Model, r: Request, mark: Mark)
    requires Inv(m) && r in m.open && mark != Requested
    ensures Inv(Settle(m, r.Id(), mark))
  {
    SettleIsClose(m, r.Id(), mark);
    CloseTable(m, Settle(m, r.Id(), mark), {r.Id()}, mark);
  }

  // ----- closing one by one is closing the set -----

  function KeySet(rows: seq<Row>): set<Key> {
    if rows == [] then {} else KeySet(rows[..|rows| - 1]) + {rows[|rows| - 1].item.key}
  }

  lemma {:induction false} KeySetOf(rs: seq<Request>)
    ensures forall k :: k in KeySet(RowsOf(rs)) ==> exists r :: r in rs && r.Id() == k
    ensures forall r :: r in rs ==> r.Id() in KeySet(RowsOf(rs))
  {
    if rs != [] {
      var front, last := rs[..|rs| - 1], rs[|rs| - 1];
      KeySetOf(front);
      assert RowsOf(rs)[..|rs| - 1] == RowsOf(front);
      forall k | k in KeySet(RowsOf(rs)) ensures exists r :: r in rs && r.Id() == k {
        if k in KeySet(RowsOf(front)) {
          var r :| r in front && r.Id() == k;
          assert r in rs;
        } else {
          assert last in rs;
        }
      }
    }
  }

  lemma {:induction false} OutsideTwice(open: seq<Request>, ks: set<Key>, k: Key)
    ensures Outside(Outside(open, ks), {k}) == Outside(open, ks + {k})
    ensures Outside(open, {}) == open
  {
    if open != [] {
      var front, last := open[..|open| - 1], open[|open| - 1];
      OutsideTwice(front, ks, k);
      assert open == front + [last];
      var kept := Outside(front, ks);
      assert (kept + [last])[..|kept|] == kept;
    }
  }

  lemma CloseOneMore(m: Model, ks: set<Key>, k: Key)
    ensures Settle(Close(m, ks), k, ByAgent) == Close(m, ks + {k})
    ensures Close(m, {}) == m
  {
    OutsideTwice(m.open, ks, k);
    assert (m.seen + (map x | x in ks :: ByAgent))[k := ByAgent] == m.seen + (map x | x in ks + {k} :: ByAgent);
    var none: set<Key> := {};
    assert m.seen + (map x | x in none :: ByAgent) == m.seen;
  }

  /** The rows of the open requests that session sid takes with it, in arrival order. */
  ghost function Target(m: Model, sid: string): seq<Row> { RowsOf(Among(m.open, Closing(m, sid))) }

  lemma TargetSorted(m: Model, sid: string)
    requires Ordered(m.open)
    ensures Sorted(Target(m, sid))
  {
    StillOrdered(m.open, Closing(m, sid));
    var rs := Among(m.open, Closing(m, sid));
    forall i, j | 0 <= i < j < |rs| ensures RowOf(rs[i]).seqNo < RowOf(rs[j]).seqNo {
      assert Before(rs[i], rs[j]);
    }
  }

  lemma InTarget(m: Model, sid: string, r: Request)
    requires Ordered(m.open) && r in m.open
    ensures RowOf(r) in Target(m, sid) <==> sid == m.root || r.Sid() == sid
  {
    hide Ordered, Closing, Among;
    var ks := Closing(m, sid);
    var rs := Among(m.open, ks);
    Members(m.open, ks);
    ClosingIs(m, sid);
    var i :| 0 <= i < |m.open| && m.open[i] == r;
    if r in rs {
      var j :| 0 <= j < |rs| && rs[j] == r;
      assert Target(m, sid)[j] == RowOf(r);
    }
    if RowOf(r) in Target(m, sid) {
      var j :| 0 <= j < |rs| && RowOf(rs[j]) == RowOf(r);
      assert rs[j] in rs;
      OneByKey(m.open, rs[j], r);
    }
  }

  lemma OneByKey(open: seq<Request>, a: Request, b: Request)
    requires Ordered(open) && a in open && b in open && a.Id() == b.Id()
    ensures a == b
  {
    FoundOnly(open, a);
    FoundOnly(open, b);
  }

  lemma FromTarget(m: Model, sid: string, x: Row)
    requires x in Target(m, sid)
    ensures exists r :: r in m.open && RowOf(r) == x
  {
    var rs := Among(m.open, Closing(m, sid));
    Members(m.open, Closing(m, sid));
    var j :| 0 <= j < |rs| && RowOf(rs[j]) == x;
    assert rs[j] in rs;
  }

  /** The rows collected so far: only rows of the target, and every one whose key is done. */
  ghost predicate Collected(rows: seq<Row>, target: seq<Row>, done: set<Key>) {
    && (forall i :: 0 <= i < |rows| ==> rows[i] in target && rows[i].item.key in done)
    && (forall i, j :: 0 <= i < j < |rows| ==> rows[i].item.key != rows[j].item.key)
    && (forall x :: x in target && x.item.key in done ==> x in rows)
  }

  lemma CollectedDistinct(rows: seq<Row>, target: seq<Row>, done: set<Key>)
    requires Collected(rows, target, done) && Sorted(target)
    ensures forall i, j :: 0 <= i < j < |rows| ==> rows[i].seqNo != rows[j].seqNo
  {
    forall i, j | 0 <= i < j < |rows| ensures rows[i].seqNo != rows[j].seqNo {
      assert rows[i] in target && rows[j] in target;
      var p :| 0 <= p < |target| && target[p] == rows[i];
      var q :| 0 <= q < |target| && target[q] == rows[j];
      assert p != q;
    }
  }

  lemma CollectOneMore(m: Model, sid: string, rows: seq<Row>, done: set<Key>, r: Request)
    requires Ordered(m.open) && r in m.open && r.Id() !in done && Collected(rows, Target(m, sid), done)
    ensures Collected(if sid == m.root || r.Sid() == sid then rows + [RowOf(r)] else rows, Target(m, sid), done + {r.Id()})
  {
    hide Target;
    InTarget(m, sid, r);
    var rows' := if sid == m.root || r.Sid() == sid then rows + [RowOf(r)] else rows;
    forall x | x in Target(m, sid) && x.item.key in done + {r.Id()} ensures x in rows' {
      if x.item.key == r.Id() {
        FromTarget(m, sid, x);
        var r' :| r' in m.open && RowOf(r') == x;
        OneByKey(m.open, r', r);
      } else {
        assert x in rows;
      }
    }
  }

  lemma StillOpen(m: Model, rs: seq<Request>, i: nat)
    requires Ordered(m.open) && i < |rs|
    requires exists ks :: rs == Among(m.open, ks)
    ensures rs[i] in Close(m, KeySet(RowsOf(rs)[..i])).open
  {
    hide Ordered;
    var ks :| rs == Among(m.open, ks);
    Members(m.open, ks);
    StillOrdered(m.open, ks);
    assert RowsOf(rs)[..i] == RowsOf(rs[..i]);
    KeySetOf(rs[..i]);
    var gone := KeySet(RowsOf(rs[..i]));
    Members(m.open, gone);
    assert rs[i] in rs;
    if rs[i].Id() in gone {
      var r :| r in rs[..i] && r.Id() == rs[i].Id();
      var j :| 0 <= j < i && rs[j] == r;
      OrderedDistinct(rs, j, i);
    }
  }

  lemma OrderedDistinct(rs: seq<Request>, j: nat, i: nat)
    requires Ordered(rs) && j < i < |rs|
    ensures rs[j].Id() != rs[i].Id()
  {
    assert Before(rs[j], rs[i]);
  }

  lemma AllKeys(m: Model, sid: string)
    ensures KeySet(Target(m, sid)) == Closing(m, sid)
  {
    var ks := Closing(m, sid);
    var rs := Among(m.open, ks);
    Members(m.open, ks);
    KeySetOf(rs);
    forall k | k in ks ensures k in KeySet(RowsOf(rs)) {
      var r :| r in m.open && (sid == m.root || r.Sid() == sid) && r.Id() == k;
      assert r in rs;
    }
  }

  function CancelRow(row: Row, origin: Origin): Event {
    if row.item.key.kind == Form then FormResolved(origin, "agent", CANCELLED, row.item.key.id, None)
    else PermissionResolved(origin, "agent", CANCELLED, row.item.key.id)
  }

  lemma NoneYet(m: Model, rows: seq<Row>, rs: seq<Request>)
    ensures Close(m, KeySet(rows[..0])) == m && CancelEvents(m, rs[..0]) == []
  {
    CloseOneMore(m, {}, Key(Form, ""));
  }

  lemma SameSessions(m: Model, ks: set<Key>, sid: string)
    ensures OriginOf(Close(m, ks), sid) == OriginOf(m, sid)
  {
  }

  lemma OneMoreRow(m: Model, rs: seq<Request>, i: nat)
    requires i < |rs|
    ensures var rows := RowsOf(rs);
      && Settle(Close(m, KeySet(rows[..i])), rows[i].item.key, ByAgent) == Close(m, KeySet(rows[..i + 1]))
      && CancelEvents(m, rs[..i + 1]) == CancelEvents(m, rs[..i]) + [CancelRow(rows[i], OriginOf(m, rows[i].item.sid))]
  {
    hide Close, Settle;
    var rows := RowsOf(rs);
    CloseOneMore(m, KeySet(rows[..i]), rows[i].item.key);
    assert rows[..i + 1][..i] == rows[..i];
    assert rs[..i + 1] == rs[..i] + [rs[i]];
  }

  lemma SessionInv(m: Model, f: Frame)
    requires Inv(m) && (f.SessionCreated? || f.ToolProgress?)
    ensures Inv(Decode(m, f).0) && Decode(m, f).0.open == m.open && Decode(m, f).0.seen == m.seen
    ensures f.SessionCreated? ==> Decode(m, f) == OnSessionCreated(m, f.sid, f.parent, f.cwd, f.version)
    ensures f.ToolProgress? ==> Decode(m, f) == OnToolProgress(m, f.sid, f.callId, f.child)
  {
    hide Inv, ValidId, Scope;
    SessionOk(m, f);
  }

  class Stream {
    var root: string
    var children: GoMap<string, Child>
    var pending: GoMap<string, PendingPerm>
    var forms: GoMap<string, PendingForm>
    var seen: GoMap<Key, Mark>
    var nextSeq: nat
    ghost var open: seq<Request>

    /** The state as a value, with the open requests as one list in arrival order. */
    ghost function View(): Model
      reads this
    {
      Model(root, children.Rows(), open, seen.Rows(), nextSeq)
    }

    ghost predicate Valid()
      reads this
    {
      Inv(View()) && Tables(pending.Rows(), forms.Rows(), open) && (open != [] ==> seen.Made?)
    }

    constructor ()
      ensures Valid() && View() == INITIAL
    {
      root, nextSeq, open := "", 0, [];
      children, pending, forms, seen := Nil, Nil, Nil, Nil;
    }

    method ScopeOf(sid: string) returns (r: Option<Origin>)
      ensures r == Scope(View(), sid)
    {
      if sid == "" || root == "" { return None; }
      if sid == root { return Some(OfRoot); }
      if sid !in children.Rows() { return None; }
      return Some(OfChild(sid, children.Rows()[sid].callId));
    }

    // ----- sessions -----

    method OnSession(sid: Field<string>, parent: Field<string>, cwd: string, version: string) returns (es: seq<Event>)
      requires Valid()
      modifies this
      ensures Valid()
      ensures (View(), es) == OnSessionCreated(old(View()), sid, parent, cwd, version)
    {
      hide Inv, Tables, ValidId;
      SessionInv(View(), SessionCreated(sid, parent, cwd, version));
      var s, p := Text(sid), Text(parent);
      if sid.Unreadable? || !ValidId(s) || parent.Unreadable? { return [AgentFrame]; }
      if p != "" {
        var parentKnown := ScopeOf(p);
        var dup := ScopeOf(s);
        if parentKnown.None? || dup.Some? || |children.Rows()| >= MAX_CHILDREN || !ValidId(p) { return [AgentFrame]; }
        children := children.Make();
        children := children.Set(s, Child(p, ""));
        return [];
      }
      if root != "" { return [AgentFrame]; }
      root := s;
      return [SessionStarted(s, cwd, ClampRunes(version, 64))];
    }

    method OnProgress(sid: Field<string>, callId: Field<string>, child: string) returns (es: seq<Event>)
      requires Valid()
      modifies this
      ensures Valid()
      ensures (View(), es) == OnToolProgress(old(View()), sid, callId, child)
    {
      hide Inv, Tables, ValidId;
      SessionInv(View(), ToolProgress(sid, callId, child));
      var origin := ScopeOf(Text(sid));
      if origin.None? || sid.Unreadable? || callId.Unreadable? || Text(callId) == "" { return [AgentFrame]; }
      if child in children.Rows() {
        var c := children.Rows()[child];
        if c.parent == Text(sid) && c.callId == "" {
          children := children.Set(child, c.(callId := Text(callId)));
        }
      }
      return [ActivityEvent(origin.value)];
    }

    // ----- the tables -----

    method Enter(r: Request)
      requires Valid() && !Full(View()) && r.Id() !in seen.Rows() && ValidId(r.id) && r.SeqNo() == nextSeq + 1
      requires Known(View(), r.Sid()) && root != "" && (r.FormRequested? ==> r.form.form.requestId == r.id)
      modifies this
      ensures Valid() && View() == Admit(old(View()), r)
    {
      hide Inv, Tables, Known, ValidId;
      AdmitInv(View(), r);
      TablesUnseen(pending.Rows(), forms.Rows(), View(), r);
      TablesEnter(pending.Rows(), forms.Rows(), open, r);
      if r.PermRequest? { pending := pending.Make(); } else { forms := forms.Make(); }
      seen := seen.Make();
      seen := seen.Set(r.Id(), Requested);
      nextSeq := nextSeq + 1;
      if r.PermRequest? { pending := pending.Set(r.id, r.perm); } else { forms := forms.Set(r.id, r.form); }
      open := open + [r];
      assert View() == Admit(old(View()), r);
    }

    method Leave(r: Request, mark: Mark)
      requires Valid() && r in open && mark != Requested
      modifies this
      ensures Valid() && View() == Settle(old(View()), r.Id(), mark)
      ensures root == old(root) && children == old(children)
    {
      hide Inv, Tables, Outside, Ordered, GoMap.Rows, GoMap.Set, GoMap.Delete;
      LeaveOk(View(), r, mark);
      InvOrdered(View());
      if r.PermRequest? {
        TablesLeavePerm(pending.Rows(), forms.Rows(), open, r);
        DeleteRows(pending, r.id);
        pending := pending.Delete(r.id);
      } else {
        TablesLeaveForm(pending.Rows(), forms.Rows(), open, r);
        DeleteRows(forms, r.id);
        forms := forms.Delete(r.id);
      }
      SetRows(seen, r.Id(), mark);
      seen := seen.Set(r.Id(), mark);
      open := Outside(open, {r.Id()});
      assert View() == Settle(old(View()), r.Id(), mark);
    }

    lemma FindPending(id: string)
      requires Valid()
      ensures id in pending.Rows() ==> Find(open, Key(Permission, id)) == Some(PermRequest(id, pending.Rows()[id]))
      ensures id !in pending.Rows() ==> Find(open, Key(Permission, id)).None?
    {
      Found(open, Key(Permission, id));
      if id in pending.Rows() { FoundOnly(open, PermRequest(id, pending.Rows()[id])); }
    }

    lemma FindForm(id: string)
      requires Valid()
      ensures id in forms.Rows() ==> Find(open, Key(Form, id)) == Some(FormRequested(id, forms.Rows()[id]))
      ensures id !in forms.Rows() ==> Find(open, Key(Form, id)).None?
    {
      Found(open, Key(Form, id));
      if id in forms.Rows() { FoundOnly(open, FormRequested(id, forms.Rows()[id])); }
    }

    method OriginFor(sid: string) returns (o: Origin)
      ensures o == OriginOf(View(), sid)
    {
      var r := ScopeOf(sid);
      o := if r.Some? then r.value else OfRoot;
    }

    // ----- permissions -----

    method OnAsked(data: Value) returns (es: seq<Event>)
      requires Valid()
      modifies this
      ensures Valid()
      ensures (View(), es) == OnPermissionAsked(old(View()), data)
    {
      hide P.Permission, P.ReadAsked, Inv, Tables;
      var d := P.ReadAsked(data);
      var origin := ScopeOf(Text(d.sid));
      if origin.None? || d.sid.Unreadable? { return [AgentFrame]; }
      var id := Text(d.id);
      if d.id.Unreadable? || !ValidId(id) || d.action.Unreadable? || Text(d.action) == "" || d.resources.Unreadable? {
        return [AgentFrame, INVALID];
      }
      if Key(Permission, id) in seen.Rows() { return [AgentFrame]; }
      CountOpen();
      if |pending.Rows()| + |forms.Rows()| >= MAX_PENDING || |seen.Rows()| >= MAX_SEEN { return [LIMIT]; }
      var req := P.BuildPermission(data);
      if !req.Valid() { return [AgentFrame, INVALID]; }
      Enter(PermRequest(id, PendingPerm(Text(d.sid), nextSeq + 1, req.detailsTruncated, req.callId)));
      return [PermissionRequested(origin.value, req)];
    }

    lemma CountOpen()
      requires Valid()
      ensures |pending.Rows()| + |forms.Rows()| == |open|
    {
    }

    method OnReplied(requestId: Field<string>, sid: Field<string>, reply: Field<string>) returns (es: seq<Event>)
      requires Valid()
      modifies this
      ensures Valid()
      ensures (View(), es) == OnPermissionReplied(old(View()), requestId, sid, reply)
    {
      hide Inv, Tables;
      var id := Text(requestId);
      if requestId.Unreadable? || sid.Unreadable? || !ValidId(id) { return [AgentFrame]; }
      FindPending(id);
      if id in pending.Rows() {
        var p := pending.Rows()[id];
        if p.sid != Text(sid) { return [AgentFrame]; }
        var origin := OriginFor(p.sid);
        PendingIsOpen(id);
        Leave(PermRequest(id, p), ByAgent);
        return [PermissionResolved(origin, "agent", ReplyOutcome(Text(reply)), id)];
      }
      if Key(Permission, id) in seen.Rows() && seen.Rows()[Key(Permission, id)] == ByUs { return []; }
      return [AgentFrame];
    }

    lemma PendingIsOpen(id: string)
      requires Valid()
      ensures id in pending.Rows() ==> PermRequest(id, pending.Rows()[id]) in open
      ensures id in forms.Rows() ==> FormRequested(id, forms.Rows()[id]) in open
    {
    }

    // ----- forms -----

    static method BuildForm(f: FormData) returns (r: Option<FormRequest>)
      ensures r == FormOf(f)
    {
      var kind := "other";
      if f.kind.Read? && SafeKind(f.kind.value) { kind := f.kind.value; }
      if f.fields.Unreadable? { return None; }
      var fs := if f.fields.Read? then f.fields.value else [];
      var fields: seq<FormField> := [];
      for i := 0 to |fs|
        invariant FieldsOfForm(fs[..i]) == Some(fields)
      {
        assert fs[..i + 1][..i] == fs[..i];
        var fd := FieldOf(fs[i]);
        if fd.None? {
          BadField(fs, i + 1);
          return None;
        }
        fields := fields + [fd.value];
      }
      assert fs[..|fs|] == fs;
      return Some(FormRequest(Text(f.id), f.callId, kind, f.title, fields));
    }

    static lemma {:induction false} BadField(fs: seq<FieldData>, n: nat)
      requires n <= |fs| && FieldsOfForm(fs[..n]).None?
      ensures FieldsOfForm(fs).None?
    {
      if n < |fs| {
        assert fs[..|fs| - 1][..n] == fs[..n];
        BadField(fs[..|fs| - 1], n);
      } else {
        assert fs[..n] == fs;
      }
    }

    method OnForm(form: Field<FormData>) returns (es: seq<Event>)
      requires Valid()
      modifies this
      ensures Valid()
      ensures (View(), es) == OnFormCreated(old(View()), form)
    {
      hide FormOf, Inv, Tables;
      if !form.Read? { return [AgentFrame]; }
      var f := form.value;
      var origin := ScopeOf(Text(f.sid));
      if origin.None? || f.sid.Unreadable? { return [AgentFrame]; }
      var id := Text(f.id);
      if f.id.Unreadable? || !ValidId(id) { return [AgentFrame, INVALID]; }
      if Key(Form, id) in seen.Rows() { return [AgentFrame]; }
      CountOpen();
      if |pending.Rows()| + |forms.Rows()| >= MAX_PENDING || |seen.Rows()| >= MAX_SEEN { return [LIMIT]; }
      var req := BuildForm(f);
      if req.None? || !req.value.Valid() { return [AgentFrame, INVALID]; }
      SameFormId(f);
      Enter(FormRequested(id, PendingForm(Text(f.sid), nextSeq + 1, req.value)));
      return [FormRequestedEvent(origin.value, req.value)];
    }

    method OnFormDone(requestId: Field<string>, sid: Field<string>, outcome: string,
                      answer: Option<map<string, FormValue>>) returns (es: seq<Event>)
      requires Valid()
      modifies this
      ensures Valid()
      ensures (View(), es) == OnFormSettled(old(View()), requestId, sid, outcome, answer)
    {
      hide Inv, Tables;
      var id := Text(requestId);
      if requestId.Unreadable? || sid.Unreadable? || !ValidId(id) { return [AgentFrame]; }
      FindForm(id);
      if id in forms.Rows() {
        var p := forms.Rows()[id];
        if p.sid != Text(sid) { return [AgentFrame]; }
        var origin := OriginFor(p.sid);
        PendingIsOpen(id);
        Leave(FormRequested(id, p), ByAgent);
        return [FormResolved(origin, "agent", outcome, id, answer)];
      }
      if Key(Form, id) in seen.Rows() && seen.Rows()[Key(Form, id)] == ByUs { return []; }
      return [AgentFrame];
    }

    // ----- the end of an execution -----

    /** The rows to close, from both tables in whatever order their iteration takes. */
    method CollectRows(isRoot: bool, sid: string) returns (rows: seq<Row>)
      requires Valid() && isRoot == (sid == root)
      ensures forall x :: x in rows <==> x in Target(View(), sid)
      ensures forall i, j :: 0 <= i < j < |rows| ==> rows[i].seqNo != rows[j].seqNo
    {
      hide Inv, Tables, Target, Ordered, Sorted;
      ghost var m, done: set<Key> := View(), {};
      InvOrdered(m);
      rows := [];
      var todo := pending.Rows().Keys;
      while todo != {}
        invariant todo <= pending.Rows().Keys
        invariant Collected(rows, Target(m, sid), done)
        invariant forall k :: k in done <==> k.kind == Permission && k.id in pending.Rows() && k.id !in todo
      {
        var id :| id in todo;
        var p := pending.Rows()[id];
        PendingIsOpen(id);
        CollectOneMore(m, sid, rows, done, PermRequest(id, p));
        if isRoot || p.sid == sid { rows := rows + [Arrival(p.seqNo, Entry(Key(Permission, id), p.sid))]; }
        done := done + {Key(Permission, id)};
        todo := todo - {id};
      }
      todo := forms.Rows().Keys;
      while todo != {}
        invariant todo <= forms.Rows().Keys
        invariant Collected(rows, Target(m, sid), done)
        invariant forall k :: k in done <==>
          if k.kind == Permission then k.id in pending.Rows() else k.id in forms.Rows() && k.id !in todo
      {
        var id :| id in todo;
        var p := forms.Rows()[id];
        PendingIsOpen(id);
        CollectOneMore(m, sid, rows, done, FormRequested(id, p));
        if isRoot || p.sid == sid { rows := rows + [Arrival(p.seqNo, Entry(Key(Form, id), p.sid))]; }
        done := done + {Key(Form, id)};
        todo := todo - {id};
      }
      TargetSorted(m, sid);
      CollectedDistinct(rows, Target(m, sid), done);
      forall x | x in Target(m, sid) ensures x in rows {
        FromTarget(m, sid, x);
        OpenInTables();
      }
    }

    lemma OpenInTables()
      requires Valid()
      ensures forall r :: r in open ==> if r.PermRequest? then r.id in pending.Rows() else r.id in forms.Rows()
    {
    }

    method ClosePending(isRoot: bool, sid: string) returns (es: seq<Event>)
      requires Valid() && isRoot == (sid == root)
      modifies this
      ensures Valid()
      ensures View() == Close(old(View()), Closing(old(View()), sid))
      ensures es == CancelEvents(old(View()), Among(old(View()).open, Closing(old(View()), sid)))
    {
      hide Inv, Tables, Closing, Close, Sorted, KeySet, Among, CancelEvents, Ordered;
      ghost var m := View();
      ghost var rs := Among(m.open, Closing(m, sid));
      var rows := CollectRows(isRoot, sid);
      rows := SortRows(rows);
      InvOrdered(m);
      TargetSorted(m, sid);
      SortedUnique(rows, Target(m, sid));
      es := [];
      NoneYet(m, rows, rs);
      for i := 0 to |rows|
        invariant Valid() && rows == RowsOf(rs)
        invariant View() == Close(m, KeySet(rows[..i])) && es == CancelEvents(m, rs[..i])
      {
        StillOpen(m, rs, i);
        SameSessions(m, KeySet(rows[..i]), rows[i].item.sid);
        OneMoreRow(m, rs, i);
        var origin := OriginFor(rows[i].item.sid);
        LeaveRow(rows[i], rs[i]);
        es := es + [CancelRow(rows[i], origin)];
      }
      assert rows[..|rows|] == rows && rs[..|rs|] == rs;
      AllKeys(m, sid);
    }

    /** Removing one row from its table, by the key it was collected under. */
    method LeaveRow(row: Row, ghost r: Request)
      requires Valid() && r in open && row == RowOf(r)
      modifies this
      ensures Valid() && View() == Settle(old(View()), row.item.key, ByAgent)
      ensures root == old(root) && children == old(children)
    {
      InTables(r);
      if row.item.key.kind == Form {
        Leave(FormRequested(row.item.key.id, forms.Rows()[row.item.key.id]), ByAgent);
      } else {
        Leave(PermRequest(row.item.key.id, pending.Rows()[row.item.key.id]), ByAgent);
      }
    }

    lemma InTables(r: Request)
      requires Valid() && r in open
      ensures r.PermRequest? ==> r.id in pending.Rows() && pending.Rows()[r.id] == r.perm
      ensures r.FormRequested? ==> r.id in forms.Rows() && forms.Rows()[r.id] == r.form
    {
    }

    method OnEnded(sid: Field<string>, ending: Ending) returns (es: seq<Event>)
      requires Valid()
      modifies this
      ensures Valid()
      ensures (View(), es) == OnExecutionEnded(old(View()), sid, ending)
    {
      hide Inv, Tables, Closing, Close, CancelEvents, Among;
      var origin := ScopeOf(Text(sid));
      if origin.None? || sid.Unreadable? { return [AgentFrame]; }
      var isRoot := Text(sid) == root;
      es := ClosePending(isRoot, Text(sid));
      if !isRoot { return es + []; }
      es := es + TurnEvents(ending);
    }

    // ----- the interface of the adapter -----

    /** One frame: the events of DecodeFrame (a frame that is not JSON is an error and changes nothing). */
    method DecodeFrame(f: Frame) returns (es: seq<Event>)
      requires Valid()
      modifies this
      ensures Valid()
      ensures (View(), es) == Decode(old(View()), f)
    {
      hide Inv, Tables, OnSessionCreated, OnToolProgress, OnPermissionAsked, OnPermissionReplied, OnFormCreated,
        OnFormSettled, OnExecutionEnded;
      match f
      case NotJson => es := [];
      case Unmapped => es := [AgentFrame];
      case Housekeeping => es := [];
      case SessionCreated(sid, parent, cwd, version) => es := OnSession(sid, parent, cwd, version);
      case ToolProgress(sid, callId, child) => es := OnProgress(sid, callId, child);
      case Activity(sid, readable, silent) =>
        var origin := ScopeOf(Text(sid));
        if origin.None? || sid.Unreadable? || !readable { es := [AgentFrame]; }
        else { es := if silent then [] else [ActivityEvent(origin.value)]; }
      case PermissionAsked(data) => es := OnAsked(data);
      case PermissionReplied(id, sid, reply) => es := OnReplied(id, sid, reply);
      case FormCreated(form) => es := OnForm(form);
      case FormReplied(id, sid, answer) => es := OnFormDone(id, sid, ANSWERED, answer);
      case FormCancelled(id, sid) => es := OnFormDone(id, sid, CANCELLED, None);
      case ExecutionEnded(sid, ending) => es := OnEnded(sid, ending);
    }

    method ResolvePerm(id: string, outcome: string) returns (r: Encoded)
      requires Valid()
      modifies this
      ensures Valid()
      ensures (View(), r) == EncodePermission(old(View()), id, outcome)
    {
      hide Inv, Tables;
      var decision;
      if outcome == ALLOW_ONCE { decision := "once"; }
      else if outcome == REJECT_ONCE { decision := "reject"; }
      else { return Refused; }
      FindPending(id);
      if id !in pending.Rows() { return Refused; }
      var p := pending.Rows()[id];
      if decision == "once" && p.truncated { return Refused; }
      if !ValidId(id) || !ValidId(p.sid) { return Refused; }
      var origin := OriginFor(p.sid);
      PendingIsOpen(id);
      Leave(PermRequest(id, p), ByUs);
      return Sent(Http("POST", ["session", p.sid, "permission", id, "reply"], DecisionBody(decision)),
                  [PermissionResolved(origin, "human", outcome, id)]);
    }

    method ResolveFormWith(c: FormResolve) returns (r: Encoded)
      requires Valid()
      modifies this
      ensures Valid()
      ensures (View(), r) == EncodeForm(old(View()), c)
    {
      hide Inv, Tables;
      var id := c.requestId;
      FindForm(id);
      if id !in forms.Rows() { return Refused; }
      var p := forms.Rows()[id];
      if !c.Valid(p.form) { return Refused; }
      if !ValidId(id) || !ValidId(p.sid) { return Refused; }
      var path := ["session", p.sid, "form", id];
      var origin := OriginFor(p.sid);
      PendingIsOpen(id);
      Leave(FormRequested(id, p), ByUs);
      if c.outcome == ANSWERED {
        return Sent(Http("POST", path + ["reply"], AnswerBody(c.answer)),
                    [FormResolved(origin, "human", c.outcome, id, Some(c.answer))]);
      }
      return Sent(Http("DELETE", path, NoBody), [FormResolved(origin, "human", c.outcome, id, None)]);
    }

    /** One command: the line to write and the events to add, or a refusal that changes nothing. */
    method EncodeCommand(c: Command) returns (r: Encoded)
      requires Valid()
      modifies this
      ensures Valid()
      ensures (View(), r) == Encode(old(View()), c)
      ensures r.Refused? ==> View() == old(View())
    {
      hide Inv, Tables;
      match c
      case Unsupported => r := Refused;
      case Unreadable => r := Refused;
      case Prompt(text) =>
        if text == "" || root == "" || !ValidId(root) { return Refused; }
        r := Sent(Http("POST", ["session", root, "prompt"], TextBody(text)), [TurnStarted(text)]);
      case Cancel =>
        if root == "" || !ValidId(root) { return Refused; }
        r := Sent(Http("POST", ["session", root, "interrupt"], NoBody), []);
      case ResolvePermission(id, outcome) => r := ResolvePerm(id, outcome);
      case ResolveForm(resolve) => r := ResolveFormWith(resolve);
    }
  }

  /** One input, and what is seen of it from outside. */
  method Feed(s: Stream, i: Input) returns (obs: seq<Obs>)
    requires s.Valid()
    modifies s
    ensures s.Valid() && (s.View(), obs) == Next(old(s.View()), i)
  {
    hide Inv, Tables, Decode, Encode;
    match i
    case Received(f) =>
      var es := s.DecodeFrame(f);
      obs := Emit(es);
    case Commanded(c) =>
      var r := s.EncodeCommand(c);
      obs := if r.Refused? then [] else [Wrote(r.line)] + Emit(r.events);
  }

  /** A new stream that is fed any inputs shows the trace of the machine: all its laws are laws of the object. */
  method RunStream(inputs: seq<Input>) returns (s: Stream, trace: seq<Obs>)
    ensures fresh(s) && s.Valid() && (s.View(), trace) == Run(inputs)
  {
    hide Inv, Tables, Next;
    s := new Stream();
    trace := [];
    for n := 0 to |inputs|
      invariant s.Valid() && (s.View(), trace) == Run(inputs[..n])
    {
      assert inputs[..n + 1][..n] == inputs[..n];
      var obs := Feed(s, inputs[n]);
      trace := trace + obs;
    }
    assert inputs[..|inputs|] == inputs;
  }
}
