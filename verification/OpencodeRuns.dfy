/**
  Laws of every run of the opencode adapter: a run is any sequence of frames and commands, its
  trace what was emitted and written on the way.
 */
module OpencodeRuns {
  import opened Wrappers
  import opened Json
  import opened V0
  import opened OpencodeModel
  import L = RequestLedger
  import opened Lists
  import P = OpencodePermission

  // ----- runs and traces -----

  datatype Input = Received(frame: Frame) | Commanded(command: Command)

  datatype Obs = Emitted(event: Event) | Wrote(line: Line)

  function Emit(es: seq<Event>): seq<Obs> {
    seq(|es|, i requires 0 <= i < |es| => Emitted(es[i]))
  }

  function Next(m: Model, i: Input): (Model, seq<Obs>) {
    match i
    case Received(f) => var (m', es) := Decode(m, f); (m', Emit(es))
    case Commanded(c) =>
      var (m', r) := Encode(m, c);
      (m', if r.Refused? then [] else [Wrote(r.line)] + Emit(r.events))
  }

  function Run(inputs: seq<Input>): (Model, seq<Obs>) {
    if inputs == [] then (INITIAL, [])
    else
      var (m, trace) := Run(inputs[..|inputs| - 1]);
      var (m', obs) := Next(m, inputs[|inputs| - 1]);
      (m', trace + obs)
  }

  // ----- what of a trace the ledger sees -----

  type Act = L.Act<Key, string>

  /** The session that an event names: the empty text for the root. */
  function Tag(o: Origin): string { if o.OfRoot? then "" else o.id }

  function ActsOf(o: Obs): seq<Act> {
    if o.Wrote? then []
    else match o.event
      case PermissionRequested(origin, req) => [L.Ask(Key(Permission, req.requestId), Tag(origin))]
      case PermissionResolved(origin, _, _, id) => [L.Settle(Key(Permission, id), Tag(origin))]
      case FormRequestedEvent(origin, form) => [L.Ask(Key(Form, form.requestId), Tag(origin))]
      case FormResolved(origin, _, _, id, _) => [L.Settle(Key(Form, id), Tag(origin))]
      case _ => []
  }

  function Acts(trace: seq<Obs>): seq<Act> { Collect(trace, ActsOf) }

  // ----- the invariant -----

  predicate Known(m: Model, sid: string) { sid == m.root || sid in m.children }

  /** Following parents from sid reaches the root in at most n steps. */
  predicate Rooted(root: string, children: map<string, Child>, sid: string, n: nat)
    decreases n
  {
    sid == root || (n > 0 && sid in children && Rooted(root, children, children[sid].parent, n - 1))
  }

  /** The child sessions hang in one tree below the root. */
  ghost predicate Forest(root: string, children: map<string, Child>) {
    && (root == "" ==> children == map[])
    && (root != "" ==> ValidId(root))
    && root !in children
    && |children| <= MAX_CHILDREN
    && forall sid :: sid in children ==> ValidId(sid) && Rooted(root, children, sid, |children|)
  }

  predicate Before(a: Request, b: Request) { a.SeqNo() < b.SeqNo() && a.Id() != b.Id() }

  ghost predicate Ordered(open: seq<Request>) {
    forall i, j :: 0 <= i < j < |open| ==> Before(open[i], open[j])
  }

  ghost predicate Listed(m: Model, r: Request) {
    && ValidId(r.id) && Known(m, r.Sid()) && r.SeqNo() <= m.nextSeq
    && r.Id() in m.seen && m.seen[r.Id()] == Requested
    && (r.FormRequested? ==> r.form.form.requestId == r.id)
  }

  /** The open requests are exactly the requests marked as such, in order of arrival, within the limits. */
  ghost predicate Table(m: Model) {
    && (m.root == "" ==> m.open == [])
    && Ordered(m.open)
    && (forall r :: r in m.open ==> Listed(m, r))
    && (forall k :: k in m.seen && m.seen[k] == Requested ==> exists r :: r in m.open && r.Id() == k)
    && |m.open| <= MAX_PENDING && m.nextSeq <= |m.seen| <= MAX_SEEN
  }

  ghost predicate Inv(m: Model) { Forest(m.root, m.children) && Table(m) }

  // ----- the ledger of a state -----

  function TagOf(m: Model, sid: string): string { if sid == m.root then "" else sid }

  function Entry(m: Model, r: Request): L.Open<Key, string> { L.Open(r.Id(), TagOf(m, r.Sid())) }

  function Entries(m: Model, rs: seq<Request>): seq<L.Open<Key, string>> {
    seq(|rs|, i requires 0 <= i < |rs| => Entry(m, rs[i]))
  }

  function SettledKeys(m: Model): set<Key> { set k | k in m.seen && m.seen[k] != Requested }

  function LedgerOf(m: Model): L.Ledger<Key, string> { L.Ledger(Entries(m, m.open), SettledKeys(m)) }

  lemma {:induction false} EntriesSplit(m: Model, rs: seq<Request>, ks: set<Key>)
    ensures L.Among(Entries(m, rs), ks) == Entries(m, Among(rs, ks))
    ensures L.Outside(Entries(m, rs), ks) == Entries(m, Outside(rs, ks))
  {
    if rs != [] {
      EntriesSplit(m, rs[..|rs| - 1], ks);
      assert Entries(m, rs)[..|rs| - 1] == Entries(m, rs[..|rs| - 1]);
    }
  }

  lemma EntriesDistinct(m: Model)
    requires Ordered(m.open)
    ensures L.Distinct(Entries(m, m.open))
  {
    var es := Entries(m, m.open);
    forall i, j | 0 <= i < j < |es| ensures es[i].key != es[j].key {
      assert m.open[i].Id() != m.open[j].Id();
    }
  }

  // ----- facts about the list of open requests -----

  lemma Members(open: seq<Request>, ks: set<Key>)
    ensures forall r :: r in Among(open, ks) <==> r in open && r.Id() in ks
    ensures forall r :: r in Outside(open, ks) <==> r in open && r.Id() !in ks
    ensures |Among(open, ks)| + |Outside(open, ks)| == |open|
  {
    Chosen(open, IdIn, ks);
  }

  lemma {:induction false} StillOrdered(open: seq<Request>, ks: set<Key>)
    requires Ordered(open)
    ensures Ordered(Outside(open, ks)) && Ordered(Among(open, ks))
  {
    hide Before;
    if open != [] {
      var front, last := open[..|open| - 1], open[|open| - 1];
      StillOrdered(front, ks);
      Members(front, ks);
      forall r | r in front ensures Before(r, last) {
        var i :| 0 <= i < |front| && front[i] == r;
        assert Before(open[i], open[|open| - 1]);
      }
    }
  }

  lemma {:induction false} Found(open: seq<Request>, k: Key)
    ensures Find(open, k).Some? ==> Find(open, k).value in open && Find(open, k).value.Id() == k
    ensures Find(open, k).None? ==> forall r :: r in open ==> r.Id() != k
  {
    if open != [] {
      Found(open[..|open| - 1], k);
    }
  }

  // ----- each kind of step -----

  /** One step keeps the invariant, and its acts take the ledger of the state before to the one after. */
  ghost predicate StepOk(m: Model, m': Model, obs: seq<Obs>) {
    && Inv(m')
    && L.Lawful(LedgerOf(m), Acts(obs))
    && L.Replay(LedgerOf(m), Acts(obs)) == LedgerOf(m')
  }

  lemma AdmitTable(m: Model, r: Request)
    requires Table(m) && !Full(m) && r.Id() !in m.seen && ValidId(r.id) && r.SeqNo() == m.nextSeq + 1
    requires Known(m, r.Sid()) && m.root != "" && (r.FormRequested? ==> r.form.form.requestId == r.id)
    ensures Table(Admit(m, r))
  {
    var m' := Admit(m, r);
    forall i | 0 <= i < |m.open| ensures m.open[i].SeqNo() < r.SeqNo() && m.open[i].Id() != r.Id() {
      assert Listed(m, m.open[i]);
    }
    forall x | x in m'.open ensures Listed(m', x) {
      if x in m.open { assert Listed(m, x); }
    }
    forall k | k in m'.seen && m'.seen[k] == Requested ensures exists x :: x in m'.open && x.Id() == k {
      if k == r.Id() {
        assert m'.open[|m.open|] == r;
      } else {
        var x :| x in m.open && x.Id() == k;
        assert x in m'.open;
      }
    }
  }

  lemma AdmitLedger(m: Model, r: Request)
    requires Table(m) && r.Id() !in m.seen
    ensures var a := L.Ask(r.Id(), TagOf(m, r.Sid()));
      L.Legal(LedgerOf(m), a) && L.Apply(LedgerOf(m), a) == LedgerOf(Admit(m, r))
  {
    var m' := Admit(m, r);
    assert Entries(m', m'.open) == Entries(m, m.open) + [Entry(m, r)];
    assert SettledKeys(m') == SettledKeys(m);
    forall i | 0 <= i < |m.open| ensures Entries(m, m.open)[i].key != r.Id() {
      assert Listed(m, m.open[i]);
    }
  }

  lemma AdmitOk(m: Model, r: Request, e: Event)
    requires Inv(m) && !Full(m) && r.Id() !in m.seen && ValidId(r.id) && r.SeqNo() == m.nextSeq + 1
    requires Known(m, r.Sid()) && m.root != "" && (r.FormRequested? ==> r.form.form.requestId == r.id)
    requires ActsOf(Emitted(e)) == [L.Ask(r.Id(), TagOf(m, r.Sid()))]
    ensures StepOk(m, Admit(m, r), Emit([e]))
  {
    AdmitTable(m, r);
    AdmitLedger(m, r);
    OneAct(e);
    L.ReplayOne(LedgerOf(m), L.Ask(r.Id(), TagOf(m, r.Sid())));
  }

  /** What hangs below the root stays there when sessions are only added. */
  lemma {:induction false} StillRooted(root: string, children: map<string, Child>, more: map<string, Child>, sid: string, n: nat, k: nat)
    requires children.Keys <= more.Keys
    requires forall c :: c in children ==> more[c].parent == children[c].parent
    requires Rooted(root, children, sid, n) && k >= n
    ensures Rooted(root, more, sid, k)
    decreases n
  {
    if sid != root {
      StillRooted(root, children, more, children[sid].parent, n - 1, k - 1);
    }
  }

  lemma CloseTable(m: Model, m': Model, ks: set<Key>, mark: Mark)
    requires Table(m) && mark != Requested
    requires forall k :: k in ks ==> exists r :: r in m.open && r.Id() == k
    requires m' == CloseAs(m, ks, mark)
    ensures Table(m') && m'.seen.Keys == m.seen.Keys
  {
    hide Outside, Among, Ordered, Listed;
    Members(m.open, ks);
    StillOrdered(m.open, ks);
    forall k | k in ks ensures k in m.seen {
      var r :| r in m.open && r.Id() == k;
      ListedSeen(m, r);
    }
    assert m'.seen.Keys == m.seen.Keys;
    assert |m'.seen| == |m'.seen.Keys| == |m.seen.Keys| == |m.seen|;
    assert |m'.open| <= |m.open| by { OutsideShorter(m.open, ks); }
    forall k | k in m'.seen && m'.seen[k] == Requested ensures exists x :: x in m'.open && x.Id() == k {
      var x :| x in m.open && x.Id() == k;
      assert x in m'.open;
    }
    forall r | r in m'.open ensures Listed(m', r) {
      ListedStays(m, m', ks, r);
    }
  }

  lemma ListedSeen(m: Model, r: Request)
    requires Listed(m, r)
    ensures r.Id() in m.seen
  {
  }

  lemma ListedStays(m: Model, m': Model, ks: set<Key>, r: Request)
    requires Listed(m, r) && r.Id() !in ks && m'.root == m.root && m'.children == m.children && m'.nextSeq == m.nextSeq
    requires forall k :: k in m.seen && k !in ks ==> k in m'.seen && m'.seen[k] == m.seen[k]
    ensures Listed(m', r)
  {
  }

  lemma {:induction false} OutsideShorter(open: seq<Request>, ks: set<Key>)
    ensures |Outside(open, ks)| <= |open|
  {
    if open != [] { OutsideShorter(open[..|open| - 1], ks); }
  }

  lemma CloseSettles(m: Model, m': Model, ks: set<Key>, mark: Mark)
    requires mark != Requested
    requires m' == CloseAs(m, ks, mark) && m'.seen.Keys == m.seen.Keys
    ensures SettledKeys(m') == SettledKeys(m) + ks
  {
    assert forall k :: k in ks ==> k in m'.seen && m'.seen[k] == mark;
    assert forall k :: k in m.seen && k !in ks ==> m'.seen[k] == m.seen[k];
  }

  lemma CloseLedger(m: Model, m': Model, ks: set<Key>, mark: Mark)
    requires Table(m) && mark != Requested
    requires forall k :: k in ks ==> exists r :: r in m.open && r.Id() == k
    requires m' == CloseAs(m, ks, mark)
    requires m'.seen.Keys == m.seen.Keys
    ensures var acts := L.Cancels(Entries(m, Among(m.open, ks)));
      L.Lawful(LedgerOf(m), acts) && L.Replay(LedgerOf(m), acts) == LedgerOf(m')
  {
    hide Listed, L.Cancels, L.Lawful, L.Replay, SettledKeys, Among, Outside, L.Among, L.Outside, L.KeysOf, L.Distinct;
    EntriesDistinct(m);
    EntriesSplit(m, m.open, ks);
    L.CancelBatch(LedgerOf(m), ks);
    ClosedKeys(m, ks);
    CloseSettles(m, m', ks, mark);
    assert Entries(m', m'.open) == Entries(m, Outside(m.open, ks));
  }

  /** Closing a set of open requests, in the order of arrival. */
  lemma CloseOk(m: Model, m': Model, ks: set<Key>, mark: Mark, obs: seq<Obs>)
    requires Inv(m) && mark != Requested
    requires forall k :: k in ks ==> exists r :: r in m.open && r.Id() == k
    requires m' == CloseAs(m, ks, mark)
    requires Acts(obs) == L.Cancels(Entries(m, Among(m.open, ks)))
    ensures StepOk(m, m', obs)
  {
    CloseTable(m, m', ks, mark);
    CloseLedger(m, m', ks, mark);
  }

  lemma {:induction false} KeysOfEntries(m: Model, rs: seq<Request>)
    ensures forall r :: r in rs ==> r.Id() in L.KeysOf(Entries(m, rs))
    ensures forall k :: k in L.KeysOf(Entries(m, rs)) ==> exists r :: r in rs && r.Id() == k
  {
    if rs != [] {
      var front, last := rs[..|rs| - 1], rs[|rs| - 1];
      KeysOfEntries(m, front);
      assert Entries(m, rs)[..|rs| - 1] == Entries(m, front);
      forall k | k in L.KeysOf(Entries(m, rs)) ensures exists r :: r in rs && r.Id() == k {
        if k in L.KeysOf(Entries(m, front)) {
          var r :| r in front && r.Id() == k;
          assert r in rs;
        } else {
          assert last in rs;
        }
      }
    }
  }

  lemma ClosedKeys(m: Model, ks: set<Key>)
    requires forall k :: k in ks ==> exists r :: r in m.open && r.Id() == k
    ensures L.KeysOf(Entries(m, Among(m.open, ks))) == ks
  {
    Members(m.open, ks);
    KeysOfEntries(m, Among(m.open, ks));
    forall k | k in ks ensures exists r :: r in Among(m.open, ks) && r.Id() == k {
      var r :| r in m.open && r.Id() == k;
      assert r in Among(m.open, ks);
    }
  }

  /** Settling one open request. */
  lemma SettleOk(m: Model, r: Request, mark: Mark, obs: seq<Obs>)
    requires Inv(m) && mark != Requested && r in m.open
    requires Acts(obs) == [L.Settle(r.Id(), TagOf(m, r.Sid()))]
    ensures StepOk(m, Settle(m, r.Id(), mark), obs)
  {
    hide Inv, Settle, CloseAs, StepOk, Among, Entries, TagOf, L.Cancels, Acts;
    assert Ordered(m.open) by { TableOrdered(m); }
    AmongOne(m.open, r);
    CancelsOne(m, r);
    SettleIsClose(m, r.Id(), mark);
    CloseOk(m, Settle(m, r.Id(), mark), {r.Id()}, mark, obs);
  }

  lemma TableOrdered(m: Model)
    requires Inv(m)
    ensures Ordered(m.open)
  {
  }

  lemma CancelsOne(m: Model, r: Request)
    ensures L.Cancels(Entries(m, [r])) == [L.Settle(r.Id(), TagOf(m, r.Sid()))]
  {
  }

  lemma SettleIsClose(m: Model, k: Key, mark: Mark)
    ensures Settle(m, k, mark) == CloseAs(m, {k}, mark)
  {
    hide Outside;
    var ks := {k};
    assert m.seen[k := mark] == m.seen + map x | x in ks :: mark;
  }

  lemma {:induction false} AmongNone(open: seq<Request>, k: Key)
    requires forall x :: x in open ==> x.Id() != k
    ensures Among(open, {k}) == []
  {
    if open != [] {
      assert open[|open| - 1] in open;
      AmongNone(open[..|open| - 1], k);
    }
  }

  lemma {:induction false} AmongOne(open: seq<Request>, r: Request)
    requires Ordered(open) && r in open
    ensures Among(open, {r.Id()}) == [r]
  {
    var front, last := open[..|open| - 1], open[|open| - 1];
    if last == r {
      forall x | x in front ensures x.Id() != r.Id() {
        var i :| 0 <= i < |front| && front[i] == x;
        assert open[i] == x;
      }
      AmongNone(front, r.Id());
    } else {
      var i :| 0 <= i < |open| && open[i] == r;
      assert front[i] == r && open[i].Id() != last.Id();
      AmongOne(front, r);
    }
  }

  lemma ScopeTag(m: Model, sid: string)
    requires Inv(m) && Known(m, sid) && m.root != "" && sid != ""
    ensures Scope(m, sid).Some? && Tag(OriginOf(m, sid)) == TagOf(m, sid)
  {
  }

  lemma OpenScope(m: Model, r: Request)
    requires Inv(m) && r in m.open
    ensures Scope(m, r.Sid()).Some? && Tag(OriginOf(m, r.Sid())) == TagOf(m, r.Sid())
  {
    assert Listed(m, r);
    ScopeTag(m, r.Sid());
  }

  lemma QuietOk(m: Model, m': Model, obs: seq<Obs>)
    requires Inv(m) && Forest(m'.root, m'.children) && Acts(obs) == []
    requires m'.open == m.open && m'.seen == m.seen && m'.nextSeq == m.nextSeq
    requires m.root != "" ==> m'.root == m.root && m.children.Keys <= m'.children.Keys
    ensures StepOk(m, m', obs)
  {
    forall r | r in m'.open ensures Listed(m', r) {
      assert Listed(m, r);
    }
    assert Entries(m', m'.open) == Entries(m, m.open);
  }

  lemma IdleOk(m: Model, obs: seq<Obs>)
    requires Inv(m) && Acts(obs) == []
    ensures StepOk(m, m, obs)
  {
  }

  // ----- every frame and every command -----

  /** A new child of a known session, or a call set in a child, keeps every chain of parents. */
  lemma StillForest(m: Model, now: map<string, Child>)
    requires Inv(m) && m.root !in now && m.root != "" && |m.children| <= |now| <= MAX_CHILDREN
    requires forall c :: c in m.children ==> c in now && now[c].parent == m.children[c].parent
    requires forall c :: c in now && c !in m.children ==> ValidId(c) && |m.children| < |now| && Known(m, now[c].parent)
    ensures Forest(m.root, now)
  {
    hide ValidId, Table;
    var was := m.children;
    forall sid | sid in now ensures ValidId(sid) && Rooted(m.root, now, sid, |now|) {
      if sid in was {
        StillRooted(m.root, was, now, sid, |was|, |now|);
      } else {
        var p := now[sid].parent;
        StillRooted(m.root, was, now, p, if p == m.root then 0 else |was|, |now| - 1);
      }
    }
  }

  lemma ScopeIsKnown(m: Model, sid: string)
    ensures Scope(m, sid).Some? <==> sid != "" && m.root != "" && Known(m, sid)
  {
  }

  lemma CreatedForest(m: Model, sid: Field<string>, parent: Field<string>, cwd: string, version: string)
    requires Inv(m)
    ensures var m' := OnSessionCreated(m, sid, parent, cwd, version).0; Forest(m'.root, m'.children) && Grows(m, m')
  {
    hide ValidId, Table, Rooted, Scope;
    var s, p, m' := Text(sid), Text(parent), OnSessionCreated(m, sid, parent, cwd, version).0;
    ScopeIsKnown(m, p);
    ScopeIsKnown(m, s);
    if m' != m && m'.root == m.root {
      assert m'.children.Keys == m.children.Keys + {s};
      assert |m'.children| == |m'.children.Keys| && |m.children| == |m.children.Keys|;
      assert s != "" by { IdNotEmpty(s); }
      StillForest(m, m'.children);
    }
  }

  lemma IdNotEmpty(s: string)
    requires ValidId(s)
    ensures s != ""
  {
  }

  lemma ProgressForest(m: Model, sid: Field<string>, callId: Field<string>, child: string)
    requires Inv(m)
    ensures var m' := OnToolProgress(m, sid, callId, child).0; Forest(m'.root, m'.children) && Grows(m, m')
  {
    hide ValidId, Table, Rooted, Scope;
    var m' := OnToolProgress(m, sid, callId, child).0;
    ScopeIsKnown(m, Text(sid));
    if m' != m {
      assert m'.children.Keys == m.children.Keys;
      assert |m'.children| == |m'.children.Keys| && |m.children| == |m.children.Keys|;
      StillForest(m, m'.children);
    }
  }

  lemma SessionForest(m: Model, f: Frame)
    requires Inv(m) && (f.SessionCreated? || f.ToolProgress?)
    ensures Forest(Decode(m, f).0.root, Decode(m, f).0.children)
    ensures Grows(m, Decode(m, f).0)
  {
    hide Inv, Forest, Grows, OnSessionCreated, OnToolProgress;
    match f
    case SessionCreated(sid, parent, cwd, version) => CreatedForest(m, sid, parent, cwd, version);
    case ToolProgress(sid, callId, child) => ProgressForest(m, sid, callId, child);
  }

  lemma SessionOk(m: Model, f: Frame)
    requires Inv(m) && (f.SessionCreated? || f.ToolProgress? || f.Activity? || f.NotJson? || f.Unmapped? || f.Housekeeping?)
    ensures StepOk(m, Decode(m, f).0, Emit(Decode(m, f).1))
    ensures Grows(m, Decode(m, f).0)
  {
    hide StepOk, Forest, Table, Grows, ValidId, Scope, OnPermissionAsked, OnPermissionReplied, OnFormCreated, OnFormSettled, OnExecutionEnded;
    var (m', es) := Decode(m, f);
    if f.SessionCreated? || f.ToolProgress? {
      SessionForest(m, f);
    } else {
      GrowsItself(m);
    }
    NoActs(es);
    QuietOk(m, m', Emit(es));
  }

  lemma GrowsItself(m: Model)
    ensures Grows(m, m)
  {
  }

  /** Sessions are never forgotten or moved, and a child's call is set at most once. */
  ghost predicate Grows(m: Model, m': Model) {
    && (m.root != "" ==> m'.root == m.root)
    && forall c :: c in m.children ==>
         && c in m'.children && m'.children[c].parent == m.children[c].parent
         && (m.children[c].callId != "" ==> m'.children[c].callId == m.children[c].callId)
  }

  lemma OneAct(e: Event)
    ensures Acts(Emit([e])) == ActsOf(Emitted(e))
  {
    assert Emit([e]) == [Emitted(e)];
    CollectOne(Emitted(e), ActsOf);
  }

  predicate Plain(e: Event) { ActsOf(Emitted(e)) == [] }

  lemma NoActs(es: seq<Event>)
    requires forall i :: 0 <= i < |es| ==> Plain(es[i])
    ensures Acts(Emit(es)) == []
  {
    CollectNone(Emit(es), ActsOf);
  }

  lemma SettledByAgent(m: Model, k: Key, e: Event)
    requires Inv(m) && Find(m.open, k).Some?
    requires var sid := Find(m.open, k).value.Sid(); ActsOf(Emitted(e)) == [L.Settle(k, Tag(OriginOf(m, sid)))]
    ensures StepOk(m, Settle(m, k, ByAgent), Emit([e]))
  {
    Found(m.open, k);
    var r := Find(m.open, k).value;
    OpenScope(m, r);
    OneAct(e);
    SettleOk(m, r, ByAgent, Emit([e]));
  }

  lemma SettledByUs(m: Model, k: Key, line: Line, e: Event)
    requires Inv(m) && Find(m.open, k).Some?
    requires var sid := Find(m.open, k).value.Sid(); ActsOf(Emitted(e)) == [L.Settle(k, Tag(OriginOf(m, sid)))]
    ensures StepOk(m, Settle(m, k, ByUs), [Wrote(line)] + Emit([e]))
  {
    hide StepOk, Inv, Find, Settle, OriginOf, ActsOf, Emit;
    Found(m.open, k);
    var r := Find(m.open, k).value;
    OpenScope(m, r);
    LineActs(line, [e]);
    OneAct(e);
    SettleOk(m, r, ByUs, [Wrote(line)] + Emit([e]));
  }

  lemma SameRequestId(data: Value)
    ensures P.Permission(data).requestId == Text(P.ReadAsked(data).id)
  {
  }

  lemma AskedOk(m: Model, data: Value)
    requires Inv(m)
    ensures var (m', es) := OnPermissionAsked(m, data); StepOk(m, m', Emit(es)) && Grows(m, m')
  {
    hide StepOk, Inv, P.Permission, P.ReadAsked;
    var (m', es) := OnPermissionAsked(m, data);
    if m'.nextSeq == m.nextSeq {
      NoActs(es);
      IdleOk(m, Emit(es));
    } else {
      var d := P.ReadAsked(data);
      var req := P.Permission(data);
      var r := PermRequest(Text(d.id), PendingPerm(Text(d.sid), m.nextSeq + 1, req.detailsTruncated, req.callId));
      ScopeTag(m, Text(d.sid));
      SameRequestId(data);
      AdmitOk(m, r, PermissionRequested(OriginOf(m, Text(d.sid)), req));
    }
  }

  lemma RepliedOk(m: Model, requestId: Field<string>, sid: Field<string>, reply: Field<string>)
    requires Inv(m)
    ensures var (m', es) := OnPermissionReplied(m, requestId, sid, reply); StepOk(m, m', Emit(es)) && Grows(m, m')
  {
    var (m', es) := OnPermissionReplied(m, requestId, sid, reply);
    if |es| == 1 && es[0].PermissionResolved? {
      SettledByAgent(m, Key(Permission, Text(requestId)), es[0]);
    } else {
      NoActs(es);
      IdleOk(m, Emit(es));
    }
  }

  lemma SameFormId(f: FormData)
    ensures FormOf(f).Some? ==> FormOf(f).value.requestId == Text(f.id)
  {
  }

  lemma FormCreatedOk(m: Model, form: Field<FormData>)
    requires Inv(m)
    ensures var (m', es) := OnFormCreated(m, form); StepOk(m, m', Emit(es)) && Grows(m, m')
  {
    hide StepOk, Inv, FormOf;
    var (m', es) := OnFormCreated(m, form);
    if m'.nextSeq == m.nextSeq {
      NoActs(es);
      IdleOk(m, Emit(es));
    } else {
      var f := form.value;
      var r := FormRequested(Text(f.id), PendingForm(Text(f.sid), m.nextSeq + 1, FormOf(f).value));
      ScopeTag(m, Text(f.sid));
      SameFormId(f);
      AdmitOk(m, r, FormRequestedEvent(OriginOf(m, Text(f.sid)), FormOf(f).value));
    }
  }

  lemma FormSettledOk(m: Model, requestId: Field<string>, sid: Field<string>, outcome: string,
                      answer: Option<map<string, FormValue>>)
    requires Inv(m)
    ensures var (m', es) := OnFormSettled(m, requestId, sid, outcome, answer); StepOk(m, m', Emit(es)) && Grows(m, m')
  {
    var (m', es) := OnFormSettled(m, requestId, sid, outcome, answer);
    if |es| == 1 && es[0].FormResolved? {
      SettledByAgent(m, Key(Form, Text(requestId)), es[0]);
    } else {
      NoActs(es);
      IdleOk(m, Emit(es));
    }
  }

  lemma {:induction false} CancelActs(m: Model, rs: seq<Request>)
    requires Inv(m) && forall r :: r in rs ==> r in m.open
    ensures Acts(Emit(CancelEvents(m, rs))) == L.Cancels(Entries(m, rs))
  {
    hide Inv, ActsOf, CancelEvent;
    if rs != [] {
      var front, last := rs[..|rs| - 1], rs[|rs| - 1];
      CancelActs(m, front);
      assert last in rs;
      OneCancel(m, last);
      OneAct(CancelEvent(m, last));
      assert Emit(CancelEvents(m, rs)) == Emit(CancelEvents(m, front)) + Emit([CancelEvent(m, last)]);
      CollectConcat(Emit(CancelEvents(m, front)), Emit([CancelEvent(m, last)]), ActsOf);
      assert L.Cancels(Entries(m, rs)) == L.Cancels(Entries(m, front)) + [L.Settle(last.Id(), TagOf(m, last.Sid()))];
    }
  }

  lemma OneCancel(m: Model, r: Request)
    requires Inv(m) && r in m.open
    ensures ActsOf(Emitted(CancelEvent(m, r))) == [L.Settle(r.Id(), TagOf(m, r.Sid()))]
  {
    OpenScope(m, r);
  }

  lemma ClosingAreOpen(m: Model, sid: string)
    ensures forall k :: k in Closing(m, sid) ==> exists r :: r in m.open && r.Id() == k
  {
  }

  lemma EndingActs(m: Model, rs: seq<Request>, tail: seq<Event>)
    requires Inv(m) && (forall r :: r in rs ==> r in m.open) && forall i :: 0 <= i < |tail| ==> Plain(tail[i])
    ensures Acts(Emit(CancelEvents(m, rs) + tail)) == L.Cancels(Entries(m, rs))
  {
    hide Inv, Plain, ActsOf, L.Cancels, Entries, CancelEvents, Collect;
    CancelActs(m, rs);
    NoActs(tail);
    assert Emit(CancelEvents(m, rs) + tail) == Emit(CancelEvents(m, rs)) + Emit(tail);
    CollectConcat(Emit(CancelEvents(m, rs)), Emit(tail), ActsOf);
  }

  lemma EndingOk(m: Model, sid: Field<string>, ending: Ending)
    requires Inv(m)
    ensures var (m', es) := OnExecutionEnded(m, sid, ending); StepOk(m, m', Emit(es)) && Grows(m, m')
  {
    hide StepOk, Inv, L.Cancels, Closing, CancelEvents, Among, Emit, Entries;
    var (m', es) := OnExecutionEnded(m, sid, ending);
    var s := Text(sid);
    if Scope(m, s).None? || sid.Unreadable? {
      NoActs(es);
      IdleOk(m, Emit(es));
    } else {
      var ks := Closing(m, s);
      ClosingAreOpen(m, s);
      Members(m.open, ks);
      EndingActs(m, Among(m.open, ks), if s == m.root then TurnEvents(ending) else []);
      CloseOk(m, m', ks, ByAgent, Emit(es));
    }
  }

  lemma CommandOk(m: Model, c: Command)
    requires Inv(m)
    ensures StepOk(m, Next(m, Commanded(c)).0, Next(m, Commanded(c)).1)
    ensures Grows(m, Next(m, Commanded(c)).0)
  {
    hide StepOk, Inv, EncodePermission, EncodeForm, Grows, ValidId;
    if c.ResolvePermission? {
      PermissionCommandOk(m, c);
    } else if c.ResolveForm? {
      FormCommandOk(m, c);
    } else {
      var (m', r) := Encode(m, c);
      GrowsItself(m);
      if r.Refused? {
        IdleOk(m, []);
      } else {
        LineActs(r.line, r.events);
        NoActs(r.events);
        IdleOk(m, [Wrote(r.line)] + Emit(r.events));
      }
    }
  }

  lemma LineActs(line: Line, es: seq<Event>)
    ensures Acts([Wrote(line)] + Emit(es)) == Acts(Emit(es))
  {
    hide ActsOf;
    CollectConcat([Wrote(line)], Emit(es), ActsOf);
    CollectOne(Wrote(line), ActsOf);
    assert ActsOf(Wrote(line)) == [] by { NoActOfLine(line); }
  }

  lemma NoActOfLine(line: Line)
    ensures ActsOf(Wrote(line)) == []
  {
  }

  lemma PermissionCommandOk(m: Model, c: Command)
    requires Inv(m) && c.ResolvePermission?
    ensures StepOk(m, Next(m, Commanded(c)).0, Next(m, Commanded(c)).1)
    ensures Grows(m, Next(m, Commanded(c)).0)
  {
    hide StepOk, Inv, ValidId, Find, Outside, Emit, OriginOf;
    var (m', r) := Encode(m, c);
    if r.Refused? {
      IdleOk(m, []);
    } else {
      SettledByUs(m, Key(Permission, c.id), r.line, r.events[0]);
    }
  }

  lemma FormCommandOk(m: Model, c: Command)
    requires Inv(m) && c.ResolveForm?
    ensures StepOk(m, Next(m, Commanded(c)).0, Next(m, Commanded(c)).1)
    ensures Grows(m, Next(m, Commanded(c)).0)
  {
    hide StepOk, Inv, ValidId, Find, Outside, FormResolve.Valid, Emit, OriginOf;
    var (m', r) := Encode(m, c);
    if r.Refused? {
      IdleOk(m, []);
    } else {
      SettledByUs(m, Key(Form, c.resolve.requestId), r.line, r.events[0]);
    }
  }

  lemma NextOk(m: Model, i: Input)
    requires Inv(m)
    ensures StepOk(m, Next(m, i).0, Next(m, i).1)
    ensures Grows(m, Next(m, i).0)
  {
    hide StepOk, Grows, Inv, OnPermissionAsked, OnPermissionReplied, OnFormCreated, OnFormSettled, OnExecutionEnded, OnSessionCreated, OnToolProgress, Encode;
    match i
    case Commanded(c) => CommandOk(m, c);
    case Received(f) =>
      match f
      case PermissionAsked(data) => AskedOk(m, data);
      case PermissionReplied(id, sid, reply) => RepliedOk(m, id, sid, reply);
      case FormCreated(form) => FormCreatedOk(m, form);
      case FormReplied(id, sid, answer) => FormSettledOk(m, id, sid, ANSWERED, answer);
      case FormCancelled(id, sid) => FormSettledOk(m, id, sid, CANCELLED, None);
      case ExecutionEnded(sid, ending) => EndingOk(m, sid, ending);
      case _ => SessionOk(m, f);
  }

  // ----- the laws of every run -----

  /** Every run keeps the invariant, and its trace takes the empty ledger to the ledger of its state. */
  lemma {:induction false} RunFollowsLedger(inputs: seq<Input>)
    ensures var (m, trace) := Run(inputs);
      && Inv(m)
      && L.Lawful(L.Empty(), Acts(trace))
      && L.Replay(L.Empty(), Acts(trace)) == LedgerOf(m)
  {
    hide Next, ActsOf;
    if inputs == [] {
      assert Entries(INITIAL, []) == [];
      assert SettledKeys(INITIAL) == {};
    } else {
      RunFollowsLedger(inputs[..|inputs| - 1]);
      var (m, trace) := Run(inputs[..|inputs| - 1]);
      var (m', obs) := Next(m, inputs[|inputs| - 1]);
      NextOk(m, inputs[|inputs| - 1]);
      ExtendLedger(trace, obs, LedgerOf(m), LedgerOf(m'));
    }
  }

  lemma ExtendLedger(trace: seq<Obs>, obs: seq<Obs>, l: L.Ledger<Key, string>, l': L.Ledger<Key, string>)
    requires L.Lawful(L.Empty(), Acts(trace)) && L.Replay(L.Empty(), Acts(trace)) == l
    requires L.Lawful(l, Acts(obs)) && L.Replay(l, Acts(obs)) == l'
    ensures L.Lawful(L.Empty(), Acts(trace + obs)) && L.Replay(L.Empty(), Acts(trace + obs)) == l'
  {
    CollectConcat(trace, obs, ActsOf);
    L.ReplayConcat(L.Empty(), Acts(trace), Acts(obs));
  }

  /**
    Over a whole run every request is asked for at most once and settled at most once, later and
    naming the same session; it is open exactly between the two, and never more than 64 are.
   */
  lemma RequestsSettleOnce(inputs: seq<Input>, k: Key)
    ensures var (m, trace) := Run(inputs);
      && L.Settles(Acts(trace), k) <= L.Asks(Acts(trace), k) <= 1
      && (Find(m.open, k).Some? <==> L.Asks(Acts(trace), k) - L.Settles(Acts(trace), k) == 1)
      && |m.open| <= MAX_PENDING
      && forall j :: 0 <= j < |Acts(trace)| && Acts(trace)[j].Settle? ==>
           L.Ask(Acts(trace)[j].key, Acts(trace)[j].tag) in Acts(trace)[..j]
  {
    hide Run, ActsOf, L.Replay, L.Lawful, L.Asks, L.Settles;
    var (m, trace) := Run(inputs);
    var acts := Acts(trace);
    RunFollowsLedger(inputs);
    L.OnceOnly(acts, k);
    forall j | 0 <= j < |acts| && acts[j].Settle? ensures L.Ask(acts[j].key, acts[j].tag) in acts[..j] {
      L.SettledAsAsked(acts, j);
    }
    Found(m.open, k);
    var l := LedgerOf(m);
    if Find(m.open, k).Some? {
      var i :| 0 <= i < |m.open| && m.open[i] == Find(m.open, k).value;
      assert l.open[i].key == k;
    }
    if L.IsOpen(l.open, k) {
      var i :| 0 <= i < |l.open| && l.open[i].key == k;
      assert m.open[i].Id() == k;
    }
  }

  lemma EndTurn(m: Model, sid: Field<string>, ending: Ending)
    ensures var (m', es) := OnExecutionEnded(m, sid, ending);
      forall j :: 0 <= j < |es| && es[j].TurnCompleted? ==> Text(sid) == m.root && j == |es| - 1 && m'.open == []
  {
    var (m', es) := OnExecutionEnded(m, sid, ending);
    var s := Text(sid);
    if Scope(m, s).Some? && !sid.Unreadable? {
      var ks := Closing(m, s);
      var n := |Among(m.open, ks)|;
      assert forall j :: 0 <= j < n ==> es[j] == CancelEvent(m, Among(m.open, ks)[j]);
      if s == m.root {
        assert forall r :: r in m.open ==> r.Id() in ks;
        NoneOutside(m.open, ks);
      }
    }
  }

  lemma {:induction false} NoneOutside(open: seq<Request>, ks: set<Key>)
    requires forall r :: r in open ==> r.Id() in ks
    ensures Outside(open, ks) == []
  {
    if open != [] {
      assert open[|open| - 1] in open;
      NoneOutside(open[..|open| - 1], ks);
    }
  }

  lemma NoTurn(m: Model, f: Frame)
    requires !f.ExecutionEnded?
    ensures forall e :: e in Decode(m, f).1 ==> !e.TurnCompleted?
  {
    hide P.Permission, P.ReadAsked, FormOf, Scope, ValidId, OriginOf, Find;
  }

  /** Only the end of the root's execution completes a turn, as the very last event, with nothing left open. */
  lemma TurnStep(m: Model, i: Input)
    ensures var (m', obs) := Next(m, i); forall j :: 0 <= j < |obs| && obs[j].Emitted? && obs[j].event.TurnCompleted? ==>
      && i.Received? && i.frame.ExecutionEnded? && Text(i.frame.sid) == m.root
      && j == |obs| - 1 && m'.open == []
  {
    hide Decode, Encode;
    match i
    case Received(f) =>
      if f.ExecutionEnded? {
        EndTurn(m, f.sid, f.ending);
        EndIs(m, f);
      } else {
        NoTurn(m, f);
      }
    case Commanded(c) => NoTurnByCommand(m, c);
  }

  lemma EndIs(m: Model, f: Frame)
    requires f.ExecutionEnded?
    ensures Decode(m, f) == OnExecutionEnded(m, f.sid, f.ending)
  {
  }

  lemma NoTurnByCommand(m: Model, c: Command)
    ensures Encode(m, c).1.Sent? ==> forall e :: e in Encode(m, c).1.events ==> !e.TurnCompleted?
  {
  }

  /** Whenever a turn is completed, everything asked for before it in the trace has been settled before it. */
  lemma {:induction false} TurnClosesAll(inputs: seq<Input>, j: nat)
    requires var trace := Run(inputs).1; j < |trace| && trace[j].Emitted? && trace[j].event.TurnCompleted?
    ensures L.Replay(L.Empty(), Acts(Run(inputs).1[..j])).open == []
  {
    hide Next, L.Replay, L.Lawful, Inv, ActsOf, LedgerOf, Acts;
    var front, i := inputs[..|inputs| - 1], inputs[|inputs| - 1];
    var (m, trace) := Run(front);
    var (m', obs) := Next(m, i);
    if j < |trace| {
      TurnClosesAll(front, j);
      assert (trace + obs)[..j] == trace[..j];
    } else {
      RunFollowsLedger(inputs);
      TurnStep(m, i);
      assert obs[j - |trace|] == (trace + obs)[j];
      TurnHasNoAct(trace + obs, j);
      NothingOpen(m');
    }
  }

  lemma TurnHasNoAct(trace: seq<Obs>, j: nat)
    requires j == |trace| - 1 && trace[j].Emitted? && trace[j].event.TurnCompleted?
    ensures Acts(trace) == Acts(trace[..j])
  {
    assert trace == trace[..j] + [trace[j]];
    CollectConcat(trace[..j], [trace[j]], ActsOf);
    CollectOne(trace[j], ActsOf);
  }

  lemma NothingOpen(m: Model)
    requires m.open == []
    ensures LedgerOf(m).open == []
  {
  }

  /**
    The end of a session settles exactly the requests of that session that are still open (all of
    them for the root), as cancelled, in the order in which the trace asked for them.
   */
  lemma EndCancelsInArrivalOrder(inputs: seq<Input>, sid: Field<string>, ending: Ending)
    requires Scope(Run(inputs).0, Text(sid)).Some?
    ensures var (m, trace) := Run(inputs); var s := Text(sid);
      var acts := Acts(Next(m, Received(ExecutionEnded(sid, ending))).1);
      var open := L.Replay(L.Empty(), Acts(trace)).open;
      && (s == m.root ==> acts == L.Cancels(open))
      && (s != m.root ==>
            exists ks :: acts == L.Cancels(L.Among(open, ks)) && (forall o :: o in open ==> (o.key in ks <==> o.tag == s)))
  {
    hide Run, L.Lawful, L.Replay, L.Cancels, L.Among, Among, Next, Closing, Inv, Entries, Acts, Scope;
    var (m, trace) := Run(inputs);
    var s := Text(sid);
    RunFollowsLedger(inputs);
    var ks := Closing(m, s);
    EndActs(m, sid, ending);
    EntriesSplit(m, m.open, ks);
    InvIsOrdered(m);
    ClosingIs(m, s);
    ScopeIsKnown(m, s);
    if s == m.root { AllAmong(m.open, ks); } else { ClosingTags(m, s); }
  }

  lemma InvIsOrdered(m: Model)
    requires Inv(m)
    ensures Ordered(m.open)
  {
    hide Forest, Ordered, Listed;
  }

  lemma ClosingTags(m: Model, s: string)
    requires Ordered(m.open) && s != m.root && s != ""
    ensures forall o :: o in Entries(m, m.open) ==> (o.key in Closing(m, s) <==> o.tag == s)
  {
    hide Ordered, Closing;
    ClosingIs(m, s);
    forall o | o in Entries(m, m.open) ensures o.key in Closing(m, s) <==> o.tag == s {
      var i :| 0 <= i < |m.open| && Entries(m, m.open)[i] == o;
    }
  }

  lemma ClosingIs(m: Model, s: string)
    requires Ordered(m.open)
    ensures forall i :: 0 <= i < |m.open| ==>
      (m.open[i].Id() in Closing(m, s) <==> s == m.root || m.open[i].Sid() == s)
  {
    forall i | 0 <= i < |m.open|
      ensures m.open[i].Id() in Closing(m, s) <==> s == m.root || m.open[i].Sid() == s
    {
      if m.open[i].Id() in Closing(m, s) {
        var r :| r in m.open && (s == m.root || r.Sid() == s) && r.Id() == m.open[i].Id();
        var j :| 0 <= j < |m.open| && m.open[j] == r;
        assert i == j;
      } else {
        assert m.open[i] in m.open;
      }
    }
  }

  lemma EndActs(m: Model, sid: Field<string>, ending: Ending)
    requires Inv(m) && Scope(m, Text(sid)).Some?
    ensures Acts(Next(m, Received(ExecutionEnded(sid, ending))).1) ==
            L.Cancels(Entries(m, Among(m.open, Closing(m, Text(sid)))))
  {
    hide Inv, Closing, Among, CancelEvents, Entries, L.Cancels;
    var s := Text(sid);
    var ks := Closing(m, s);
    Members(m.open, ks);
    EndingActs(m, Among(m.open, ks), if s == m.root then TurnEvents(ending) else []);
  }

  lemma {:induction false} AllAmong(open: seq<Request>, ks: set<Key>)
    requires forall i :: 0 <= i < |open| ==> open[i].Id() in ks
    ensures Among(open, ks) == open
  {
    if open != [] {
      AllAmong(open[..|open| - 1], ks);
      assert open == open[..|open| - 1] + [open[|open| - 1]];
    }
  }

  // ----- every open request can be answered -----

  lemma {:induction false} FoundOnly(open: seq<Request>, r: Request)
    requires Ordered(open) && r in open
    ensures Find(open, r.Id()) == Some(r)
  {
    var front, last := open[..|open| - 1], open[|open| - 1];
    if last != r {
      var i :| 0 <= i < |open| && open[i] == r;
      assert front[i] == r && open[i].Id() != last.Id();
      FoundOnly(front, r);
    }
  }

  lemma KnownIsValid(m: Model, sid: string)
    requires Forest(m.root, m.children) && m.root != "" && Known(m, sid)
    ensures ValidId(sid)
  {
    hide ValidId;
  }

  lemma OpenIsFound(m: Model, r: Request)
    requires Inv(m) && r in m.open
    ensures Find(m.open, r.Id()) == Some(r) && ValidId(r.id) && ValidId(r.Sid())
    ensures r.FormRequested? ==> r.form.form.requestId == r.id
  {
    hide Forest, ValidId;
    assert Listed(m, r);
    FoundOnly(m.open, r);
    KnownIsValid(m, r.Sid());
  }

  /** In every reachable state an open form can be cancelled and an open permission rejected, each with its own line. */
  lemma OpenCanBeDeclined(inputs: seq<Input>, r: Request)
    requires r in Run(inputs).0.open
    ensures var m := Run(inputs).0;
      && (r.PermRequest? ==>
            Encode(m, ResolvePermission(r.id, "reject_once")).1 ==
              Sent(Http("POST", ["session", r.Sid(), "permission", r.id, "reply"], DecisionBody("reject")),
                   [PermissionResolved(OriginOf(m, r.Sid()), "human", "reject_once", r.id)]))
      && (r.FormRequested? ==>
            Encode(m, ResolveForm(FormResolve(r.id, "cancelled", map[]))).1 ==
              Sent(Http("DELETE", ["session", r.Sid(), "form", r.id], NoBody),
                   [FormResolved(OriginOf(m, r.Sid()), "human", "cancelled", r.id, None)]))
  {
    hide Run, Inv, ValidId, Find;
    RunFollowsLedger(inputs);
    OpenIsFound(Run(inputs).0, r);
  }

  /**
    The event puts what was received before the human, and it is what is held: of a permission the
    session and whether the details were cut, of a form the session and the whole form.
   */
  ghost predicate AsksFor(i: Input, e: Event, r: Request) {
    match r
    case PermRequest(id, p) =>
      && i.Received? && i.frame.PermissionAsked? && e.PermissionRequested?
      && e.request == P.Permission(i.frame.data) && e.request.requestId == id
      && p.truncated == e.request.detailsTruncated && p.sid == P.StringAt(FieldsOf(i.frame.data), "sessionID")
    case FormRequested(id, p) =>
      && i.Received? && i.frame.FormCreated? && i.frame.form.Read? && e.FormRequestedEvent?
      && FormOf(i.frame.form.value) == Some(e.form) && e.form.requestId == id
      && p.form == e.form && Read(p.sid) == i.frame.form.value.sid
  }

  /** Input n is what was received, and its step showed the event at position i of the trace. */
  ghost predicate ShownBy(inputs: seq<Input>, n: int, i: int, r: Request) {
    && 0 <= n < |inputs| && |Run(inputs[..n]).1| <= i < |Run(inputs[..n + 1]).1| <= |Run(inputs).1|
    && Run(inputs).1[i].Emitted? && AsksFor(inputs[n], Run(inputs).1[i].event, r)
  }

  lemma NewOpen(m: Model, i: Input, r: Request)
    requires r in Next(m, i).0.open && r !in m.open
    ensures var obs := Next(m, i).1; obs != [] && obs[0].Emitted? && AsksFor(i, obs[0].event, r)
  {
    hide P.Permission, P.ReadAsked, FormOf, Scope, ValidId, Find, OriginOf, Outside, Among;
    if i.Received? && i.frame.PermissionAsked? {
      SameRequestId(i.frame.data);
      SameSession(m, i.frame.data);
    } else if i.Received? && i.frame.FormCreated? {
      SameFormId(i.frame.form.value);
      ScopedSession(m, i.frame.form.value.sid);
    } else {
      NothingOpened(m, i, r);
    }
  }

  lemma SameSession(m: Model, data: Value)
    ensures Text(P.ReadAsked(data).sid) == P.StringAt(FieldsOf(data), "sessionID")
  {
  }

  lemma ScopedSession(m: Model, sid: Field<string>)
    ensures Scope(m, Text(sid)).Some? && !sid.Unreadable? ==> sid == Read(Text(sid))
  {
  }

  lemma NothingOpened(m: Model, i: Input, r: Request)
    requires !(i.Received? && (i.frame.PermissionAsked? || i.frame.FormCreated?))
    ensures r in Next(m, i).0.open ==> r in m.open
  {
    hide P.Permission, P.ReadAsked, FormOf, Scope, ValidId, Find, OriginOf, Outside, Among;
    if i.Received? && i.frame.ExecutionEnded? {
      Members(m.open, Closing(m, Text(i.frame.sid)));
    } else if i.Received? && i.frame.PermissionReplied? {
      Members(m.open, {Key(Permission, Text(i.frame.requestId))});
    } else if i.Received? && (i.frame.FormReplied? || i.frame.FormCancelled?) {
      Members(m.open, {Key(Form, Text(i.frame.requestId))});
    } else if i.Commanded? && i.command.ResolvePermission? {
      Members(m.open, {Key(Permission, i.command.id)});
    } else if i.Commanded? && i.command.ResolveForm? {
      Members(m.open, {Key(Form, i.command.resolve.requestId)});
    }
  }

  lemma StaysShown(front: seq<Input>, next: Input, n: int, i: int, r: Request)
    requires ShownBy(front, n, i, r)
    ensures ShownBy(front + [next], n, i, r)
  {
    hide AsksFor, Next;
    var inputs := front + [next];
    assert inputs[..|front|] == front;
    assert inputs[..n] == front[..n] && inputs[..n + 1] == front[..n + 1];
  }

  lemma ShownNow(front: seq<Input>, next: Input, r: Request)
    requires var obs := Next(Run(front).0, next).1; obs != [] && obs[0].Emitted? && AsksFor(next, obs[0].event, r)
    ensures ShownBy(front + [next], |front|, |Run(front).1|, r)
  {
    hide AsksFor, Next;
    var inputs := front + [next];
    assert inputs[..|front|] == front && inputs[..|front| + 1] == inputs;
  }

  /** Everything open was asked for by one received frame, and that frame's own event shows it. */
  lemma {:induction false} OpenWasShown(inputs: seq<Input>, r: Request)
    requires r in Run(inputs).0.open
    ensures exists n, i :: ShownBy(inputs, n, i, r)
  {
    hide Next, AsksFor, ShownBy;
    var front, i := inputs[..|inputs| - 1], inputs[|inputs| - 1];
    var m := Run(front).0;
    assert inputs == front + [i];
    if r in m.open {
      OpenWasShown(front, r);
      var n, j :| ShownBy(front, n, j, r);
      StaysShown(front, i, n, j, r);
    } else {
      NewOpen(m, i, r);
      ShownNow(front, i, r);
    }
  }

  /** An open permission can be allowed exactly when the request that the human saw was whole, by its own line. */
  lemma AllowedIffWhole(inputs: seq<Input>, r: Request)
    requires r in Run(inputs).0.open && r.PermRequest?
    ensures var (m, trace) := Run(inputs);
      exists n, i :: ShownBy(inputs, n, i, r) &&
        Encode(m, ResolvePermission(r.id, "allow_once")).1 ==
          if trace[i].event.request.detailsTruncated then Refused
          else Sent(Http("POST", ["session", r.Sid(), "permission", r.id, "reply"], DecisionBody("once")),
                    [PermissionResolved(OriginOf(m, r.Sid()), "human", "allow_once", r.id)])
  {
    hide Run, Inv, Encode, P.Permission, OriginOf;
    RunFollowsLedger(inputs);
    OpenWasShown(inputs, r);
    AllowAnswer(Run(inputs).0, r);
    var n, i :| ShownBy(inputs, n, i, r);
    assert Run(inputs).1[i].event.request.detailsTruncated == r.perm.truncated;
  }

  lemma AllowAnswer(m: Model, r: Request)
    requires Inv(m) && r in m.open && r.PermRequest?
    ensures Encode(m, ResolvePermission(r.id, "allow_once")).1 ==
      if r.perm.truncated then Refused
      else Sent(Http("POST", ["session", r.Sid(), "permission", r.id, "reply"], DecisionBody("once")),
                [PermissionResolved(OriginOf(m, r.Sid()), "human", "allow_once", r.id)])
  {
    hide Inv, ValidId, Find, OriginOf;
    OpenIsFound(m, r);
  }

  /**
    Whatever a human allows, it was all shown: what the agent sent in the request of that ID stands in
    the details of the event of that step as `NothingHidden` says.
   */
  lemma AllowedWasShown(inputs: seq<Input>, id: string)
    requires Encode(Run(inputs).0, ResolvePermission(id, "allow_once")).1.Sent?
    ensures var (m, trace) := Run(inputs);
      exists r, n, i :: r in m.open && r.PermRequest? && r.id == id && ShownBy(inputs, n, i, r) &&
        trace[i].event.request == P.Permission(inputs[n].frame.data) && !trace[i].event.request.detailsTruncated
  {
    hide Run, Inv, ValidId, Find, P.Permission;
    var m := Run(inputs).0;
    Found(m.open, Key(Permission, id));
    var r := Find(m.open, Key(Permission, id)).value;
    OpenWasShown(inputs, r);
  }

  /** An open form takes exactly the answers that are valid for the form that was shown, and passes them on as they are. */
  lemma AnsweredIffValid(inputs: seq<Input>, r: Request, answer: map<string, FormValue>)
    requires r in Run(inputs).0.open && r.FormRequested?
    ensures var (m, trace) := Run(inputs); var c := FormResolve(r.id, "answered", answer);
      exists n, i :: ShownBy(inputs, n, i, r) &&
        Encode(m, ResolveForm(c)).1 ==
          if !c.Valid(trace[i].event.form) then Refused
          else Sent(Http("POST", ["session", r.Sid(), "form", r.id, "reply"], AnswerBody(answer)),
                    [FormResolved(OriginOf(m, r.Sid()), "human", "answered", r.id, Some(answer))])
  {
    hide Run, Inv, ValidId, Find, FormResolve.Valid;
    RunFollowsLedger(inputs);
    OpenWasShown(inputs, r);
    OpenIsFound(Run(inputs).0, r);
    assert ["session", r.Sid(), "form", r.id] + ["reply"] == ["session", r.Sid(), "form", r.id, "reply"];
  }

  /** A permission that the agent settles itself is reported with the outcome it gave; another session's reply does nothing. */
  lemma AgentRepliesTo(inputs: seq<Input>, r: Request, sid: string, reply: string)
    requires r in Run(inputs).0.open && r.PermRequest?
    ensures var m := Run(inputs).0; var (m', es) := Decode(m, PermissionReplied(Read(r.id), Read(sid), Read(reply)));
      if sid != r.Sid() then m' == m && es == [AgentFrame]
      else es == [PermissionResolved(OriginOf(m, sid), "agent", GivenOutcome(reply), r.id)]
  {
    hide Run, Inv, ValidId, Find;
    RunFollowsLedger(inputs);
    OpenIsFound(Run(inputs).0, r);
  }

  function GivenOutcome(reply: string): string {
    match reply
    case "always" => "allow_always"
    case "once" => "allow_once"
    case "reject" => "reject_once"
    case _ => "cancelled"
  }

  /** The same for a form, whose answer is reported as it was given. */
  lemma AgentSettlesForm(inputs: seq<Input>, r: Request, sid: string, answer: Option<map<string, FormValue>>)
    requires r in Run(inputs).0.open && r.FormRequested?
    ensures var m := Run(inputs).0;
      var (a, answered) := Decode(m, FormReplied(Read(r.id), Read(sid), answer));
      var (b, cancelled) := Decode(m, FormCancelled(Read(r.id), Read(sid)));
      if sid != r.Sid() then a == m && answered == [AgentFrame] && b == m && cancelled == [AgentFrame]
      else
        && answered == [FormResolved(OriginOf(m, sid), "agent", "answered", r.id, answer)]
        && cancelled == [FormResolved(OriginOf(m, sid), "agent", "cancelled", r.id, None)]
  {
    hide Run, Inv, ValidId, Find;
    RunFollowsLedger(inputs);
    OpenIsFound(Run(inputs).0, r);
  }

  /** What the end of a session closes is reported as cancelled, by the agent. */
  lemma ClosedAsCancelled(m: Model, sid: Field<string>, ending: Ending, j: nat)
    requires j < |OnExecutionEnded(m, sid, ending).1|
    ensures var e := OnExecutionEnded(m, sid, ending).1[j];
      && (e.PermissionResolved? ==> e.actor == "agent" && e.outcome == "cancelled")
      && (e.FormResolved? ==> e.actor == "agent" && e.outcome == "cancelled" && e.answer.None?)
  {
    hide Closing, Among, Close, Scope;
    var s := Text(sid);
    if Scope(m, s).Some? && !sid.Unreadable? {
      var rs := Among(m.open, Closing(m, s));
      var es := OnExecutionEnded(m, sid, ending).1;
      if j < |rs| { assert es[j] == CancelEvent(m, rs[j]); }
    }
  }

  /** A mark of a settled request is never changed. */
  lemma MarkStays(m: Model, i: Input, k: Key)
    requires Inv(m) && k in m.seen && m.seen[k] != Requested
    ensures k in Next(m, i).0.seen && Next(m, i).0.seen[k] == m.seen[k]
  {
    hide P.Permission, P.ReadAsked, FormOf, Scope, ValidId, OriginOf, Outside, Among, Inv, CancelEvents, PermissionRequest.Valid,
      FormRequest.Valid, Encode;
    NotSettledOpen(m, k);
    match i
    case Commanded(c) => MarkStaysBy(m, c, k);
    case Received(f) =>
      match f
      case PermissionReplied(id, _, _) => Found(m.open, Key(Permission, Text(id)));
      case FormReplied(id, _, _) => Found(m.open, Key(Form, Text(id)));
      case FormCancelled(id, _) => Found(m.open, Key(Form, Text(id)));
      case _ =>
  }

  lemma MarkStaysBy(m: Model, c: Command, k: Key)
    requires k in m.seen && forall r :: r in m.open ==> r.Id() != k
    ensures k in Encode(m, c).0.seen && Encode(m, c).0.seen[k] == m.seen[k]
  {
    hide ValidId, OriginOf, Outside, FormResolve.Valid;
    if c.ResolvePermission? { Found(m.open, Key(Permission, c.id)); }
    if c.ResolveForm? { Found(m.open, Key(Form, c.resolve.requestId)); }
  }

  lemma NotSettledOpen(m: Model, k: Key)
    requires Inv(m) && k in m.seen && m.seen[k] != Requested
    ensures forall r :: r in m.open ==> r.Id() != k
  {
    forall r | r in m.open ensures r.Id() != k { assert Listed(m, r); }
  }

  lemma {:induction false} MarkStaysOn(inputs: seq<Input>, n: nat, k: Key)
    requires n <= |inputs| && var m := Run(inputs[..n]).0; k in m.seen && m.seen[k] != Requested
    ensures k in Run(inputs).0.seen && Run(inputs).0.seen[k] == Run(inputs[..n]).0.seen[k]
  {
    hide Next, Inv;
    if n == |inputs| {
      assert inputs[..n] == inputs;
    } else {
      var front := inputs[..|inputs| - 1];
      assert front[..n] == inputs[..n];
      MarkStaysOn(front, n, k);
      RunFollowsLedger(front);
      MarkStays(Run(front).0, inputs[|inputs| - 1], k);
    }
  }

  /** The echo of a decision of ours is silent, however much later it comes. */
  lemma OwnEchoIsSilent(inputs: seq<Input>, n: nat, sid: string, reply: Field<string>)
    requires n < |inputs| && inputs[n].Commanded? && inputs[n].command.ResolvePermission?
    requires Encode(Run(inputs[..n]).0, inputs[n].command).1.Sent?
    ensures var m := Run(inputs).0;
      Decode(m, PermissionReplied(Read(inputs[n].command.id), Read(sid), reply)) == (m, [])
  {
    hide Run, Inv, Find, ValidId, Encode, Decode, Next;
    var c, k := inputs[n].command, Key(Permission, inputs[n].command.id);
    RunNext(inputs, n);
    DecidedByUs(Run(inputs[..n]).0, c);
    MarkStaysOn(inputs, n + 1, k);
    RunFollowsLedger(inputs);
    EchoSilent(Run(inputs).0, c.id, sid, reply);
  }

  /** So is the echo of a form that we answered or cancelled, whichever of the two it says. */
  lemma OwnFormEchoIsSilent(inputs: seq<Input>, n: nat, sid: string, answer: Option<map<string, FormValue>>)
    requires n < |inputs| && inputs[n].Commanded? && inputs[n].command.ResolveForm?
    requires Encode(Run(inputs[..n]).0, inputs[n].command).1.Sent?
    ensures var m, id := Run(inputs).0, inputs[n].command.resolve.requestId;
      && Decode(m, FormReplied(Read(id), Read(sid), answer)) == (m, [])
      && Decode(m, FormCancelled(Read(id), Read(sid))) == (m, [])
  {
    hide Run, Inv, Find, ValidId, Encode, Decode, Next;
    var c, k := inputs[n].command, Key(Form, inputs[n].command.resolve.requestId);
    RunNext(inputs, n);
    FormDecidedByUs(Run(inputs[..n]).0, c);
    MarkStaysOn(inputs, n + 1, k);
    RunFollowsLedger(inputs);
    FormEchoSilent(Run(inputs).0, c.resolve.requestId, sid, answer);
  }

  lemma FormDecidedByUs(m: Model, c: Command)
    requires c.ResolveForm? && Encode(m, c).1.Sent?
    ensures var k := Key(Form, c.resolve.requestId); var m' := Next(m, Commanded(c)).0;
      k in m'.seen && m'.seen[k] == ByUs && ValidId(c.resolve.requestId)
  {
    hide ValidId, Find, Outside, FormResolve.Valid, OriginOf;
  }

  lemma FormEchoSilent(m: Model, id: string, sid: string, answer: Option<map<string, FormValue>>)
    requires Inv(m) && ValidId(id) && Key(Form, id) in m.seen && m.seen[Key(Form, id)] == ByUs
    ensures Decode(m, FormReplied(Read(id), Read(sid), answer)) == (m, [])
    ensures Decode(m, FormCancelled(Read(id), Read(sid))) == (m, [])
  {
    hide Inv, Find, ValidId;
    NotSettledOpen(m, Key(Form, id));
    Found(m.open, Key(Form, id));
  }

  lemma DecidedByUs(m: Model, c: Command)
    requires c.ResolvePermission? && Encode(m, c).1.Sent?
    ensures var k := Key(Permission, c.id); var m' := Next(m, Commanded(c)).0;
      k in m'.seen && m'.seen[k] == ByUs && ValidId(c.id)
  {
    hide ValidId, Find, Outside;
  }

  lemma EchoSilent(m: Model, id: string, sid: string, reply: Field<string>)
    requires Inv(m) && ValidId(id) && Key(Permission, id) in m.seen && m.seen[Key(Permission, id)] == ByUs
    ensures Decode(m, PermissionReplied(Read(id), Read(sid), reply)) == (m, [])
  {
    hide Inv, Find, ValidId;
    NotSettledOpen(m, Key(Permission, id));
    Found(m.open, Key(Permission, id));
  }

  lemma RunNext(inputs: seq<Input>, n: nat)
    requires n < |inputs|
    ensures Run(inputs[..n + 1]).0 == Next(Run(inputs[..n]).0, inputs[n]).0
  {
    hide Next;
    assert inputs[..n + 1][..n] == inputs[..n];
  }

  /** A command that is refused changes nothing. */
  lemma RefusedChangesNothing(m: Model, c: Command)
    requires Encode(m, c).1.Refused?
    ensures Encode(m, c).0 == m
  {
  }

  // ----- sessions -----

  /** From any point of a run on, sessions are never forgotten or moved and a call, once set, stays. */
  lemma {:induction false} SessionsOnlyGrow(inputs: seq<Input>, n: nat)
    requires n <= |inputs|
    ensures Grows(Run(inputs[..n]).0, Run(inputs).0)
    ensures Forest(Run(inputs).0.root, Run(inputs).0.children)
  {
    hide Next, Inv;
    RunFollowsLedger(inputs);
    InvIsForest(Run(inputs).0);
    if n == |inputs| {
      assert inputs[..n] == inputs;
    } else {
      var front := inputs[..|inputs| - 1];
      SessionsOnlyGrow(front, n);
      RunFollowsLedger(front);
      NextOk(Run(front).0, inputs[|inputs| - 1]);
      assert front[..n] == inputs[..n];
    }
  }

  lemma InvIsForest(m: Model)
    requires Inv(m)
    ensures Forest(m.root, m.children)
  {
  }

  /** The call of a known child is set only by a progress event of the child's own parent. */
  lemma CallSetByParent(m: Model, i: Input, c: string)
    requires c in m.children && c in Next(m, i).0.children
    requires Next(m, i).0.children[c].callId != m.children[c].callId
    ensures i.Received? && i.frame.ToolProgress? && i.frame.child == c
    ensures Text(i.frame.sid) == m.children[c].parent
    ensures m.children[c].callId == "" && Next(m, i).0.children[c].callId == Text(i.frame.callId)
  {
    hide P.Permission, P.ReadAsked, FormOf, ValidId, Find, Outside, Among, Closing, CancelEvents, TurnEvents,
      FormResolve.Valid, PermissionRequest.Valid, FormRequest.Valid;
    if i.Received? && i.frame.SessionCreated? && ValidId(Text(i.frame.sid)) { IdNotEmpty(Text(i.frame.sid)); }
  }
}
