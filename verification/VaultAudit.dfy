/**
  The vault's log and file in the words of their formats: what each change writes, what is noted
  before it and when it fails, and that every call goes through when nothing fails.
 */
module VaultAudit {
  import opened Wrappers
  import opened VaultCrypto
  import opened VaultStore
  import opened VaultDisk

  /** Of an ID no more than twelve characters are noted. */
  predicate HeadOf(h: Bytes, id: Bytes) {
    if |id| <= 12 then h == id else |h| == 12 && h == id[..12]
  }

  /** The entry notes this event of this vault, and by their heads the passkey that proves itself and the one concerned. */
  predicate Notes(e: Entry, event: string, id: Bytes, cred: Bytes, target: Bytes) {
    e.event == event && e.vaultId == id && HeadOf(e.cred, cred) && HeadOf(e.target, target)
  }

  // ----- what a change writes -----

  /** A new vault has the given passkey only. */
  predicate IsFounded(was: File, now: Document, id: Bytes, w: WrapRecord) {
    was.Absent? && now.version == 1 && now.id == id && now.wraps == [w] && now.items == []
  }

  predicate IsAdded(was: File, now: Document, w: WrapRecord) {
    && was.Whole? && now == was.doc.(wraps := now.wraps) && now.wraps == was.doc.wraps + [w]
    && forall x :: x in was.doc.wraps ==> x.cred != w.cred
  }

  /** The passkey at position k is gone, the others stand as they stood. */
  predicate IsRemoved(was: File, now: Document, k: int, target: Bytes) {
    && was.Whole? && now == was.doc.(wraps := now.wraps) && 0 <= k < |was.doc.wraps| && |was.doc.wraps| > 1
    && was.doc.wraps[k].cred == target && now.wraps == was.doc.wraps[..k] + was.doc.wraps[k + 1..]
  }

  /** The item takes the place of the one with its kind and name, or stands last when there was none. */
  predicate IsStored(was: File, now: Document, k: int, rec: ItemRecord) {
    && was.Whole? && now == was.doc.(items := now.items) && 0 <= k <= |was.doc.items|
    && (if k < |was.doc.items|
        then was.doc.items[k].kind == rec.kind && was.doc.items[k].name == rec.name && now.items == was.doc.items[k := rec]
        else now.items == was.doc.items + [rec] && forall x :: x in was.doc.items ==> x.kind != rec.kind || x.name != rec.name)
  }

  lemma {:induction false} WithoutTells(ws: seq<WrapRecord>, k: int, target: Bytes)
    requires DistinctWraps(ws) && 0 <= k < |ws| && ws[k].cred == target
    ensures Without(ws, target) == ws[..k] + ws[k + 1..]
  {
    var front, last := ws[..|ws| - 1], ws[|ws| - 1];
    if k == |front| {
      NothingWithout(front, target);
      assert ws[k + 1..] == [];
    } else {
      WithoutTells(front, k, target);
      assert front[k + 1..] + [last] == ws[k + 1..] && front[..k] == ws[..k];
    }
  }

  lemma {:induction false} NothingWithout(ws: seq<WrapRecord>, target: Bytes)
    requires forall i :: 0 <= i < |ws| ==> ws[i].cred != target
    ensures Without(ws, target) == ws
  {
    if ws != [] {
      NothingWithout(ws[..|ws| - 1], target);
      assert ws == ws[..|ws| - 1] + [ws[|ws| - 1]];
    }
  }

  /** The entry right before position i. */
  function NotedAt(hist: seq<Happened>, i: int): Option<Entry> {
    if 0 < i <= |hist| && hist[i - 1].Audited? then Some(hist[i - 1].entry) else None
  }

  /** The ways in which vault.json can have been replaced at position i, each right after its entry. */
  ghost predicate Tells(hist: seq<Happened>, i: nat)
    requires i < |hist| && hist[i].Replaced?
  {
    && hist[i].file.Whole?
    && var was, now, noted := FileAfter(hist[..i]), hist[i].file.doc, NotedAt(hist, i);
       || (exists id, w :: IsFounded(was, now, id, w) && noted.Some? && Notes(noted.value, "init", id, w.cred, ""))
       || (exists w, prover :: IsAdded(was, now, w) && noted.Some? && Notes(noted.value, "add-wrap", now.id, prover, w.cred))
       || (exists k, target, prover ::
             IsRemoved(was, now, k, target) && noted.Some? && Notes(noted.value, "remove-wrap", now.id, prover, target))
       || (exists k, rec :: IsStored(was, now, k, rec))
  }

  /** Every replacement of vault.json is one of the four changes of the version before it, right after its own entry. */
  lemma ReplacedTells(events: seq<Event>, i: nat)
    requires i < |Run(events).hist| && Run(events).hist[i].Replaced?
    ensures Tells(Run(events).hist, i)
  {
    hide Run, Tells, MadeBy;
    AuditedFirst(events, i);
    var hist := Run(events).hist;
    var c :| MadeBy(hist, i, hist[i].file, c);
    MadeTells(hist, i, c);
  }

  lemma MadeTells(hist: seq<Happened>, i: nat, c: Change)
    requires i < |hist| && hist[i].Replaced? && MadeBy(hist, i, hist[i].file, c)
    ensures Tells(hist, i)
  {
    hide Without, ItemIndex, ValidWrap, ValidItem;
    var was := FileAfter(hist[..i]);
    var now := hist[i].file.doc;
    match c
    case Founding(id, w) =>
      assert IsFounded(was, now, id, w);
    case Adding(prover, w) =>
      assert IsAdded(was, now, w);
      assert Notes(NotedAt(hist, i).value, "add-wrap", now.id, prover, w.cred);
    case Removing(prover, target) =>
      var x :| x in was.doc.wraps && x.cred == target;
      var k :| 0 <= k < |was.doc.wraps| && was.doc.wraps[k] == x;
      WithoutTells(was.doc.wraps, k, target);
      assert IsRemoved(was, now, k, target);
      assert Notes(NotedAt(hist, i).value, "remove-wrap", now.id, prover, target);
    case Storing(rec) =>
      var k := ItemIndex(was.doc.items, rec.kind, rec.name);
      assert IsStored(was, now, k, rec);
  }

  /** A vault is removed right after the entry of its reset, with the ID that could be read. */
  lemma RemovedTells(events: seq<Event>, i: nat)
    requires i < |Run(events).hist| && Run(events).hist[i].Removed?
    ensures var hist := Run(events).hist; var was := FileAfter(hist[..i]);
      NotedAt(hist, i) == Some(Entry("reset", if was.Whole? && |was.doc.id| == 16 then was.doc.id else "unknown", "", ""))
  {
    hide Run;
    AuditedFirst(events, i);
  }

  // ----- what is noted when a change fails -----

  /** The entry of this change under this event name. */
  ghost predicate NotesChange(e: Entry, mem: Option<Document>, c: Change, suffix: string) {
    match c
    case Founding(id, w) => Notes(e, "init" + suffix, id, w.cred, "")
    case Adding(prover, w) => mem.Some? && Notes(e, "add-wrap" + suffix, mem.value.id, prover, w.cred)
    case Removing(prover, target) => mem.Some? && Notes(e, "remove-wrap" + suffix, mem.value.id, prover, target)
    case Storing(_) => false
  }

  lemma EntryTells(mem: Option<Document>, c: Change, suffix: string)
    requires Applies(mem, c)
    ensures EntryOf(mem, c).None? <==> c.Storing?
    ensures !c.Storing? ==> var e := EntryOf(mem, c).value; NotesChange(e.(event := e.event + suffix), mem, c, suffix)
    ensures !c.Storing? ==> NotesChange(EntryOf(mem, c).value, mem, c, "")
  {
    hide ValidWrap, ValidItem, ItemIndex;
  }

  /** A change that fails before the rename leaves vault.json and is noted as failed; of an item nothing is noted. */
  lemma FailedTells(events: seq<Event>, pid: nat, left: bool, again: bool)
    requires At(Run(events), pid).Writing?
    ensures var s := Run(events); var (mem, c) := (At(s, pid).mem, At(s, pid).change);
      var s1 := Next(s, Proc(pid, Step(false, left)));
      var s2 := Next(s1, Proc(pid, Step(true, again)));
      && s1.vault == s.vault && s1.hist == s.hist && s1.durable == s.durable
      && if c.Storing? then At(s1, pid) == Idle(mem) && s2 == s1
         else
           && At(s1, pid).Noting? && At(s2, pid) == Idle(mem) && s2.vault == s.vault
           && |s2.hist| == |s.hist| + 1 && s2.hist[..|s.hist|] == s.hist
           && s2.hist[|s.hist|].Audited? && NotesChange(s2.hist[|s.hist|].entry, mem, c, "-failed")
  {
    hide Run, Inv, Applies, After, EntryOf, OnStep, NotesChange;
    var s := Run(events);
    RunKeeps(events);
    WritingApplies(s, pid);
    var (mem, c) := (At(s, pid).mem, At(s, pid).change);
    EntryTells(mem, c, "-failed");
    var s1 := Next(s, Proc(pid, Step(false, left)));
    FailingStep(s, pid, left);
    if c.Storing? { IdleStep(s1, pid, again); } else { NotingStep(s1, pid, again); }
  }

  lemma FailingStep(s: Sys, pid: nat, left: bool)
    requires At(s, pid).Writing? && Applies(At(s, pid).mem, At(s, pid).change)
    ensures var (mem, e, s1) := (At(s, pid).mem, EntryOf(At(s, pid).mem, At(s, pid).change), OnStep(s, pid, false, left));
      && s1.vault == s.vault && s1.hist == s.hist && s1.durable == s.durable
      && At(s1, pid) == if e.None? then Idle(mem) else Noting(mem, e.value.(event := e.value.event + "-failed"))
  {
    hide Applies, After, EntryOf;
  }

  lemma NotingStep(s: Sys, pid: nat, left: bool)
    requires At(s, pid).Noting?
    ensures var s1 := OnStep(s, pid, true, left);
      At(s1, pid) == Idle(At(s, pid).mem) && s1.vault == s.vault && s1.hist == s.hist + [Audited(At(s, pid).entry)]
  {
  }

  lemma IdleStep(s: Sys, pid: nat, left: bool)
    requires At(s, pid).Idle?
    ensures OnStep(s, pid, true, left) == s
  {
  }

  lemma WritingApplies(s: Sys, pid: nat)
    requires Inv(s) && (At(s, pid).Writing? || At(s, pid).Auditing?)
    ensures Applies(At(s, pid).mem, At(s, pid).change) && s.vault == FileOf(At(s, pid).mem) && s.holder == Some(pid)
    ensures At(s, pid).Writing? && At(s, pid).stage in {Sync, CloseTmp, Rename} ==>
      s.tmp == Whole(After(At(s, pid).mem, At(s, pid).change))
    ensures At(s, pid).Writing? && At(s, pid).stage in {CloseTmp, Rename} ==> s.tmpSynced
  {
    hide Applies, After, EntryOf, Explained, Files;
    InsideHolds(s, pid);
  }

  /** A change whose directory sync fails is there, in memory as well, and is noted as not known to last. */
  lemma NotDurableTells(events: seq<Event>, pid: nat)
    requires At(Run(events), pid).Writing? && At(Run(events), pid).stage == Rename
    ensures var s := Run(events); var (mem, c) := (At(s, pid).mem, At(s, pid).change);
      var s1 := Next(s, Proc(pid, Step(true, false)));
      var s2 := Next(s1, Proc(pid, Step(false, false)));
      var s3 := Next(s2, Proc(pid, Step(true, false)));
      && Applies(mem, c)
      && s1.vault == Whole(After(mem, c)) && s1.hist == s.hist + [Replaced(s1.vault)]
      && s3.vault == s1.vault && At(s3, pid) == Idle(Some(After(mem, c)))
      && if c.Storing? then s3.hist == s1.hist
         else
           && |s3.hist| == |s1.hist| + 1 && s3.hist[..|s1.hist|] == s1.hist
           && s3.hist[|s1.hist|].Audited? && NotesChange(s3.hist[|s1.hist|].entry, mem, c, "-not-durable")
  {
    hide Run, Inv, Applies, After, EntryOf;
    var s := Run(events);
    RunKeeps(events);
    WritingApplies(s, pid);
    EntryTells(At(s, pid).mem, At(s, pid).change, "-not-durable");
  }

  /** A change whose entry cannot be written is not begun. */
  lemma NotNotedTells(events: seq<Event>, pid: nat, left: bool)
    requires At(Run(events), pid).Auditing?
    ensures var s := Run(events); var s1 := Next(s, Proc(pid, Step(false, left)));
      At(s1, pid) == Idle(At(s, pid).mem) && s1.vault == s.vault && s1.tmp == s.tmp && s1.durable == s.durable
  {
    hide Run, Inv, Applies, After, EntryOf;
    var s := Run(events);
    RunKeeps(events);
    WritingApplies(s, pid);
    HasEntry(s, pid);
  }

  /** Only a change that is noted waits for its entry. */
  lemma HasEntry(s: Sys, pid: nat)
    requires Inv(s) && At(s, pid).Auditing?
    ensures Applies(At(s, pid).mem, At(s, pid).change) && EntryOf(At(s, pid).mem, At(s, pid).change).Some?
  {
    InsideHolds(s, pid);
  }

  // ----- calls that nothing stops -----

  /** Some steps of a process that all succeed. */
  function Steps(s: Sys, pid: nat, n: nat): Sys {
    if n == 0 then s else Next(Steps(s, pid, n - 1), Proc(pid, Step(true, false)))
  }

  /** The document in a file, if there is one. */
  function DocOf(f: File): Option<Document> { if f.Whole? then Some(f.doc) else None }

  /** Whoever opens the directory gets it, when nobody has it, and reads what vault.json holds; otherwise nothing happens. */
  lemma OpenTells(events: seq<Event>, pid: nat)
    requires At(Run(events), pid).Out?
    ensures var s := Run(events); var s1 := Next(s, Proc(pid, TryOpen)); var s2 := Steps(s1, pid, 1);
      if s.holder.Some? then s1 == s
      else
        && At(s2, pid) == Idle(DocOf(s.vault)) && s2.holder == Some(pid)
        && s2.vault == s.vault && s2.hist == s.hist && s2.durable == s.durable && s2.tmp == s.tmp
  {
    hide Run, Explained, Document.Valid;
    RunKeeps(events);
    var s1 := Next(Run(events), Proc(pid, TryOpen));
    assert Steps(s1, pid, 1) == Next(Steps(s1, pid, 0), Proc(pid, Step(true, false)));
  }

  /** Whoever closes the vault or dies gives the directory back, and its files stay as they are. */
  lemma LeavingTells(events: seq<Event>, pid: nat)
    requires !At(Run(events), pid).Out?
    ensures var s := Run(events);
      && Next(s, Proc(pid, Crash)) == s.(procs := s.procs[pid := Out], holder := None)
      && (At(s, pid).Idle? ==> Next(s, Proc(pid, CloseVault)) == s.(procs := s.procs[pid := Out], holder := None))
  {
    hide Run;
  }

  /** A refused change is noted by the heads of its two IDs, when they are IDs at all. */
  lemma DeniedTells(events: seq<Event>, pid: nat, r: Refused)
    requires At(Run(events), pid).Idle?
    ensures var s := Run(events); var mem := At(s, pid).mem;
      var s1 := Next(s, Proc(pid, Deny(r)));
      var s2 := Steps(s1, pid, 1);
      if mem.None? || !ValidId(r.authorizer) || !ValidId(r.target) then s1 == s
      else
        && s2.vault == s.vault && s2.tmp == s.tmp && s2.durable == s.durable && At(s2, pid) == Idle(mem)
        && |s2.hist| == |s.hist| + 1 && s2.hist[..|s.hist|] == s.hist && s2.hist[|s.hist|].Audited?
        && Notes(s2.hist[|s.hist|].entry, if r.adding then "add-wrap-denied" else "remove-wrap-denied", mem.value.id, r.authorizer, r.target)
  {
    hide Run, ValidId;
    var s1 := Next(Run(events), Proc(pid, Deny(r)));
    assert Steps(s1, pid, 1) == Next(Steps(s1, pid, 0), Proc(pid, Step(true, false)));
  }

  /** The steps of a write, none of which fails. */
  lemma StagesTell(s: Sys, pid: nat, c: Change)
    requires At(s, pid).Writing? && At(s, pid).change == c && At(s, pid).stage == ClearTmp && Applies(At(s, pid).mem, c)
    ensures var now, s' := After(At(s, pid).mem, c), Steps(s, pid, 6);
      && s'.vault == Whole(now) && s'.tmp.Absent? && At(s', pid) == SyncingDir(Some(now), EntryOf(At(s, pid).mem, c))
      && s'.hist == s.hist + [Replaced(Whole(now))] && s'.durable == s.durable + {Whole(now)}
      && s'.holder == s.holder
  {
    hide Applies, After, EntryOf;
    var mem, now := At(s, pid).mem, After(At(s, pid).mem, c);
    StepsMore(s, pid, 0);
    var s1 := Steps(s, pid, 1);
    assert At(s1, pid) == Writing(mem, c, Create) && s1.tmp.Absent?;
    StepsMore(s, pid, 1);
    var s2 := Steps(s, pid, 2);
    assert At(s2, pid) == Writing(mem, c, Fill);
    StepsMore(s, pid, 2);
    var s3 := Steps(s, pid, 3);
    assert At(s3, pid) == Writing(mem, c, Sync) && s3.tmp == Whole(now);
    StepsMore(s, pid, 3);
    var s4 := Steps(s, pid, 4);
    assert At(s4, pid) == Writing(mem, c, CloseTmp) && s4.tmp == Whole(now) && s4.tmpSynced;
    StepsMore(s, pid, 4);
    var s5 := Steps(s, pid, 5);
    assert At(s5, pid) == Writing(mem, c, Rename) && s5.tmp == Whole(now) && s5.tmpSynced;
    StepsMore(s, pid, 5);
  }

  lemma StepsMore(s: Sys, pid: nat, n: nat)
    ensures Steps(s, pid, n + 1) == OnStep(Steps(s, pid, n), pid, true, false)
  {
  }

  lemma {:induction false} StepsAgain(s: Sys, pid: nat, m: nat, n: nat)
    ensures Steps(Steps(s, pid, m), pid, n) == Steps(s, pid, m + n)
  {
    hide OnStep;
    if n > 0 { StepsAgain(s, pid, m, n - 1); }
  }

  /** A change that nothing stops is noted, made, and lasts: vault.json holds it, in memory as well, and no power loss undoes it. */
  lemma WriteTells(events: seq<Event>, pid: nat, c: Change)
    requires At(Run(events), pid).Idle? && Applies(At(Run(events), pid).mem, c)
    ensures var s := Run(events); var mem := At(s, pid).mem; var now := After(mem, c);
      var s' := Steps(Next(s, Proc(pid, Begin(c))), pid, if c.Storing? then 7 else 8);
      && s'.vault == Whole(now) && s'.durable == {Whole(now)} && s'.tmp.Absent? && At(s', pid) == Idle(Some(now))
      && s'.holder == s.holder
      && if c.Storing? then s'.hist == s.hist + [Replaced(Whole(now))]
         else
           && |s'.hist| == |s.hist| + 2 && s'.hist[..|s.hist|] == s.hist && s'.hist[|s.hist| + 1] == Replaced(Whole(now))
           && s'.hist[|s.hist|].Audited? && NotesChange(s'.hist[|s.hist|].entry, mem, c, "")
  {
    hide Run, Applies, After, EntryOf, OnStep, NotesChange;
    var s := Run(events);
    var mem, s0 := At(s, pid).mem, Next(s, Proc(pid, Begin(c)));
    EntryTells(mem, c, "");
    if c.Storing? {
      StagesTell(s0, pid, c);
      StepsMore(s0, pid, 6);
      SyncTells(Steps(s0, pid, 6), pid);
    } else {
      NotedTells(s0, pid, c);
      StepsMore(s0, pid, 0);
      var s1 := Steps(s0, pid, 1);
      StagesTell(s1, pid, c);
      StepsAgain(s0, pid, 1, 6);
      StepsMore(s0, pid, 7);
      SyncTells(Steps(s0, pid, 7), pid);
    }
  }

  lemma NotedTells(s: Sys, pid: nat, c: Change)
    requires At(s, pid).Auditing? && At(s, pid).change == c && Applies(At(s, pid).mem, c) && EntryOf(At(s, pid).mem, c).Some?
    ensures var s' := OnStep(s, pid, true, false);
      && At(s', pid) == Writing(At(s, pid).mem, c, ClearTmp) && s'.hist == s.hist + [Audited(EntryOf(At(s, pid).mem, c).value)]
      && s'.durable == s.durable && s'.holder == s.holder
  {
    hide Applies, EntryOf;
  }

  lemma SyncTells(s: Sys, pid: nat)
    requires At(s, pid).SyncingDir?
    ensures OnStep(s, pid, true, false) == s.(durable := {s.vault}, procs := s.procs[pid := Idle(At(s, pid).mem)])
  {
  }

  /** A reset that nothing stops is noted with the ID that can be read, and leaves no file that a power loss could bring back. */
  lemma ResetTells(events: seq<Event>, pid: nat)
    requires At(Run(events), pid).Out?
    ensures var s := Run(events); var s1 := Next(s, Proc(pid, TryReset)); var s' := Steps(s1, pid, 5);
      var id := if s.vault.Whole? && |s.vault.doc.id| == 16 then s.vault.doc.id else "unknown";
      var noted := s.hist + [Audited(Entry("reset", id, "", ""))];
      if s.holder.Some? then s1 == s
      else
        && s'.vault.Absent? && s'.tmp.Absent? && s'.durable == {Absent} && At(s', pid).Out? && s'.holder.None?
        && s'.hist == if s.vault.Absent? then noted else noted + [Removed]
  {
    hide Run, OnStep;
    if Run(events).holder.None? { ResetSteps(Next(Run(events), Proc(pid, TryReset)), pid); }
  }

  lemma ResetSteps(s: Sys, pid: nat)
    requires At(s, pid).ResetRead? && s.holder == Some(pid)
    ensures var s', noted := Steps(s, pid, 5), s.hist + [Audited(ResetEntry(s.vault))];
      && s'.vault.Absent? && s'.tmp.Absent? && s'.durable == {Absent} && At(s', pid).Out? && s'.holder.None?
      && s'.hist == if s.vault.Absent? then noted else noted + [Removed]
  {
    hide ResetEntry, Steps;
    var e := ResetEntry(s.vault);
    StepsMore(s, pid, 0);
    StepsMore(s, pid, 1);
    StepsMore(s, pid, 2);
    StepsMore(s, pid, 3);
    StepsMore(s, pid, 4);
    NoSteps(s, pid);
    ResetNoted(s, pid);
    var s2 := Steps(s, pid, 2);
    var s3 := Steps(s, pid, 3);
    assert At(s3, pid) == ResetTmp && s3.vault.Absent?;
    var s4 := Steps(s, pid, 4);
    assert At(s4, pid) == ResetSync && s4.tmp.Absent?;
  }

  lemma NoSteps(s: Sys, pid: nat)
    ensures Steps(s, pid, 0) == s
  {
  }

  lemma ResetNoted(s: Sys, pid: nat)
    requires At(s, pid).ResetRead?
    ensures var e, s2 := ResetEntry(s.vault), OnStep(OnStep(s, pid, true, false), pid, true, false);
      At(s2, pid) == ResetRemove(e) && s2.vault == s.vault && s2.tmp == s.tmp && s2.durable == s.durable
      && s2.hist == s.hist + [Audited(e)]
  {
    hide ResetEntry;
  }

  /** A loss of power ends every process and leaves one of the files that were not ruled out. */
  lemma PowerLossTells(events: seq<Event>, f: File)
    ensures var s := Run(events); var s' := Next(s, PowerLoss(f));
      if f !in s.durable then s' == s
      else
        && s'.vault == f && s'.durable == {f} && s'.procs == map[] && s'.holder.None?
        && s'.tmp == (if s.tmp.Absent? then Absent else Torn) && s'.hist == s.hist + [Restored(f)]
  {
    hide Run;
  }
}
