/**
  The vault's directory as several processes use it: the lock, the audit log, the temporary file
  and the rename, one system call a step. Every call can fail, every process can die between any
  two steps, and the machine can lose power, after which vault.json is any version that the last
  directory sync does not rule out.
 */
module VaultDisk {
  import opened Wrappers
  import opened VaultCrypto
  import opened VaultStore

  /** Torn: a file whose contents are not all there. */
  datatype File = Absent | Whole(doc: Document) | Torn

  /** What happened to the directory, in order. */
  datatype Happened = Audited(entry: Entry) | Replaced(file: File) | Removed | Restored(file: File)

  datatype Stage = ClearTmp | Create | Fill | Sync | CloseTmp | Rename

  /** Where a process is; mem is the document that its open vault has in memory. */
  datatype Phase =
    | Out
    | Loading
    | Idle(mem: Option<Document>)
    | Noting(mem: Option<Document>, entry: Entry)
    | Auditing(mem: Option<Document>, change: Change)
    | Writing(mem: Option<Document>, change: Change, stage: Stage)
    | SyncingDir(mem: Option<Document>, noted: Option<Entry>)
    | ResetRead
    | ResetAudit(entry: Entry)
    | ResetRemove(entry: Entry)
    | ResetTmp
    | ResetSync

  datatype Sys = Sys(
    procs: map<nat, Phase>, holder: Option<nat>,
    vault: File, tmp: File, tmpSynced: bool, durable: set<File>, hist: seq<Happened>)

  const START := Sys(map[], None, Absent, Absent, false, {Absent}, [])

  /**
    What a process does next. Step is the system call of its phase: ok says whether it succeeds,
    left what a failure leaves behind (the line in the log, the temporary file).
   */
  datatype Refused = Refused(adding: bool, authorizer: Bytes, target: Bytes)

  datatype Move = TryOpen | TryReset | Begin(change: Change) | Deny(refused: Refused) | CloseVault | Step(ok: bool, left: bool) | Crash

  datatype Event = Proc(pid: nat, move: Move) | PowerLoss(file: File)

  function At(s: Sys, pid: nat): Phase { if pid in s.procs then s.procs[pid] else Out }

  function Go(s: Sys, pid: nat, p: Phase): Sys { s.(procs := s.procs[pid := p]) }

  /** The process gives up the lock. */
  function Leave(s: Sys, pid: nat): Sys { Go(s, pid, Out).(holder := None) }

  function Happens(s: Sys, h: Happened): Sys { s.(hist := s.hist + [h]) }

  function FileOf(mem: Option<Document>): File { if mem.None? then Absent else Whole(mem.value) }

  /** The ID that a reset shows and records: not known when the file is not readable. */
  function ResetEntry(f: File): Entry {
    Entry("reset", if f.Whole? && |f.doc.id| == VAULT_ID_SIZE then f.doc.id else "unknown", "", "")
  }

  /** What is noted of a passkey that was not to be added or removed: nothing when an ID has not the form of one. */
  function DeniedEntry(mem: Option<Document>, r: Refused): Option<Entry> {
    if mem.None? || !ValidId(r.authorizer) || !ValidId(r.target) then None
    else Some(Entry(if r.adding then "add-wrap-denied" else "remove-wrap-denied", mem.value.id, Head(r.authorizer), Head(r.target)))
  }

  predicate Good(f: File) { f.Absent? || (f.Whole? && f.doc.Valid()) }

  // ----- the steps -----

  /** A write that failed before the rename: recorded, if the change was. */
  function GiveUp(s: Sys, pid: nat, mem: Option<Document>, e: Option<Entry>, suffix: string): Sys {
    Go(s, pid, if e.None? then Idle(mem) else Noting(mem, e.value.(event := e.value.event + suffix)))
  }

  function OnWriting(s: Sys, pid: nat, mem: Option<Document>, c: Change, stage: Stage, ok: bool, left: bool): Sys
    requires Applies(mem, c)
  {
    var e := EntryOf(mem, c);
    var dropped := if left then s else s.(tmp := Absent);
    match stage
    case ClearTmp => if ok then Go(s.(tmp := Absent), pid, Writing(mem, c, Create)) else GiveUp(s, pid, mem, e, "-failed")
    case Create =>
      if ok && s.tmp.Absent? then Go(s.(tmp := Torn, tmpSynced := false), pid, Writing(mem, c, Fill))
      else GiveUp(s, pid, mem, e, "-failed")
    case Fill =>
      if ok then Go(s.(tmp := Whole(After(mem, c))), pid, Writing(mem, c, Sync))
      else GiveUp(dropped, pid, mem, e, "-failed")
    case Sync =>
      if ok then Go(s.(tmpSynced := true), pid, Writing(mem, c, CloseTmp)) else GiveUp(dropped, pid, mem, e, "-failed")
    case CloseTmp => if ok then Go(s, pid, Writing(mem, c, Rename)) else GiveUp(dropped, pid, mem, e, "-failed")
    case Rename =>
      if ok then
        var s' := s.(vault := s.tmp, tmp := Absent, durable := s.durable + {if s.tmpSynced then s.tmp else Torn});
        Go(Happens(s', Replaced(s.tmp)), pid, SyncingDir(Some(After(mem, c)), e))
      else GiveUp(dropped, pid, mem, e, "-failed")
  }

  /** A line that was not written as a whole may still be there. */
  function Append(s: Sys, e: Entry, ok: bool, left: bool): Sys { if ok || left then Happens(s, Audited(e)) else s }

  function OnStep(s: Sys, pid: nat, ok: bool, left: bool): Sys {
    match At(s, pid)
    case Out => s
    case Idle(_) => s
    case Loading =>
      if !ok || !Good(s.vault) then Leave(s, pid)
      else Go(s, pid, Idle(if s.vault.Whole? then Some(s.vault.doc) else None))
    case Noting(mem, e) => Go(Append(s, e, ok, left), pid, Idle(mem))
    case Auditing(mem, c) =>
      if !Applies(mem, c) || EntryOf(mem, c).None? then s
      else Go(Append(s, EntryOf(mem, c).value, ok, left), pid, if ok then Writing(mem, c, ClearTmp) else Idle(mem))
    case Writing(mem, c, stage) => if Applies(mem, c) then OnWriting(s, pid, mem, c, stage, ok, left) else s
    case SyncingDir(mem, e) =>
      if ok then Go(s.(durable := {s.vault}), pid, Idle(mem)) else GiveUp(s, pid, mem, e, "-not-durable")
    case ResetRead => if ok then Go(s, pid, ResetAudit(ResetEntry(s.vault))) else Leave(s, pid)
    case ResetAudit(e) =>
      if ok then Go(Append(s, e, ok, left), pid, ResetRemove(e)) else Leave(Append(s, e, ok, left), pid)
    case ResetRemove(e) =>
      if !ok then Leave(s, pid)
      else if s.vault.Absent? then Go(s, pid, ResetTmp)
      else Go(Happens(s.(vault := Absent, durable := s.durable + {Absent}), Removed), pid, ResetTmp)
    case ResetTmp => if ok then Go(s.(tmp := Absent), pid, ResetSync) else Leave(s, pid)
    case ResetSync => Leave(if ok then s.(durable := {s.vault}) else s, pid)
  }

  function OnProc(s: Sys, pid: nat, m: Move): Sys {
    match m
    case TryOpen => if At(s, pid).Out? && s.holder.None? then Go(s, pid, Loading).(holder := Some(pid)) else s
    case TryReset => if At(s, pid).Out? && s.holder.None? then Go(s, pid, ResetRead).(holder := Some(pid)) else s
    case Begin(c) =>
      if At(s, pid).Idle? && Applies(At(s, pid).mem, c) then
        var mem := At(s, pid).mem;
        Go(s, pid, if EntryOf(mem, c).Some? then Auditing(mem, c) else Writing(mem, c, ClearTmp))
      else s
    case Deny(r) =>
      if At(s, pid).Idle? && DeniedEntry(At(s, pid).mem, r).Some?
      then Go(s, pid, Noting(At(s, pid).mem, DeniedEntry(At(s, pid).mem, r).value)) else s
    case CloseVault => if At(s, pid).Idle? then Leave(s, pid) else s
    case Step(ok, left) => OnStep(s, pid, ok, left)
    case Crash => if At(s, pid).Out? then s else Leave(s, pid)
  }

  function Next(s: Sys, e: Event): Sys {
    match e
    case Proc(pid, m) => OnProc(s, pid, m)
    case PowerLoss(f) =>
      if f in s.durable
      then Sys(map[], None, f, if s.tmp.Absent? then Absent else Torn, false, {f}, s.hist + [Restored(f)])
      else s
  }

  function Run(events: seq<Event>): Sys {
    if events == [] then START else Next(Run(events[..|events| - 1]), events[|events| - 1])
  }

  // ----- what the history says -----

  /** The contents of vault.json after everything in the history. */
  function FileAfter(hist: seq<Happened>): File {
    if hist == [] then Absent
    else match hist[|hist| - 1]
      case Audited(_) => FileAfter(hist[..|hist| - 1])
      case Replaced(f) => f
      case Removed => Absent
      case Restored(f) => f
  }

  /** The entry stands right before position i. */
  predicate EntryBefore(hist: seq<Happened>, i: nat, e: Option<Entry>)
    requires i <= |hist|
  {
    e.None? || (i > 0 && hist[i - 1] == Audited(e.value))
  }

  /** The change made of the file that was there, after its audit entry, the file that came. */
  ghost predicate MadeBy(hist: seq<Happened>, i: nat, f: File, c: Change)
    requires i <= |hist|
  {
    var was := FileAfter(hist[..i]);
    && Good(was)
    && var mem := if was.Whole? then Some(was.doc) else None;
       Applies(mem, c) && f == Whole(After(mem, c)) && EntryBefore(hist, i, EntryOf(mem, c))
  }

  /** A change of vault.json follows from the version before it and comes right after its own audit entry. */
  ghost predicate Explained(hist: seq<Happened>, i: nat)
    requires i < |hist|
  {
    match hist[i]
    case Audited(_) => true
    case Restored(_) => true
    case Replaced(f) => exists c :: MadeBy(hist, i, f, c)
    case Removed => EntryBefore(hist, i, Some(ResetEntry(FileAfter(hist[..i]))))
  }

  // ----- the invariant -----

  ghost predicate Planned(s: Sys, mem: Option<Document>, c: Change) {
    s.vault == FileOf(mem) && Applies(mem, c)
  }

  ghost predicate PhaseOk(s: Sys, p: Phase) {
    match p
    case Idle(mem) => s.vault == FileOf(mem)
    case Noting(mem, _) => s.vault == FileOf(mem)
    case SyncingDir(mem, _) => s.vault == FileOf(mem)
    case Auditing(mem, c) => Planned(s, mem, c) && EntryOf(mem, c).Some?
    case Writing(mem, c, stage) =>
      && Planned(s, mem, c) && EntryBefore(s.hist, |s.hist|, EntryOf(mem, c))
      && (stage in {Sync, CloseTmp, Rename} ==> s.tmp == Whole(After(mem, c)))
      && (stage in {CloseTmp, Rename} ==> s.tmpSynced)
    case ResetAudit(e) => e == ResetEntry(s.vault)
    case ResetRemove(e) => e == ResetEntry(s.vault) && EntryBefore(s.hist, |s.hist|, Some(e))
    case _ => true
  }

  ghost predicate OneHolder(s: Sys) {
    && (forall pid :: pid in s.procs && !s.procs[pid].Out? ==> s.holder == Some(pid))
    && (s.holder.Some? ==> !At(s, s.holder.value).Out?)
  }

  ghost predicate Files(s: Sys) {
    && s.vault in s.durable && (forall f :: f in s.durable ==> Good(f))
    && s.vault == FileAfter(s.hist)
  }

  ghost predicate Inv(s: Sys) {
    && OneHolder(s) && Files(s)
    && (s.holder.Some? ==> PhaseOk(s, At(s, s.holder.value)))
    && forall i :: 0 <= i < |s.hist| ==> Explained(s.hist, i)
  }

  lemma {:induction false} GrowHistory(hist: seq<Happened>, h: Happened)
    requires forall i :: 0 <= i < |hist| ==> Explained(hist, i)
    requires Explained(hist + [h], |hist|)
    ensures forall i :: 0 <= i < |hist + [h]| ==> Explained(hist + [h], i)
  {
    var all := hist + [h];
    forall i | 0 <= i < |hist| ensures Explained(all, i) {
      assert all[..i] == hist[..i] && all[i] == hist[i];
      assert Explained(hist, i);
      if hist[i].Replaced? {
        var c :| MadeBy(hist, i, hist[i].file, c);
        assert MadeBy(all, i, all[i].file, c);
      }
    }
  }

  lemma Appended(hist: seq<Happened>, h: Happened)
    ensures FileAfter(hist + [h]) ==
      (match h case Audited(_) => FileAfter(hist) case Replaced(f) => f case Removed => Absent case Restored(f) => f)
  {
    assert (hist + [h])[..|hist|] == hist;
  }

  /** Moving on without touching the files. */
  lemma GoOk(s: Sys, pid: nat, p: Phase)
    requires Inv(s) && s.holder == Some(pid) && !p.Out? && PhaseOk(s, p)
    ensures Inv(Go(s, pid, p))
  {
    hide Explained, Files;
    FilesSame(s, Go(s, pid, p));
  }

  lemma FilesSame(s: Sys, s': Sys)
    requires Files(s) && s'.vault == s.vault && s'.durable == s.durable && s'.hist == s.hist
    ensures Files(s')
  {
  }

  lemma LeaveOk(s: Sys, pid: nat)
    requires Inv(s) && s.holder == Some(pid)
    ensures Inv(Leave(s, pid))
  {
    hide Explained, Files;
    FilesSame(s, Leave(s, pid));
  }

  /** The temporary file is only what the phase says it is. */
  lemma TmpOk(s: Sys, pid: nat, tmp: File, synced: bool, p: Phase)
    requires Inv(s) && s.holder == Some(pid) && !p.Out? && PhaseOk(s.(tmp := tmp, tmpSynced := synced), p)
    ensures Inv(Go(s.(tmp := tmp, tmpSynced := synced), pid, p))
  {
    hide Explained, Files;
    FilesSame(s, Go(s.(tmp := tmp, tmpSynced := synced), pid, p));
  }

  lemma AppendOk(s: Sys, e: Entry, ok: bool, left: bool)
    requires Inv(s)
    ensures var s' := Append(s, e, ok, left);
      && OneHolder(s') && Files(s') && (forall i :: 0 <= i < |s'.hist| ==> Explained(s'.hist, i))
      && s'.vault == s.vault && s'.tmp == s.tmp && s'.holder == s.holder && s'.procs == s.procs
      && (ok ==> EntryBefore(s'.hist, |s'.hist|, Some(e)))
  {
    if ok || left {
      GrowHistory(s.hist, Audited(e));
      Appended(s.hist, Audited(e));
    }
  }

  /** After an append any phase may follow that is right for the new history. */
  lemma AppendGo(s: Sys, pid: nat, e: Entry, ok: bool, left: bool, p: Phase)
    requires Inv(s) && s.holder == Some(pid) && !p.Out? && PhaseOk(Append(s, e, ok, left), p)
    ensures Inv(Go(Append(s, e, ok, left), pid, p))
  {
    hide Explained, Files, EntryBefore;
    AppendOk(s, e, ok, left);
    FilesSame(Append(s, e, ok, left), Go(Append(s, e, ok, left), pid, p));
  }

  lemma AppendLeave(s: Sys, pid: nat, e: Entry, ok: bool, left: bool)
    requires Inv(s) && s.holder == Some(pid)
    ensures Inv(Leave(Append(s, e, ok, left), pid))
  {
    hide Explained, Files, EntryBefore;
    AppendOk(s, e, ok, left);
    FilesSame(Append(s, e, ok, left), Leave(Append(s, e, ok, left), pid));
  }

  lemma GiveUpOk(s: Sys, pid: nat, tmp: File, mem: Option<Document>, e: Option<Entry>, suffix: string)
    requires Inv(s) && s.holder == Some(pid) && s.vault == FileOf(mem)
    ensures Inv(GiveUp(s.(tmp := tmp), pid, mem, e, suffix))
  {
    hide Explained, Files;
    FilesSame(s, GiveUp(s.(tmp := tmp), pid, mem, e, suffix));
  }

  lemma RenameOk(s: Sys, pid: nat, mem: Option<Document>, c: Change)
    requires Inv(s) && s.holder == Some(pid) && Applies(mem, c) && PhaseOk(s, Writing(mem, c, Rename))
    ensures Inv(OnWriting(s, pid, mem, c, Rename, true, false))
  {
    hide Document.Valid, Applies, EntryOf, After;
    var s' := OnWriting(s, pid, mem, c, Rename, true, false);
    assert Good(s.vault);
    AfterValid(mem, c);
    assert s.hist + [Replaced(s.tmp)] == s'.hist;
    assert s'.hist[..|s.hist|] == s.hist;
    assert MadeBy(s'.hist, |s.hist|, s.tmp, c);
    GrowHistory(s.hist, Replaced(s.tmp));
    Appended(s.hist, Replaced(s.tmp));
  }

  lemma WritingOk(s: Sys, pid: nat, mem: Option<Document>, c: Change, stage: Stage, ok: bool, left: bool)
    requires Inv(s) && s.holder == Some(pid) && Applies(mem, c) && PhaseOk(s, Writing(mem, c, stage))
    ensures Inv(OnWriting(s, pid, mem, c, stage, ok, left))
  {
    hide Inv, Document.Valid, EntryBefore, EntryOf, After;
    var e := EntryOf(mem, c);
    if !ok || (stage == Create && !s.tmp.Absent?) {
      GiveUpOk(s, pid, s.tmp, mem, e, "-failed");
      GiveUpOk(s, pid, Absent, mem, e, "-failed");
    } else {
      match stage
      case ClearTmp => TmpOk(s, pid, Absent, s.tmpSynced, Writing(mem, c, Create));
      case Create => TmpOk(s, pid, Torn, false, Writing(mem, c, Fill));
      case Fill => TmpOk(s, pid, Whole(After(mem, c)), s.tmpSynced, Writing(mem, c, Sync));
      case Sync => TmpOk(s, pid, s.tmp, true, Writing(mem, c, CloseTmp));
      case CloseTmp => TmpOk(s, pid, s.tmp, s.tmpSynced, Writing(mem, c, Rename));
      case Rename => RenameOk(s, pid, mem, c);
    }
  }

  lemma SyncOk(s: Sys, pid: nat, p: Phase)
    requires Inv(s) && s.holder == Some(pid) && !p.Out? && PhaseOk(s, p)
    ensures Inv(Go(s.(durable := {s.vault}), pid, p)) && Inv(s.(durable := {s.vault}))
  {
    hide Explained;
  }

  lemma RemoveOk(s: Sys, pid: nat)
    requires Inv(s) && s.holder == Some(pid) && At(s, pid).ResetRemove?
    ensures Inv(Go(Happens(s.(vault := Absent, durable := s.durable + {Absent}), Removed), pid, ResetTmp))
  {
    hide Document.Valid;
    assert (s.hist + [Removed])[..|s.hist|] == s.hist;
    GrowHistory(s.hist, Removed);
    Appended(s.hist, Removed);
  }

  lemma LoadOk(s: Sys, pid: nat)
    requires Inv(s) && s.holder == Some(pid) && Good(s.vault)
    ensures Inv(Go(s, pid, Idle(if s.vault.Whole? then Some(s.vault.doc) else None)))
  {
    GoOk(s, pid, Idle(if s.vault.Whole? then Some(s.vault.doc) else None));
  }

  lemma InsideHolds(s: Sys, pid: nat)
    requires Inv(s) && !At(s, pid).Out?
    ensures s.holder == Some(pid) && PhaseOk(s, At(s, pid))
  {
  }

  lemma StepKeeps(s: Sys, pid: nat, ok: bool, left: bool)
    requires Inv(s)
    ensures Inv(OnStep(s, pid, ok, left))
  {
    hide Inv, Document.Valid, After, EntryOf, OnWriting;
    if !At(s, pid).Out? {
      InsideHolds(s, pid);
      LeaveOk(s, pid);
      match At(s, pid)
      case Out =>
      case Idle(_) =>
      case Loading => if Good(s.vault) { LoadOk(s, pid); }
      case Noting(mem, e) => AppendGo(s, pid, e, ok, left, Idle(mem));
      case Auditing(mem, c) =>
        if EntryOf(mem, c).Some? {
          AppendLast(s, EntryOf(mem, c).value, ok, left);
          AppendGo(s, pid, EntryOf(mem, c).value, ok, left, if ok then Writing(mem, c, ClearTmp) else Idle(mem));
        }
      case Writing(mem, c, stage) => WritingOk(s, pid, mem, c, stage, ok, left);
      case SyncingDir(mem, e) =>
        SyncOk(s, pid, Idle(mem));
        GiveUpOk(s, pid, s.tmp, mem, e, "-not-durable");
      case ResetRead => GoOk(s, pid, ResetAudit(ResetEntry(s.vault)));
      case ResetAudit(e) =>
        AppendLast(s, e, ok, left);
        if ok { AppendGo(s, pid, e, ok, left, ResetRemove(e)); }
        AppendLeave(s, pid, e, ok, left);
      case ResetRemove(e) =>
        GoOk(s, pid, ResetTmp);
        RemoveOk(s, pid);
      case ResetTmp => TmpOk(s, pid, Absent, s.tmpSynced, ResetSync);
      case ResetSync =>
        SyncOk(s, pid, ResetSync);
        LeaveOk(s.(durable := {s.vault}), pid);
    }
  }

  lemma AppendLast(s: Sys, e: Entry, ok: bool, left: bool)
    ensures ok ==> EntryBefore(Append(s, e, ok, left).hist, |Append(s, e, ok, left).hist|, Some(e))
  {
  }

  lemma EnterOk(s: Sys, pid: nat, p: Phase)
    requires Inv(s) && s.holder.None? && (p == Loading || p == ResetRead)
    ensures Inv(Go(s, pid, p).(holder := Some(pid)))
  {
    hide Explained, Files;
    FilesSame(s, Go(s, pid, p).(holder := Some(pid)));
  }

  lemma ProcKeeps(s: Sys, pid: nat, m: Move)
    requires Inv(s)
    ensures Inv(OnProc(s, pid, m))
  {
    hide Inv, Document.Valid, After, EntryOf, DeniedEntry, OnStep;
    match m
    case TryOpen => if s.holder.None? { EnterOk(s, pid, Loading); }
    case TryReset => if s.holder.None? { EnterOk(s, pid, ResetRead); }
    case Begin(c) =>
      if At(s, pid).Idle? && Applies(At(s, pid).mem, c) {
        InsideHolds(s, pid);
        var mem := At(s, pid).mem;
        GoOk(s, pid, if EntryOf(mem, c).Some? then Auditing(mem, c) else Writing(mem, c, ClearTmp));
      }
    case Deny(r) =>
      if At(s, pid).Idle? && DeniedEntry(At(s, pid).mem, r).Some? {
        InsideHolds(s, pid);
        GoOk(s, pid, Noting(At(s, pid).mem, DeniedEntry(At(s, pid).mem, r).value));
      }
    case CloseVault => if At(s, pid).Idle? { InsideHolds(s, pid); LeaveOk(s, pid); }
    case Step(ok, left) => StepKeeps(s, pid, ok, left);
    case Crash => if !At(s, pid).Out? { InsideHolds(s, pid); LeaveOk(s, pid); }
  }

  lemma PowerLossKeeps(s: Sys, f: File)
    requires Inv(s)
    ensures Inv(Next(s, PowerLoss(f)))
  {
    GrowHistory(s.hist, Restored(f));
    Appended(s.hist, Restored(f));
  }

  lemma {:induction false} RunKeeps(events: seq<Event>)
    ensures Inv(Run(events))
  {
    hide Inv, Next;
    if events == [] {
      StartOk();
    } else {
      RunKeeps(events[..|events| - 1]);
      NextKeeps(Run(events[..|events| - 1]), events[|events| - 1]);
    }
  }

  lemma StartOk()
    ensures Inv(START)
  {
  }

  lemma NextKeeps(s: Sys, e: Event)
    requires Inv(s)
    ensures Inv(Next(s, e))
  {
    hide Inv, OnProc;
    match e
    case Proc(pid, m) => ProcKeeps(s, pid, m);
    case PowerLoss(f) => PowerLossKeeps(s, f);
  }

  // ----- the laws of every interleaving -----

  /** At no time do two processes have the directory. */
  lemma AtMostOneInside(events: seq<Event>, p: nat, q: nat)
    requires !At(Run(events), p).Out? && !At(Run(events), q).Out?
    ensures p == q
  {
    hide Run;
    RunKeeps(events);
  }

  /** Between calls, what an open vault has in memory is what vault.json holds. */
  lemma MemoryIsTheFile(events: seq<Event>, pid: nat)
    requires At(Run(events), pid).Idle?
    ensures Run(events).vault == FileOf(At(Run(events), pid).mem)
  {
    hide Run;
    RunKeeps(events);
  }

  /** vault.json is absent or a whole document that validate accepts, also after any crash or power loss. */
  lemma NeverTorn(events: seq<Event>)
    ensures Good(Run(events).vault)
    ensures forall f :: f in Run(events).durable ==> Good(f)
  {
    hide Run;
    RunKeeps(events);
  }

  /** Each change of vault.json is made on the version before it, right after its own audit entry. */
  lemma AuditedFirst(events: seq<Event>, i: nat)
    requires i < |Run(events).hist|
    ensures Explained(Run(events).hist, i)
    ensures Run(events).vault == FileAfter(Run(events).hist)
  {
    hide Run;
    RunKeeps(events);
  }

  /** A call that ends with its directory sync cannot be undone by losing power afterwards. */
  lemma DurableOnceSynced(events: seq<Event>, pid: nat, left: bool, f: File)
    requires At(Run(events), pid).SyncingDir?
    ensures var s := Run(events + [Proc(pid, Step(true, left))]);
      && s.vault == Run(events).vault && At(s, pid) == Idle(At(Run(events), pid).mem)
      && (Next(s, PowerLoss(f)).vault == s.vault)
  {
    var all := events + [Proc(pid, Step(true, left))];
    assert all[..|all| - 1] == events;
  }
}
