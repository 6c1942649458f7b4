/**
  What the vault promises, without any cryptography: a table of passkeys and a table of items,
  with a bit that says whether the vault is unlocked. The class in VaultClass, which keeps only
  wraps and ciphertexts, is proved to give the same results call by call; here are the laws of
  every sequence of calls.
 */
module VaultPlain {
  import opened Wrappers
  import opened VaultCrypto
  import opened VaultStore

  const MAX_SECRET_SIZE := 0x4000
  const MAX_ITEM_SIZE := 0x10_0000

  datatype Passkey = Passkey(salt: Bytes, prf: Bytes)

  datatype Item = Item(kind: Bytes, name: Bytes)

  datatype Plain = Plain(id: Bytes, passkeys: map<Bytes, Passkey>, items: map<Item, Bytes>)

  /** closed: nobody has the vault open. */
  datatype Abs = Abs(plain: Option<Plain>, unlocked: bool, closed: bool)

  datatype Proof = Proof(cred: Bytes, prf: Bytes)

  datatype Enrollment = Enrollment(cred: Bytes, salt: Bytes, prf: Bytes)

  datatype Call =
    | Open
    | Close
    | Lock
    | Init(cred: Bytes, salt: Bytes, prf: Bytes, id: Bytes)
    | Unlock(proof: Proof)
    | AddWrap(authorizer: Proof, candidate: Enrollment)
    | RemoveWrap(authorizer: Proof, target: Bytes)
    | Put(kind: Bytes, name: Bytes, plaintext: Bytes)
    | Get(kind: Bytes, name: Bytes)
    | Reset(confirmed: Option<Option<Bytes>>)

  /** What the disk does to a call: whether the audit entry is written, and how far the write gets. */
  datatype Fate = NotWritten | NotSynced | Durable

  datatype Env = Env(audited: bool, fate: Fate)

  datatype Error =
    | Closed | InUse | AlreadyInitialized | NotInitialized | InvalidInput | UnlockFailed | WrapExists | WrapNotFound
    | LastWrap | SameCredential | Locked | AuditFailed | WriteFailed | NotDurable | Format | VaultChanged

  datatype Result = Ok | Value(value: Bytes) | Missing | Failed(error: Error)

  // ----- the calls -----

  function Write(a: Abs, next: Plain, fate: Fate): (Abs, Result) {
    match fate
    case NotWritten => (a, Failed(WriteFailed))
    case NotSynced => (a.(plain := Some(next)), Failed(NotDurable))
    case Durable => (a.(plain := Some(next)), Ok)
  }

  function Commit(a: Abs, next: Plain, env: Env): (Abs, Result) {
    if !env.audited then (a, Failed(AuditFailed)) else Write(a, next, env.fate)
  }

  predicate Sized(cred: Bytes, salt: Bytes, prf: Bytes) {
    ValidId(cred) && |salt| == SALT_SIZE && |prf| == PRF_SIZE
  }

  /** Whether the PRF output is the one that the passkey was enrolled with. */
  function Prove(p: Plain, proof: Proof): Result {
    if !ValidId(proof.cred) || |proof.prf| != PRF_SIZE then Failed(InvalidInput)
    else if proof.cred in p.passkeys && p.passkeys[proof.cred].prf == proof.prf then Ok
    else Failed(UnlockFailed)
  }

  function OnInit(a: Abs, cred: Bytes, salt: Bytes, prf: Bytes, id: Bytes, env: Env): (Abs, Result) {
    if a.closed then (a, Failed(Closed))
    else if a.plain.Some? then (a, Failed(AlreadyInitialized))
    else if !Sized(cred, salt, prf) then (a, Failed(InvalidInput))
    else
      var (a', r) := Commit(a, Plain(id, map[cred := Passkey(salt, prf)], map[]), env);
      (if r == Ok then a'.(unlocked := true) else a', r)
  }

  function OnUnlock(a: Abs, proof: Proof): (Abs, Result) {
    if a.closed then (a, Failed(Closed))
    else if a.plain.None? then (a, Failed(NotInitialized))
    else
      var r := Prove(a.plain.value, proof);
      (if r == Ok then a.(unlocked := true) else a, r)
  }

  function OnAdd(a: Abs, authorizer: Proof, c: Enrollment, env: Env): (Abs, Result) {
    if a.closed then (a, Failed(Closed))
    else if a.plain.None? then (a, Failed(NotInitialized))
    else if !Sized(c.cred, c.salt, c.prf) then (a, Failed(InvalidInput))
    else
      var p := a.plain.value;
      if Prove(p, authorizer) != Ok then (a, Prove(p, authorizer))
      else if c.cred in p.passkeys then (a, Failed(WrapExists))
      else if |p.passkeys| >= MAX_WRAPS then (a, Failed(InvalidInput))
      else Commit(a, p.(passkeys := p.passkeys[c.cred := Passkey(c.salt, c.prf)]), env)
  }

  function OnRemove(a: Abs, authorizer: Proof, target: Bytes, env: Env): (Abs, Result) {
    if a.closed then (a, Failed(Closed))
    else if a.plain.None? then (a, Failed(NotInitialized))
    else if !a.unlocked then (a, Failed(Locked))
    else if !ValidId(target) then (a, Failed(InvalidInput))
    else if authorizer.cred == target then (a, Failed(SameCredential))
    else
      var p := a.plain.value;
      if Prove(p, authorizer) != Ok then (a, Prove(p, authorizer))
      else if |p.passkeys| <= 1 then (a, Failed(LastWrap))
      else if target !in p.passkeys then (a, Failed(WrapNotFound))
      else Commit(a, p.(passkeys := p.passkeys - {target}), env)
  }

  /** What the callers of putItem refuse before they take the lock. */
  predicate Storable(kind: Bytes, name: Bytes, plaintext: Bytes) {
    && ValidKind(kind) && ValidName(name)
    && (kind == KIND_CREDENTIAL ==> 0 < |plaintext| <= MAX_SECRET_SIZE)
  }

  function OnPut(a: Abs, kind: Bytes, name: Bytes, plaintext: Bytes, fate: Fate): (Abs, Result) {
    if !Storable(kind, name, plaintext) then (a, Failed(InvalidInput))
    else if a.closed then (a, Failed(Closed))
    else if a.plain.None? then (a, Failed(NotInitialized))
    else if !a.unlocked then (a, Failed(Locked))
    else if |plaintext| > MAX_ITEM_SIZE then (a, Failed(InvalidInput))
    else
      var p := a.plain.value;
      if Item(kind, name) !in p.items && |p.items| >= MAX_ITEMS then (a, Failed(InvalidInput))
      else Write(a, p.(items := p.items[Item(kind, name) := plaintext]), fate)
  }

  function OnGet(a: Abs, kind: Bytes, name: Bytes): Result {
    if !ValidKind(kind) || !ValidName(name) then Failed(InvalidInput)
    else if a.closed then Failed(Closed)
    else if a.plain.None? then Failed(NotInitialized)
    else if !a.unlocked then Failed(Locked)
    else if Item(kind, name) in a.plain.value.items then Value(a.plain.value.items[Item(kind, name)])
    else Missing
  }

  function ShownId(a: Abs): Option<Bytes> { if a.plain.Some? then Some(a.plain.value.id) else None }

  function OnReset(a: Abs, confirmed: Option<Option<Bytes>>, env: Env): (Abs, Result) {
    if !a.closed then (a, Failed(InUse))
    else if confirmed.Some? && confirmed.value != ShownId(a) then (a, Failed(VaultChanged))
    else if !env.audited then (a, Failed(AuditFailed))
    else match env.fate
      case NotWritten => (a, Failed(WriteFailed))
      case NotSynced => (a.(plain := None), Failed(NotDurable))
      case Durable => (a.(plain := None), Ok)
  }

  function Do(a: Abs, c: Call, env: Env): (Abs, Result) {
    match c
    case Open => if a.closed then (Abs(a.plain, false, false), Ok) else (a, Failed(InUse))
    case Close => (Abs(a.plain, false, true), Ok)
    case Lock => (a.(unlocked := false), Ok)
    case Init(cred, salt, prf, id) => OnInit(a, cred, salt, prf, id, env)
    case Unlock(proof) => OnUnlock(a, proof)
    case AddWrap(authorizer, candidate) => OnAdd(a, authorizer, candidate, env)
    case RemoveWrap(authorizer, target) => OnRemove(a, authorizer, target, env)
    case Put(kind, name, plaintext) => OnPut(a, kind, name, plaintext, env.fate)
    case Get(kind, name) => (a, OnGet(a, kind, name))
    case Reset(confirmed) => OnReset(a, confirmed, env)
  }

  // ----- runs -----

  datatype Done = Done(call: Call, result: Result)

  const FRESH := Abs(None, false, true)

  function Run(calls: seq<(Call, Env)>): (Abs, seq<Done>) {
    if calls == [] then (FRESH, [])
    else
      var (a, trace) := Run(calls[..|calls| - 1]);
      var (c, env) := calls[|calls| - 1];
      var (a', r) := Do(a, c, env);
      (a', trace + [Done(c, r)])
  }

  /** The change was made: also when only its durability is in doubt. */
  predicate Applied(r: Result) { r == Ok || r == Failed(NotDurable) }

  /** The value that the calls and their results say was stored last. */
  function LastPut(trace: seq<Done>, item: Item): Option<Bytes> {
    if trace == [] then None
    else
      var d, before := trace[|trace| - 1], LastPut(trace[..|trace| - 1], item);
      if !Applied(d.result) then before
      else if d.call.Put? && Item(d.call.kind, d.call.name) == item then Some(d.call.plaintext)
      else if d.call.Reset? then None
      else before
  }

  /** The PRF output that the calls and their results say the passkey is enrolled with. */
  function Enrolled(trace: seq<Done>, cred: Bytes): Option<Bytes> {
    if trace == [] then None
    else
      var d, before := trace[|trace| - 1], Enrolled(trace[..|trace| - 1], cred);
      if !Applied(d.result) then before
      else if d.call.Init? && d.call.cred == cred then Some(d.call.prf)
      else if d.call.AddWrap? && d.call.candidate.cred == cred then Some(d.call.candidate.prf)
      else if d.call.RemoveWrap? && d.call.target == cred then None
      else if d.call.Reset? then None
      else before
  }

  function PrfOf(a: Abs, cred: Bytes): Option<Bytes> {
    if a.plain.Some? && cred in a.plain.value.passkeys then Some(a.plain.value.passkeys[cred].prf) else None
  }

  function ItemOf(a: Abs, item: Item): Option<Bytes> {
    if a.plain.Some? && item in a.plain.value.items then Some(a.plain.value.items[item]) else None
  }

  ghost predicate Sound(a: Abs) {
    && (a.unlocked ==> a.plain.Some? && !a.closed)
    && (a.plain.Some? ==>
          && (forall c :: c in a.plain.value.passkeys ==> ValidId(c) && |a.plain.value.passkeys[c].prf| == PRF_SIZE)
          && 0 < |a.plain.value.passkeys| <= MAX_WRAPS && |a.plain.value.items| <= MAX_ITEMS)
  }

  lemma DoSound(a: Abs, c: Call, env: Env)
    requires Sound(a)
    ensures Sound(Do(a, c, env).0)
  {
    hide ValidId, Sound, OnInit, OnUnlock, OnAdd, OnRemove, OnPut, OnReset;
    match c
    case Init(cred, salt, prf, id) => InitSound(a, cred, salt, prf, id, env);
    case Unlock(proof) => UnlockSound(a, proof);
    case AddWrap(authorizer, candidate) => AddSound(a, authorizer, candidate, env);
    case RemoveWrap(authorizer, target) => RemoveSound(a, authorizer, target, env);
    case Put(kind, name, plaintext) => PutSound(a, kind, name, plaintext, env.fate);
    case Reset(confirmed) => ResetSound(a, confirmed, env);
    case _ => StillSound(a);
  }

  lemma StillSound(a: Abs)
    requires Sound(a)
    ensures Sound(Abs(a.plain, false, false)) && Sound(Abs(a.plain, false, true)) && Sound(a.(unlocked := false))
  {
    hide ValidId;
  }

  lemma InitSound(a: Abs, cred: Bytes, salt: Bytes, prf: Bytes, id: Bytes, env: Env)
    requires Sound(a)
    ensures Sound(OnInit(a, cred, salt, prf, id, env).0)
  {
    hide ValidId;
  }

  lemma UnlockSound(a: Abs, proof: Proof)
    requires Sound(a)
    ensures Sound(OnUnlock(a, proof).0)
  {
    hide ValidId;
  }

  lemma AddSound(a: Abs, authorizer: Proof, c: Enrollment, env: Env)
    requires Sound(a)
    ensures Sound(OnAdd(a, authorizer, c, env).0)
  {
    hide ValidId;
  }

  lemma RemoveSound(a: Abs, authorizer: Proof, target: Bytes, env: Env)
    requires Sound(a)
    ensures Sound(OnRemove(a, authorizer, target, env).0)
  {
    hide ValidId, Prove;
    if a.plain.Some? && target in a.plain.value.passkeys {
      var ks := a.plain.value.passkeys;
      assert (ks - {target}).Keys == ks.Keys - {target};
    }
  }

  lemma PutSound(a: Abs, kind: Bytes, name: Bytes, plaintext: Bytes, fate: Fate)
    requires Sound(a)
    ensures Sound(OnPut(a, kind, name, plaintext, fate).0)
  {
    hide ValidId, Storable;
  }

  lemma ResetSound(a: Abs, confirmed: Option<Option<Bytes>>, env: Env)
    requires Sound(a)
    ensures Sound(OnReset(a, confirmed, env).0)
  {
    hide ValidId;
  }

  /** The tables are what the calls and their results say. */
  lemma {:induction false} RunTables(calls: seq<(Call, Env)>)
    ensures var (a, trace) := Run(calls);
      && Sound(a)
      && (forall item :: ItemOf(a, item) == LastPut(trace, item))
      && (forall cred :: PrfOf(a, cred) == Enrolled(trace, cred))
  {
    hide Do, Sound;
    if calls == [] {
      FreshSound();
    } else {
      RunTables(calls[..|calls| - 1]);
      var (a, trace) := Run(calls[..|calls| - 1]);
      var (c, env) := calls[|calls| - 1];
      DoSound(a, c, env);
      var d := Done(c, Do(a, c, env).1);
      assert (trace + [d])[..|trace|] == trace;
      forall item ensures ItemOf(Do(a, c, env).0, item) == LastPut(trace + [d], item) { DoItem(a, c, env, item); }
      forall cred ensures PrfOf(Do(a, c, env).0, cred) == Enrolled(trace + [d], cred) { DoPasskey(a, c, env, cred); }
    }
  }

  lemma FreshSound()
    ensures Sound(FRESH)
  {
  }

  lemma DoItem(a: Abs, c: Call, env: Env, item: Item)
    requires Sound(a)
    ensures var (a', r) := Do(a, c, env);
      ItemOf(a', item) ==
        if Applied(r) && c.Put? && Item(c.kind, c.name) == item then Some(c.plaintext)
        else if Applied(r) && c.Reset? then None
        else ItemOf(a, item)
  {
    hide ValidId, ValidKind, ValidName, Sound;
  }

  lemma DoPasskey(a: Abs, c: Call, env: Env, cred: Bytes)
    requires Sound(a)
    ensures var (a', r) := Do(a, c, env);
      PrfOf(a', cred) ==
        if Applied(r) && c.Init? && c.cred == cred then Some(c.prf)
        else if Applied(r) && c.AddWrap? && c.candidate.cred == cred then Some(c.candidate.prf)
        else if Applied(r) && ((c.RemoveWrap? && c.target == cred) || c.Reset?) then None
        else PrfOf(a, cred)
  {
    hide ValidId, ValidKind, ValidName, Sound, OnInit, OnAdd, OnRemove;
    match c
    case Init(_, _, _, _) => InitPasskey(a, c, env, cred);
    case AddWrap(_, _) => AddPasskey(a, c, env, cred);
    case RemoveWrap(_, _) => RemovePasskey(a, c, env, cred);
    case _ =>
  }

  lemma InitPasskey(a: Abs, c: Call, env: Env, cred: Bytes)
    requires c.Init?
    ensures var (a', r) := OnInit(a, c.cred, c.salt, c.prf, c.id, env);
      PrfOf(a', cred) == if Applied(r) && c.cred == cred then Some(c.prf) else PrfOf(a, cred)
  {
    hide Sized;
  }

  lemma AddPasskey(a: Abs, c: Call, env: Env, cred: Bytes)
    requires c.AddWrap?
    ensures var (a', r) := OnAdd(a, c.authorizer, c.candidate, env);
      PrfOf(a', cred) == if Applied(r) && c.candidate.cred == cred then Some(c.candidate.prf) else PrfOf(a, cred)
  {
    hide ValidId, Sized;
  }

  lemma RemovePasskey(a: Abs, c: Call, env: Env, cred: Bytes)
    requires c.RemoveWrap?
    ensures var (a', r) := OnRemove(a, c.authorizer, c.target, env);
      PrfOf(a', cred) == if Applied(r) && c.target == cred then None else PrfOf(a, cred)
  {
    hide ValidId;
  }

  lemma {:induction false} StepOf(calls: seq<(Call, Env)>, j: nat)
    requires j < |calls|
    ensures var trace := Run(calls).1;
      && |trace| == |calls| && trace[..j] == Run(calls[..j]).1
      && trace[j] == Done(calls[j].0, Do(Run(calls[..j]).0, calls[j].0, calls[j].1).1)
  {
    hide Do;
    var front := calls[..|calls| - 1];
    RunLength(calls);
    RunLength(front);
    if j < |front| {
      StepOf(front, j);
      assert front[..j] == calls[..j];
      assert Run(calls).1[..j] == Run(front).1[..j];
    } else {
      assert calls[..j] == front;
      assert Run(calls).1[..j] == Run(front).1;
    }
  }

  lemma {:induction false} RunLength(calls: seq<(Call, Env)>)
    ensures |Run(calls).1| == |calls|
  {
    hide Do;
    if calls != [] { RunLength(calls[..|calls| - 1]); }
  }

  // ----- the laws of every run -----

  /** A read that is answered returns the last value whose storing was applied. */
  lemma ReadsTheLastPut(calls: seq<(Call, Env)>, j: nat)
    requires j < |Run(calls).1| && Run(calls).1[j].call.Get?
    ensures var trace := Run(calls).1; var d := trace[j];
      var last := LastPut(trace[..j], Item(d.call.kind, d.call.name));
      d.result.Failed? || d.result == if last.Some? then Value(last.value) else Missing
  {
    hide Run, Sound;
    RunLength(calls);
    StepOf(calls, j);
    RunTables(calls[..j]);
    var a, call := Run(calls[..j]).0, Run(calls).1[j].call;
    assert ItemOf(a, Item(call.kind, call.name)) == LastPut(Run(calls).1[..j], Item(call.kind, call.name));
  }

  /**
    On an open vault a passkey unlocks exactly when it is enrolled with that PRF output: once
    removed it does not, until it is enrolled again.
   */
  lemma UnlocksIffEnrolled(calls: seq<(Call, Env)>, j: nat)
    requires j < |Run(calls).1| && Run(calls).1[j].call.Unlock?
    ensures var trace := Run(calls).1; var d := trace[j];
      d.result == Failed(Closed) || (d.result == Ok <==> Enrolled(trace[..j], d.call.proof.cred) == Some(d.call.proof.prf))
  {
    hide Run, LastPut;
    RunLength(calls);
    StepOf(calls, j);
    RunTables(calls[..j]);
    var a, call := Run(calls[..j]).0, Run(calls).1[j].call;
    assert PrfOf(a, call.proof.cred) == Enrolled(Run(calls).1[..j], call.proof.cred);
  }

  /** A passkey is enrolled or removed only with the proof of a passkey that is enrolled at that moment. */
  lemma ChangesNeedProof(calls: seq<(Call, Env)>, j: nat)
    requires j < |Run(calls).1| && (Run(calls).1[j].call.AddWrap? || Run(calls).1[j].call.RemoveWrap?)
    requires Applied(Run(calls).1[j].result)
    ensures var trace := Run(calls).1; var proof := trace[j].call.authorizer;
      && Enrolled(trace[..j], proof.cred) == Some(proof.prf)
      && (trace[j].call.RemoveWrap? ==> proof.cred != trace[j].call.target)
      && (trace[j].call.AddWrap? ==> Enrolled(trace[..j], trace[j].call.candidate.cred).None?)
  {
    hide Run, LastPut, ValidId;
    RunLength(calls);
    StepOf(calls, j);
    RunTables(calls[..j]);
    var a, call := Run(calls[..j]).0, Run(calls).1[j].call;
    assert PrfOf(a, call.authorizer.cred) == Enrolled(Run(calls).1[..j], call.authorizer.cred);
    if call.AddWrap? {
      assert PrfOf(a, call.candidate.cred) == Enrolled(Run(calls).1[..j], call.candidate.cred);
    }
  }

  /** A vault that exists can always be unlocked by some passkey. */
  lemma NeverLockedOut(calls: seq<(Call, Env)>)
    requires Run(calls).0.plain.Some?
    ensures var (a, trace) := Run(calls);
      var reopened := Do(Do(a, Close, Env(true, Durable)).0, Open, Env(true, Durable)).0;
      exists cred, prf ::
        Enrolled(trace, cred) == Some(prf) && Do(reopened, Unlock(Proof(cred, prf)), Env(true, Durable)).1 == Ok
  {
    hide Run, LastPut, Enrolled;
    RunTables(calls);
    var (a, trace) := Run(calls);
    var keys := a.plain.value.passkeys;
    assert keys.Keys != {};
    var cred :| cred in keys.Keys;
    assert PrfOf(a, cred) == Enrolled(trace, cred) == Some(keys[cred].prf);
    var open := Do(Do(a, Close, Env(true, Durable)).0, Open, Env(true, Durable)).0;
    assert open == Abs(a.plain, false, false);
  }

  /** A call whose change was not applied leaves the tables as they were. */
  lemma NotAppliedNoChange(a: Abs, c: Call, env: Env)
    requires !Applied(Do(a, c, env).1)
    ensures Do(a, c, env).0.plain == a.plain
  {
    hide ValidId, ValidKind, ValidName;
  }

  // ----- everything that can be told from the calls and their results -----

  function OpenBy(trace: seq<Done>): bool {
    if trace == [] then false
    else
      var d, before := trace[|trace| - 1], OpenBy(trace[..|trace| - 1]);
      if d.call.Open? then true else if d.call.Close? then false else before
  }

  function FoundedBy(trace: seq<Done>): bool {
    if trace == [] then false
    else
      var d, before := trace[|trace| - 1], FoundedBy(trace[..|trace| - 1]);
      if !Applied(d.result) then before
      else if d.call.Init? then true
      else if d.call.Reset? then false
      else before
  }

  /** Unlocked by founding or by a passkey, until it is locked, closed or opened anew. */
  function UnlockedBy(trace: seq<Done>): bool {
    if trace == [] then false
    else
      var d, before := trace[|trace| - 1], UnlockedBy(trace[..|trace| - 1]);
      if d.result != Ok then before
      else match d.call
        case Init(_, _, _, _) => true
        case Unlock(_) => true
        case Lock => false
        case Close => false
        case Open => false
        case _ => before
  }

  lemma DoState(a: Abs, c: Call, env: Env)
    requires Sound(a)
    ensures var (a', r) := Do(a, c, env);
      && a'.closed == (if c.Open? then false else if c.Close? then true else a.closed)
      && a'.plain.Some? == (if Applied(r) && c.Init? then true else if Applied(r) && c.Reset? then false else a.plain.Some?)
      && a'.unlocked == (if r != Ok then a.unlocked else if c.Init? || c.Unlock? then true
                         else if c.Lock? || c.Close? || c.Open? then false else a.unlocked)
  {
    hide ValidId, ValidKind, ValidName;
  }

  lemma {:induction false} RunState(calls: seq<(Call, Env)>)
    ensures var (a, trace) := Run(calls);
      a.closed == !OpenBy(trace) && a.plain.Some? == FoundedBy(trace) && a.unlocked == UnlockedBy(trace)
  {
    hide Do, Sound;
    if calls != [] {
      var front := calls[..|calls| - 1];
      RunState(front);
      RunTables(front);
      var (a, trace) := Run(front);
      var (c, env) := calls[|calls| - 1];
      DoState(a, c, env);
      var d := Done(c, Do(a, c, env).1);
      assert (trace + [d])[..|trace|] == trace;
    }
  }
}
