/**
  Every answer of the vault, told from the calls before it and their results alone: when a call is
  refused and how, what it changes, and what the tables hold.
 */
module VaultLaws {
  import opened Wrappers
  import opened VaultCrypto
  import opened VaultStore
  import opened VaultPlain

  // ----- names and sizes -----

  /** A credential ID: up to 1,400 characters of base64url. */
  predicate CredentialId(s: Bytes) {
    && 1 <= |s| <= 1400
    && forall c :: c in s ==> 'a' <= c <= 'z' || 'A' <= c <= 'Z' || '0' <= c <= '9' || c in {'_', '-'}
  }

  /** The name of an item: up to 32 lower-case letters, digits and hyphens, a letter first. */
  predicate ItemName(s: Bytes) {
    && 1 <= |s| <= 32 && 'a' <= s[0] <= 'z'
    && forall c :: c in s ==> 'a' <= c <= 'z' || '0' <= c <= '9' || c == '-'
  }

  predicate ItemKind(k: Bytes) { k in {"credential", "signing-key", "login-state"} }

  lemma IdsAre(s: Bytes)
    ensures ValidId(s) <==> CredentialId(s)
  {
    if ValidId(s) {
      forall c | c in s ensures IdByte(c) { var i :| 0 <= i < |s| && s[i] == c; }
    } else if CredentialId(s) {
      forall i | 0 <= i < |s| ensures IdByte(s[i]) { assert s[i] in s; }
    }
  }

  lemma NamesAre(s: Bytes)
    ensures ValidName(s) <==> ItemName(s)
  {
    if ValidName(s) {
      forall c | c in s ensures NameByte(c) { var i :| 0 <= i < |s| && s[i] == c; }
    } else if ItemName(s) {
      forall i | 0 <= i < |s| ensures NameByte(s[i]) { assert s[i] in s; }
    }
  }

  /** A document that may be loaded, in the words of its format. */
  lemma DocumentTells(d: Document)
    ensures d.Valid() <==>
      && d.version == 1 && |d.id| == 16 && 1 <= |d.wraps| <= 16 && |d.items| <= 128
      && (forall w :: w in d.wraps ==>
            CredentialId(w.cred) && |w.salt| == 32 && |w.nonce| == 12 && (w.ct.Foreign? ==> w.ct.bytes != []))
      && (forall it :: it in d.items ==>
            ItemKind(it.kind) && ItemName(it.name) && |it.rnd| == 16 && (it.ct.Foreign? ==> it.ct.bytes != []))
      && (forall i, j :: 0 <= i < j < |d.wraps| ==> d.wraps[i].cred != d.wraps[j].cred)
      && forall i, j :: 0 <= i < j < |d.items| ==> d.items[i].kind != d.items[j].kind || d.items[i].name != d.items[j].name
  {
    hide ValidId, ValidName, CredentialId, ItemName;
    forall s ensures ValidId(s) <==> CredentialId(s) { IdsAre(s); }
    forall s ensures ValidName(s) <==> ItemName(s) { NamesAre(s); }
    assert forall i :: 0 <= i < |d.wraps| ==> d.wraps[i] in d.wraps;
    assert forall i :: 0 <= i < |d.items| ==> d.items[i] in d.items;
  }

  // ----- the tables, told from the calls and their results -----

  /** The passkeys that are enrolled. */
  function Passkeys(trace: seq<Done>): set<Bytes> {
    if trace == [] then {}
    else
      var d, before := trace[|trace| - 1], Passkeys(trace[..|trace| - 1]);
      if !Applied(d.result) then before
      else match d.call
        case Init(cred, _, _, _) => {cred}
        case AddWrap(_, c) => before + {c.cred}
        case RemoveWrap(_, target) => before - {target}
        case Reset(_) => {}
        case _ => before
  }

  /** The items that are stored. */
  function Stored(trace: seq<Done>): set<Item> {
    if trace == [] then {}
    else
      var d, before := trace[|trace| - 1], Stored(trace[..|trace| - 1]);
      if !Applied(d.result) then before
      else match d.call
        case Init(_, _, _, _) => {}
        case Put(kind, name, _) => before + {Item(kind, name)}
        case Reset(_) => {}
        case _ => before
  }

  /** The ID that the vault was founded with. */
  function IdBy(trace: seq<Done>): Option<Bytes> {
    if trace == [] then None
    else
      var d, before := trace[|trace| - 1], IdBy(trace[..|trace| - 1]);
      if !Applied(d.result) then before
      else if d.call.Init? then Some(d.call.id)
      else if d.call.Reset? then None
      else before
  }

  /** The salt that the passkey was enrolled with. */
  function SaltBy(trace: seq<Done>, cred: Bytes): Option<Bytes> {
    if trace == [] then None
    else
      var d, before := trace[|trace| - 1], SaltBy(trace[..|trace| - 1], cred);
      if !Applied(d.result) then before
      else match d.call
        case Init(c, salt, _, _) => if c == cred then Some(salt) else None
        case AddWrap(_, c) => if c.cred == cred then Some(c.salt) else before
        case RemoveWrap(_, target) => if target == cred then None else before
        case Reset(_) => None
        case _ => before
  }

  function KeysOf(a: Abs): set<Bytes> { if a.plain.Some? then a.plain.value.passkeys.Keys else {} }

  function ItemsOf(a: Abs): set<Item> { if a.plain.Some? then a.plain.value.items.Keys else {} }

  function IdOf(a: Abs): Option<Bytes> { if a.plain.Some? then Some(a.plain.value.id) else None }

  function SaltOf(a: Abs, cred: Bytes): Option<Bytes> {
    if a.plain.Some? && cred in a.plain.value.passkeys then Some(a.plain.value.passkeys[cred].salt) else None
  }

  /** What a call that was applied makes of the tables. */
  ghost predicate Changes(a: Abs, c: Call, a': Abs, cred: Bytes) {
    match c
    case Init(k, salt, _, id) =>
      KeysOf(a') == {k} && ItemsOf(a') == {} && IdOf(a') == Some(id) && SaltOf(a', cred) == if k == cred then Some(salt) else None
    case AddWrap(_, k) =>
      && KeysOf(a') == KeysOf(a) + {k.cred} && ItemsOf(a') == ItemsOf(a) && IdOf(a') == IdOf(a)
      && SaltOf(a', cred) == if k.cred == cred then Some(k.salt) else SaltOf(a, cred)
    case RemoveWrap(_, target) =>
      && KeysOf(a') == KeysOf(a) - {target} && ItemsOf(a') == ItemsOf(a) && IdOf(a') == IdOf(a)
      && SaltOf(a', cred) == if target == cred then None else SaltOf(a, cred)
    case Put(kind, name, _) =>
      && KeysOf(a') == KeysOf(a) && ItemsOf(a') == ItemsOf(a) + {Item(kind, name)} && IdOf(a') == IdOf(a)
      && SaltOf(a', cred) == SaltOf(a, cred)
    case Reset(_) => a'.plain == None
    case _ => a'.plain == a.plain
  }

  lemma DoTables(a: Abs, c: Call, env: Env, cred: Bytes)
    ensures var (a', r) := Do(a, c, env); if Applied(r) then Changes(a, c, a', cred) else a'.plain == a.plain
  {
    hide OnInit, OnAdd, OnRemove, OnPut, Changes, ValidId, ValidKind, ValidName;
    match c
    case Init(_, _, _, _) => InitTables(a, c, env, cred);
    case AddWrap(_, _) => AddTables(a, c, env, cred);
    case RemoveWrap(_, _) => RemoveTables(a, c, env, cred);
    case Put(_, _, _) => PutTables(a, c, env.fate, cred);
    case _ => SameTables(a, c, env, cred);
  }

  lemma InitTables(a: Abs, c: Call, env: Env, cred: Bytes)
    requires c.Init?
    ensures var (a', r) := OnInit(a, c.cred, c.salt, c.prf, c.id, env);
      if Applied(r) then Changes(a, c, a', cred) else a'.plain == a.plain
  {
    hide Sized;
  }

  lemma AddTables(a: Abs, c: Call, env: Env, cred: Bytes)
    requires c.AddWrap?
    ensures var (a', r) := OnAdd(a, c.authorizer, c.candidate, env);
      if Applied(r) then Changes(a, c, a', cred) else a'.plain == a.plain
  {
    hide Sized, Prove;
    ProveFails();
    if a.plain.Some? { KeysWith(a.plain.value.passkeys, c.candidate.cred, Passkey(c.candidate.salt, c.candidate.prf)); }
  }

  lemma ProveFails()
    ensures forall p, proof :: Prove(p, proof) != Ok ==> !Applied(Prove(p, proof))
  {
    hide ValidId;
  }

  lemma KeysWith<K, V>(m: map<K, V>, k: K, v: V)
    ensures m[k := v].Keys == m.Keys + {k}
  {
  }

  lemma KeysWithout<K, V>(m: map<K, V>, k: K)
    ensures (m - {k}).Keys == m.Keys - {k}
  {
  }

  lemma RemoveTables(a: Abs, c: Call, env: Env, cred: Bytes)
    requires c.RemoveWrap?
    ensures var (a', r) := OnRemove(a, c.authorizer, c.target, env);
      if Applied(r) then Changes(a, c, a', cred) else a'.plain == a.plain
  {
    hide ValidId, Prove, Changes;
    ProveFails();
    if a.plain.Some? { WithoutTables(a, c, cred); }
  }

  lemma WithoutTables(a: Abs, c: Call, cred: Bytes)
    requires c.RemoveWrap? && a.plain.Some?
    ensures var p := a.plain.value; Changes(a, c, a.(plain := Some(p.(passkeys := p.passkeys - {c.target}))), cred)
  {
    KeysWithout(a.plain.value.passkeys, c.target);
  }

  lemma PutTables(a: Abs, c: Call, fate: Fate, cred: Bytes)
    requires c.Put?
    ensures var (a', r) := OnPut(a, c.kind, c.name, c.plaintext, fate);
      if Applied(r) then Changes(a, c, a', cred) else a'.plain == a.plain
  {
    hide Storable;
    if a.plain.Some? { KeysWith(a.plain.value.items, Item(c.kind, c.name), c.plaintext); }
  }

  lemma SameTables(a: Abs, c: Call, env: Env, cred: Bytes)
    requires !c.Init? && !c.AddWrap? && !c.RemoveWrap? && !c.Put?
    ensures var (a', r) := Do(a, c, env); if Applied(r) then Changes(a, c, a', cred) else a'.plain == a.plain
  {
    hide ValidId, ValidKind, ValidName;
  }

  lemma {:induction false} RunSaid(calls: seq<(Call, Env)>, cred: Bytes)
    ensures var (a, trace) := Run(calls);
      KeysOf(a) == Passkeys(trace) && ItemsOf(a) == Stored(trace) && IdOf(a) == IdBy(trace) && SaltOf(a, cred) == SaltBy(trace, cred)
  {
    hide Do;
    if calls != [] {
      var front := calls[..|calls| - 1];
      RunSaid(front, cred);
      var (a, trace) := Run(front);
      var (c, env) := calls[|calls| - 1];
      DoTables(a, c, env, cred);
      var d := Done(c, Do(a, c, env).1);
      assert (trace + [d])[..|trace|] == trace;
    }
  }

  // ----- the answers -----

  /** What a change that nothing speaks against comes to: it is audited first, then written. */
  function Written(env: Env): Result {
    if !env.audited then Failed(AuditFailed) else Outcome(env.fate)
  }

  function Outcome(fate: Fate): Result {
    match fate
    case NotWritten => Failed(WriteFailed)
    case NotSynced => Failed(NotDurable)
    case Durable => Ok
  }

  /** A proof is right when the passkey is enrolled with that PRF output. */
  function Proved(trace: seq<Done>, p: Proof): Result {
    if !CredentialId(p.cred) || |p.prf| != 32 then Failed(InvalidInput)
    else if Enrolled(trace, p.cred) == Some(p.prf) then Ok else Failed(UnlockFailed)
  }

  /** The state at the time of a call, and what the calls before it say of it. */
  lemma Before(calls: seq<(Call, Env)>, j: nat)
    requires j < |calls|
    ensures |Run(calls).1| == |calls|
    ensures var before, a := Run(calls).1[..j], Run(calls[..j]).0;
      && before == Run(calls[..j]).1 && Run(calls).1[j] == Done(calls[j].0, Do(a, calls[j].0, calls[j].1).1)
      && Sound(a) && a.closed == !OpenBy(before) && a.plain.Some? == FoundedBy(before) && a.unlocked == UnlockedBy(before)
      && KeysOf(a) == Passkeys(before) && ItemsOf(a) == Stored(before) && IdOf(a) == IdBy(before)
      && forall cred :: PrfOf(a, cred) == Enrolled(before, cred)
  {
    hide Run, Do, Sound;
    RunLength(calls);
    StepOf(calls, j);
    RunTables(calls[..j]);
    RunState(calls[..j]);
    RunSaid(calls[..j], "");
  }

  lemma ProvedIs(a: Abs, before: seq<Done>, p: Proof)
    requires a.plain.Some? && PrfOf(a, p.cred) == Enrolled(before, p.cred)
    ensures Prove(a.plain.value, p) == Proved(before, p)
  {
    hide ValidId, CredentialId, Enrolled;
    IdsAre(p.cred);
  }

  /** Every answer to a call for founding, unlocking or locking. */
  lemma OpeningIsDetermined(calls: seq<(Call, Env)>, j: nat)
    requires j < |calls|
    ensures |Run(calls).1| == |calls|
    ensures var trace := Run(calls).1; var before, r := trace[..j], trace[j].result;
      match calls[j].0
      case Open => r == if OpenBy(before) then Failed(InUse) else Ok
      case Close => r == Ok
      case Lock => r == Ok
      case Init(cred, salt, prf, id) =>
        r == if !OpenBy(before) then Failed(Closed)
             else if FoundedBy(before) then Failed(AlreadyInitialized)
             else if !CredentialId(cred) || |salt| != 32 || |prf| != 32 then Failed(InvalidInput)
             else Written(calls[j].1)
      case Unlock(proof) =>
        r == if !OpenBy(before) then Failed(Closed)
             else if !FoundedBy(before) then Failed(NotInitialized)
             else Proved(before, proof)
      case _ => true
  {
    hide Run, Sound, ValidId, CredentialId, Proved, Prove;
    Before(calls, j);
    var a, before := Run(calls[..j]).0, Run(calls).1[..j];
    match calls[j].0
    case Init(cred, _, _, _) => IdsAre(cred);
    case Unlock(proof) => if a.plain.Some? { ProvedIs(a, before, proof); }
    case _ =>
  }

  /**
    Every answer to a call for a passkey more: an unlocked vault is not asked for, only the proof of
    an enrolled passkey.
   */
  lemma AddIsDetermined(calls: seq<(Call, Env)>, j: nat)
    requires j < |calls| && calls[j].0.AddWrap?
    ensures |Run(calls).1| == |calls|
    ensures var trace := Run(calls).1; var before, r := trace[..j], trace[j].result;
      var c, proof := calls[j].0.candidate, calls[j].0.authorizer;
      r == if !OpenBy(before) then Failed(Closed)
           else if !FoundedBy(before) then Failed(NotInitialized)
           else if !CredentialId(c.cred) || |c.salt| != 32 || |c.prf| != 32 then Failed(InvalidInput)
           else if Proved(before, proof) != Ok then Proved(before, proof)
           else if c.cred in Passkeys(before) then Failed(WrapExists)
           else if |Passkeys(before)| >= 16 then Failed(InvalidInput)
           else Written(calls[j].1)
  {
    hide Run, Sound, ValidId, CredentialId, Proved, Prove;
    Before(calls, j);
    var a, before := Run(calls[..j]).0, Run(calls).1[..j];
    IdsAre(calls[j].0.candidate.cred);
    if a.plain.Some? {
      ProvedIs(a, before, calls[j].0.authorizer);
      assert |a.plain.value.passkeys| == |a.plain.value.passkeys.Keys|;
    }
  }

  /** Every answer to a call for a passkey less: the vault is unlocked, another passkey proves itself, and one remains. */
  lemma RemoveIsDetermined(calls: seq<(Call, Env)>, j: nat)
    requires j < |calls| && calls[j].0.RemoveWrap?
    ensures |Run(calls).1| == |calls|
    ensures var trace := Run(calls).1; var before, r := trace[..j], trace[j].result;
      var target, proof := calls[j].0.target, calls[j].0.authorizer;
      && r == (if !OpenBy(before) then Failed(Closed)
               else if !FoundedBy(before) then Failed(NotInitialized)
               else if !UnlockedBy(before) then Failed(Locked)
               else if !CredentialId(target) then Failed(InvalidInput)
               else if proof.cred == target then Failed(SameCredential)
               else if Proved(before, proof) != Ok then Proved(before, proof)
               else if |Passkeys(before)| <= 1 then Failed(LastWrap)
               else if target !in Passkeys(before) then Failed(WrapNotFound)
               else Written(calls[j].1))
      && (Applied(r) ==> OpenBy(before) && FoundedBy(before) && UnlockedBy(before))
  {
    hide Run, Sound, ValidId, CredentialId, Proved, Prove;
    Before(calls, j);
    var a, before := Run(calls[..j]).0, Run(calls).1[..j];
    IdsAre(calls[j].0.target);
    ProvedKinds(before, calls[j].0.authorizer);
    if a.plain.Some? {
      ProvedIs(a, before, calls[j].0.authorizer);
      assert |a.plain.value.passkeys| == |a.plain.value.passkeys.Keys|;
    }
  }

  lemma ProvedKinds(before: seq<Done>, p: Proof)
    ensures Proved(before, p) in {Ok, Failed(InvalidInput), Failed(UnlockFailed)}
  {
    hide CredentialId, Enrolled;
  }

  /** Every answer to a call that stores an item; it is not audited. */
  lemma PutIsDetermined(calls: seq<(Call, Env)>, j: nat)
    requires j < |calls| && calls[j].0.Put?
    ensures |Run(calls).1| == |calls|
    ensures var trace := Run(calls).1; var before, r, c := trace[..j], trace[j].result, calls[j].0;
      var item := Item(c.kind, c.name);
      r == if !ItemKind(c.kind) || !ItemName(c.name) || (c.kind == "credential" && !(1 <= |c.plaintext| <= 16384))
           then Failed(InvalidInput)
           else if !OpenBy(before) then Failed(Closed)
           else if !FoundedBy(before) then Failed(NotInitialized)
           else if !UnlockedBy(before) then Failed(Locked)
           else if |c.plaintext| > 1048576 || (item !in Stored(before) && |Stored(before)| >= 128) then Failed(InvalidInput)
           else Outcome(calls[j].1.fate)
  {
    hide Run, Sound, ValidName, ItemName;
    Before(calls, j);
    NamesAre(calls[j].0.name);
    var a := Run(calls[..j]).0;
    if a.plain.Some? { assert |a.plain.value.items| == |a.plain.value.items.Keys|; }
  }

  /** Every answer to a call for a reset: nobody has the vault open, and it is the one that was confirmed. */
  lemma ResetIsDetermined(calls: seq<(Call, Env)>, j: nat)
    requires j < |calls| && calls[j].0.Reset?
    ensures |Run(calls).1| == |calls|
    ensures var trace := Run(calls).1; var before, r, confirmed := trace[..j], trace[j].result, calls[j].0.confirmed;
      r == if OpenBy(before) then Failed(InUse)
           else if confirmed.Some? && confirmed.value != IdBy(before) then Failed(VaultChanged)
           else Written(calls[j].1)
  {
    hide Run, Sound;
    Before(calls, j);
  }

  /** Every answer to a call that reads an item. */
  lemma GetIsDetermined(calls: seq<(Call, Env)>, j: nat)
    requires j < |calls| && calls[j].0.Get?
    ensures |Run(calls).1| == |calls|
    ensures var trace := Run(calls).1; var before, r, c := trace[..j], trace[j].result, calls[j].0;
      var last := LastPut(before, Item(c.kind, c.name));
      r == if !ItemKind(c.kind) || !ItemName(c.name) then Failed(InvalidInput)
           else if !OpenBy(before) then Failed(Closed)
           else if !FoundedBy(before) then Failed(NotInitialized)
           else if !UnlockedBy(before) then Failed(Locked)
           else if last.Some? then Value(last.value) else Missing
  {
    hide Run, Sound, ValidName, ItemName, LastPut;
    Before(calls, j);
    NamesAre(calls[j].0.name);
    RunTables(calls[..j]);
    assert ItemOf(Run(calls[..j]).0, Item(calls[j].0.kind, calls[j].0.name)) ==
      LastPut(Run(calls).1[..j], Item(calls[j].0.kind, calls[j].0.name));
  }
}
