/**
  vault/vault.go: the Vault that holds a document of wraps and ciphertexts and, while unlocked,
  the body key. Every method is proved to give what the plain vault of VaultPlain gives.
 */
module VaultClass {
  import opened Wrappers
  import opened VaultCrypto
  import opened VaultStore
  import opened VaultPlain

  // ----- the document against the plain tables -----

  ghost predicate WrapOk(w: WrapRecord, p: Plain, body: Bytes) {
    && w.cred in p.passkeys && w.salt == p.passkeys[w.cred].salt
    && w.ct == WrapBodyKey(body, p.passkeys[w.cred].prf, p.id, w.cred, w.salt, w.nonce)
  }

  ghost predicate ItemOk(it: ItemRecord, p: Plain, body: Bytes) {
    && Item(it.kind, it.name) in p.items
    && it.ct == SealItem(body, p.id, it.kind, it.name, it.rnd, p.items[Item(it.kind, it.name)])
  }

  /** Every passkey has one wrap and all wraps hold the same body key. */
  ghost predicate WrapsHold(ws: seq<WrapRecord>, p: Plain, body: Bytes) {
    && (forall w :: w in ws ==> WrapOk(w, p, body))
    && (forall c :: c in p.passkeys ==> exists w :: w in ws && w.cred == c)
    && |ws| == |p.passkeys|
  }

  /** Every item has one ciphertext, under that body key. */
  ghost predicate ItemsHold(its: seq<ItemRecord>, p: Plain, body: Bytes) {
    && (forall it :: it in its ==> ItemOk(it, p, body))
    && (forall k :: k in p.items ==> exists it :: it in its && Item(it.kind, it.name) == k)
    && |its| == |p.items|
  }

  ghost predicate Encrypts(d: Document, p: Plain, body: Bytes) {
    d.Valid() && d.id == p.id && |body| == KEY_SIZE && WrapsHold(d.wraps, p, body) && ItemsHold(d.items, p, body)
  }

  function NewWrap(body: Bytes, id: Bytes, c: Enrollment, nonce: Bytes): WrapRecord {
    WrapRecord(c.cred, c.salt, nonce, WrapBodyKey(body, c.prf, id, c.cred, c.salt, nonce))
  }

  function Founded(body: Bytes, id: Bytes, c: Enrollment, nonce: Bytes): Document {
    Document(FORMAT_VERSION, id, [NewWrap(body, id, c, nonce)], [])
  }

  lemma EncryptsInit(body: Bytes, id: Bytes, c: Enrollment, nonce: Bytes)
    requires |body| == KEY_SIZE && |id| == VAULT_ID_SIZE && |nonce| == NONCE_SIZE && Sized(c.cred, c.salt, c.prf)
    ensures Encrypts(Founded(body, id, c, nonce), Plain(id, map[c.cred := Passkey(c.salt, c.prf)], map[]), body)
  {
    hide ValidId, WrapBodyKey;
    var d := Founded(body, id, c, nonce);
    assert ValidWrap(d.wraps[0]) by { WrapNonEmpty(body, id, c, nonce); }
    assert d.wraps[0] in d.wraps;
  }

  lemma WrapNonEmpty(body: Bytes, id: Bytes, c: Enrollment, nonce: Bytes)
    ensures NonEmpty(NewWrap(body, id, c, nonce).ct)
  {
  }

  lemma AddWraps(ws: seq<WrapRecord>, p: Plain, body: Bytes, c: Enrollment, nonce: Bytes)
    requires WrapsHold(ws, p, body) && c.cred !in p.passkeys && DistinctWraps(ws)
    ensures WrapsHold(ws + [NewWrap(body, p.id, c, nonce)], p.(passkeys := p.passkeys[c.cred := Passkey(c.salt, c.prf)]), body)
    ensures DistinctWraps(ws + [NewWrap(body, p.id, c, nonce)])
  {
    hide WrapBodyKey;
    var w := NewWrap(body, p.id, c, nonce);
    var all, p' := ws + [w], p.(passkeys := p.passkeys[c.cred := Passkey(c.salt, c.prf)]);
    forall i | 0 <= i < |ws| ensures ws[i].cred != c.cred { assert WrapOk(ws[i], p, body); }
    forall x | x in all ensures WrapOk(x, p', body) {
      if x in ws { assert WrapOk(x, p, body); }
    }
    forall k | k in p'.passkeys ensures exists x :: x in all && x.cred == k {
      if k == c.cred { assert w in all; } else { var x :| x in ws && x.cred == k; assert x in all; }
    }
  }

  lemma EncryptsAdd(d: Document, p: Plain, body: Bytes, c: Enrollment, nonce: Bytes)
    requires Encrypts(d, p, body) && Sized(c.cred, c.salt, c.prf) && |nonce| == NONCE_SIZE
    requires c.cred !in p.passkeys && |p.passkeys| < MAX_WRAPS
    ensures Encrypts(d.(wraps := d.wraps + [NewWrap(body, p.id, c, nonce)]),
                     p.(passkeys := p.passkeys[c.cred := Passkey(c.salt, c.prf)]), body)
  {
    hide WrapsHold, WrapBodyKey, ValidId, DistinctWraps, DistinctItems;
    WrapNonEmpty(body, p.id, c, nonce);
    Counts(d, p, body);
    AddWraps(d.wraps, p, body, c, nonce);
    SameItems(d.items, p, p.(passkeys := p.passkeys[c.cred := Passkey(c.salt, c.prf)]), body);
  }

  lemma SameItems(its: seq<ItemRecord>, p: Plain, p': Plain, body: Bytes)
    requires ItemsHold(its, p, body) && p'.id == p.id && p'.items == p.items
    ensures ItemsHold(its, p', body)
  {
    forall it | it in its ensures ItemOk(it, p', body) { assert ItemOk(it, p, body); }
  }

  lemma RemoveWraps(ws: seq<WrapRecord>, p: Plain, body: Bytes, target: Bytes)
    requires WrapsHold(ws, p, body) && target in p.passkeys && DistinctWraps(ws)
    ensures WrapsHold(Without(ws, target), p.(passkeys := p.passkeys - {target}), body)
  {
    hide WrapBodyKey, Without, DistinctWraps;
    var p' := p.(passkeys := p.passkeys - {target});
    WithoutMembers(ws, target);
    WithoutDistinct(ws, target);
    forall x | x in Without(ws, target) ensures WrapOk(x, p', body) { assert WrapOk(x, p, body); }
    forall k | k in p'.passkeys ensures exists x :: x in Without(ws, target) && x.cred == k {
      var x :| x in ws && x.cred == k;
      assert x in Without(ws, target);
    }
    assert p'.passkeys.Keys == p.passkeys.Keys - {target};
  }

  lemma EncryptsRemove(d: Document, p: Plain, body: Bytes, target: Bytes)
    requires Encrypts(d, p, body) && target in p.passkeys && |p.passkeys| > 1
    ensures Encrypts(d.(wraps := Without(d.wraps, target)), p.(passkeys := p.passkeys - {target}), body)
  {
    hide WrapsHold, ItemsHold, Without, ValidWrap, DistinctWraps, DistinctItems, ValidItem;
    RemoveWraps(d.wraps, p, body, target);
    WithoutMembers(d.wraps, target);
    WithoutDistinct(d.wraps, target);
    var ws := Without(d.wraps, target);
    forall i | 0 <= i < |ws| ensures ValidWrap(ws[i]) { assert ws[i] in ws; }
    SameItems(d.items, p, p.(passkeys := p.passkeys - {target}), body);
    Counts(d, p, body);
  }

  lemma Counts(d: Document, p: Plain, body: Bytes)
    requires Encrypts(d, p, body)
    ensures |d.wraps| == |p.passkeys| && |d.items| == |p.items|
  {
  }

  lemma SameWraps(ws: seq<WrapRecord>, p: Plain, p': Plain, body: Bytes)
    requires WrapsHold(ws, p, body) && p'.id == p.id && p'.passkeys == p.passkeys
    ensures WrapsHold(ws, p', body)
  {
    hide WrapBodyKey;
    forall w | w in ws ensures WrapOk(w, p', body) { assert WrapOk(w, p, body); }
  }

  function NewItem(body: Bytes, id: Bytes, kind: Bytes, name: Bytes, rnd: Bytes, plaintext: Bytes): ItemRecord {
    ItemRecord(kind, name, rnd, SealItem(body, id, kind, name, rnd, plaintext))
  }

  lemma PutItems(its: seq<ItemRecord>, p: Plain, body: Bytes, rec: ItemRecord, plaintext: Bytes)
    requires ItemsHold(its, p, body) && DistinctItems(its)
    requires rec == NewItem(body, p.id, rec.kind, rec.name, rec.rnd, plaintext)
    ensures ItemsHold(WithItem(its, rec), p.(items := p.items[Item(rec.kind, rec.name) := plaintext]), body)
    ensures |WithItem(its, rec)| == if Item(rec.kind, rec.name) in p.items then |its| else |its| + 1
  {
    hide SealItem, WithItem, DistinctItems;
    var k, out := Item(rec.kind, rec.name), WithItem(its, rec);
    var p' := p.(items := p.items[k := plaintext]);
    WithItemDistinct(its, rec);
    forall it | it in out ensures ItemOk(it, p', body) {
      if it != rec { assert ItemOk(it, p, body); }
    }
    forall x | x in p'.items ensures exists it :: it in out && Item(it.kind, it.name) == x {
      if x == k {
        assert rec in out;
      } else {
        var it :| it in its && Item(it.kind, it.name) == x;
        assert it in out;
      }
    }
    PutCount(its, p, body, rec);
  }

  lemma PutCount(its: seq<ItemRecord>, p: Plain, body: Bytes, rec: ItemRecord)
    requires ItemsHold(its, p, body)
    ensures |WithItem(its, rec)| == if Item(rec.kind, rec.name) in p.items then |its| else |its| + 1
    ensures ItemIndex(its, rec.kind, rec.name) < |its| <==> Item(rec.kind, rec.name) in p.items
  {
    var i := ItemIndex(its, rec.kind, rec.name);
    if i < |its| {
      assert ItemOk(its[i], p, body);
    }
  }

  lemma EncryptsPut(d: Document, p: Plain, body: Bytes, rec: ItemRecord, plaintext: Bytes)
    requires Encrypts(d, p, body) && ValidItem(rec)
    requires rec == NewItem(body, p.id, rec.kind, rec.name, rec.rnd, plaintext)
    requires Item(rec.kind, rec.name) in p.items || |p.items| < MAX_ITEMS
    ensures Encrypts(d.(items := WithItem(d.items, rec)), p.(items := p.items[Item(rec.kind, rec.name) := plaintext]), body)
  {
    hide WrapsHold, ItemsHold, WithItem, ValidItem, DistinctWraps, DistinctItems, ValidWrap, SealItem;
    PutItems(d.items, p, body, rec, plaintext);
    WithItemDistinct(d.items, rec);
    var its := WithItem(d.items, rec);
    forall i | 0 <= i < |its| ensures ValidItem(its[i]) { assert its[i] in its; }
    SameWraps(d.wraps, p, p.(items := p.items[Item(rec.kind, rec.name) := plaintext]), body);
    Counts(d, p, body);
  }

  // ----- the object -----

  class Vault {
    var doc: Option<Document>
    var key: Option<Bytes>
    var closed: bool
    ghost var plain: Option<Plain>
    ghost var body: Bytes

    ghost function View(): Abs
      reads this
    {
      Abs(plain, key.Some?, closed)
    }

    ghost predicate Valid()
      reads this
    {
      && doc.Some? == plain.Some?
      && (doc.Some? ==> Encrypts(doc.value, plain.value, body))
      && (key.Some? ==> doc.Some? && key.value == body && !closed)
    }

    /** Open: the document that was read from disk, locked. */
    constructor (d: Option<Document>, ghost p: Option<Plain>, ghost bk: Bytes)
      requires d.Some? == p.Some? && (d.Some? ==> Encrypts(d.value, p.value, bk))
      ensures Valid() && View() == Abs(p, false, false) && doc == d
    {
      hide Encrypts;
      doc, key, closed, plain, body := d, None, false, p, bk;
    }

    method CloseVault()
      requires Valid()
      modifies this
      ensures Valid() && forall env :: (View(), Ok) == Do(old(View()), Close, env)
      ensures doc == old(doc) && body == old(body)
    {
      hide Encrypts, OnInit, OnUnlock, OnAdd, OnRemove, OnPut, OnReset, OnGet;
      if closed { return; }
      key, closed := None, true;
    }

    method LockVault()
      requires Valid()
      modifies this
      ensures Valid() && forall env :: (View(), Ok) == Do(old(View()), Lock, env)
      ensures doc == old(doc) && body == old(body)
    {
      hide Encrypts, OnInit, OnUnlock, OnAdd, OnRemove, OnPut, OnReset, OnGet;
      key := None;
    }

    method Find(cred: Bytes) returns (w: Option<WrapRecord>)
      requires doc.Some?
      ensures w.Some? ==> w.value in doc.value.wraps && w.value.cred == cred
      ensures w.None? ==> forall x :: x in doc.value.wraps ==> x.cred != cred
    {
      for i := 0 to |doc.value.wraps|
        invariant forall j :: 0 <= j < i ==> doc.value.wraps[j].cred != cred
      {
        if doc.value.wraps[i].cred == cred { return Some(doc.value.wraps[i]); }
      }
      return None;
    }

    lemma WrapFacts(cred: Bytes)
      requires Valid() && doc.Some?
      ensures forall w :: w in doc.value.wraps ==> WrapOk(w, plain.value, body) && ValidWrap(w)
      ensures cred in plain.value.passkeys <==> exists w :: w in doc.value.wraps && w.cred == cred
      ensures doc.value.id == plain.value.id && |doc.value.id| == VAULT_ID_SIZE && |body| == KEY_SIZE
      ensures |doc.value.wraps| == |plain.value.passkeys|
    {
      hide ItemsHold, DistinctItems, DistinctWraps, ValidItem, WrapBodyKey;
      forall w | w in doc.value.wraps ensures ValidWrap(w) {
        var i :| 0 <= i < |doc.value.wraps| && doc.value.wraps[i] == w;
      }
      if cred in plain.value.passkeys {
        var w :| w in doc.value.wraps && w.cred == cred;
      }
      if w :| w in doc.value.wraps && w.cred == cred {
        assert WrapOk(w, plain.value, body);
      }
    }

    /** prove: the body key, if the PRF output opens the passkey's own wrap. */
    method ProveWrap(proof: Proof) returns (r: Result, bk: Bytes)
      requires Valid() && doc.Some?
      ensures r == Prove(plain.value, proof)
      ensures r == Ok ==> bk == body && |bk| == KEY_SIZE
    {
      hide Encrypts, ValidId, WrapBodyKey, UnwrapBodyKey;
      bk := "";
      if !ValidId(proof.cred) || |proof.prf| != PRF_SIZE { return Failed(InvalidInput), bk; }
      var w := Find(proof.cred);
      WrapFacts(proof.cred);
      if w.None? { return Failed(UnlockFailed), bk; }
      var got := UnwrapBodyKey(proof.prf, doc.value.id, w.value.cred, w.value.salt, w.value.nonce, w.value.ct);
      IdSize(w.value.cred);
      UnwrapIff(body, plain.value.passkeys[w.value.cred].prf, doc.value.id, w.value.cred, w.value.salt, w.value.nonce,
                proof.prf, doc.value.id, w.value.cred, w.value.salt, w.value.nonce);
      if got.None? { return Failed(UnlockFailed), bk; }
      return Ok, got.value;
    }

    static lemma IdSize(s: Bytes)
      ensures ValidId(s) ==> |s| < TWO32
    {
    }

    /** write: memory follows the disk, also when only the durability is in doubt. */
    method WriteDoc(next: Document, fate: Fate, ghost p: Plain, ghost bk: Bytes, ghost c: Change) returns (r: Result)
      requires Valid() && Encrypts(next, p, bk) && (doc.Some? ==> bk == body)
      requires Applies(doc, c) && next == After(doc, c)
      modifies this
      ensures Valid() && (View(), r) == Write(old(View()), p, fate)
      ensures key == old(key) && closed == old(closed)
      ensures Applied(r) ==> doc == Some(next) && body == bk
      ensures !Applied(r) ==> doc == old(doc) && body == old(body)
    {
      hide Encrypts;
      if fate == NotWritten { return Failed(WriteFailed); }
      doc, plain, body := Some(next), Some(p), bk;
      return if fate == NotSynced then Failed(NotDurable) else Ok;
    }

    /** commit: nothing is written before the audit entry of this very change is. */
    method CommitDoc(next: Document, e: Entry, env: Env, ghost p: Plain, ghost bk: Bytes, ghost c: Change)
      returns (r: Result)
      requires Valid() && Encrypts(next, p, bk) && (doc.Some? ==> bk == body)
      requires Applies(doc, c) && next == After(doc, c) && EntryOf(doc, c) == Some(e)
      modifies this
      ensures Valid() && (View(), r) == Commit(old(View()), p, env)
      ensures key == old(key) && closed == old(closed)
      ensures Applied(r) ==> doc == Some(next) && body == bk
      ensures !Applied(r) ==> doc == old(doc) && body == old(body)
    {
      hide Encrypts;
      if !env.audited { return Failed(AuditFailed); }
      r := WriteDoc(next, env.fate, p, bk, c);
    }

    /** The random bytes of the source are parameters: the ID, the body key and the nonce. */
    method InitVault(c: Enrollment, id: Bytes, bk: Bytes, nonce: Bytes, env: Env) returns (r: Result)
      requires Valid() && |id| == VAULT_ID_SIZE && |bk| == KEY_SIZE && |nonce| == NONCE_SIZE
      modifies this
      ensures Valid() && (View(), r) == OnInit(old(View()), c.cred, c.salt, c.prf, id, env)
    {
      hide Encrypts, ValidId;
      if closed { return Failed(Closed); }
      if doc.Some? { return Failed(AlreadyInitialized); }
      if !ValidId(c.cred) || |c.salt| != SALT_SIZE || |c.prf| != PRF_SIZE { return Failed(InvalidInput); }
      var next := Document(FORMAT_VERSION, id, [NewWrap(bk, id, c, nonce)], []);
      EncryptsInit(bk, id, c, nonce);
      r := CommitDoc(next, Entry("init", id, Head(c.cred), ""), env,
                     Plain(id, map[c.cred := Passkey(c.salt, c.prf)], map[]), bk, Founding(id, next.wraps[0]));
      if r != Ok { return r; }
      key := Some(bk);
    }

    method UnlockVault(proof: Proof) returns (r: Result)
      requires Valid()
      modifies this
      ensures Valid() && (View(), r) == OnUnlock(old(View()), proof)
      ensures doc == old(doc)
    {
      hide Encrypts, Prove;
      if closed { return Failed(Closed); }
      if doc.None? { return Failed(NotInitialized); }
      var bk;
      r, bk := ProveWrap(proof);
      if r != Ok { return r; }
      key := Some(bk);
    }

    method AddWrapFor(authorizer: Proof, c: Enrollment, nonce: Bytes, env: Env) returns (r: Result)
      requires Valid() && |nonce| == NONCE_SIZE
      modifies this
      ensures Valid() && (View(), r) == OnAdd(old(View()), authorizer, c, env)
    {
      hide Encrypts, Prove, ValidId, WrapOk;
      if closed { return Failed(Closed); }
      if doc.None? { return Failed(NotInitialized); }
      if !ValidId(c.cred) || |c.salt| != SALT_SIZE || |c.prf| != PRF_SIZE { return Failed(InvalidInput); }
      var bk;
      r, bk := ProveWrap(authorizer);
      if r != Ok { return r; }
      var w := Find(c.cred);
      WrapFacts(c.cred);
      if w.Some? { return Failed(WrapExists); }
      if |doc.value.wraps| >= MAX_WRAPS { return Failed(InvalidInput); }
      var rec := NewWrap(bk, doc.value.id, c, nonce);
      var next := doc.value.(wraps := doc.value.wraps + [rec]);
      EncryptsAdd(doc.value, plain.value, body, c, nonce);
      r := CommitDoc(next, Entry("add-wrap", doc.value.id, Head(authorizer.cred), Head(c.cred)), env,
                     plain.value.(passkeys := plain.value.passkeys[c.cred := Passkey(c.salt, c.prf)]), body,
                     Adding(authorizer.cred, rec));
    }

    method RemoveWrapOf(authorizer: Proof, target: Bytes, env: Env) returns (r: Result)
      requires Valid()
      modifies this
      ensures Valid() && (View(), r) == OnRemove(old(View()), authorizer, target, env)
    {
      hide Encrypts, Prove, ValidId, WrapOk, Without;
      if closed { return Failed(Closed); }
      if doc.None? { return Failed(NotInitialized); }
      if key.None? { return Failed(Locked); }
      if !ValidId(target) { return Failed(InvalidInput); }
      if authorizer.cred == target { return Failed(SameCredential); }
      var bk;
      r, bk := ProveWrap(authorizer);
      if r != Ok { return r; }
      if bk != key.value { return Failed(UnlockFailed); }
      WrapFacts(target);
      if |doc.value.wraps| <= 1 { return Failed(LastWrap); }
      var w := Find(target);
      if w.None? { return Failed(WrapNotFound); }
      var next := doc.value.(wraps := Without(doc.value.wraps, target));
      EncryptsRemove(doc.value, plain.value, body, target);
      r := CommitDoc(next, Entry("remove-wrap", doc.value.id, Head(authorizer.cred), Head(target)), env,
                     plain.value.(passkeys := plain.value.passkeys - {target}), body, Removing(authorizer.cred, target));
    }

    lemma ItemFacts(kind: Bytes, name: Bytes)
      requires Valid() && doc.Some?
      ensures ItemIndex(doc.value.items, kind, name) < |doc.value.items| <==> Item(kind, name) in plain.value.items
      ensures |doc.value.items| == |plain.value.items|
      ensures var i := ItemIndex(doc.value.items, kind, name); i < |doc.value.items| ==>
        ItemOk(doc.value.items[i], plain.value, body) && ValidItem(doc.value.items[i])
      ensures doc.value.id == plain.value.id
    {
      hide WrapsHold, DistinctItems, DistinctWraps, ValidWrap, SealItem;
      PutCount(doc.value.items, plain.value, body, ItemRecord(kind, name, "", Foreign("")));
    }

    method IndexOf(kind: Bytes, name: Bytes) returns (i: nat)
      requires doc.Some?
      ensures i == ItemIndex(doc.value.items, kind, name)
    {
      i := 0;
      while i < |doc.value.items| && !(doc.value.items[i].kind == kind && doc.value.items[i].name == name)
        invariant i <= |doc.value.items|
        invariant forall j :: 0 <= j < i ==> doc.value.items[j].kind != kind || doc.value.items[j].name != name
      {
        i := i + 1;
      }
    }

    method PutItem(kind: Bytes, name: Bytes, plaintext: Bytes, rnd: Bytes, env: Env) returns (r: Result)
      requires Valid() && |rnd| == ITEM_RND_SIZE
      modifies this
      ensures Valid() && (View(), r) == OnPut(old(View()), kind, name, plaintext, env.fate)
    {
      hide Encrypts, SealItem, ValidKind, ValidName, ItemOk;
      if !Storable(kind, name, plaintext) { return Failed(InvalidInput); }
      if closed { return Failed(Closed); }
      if doc.None? { return Failed(NotInitialized); }
      if key.None? { return Failed(Locked); }
      if |plaintext| > MAX_ITEM_SIZE { return Failed(InvalidInput); }
      var rec := NewItem(key.value, doc.value.id, kind, name, rnd, plaintext);
      ItemFacts(kind, name);
      SealedNonEmpty(key.value, doc.value.id, kind, name, rnd, plaintext);
      var i := IndexOf(kind, name);
      var items := doc.value.items;
      if i < |items| {
        items := items[i := rec];
      } else {
        if |items| >= MAX_ITEMS { return Failed(InvalidInput); }
        items := items + [rec];
      }
      assert items == WithItem(doc.value.items, rec);
      EncryptsPut(doc.value, plain.value, body, rec, plaintext);
      r := WriteDoc(doc.value.(items := items), env.fate,
                    plain.value.(items := plain.value.items[Item(kind, name) := plaintext]), body, Storing(rec));
    }

    static lemma SealedNonEmpty(bk: Bytes, id: Bytes, kind: Bytes, name: Bytes, rnd: Bytes, plaintext: Bytes)
      ensures NonEmpty(SealItem(bk, id, kind, name, rnd, plaintext))
    {
    }

    method GetItem(kind: Bytes, name: Bytes) returns (r: Result)
      requires Valid()
      ensures r == OnGet(View(), kind, name)
    {
      hide Encrypts, SealItem, OpenItem, ValidKind, ValidName;
      if !ValidKind(kind) || !ValidName(name) { return Failed(InvalidInput); }
      if closed { return Failed(Closed); }
      if doc.None? { return Failed(NotInitialized); }
      if key.None? { return Failed(Locked); }
      ItemFacts(kind, name);
      var i := IndexOf(kind, name);
      if i == |doc.value.items| { return Missing; }
      var it := doc.value.items[i];
      var got := OpenItem(key.value, doc.value.id, kind, name, it.rnd, it.ct);
      ValidIsNulFree(kind, name);
      OpenItemIff(body, doc.value.id, kind, name, it.rnd, plain.value.items[Item(kind, name)],
                  key.value, doc.value.id, kind, name, it.rnd);
      if got.None? { return Failed(Format); }
      return Value(got.value);
    }
  }

  // ----- whole runs -----

  /** The random bytes that one call may use. */
  datatype Rand = Rand(body: Bytes, nonce: Bytes, rnd: Bytes)

  predicate Sizes(x: Rand) { |x.body| == KEY_SIZE && |x.nonce| == NONCE_SIZE && |x.rnd| == ITEM_RND_SIZE }

  /** Open, on a directory that holds the document of the vault that was closed. */
  method OpenAgain(v: Vault, ghost env: Env) returns (v': Vault, r: Result)
    requires v.Valid()
    ensures v'.Valid() && (v' == v || fresh(v')) && (v'.View(), r) == Do(old(v.View()), Open, env)
  {
    hide Encrypts, OnInit, OnUnlock, OnAdd, OnRemove, OnPut, OnReset, OnGet;
    if !v.closed { return v, Failed(InUse); }
    v' := new Vault(v.doc, v.plain, v.body);
    r := Ok;
  }

  /** Reset: the ID is compared, the entry written, the document removed. */
  method ResetDir(v: Vault, confirmed: Option<Option<Bytes>>, env: Env) returns (v': Vault, r: Result)
    requires v.Valid()
    ensures v'.Valid() && (v' == v || fresh(v')) && (v'.View(), r) == OnReset(v.View(), confirmed, env)
  {
    hide Encrypts;
    v' := v;
    if !v.closed { return v', Failed(InUse); }
    var id := if v.doc.Some? then Some(v.doc.value.id) else None;
    assert id == ShownId(v.View()) by { if v.doc.Some? { v.WrapFacts(""); } }
    if confirmed.Some? && confirmed.value != id { return v', Failed(VaultChanged); }
    if !env.audited { return v', Failed(AuditFailed); }
    if env.fate == NotWritten { return v', Failed(WriteFailed); }
    v' := new Vault(None, None, "");
    ghost var env0 := Env(true, Durable);
    v'.CloseVault();
    assert (v'.View(), Ok) == Do(Abs(None, false, false), Close, env0);
    r := if env.fate == NotSynced then Failed(NotDurable) else Ok;
  }

  /** One call, on the object or on its directory. */
  method Perform(v: Vault, call: Call, env: Env, x: Rand) returns (v': Vault, r: Result)
    requires v.Valid() && Sizes(x) && (call.Init? ==> |call.id| == VAULT_ID_SIZE)
    modifies v
    ensures v'.Valid() && (v' == v || fresh(v')) && (v'.View(), r) == Do(old(v.View()), call, env)
  {
    hide Encrypts, OnInit, OnUnlock, OnAdd, OnRemove, OnPut, OnReset, OnGet;
    v' := v;
    match call
    case Open =>
      v', r := OpenAgain(v, env);
    case Close =>
      v.CloseVault();
      r := Ok;
      assert (v.View(), Ok) == Do(old(v.View()), Close, env);
    case Lock =>
      v.LockVault();
      r := Ok;
      assert (v.View(), Ok) == Do(old(v.View()), Lock, env);
    case Init(cred, salt, prf, id) => r := v.InitVault(Enrollment(cred, salt, prf), id, x.body, x.nonce, env);
    case Unlock(proof) => r := v.UnlockVault(proof);
    case AddWrap(authorizer, candidate) => r := v.AddWrapFor(authorizer, candidate, x.nonce, env);
    case RemoveWrap(authorizer, target) => r := v.RemoveWrapOf(authorizer, target, env);
    case Put(kind, name, plaintext) => r := v.PutItem(kind, name, plaintext, x.rnd, env);
    case Get(kind, name) => r := v.GetItem(kind, name);
    case Reset(confirmed) => v', r := ResetDir(v, confirmed, env);
  }

  /** Every sequence of calls on the encrypted vault has the results of the plain one. */
  method RunCalls(calls: seq<(Call, Env)>, xs: seq<Rand>) returns (trace: seq<Done>)
    requires |xs| == |calls| && forall i :: 0 <= i < |calls| ==> Sizes(xs[i])
    requires forall i :: 0 <= i < |calls| && calls[i].0.Init? ==> |calls[i].0.id| == VAULT_ID_SIZE
    ensures trace == Run(calls).1
  {
    hide Encrypts, Do, Sizes;
    trace := [];
    var v := new Vault(None, None, "");
    v.CloseVault();
    StartsFresh(v.View());
    for i := 0 to |calls|
      invariant v.Valid() && fresh(v)
      invariant (v.View(), trace) == Run(calls[..i])
    {
      assert calls[..i + 1][..i] == calls[..i];
      var (call, env) := calls[i];
      var r;
      v, r := Perform(v, call, env, xs[i]);
      trace := trace + [Done(call, r)];
    }
    assert calls[..|calls|] == calls;
  }

  lemma StartsFresh(a: Abs)
    requires forall env :: (a, Ok) == Do(Abs(None, false, false), Close, env)
    ensures a == FRESH
  {
    var env := Env(true, Durable);
    assert (a, Ok) == Do(Abs(None, false, false), Close, env);
  }
}
