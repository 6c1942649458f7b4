/** vault/store.go: the document of vault.json and what makes it acceptable. */
module VaultStore {
  import opened Wrappers
  import opened VaultCrypto

  const MAX_WRAPS := 16
  const MAX_ITEMS := 128
  const MAX_ID_LEN := 1400

  const KIND_CREDENTIAL := "credential"
  const KIND_SIGNING_KEY := "signing-key"
  const KIND_LOGIN_STATE := "login-state"

  datatype WrapRecord = WrapRecord(cred: Bytes, salt: Bytes, nonce: Bytes, ct: Cipher)

  datatype ItemRecord = ItemRecord(kind: Bytes, name: Bytes, rnd: Bytes, ct: Cipher)

  datatype Document = Document(version: int, id: Bytes, wraps: seq<WrapRecord>, items: seq<ItemRecord>)
  {
    predicate Valid() {
      && version == FORMAT_VERSION && |id| == VAULT_ID_SIZE
      && 0 < |wraps| <= MAX_WRAPS && |items| <= MAX_ITEMS
      && (forall i :: 0 <= i < |wraps| ==> ValidWrap(wraps[i])) && DistinctWraps(wraps)
      && (forall i :: 0 <= i < |items| ==> ValidItem(items[i])) && DistinctItems(items)
    }
  }

  predicate IdByte(c: char) {
    'a' <= c <= 'z' || 'A' <= c <= 'Z' || '0' <= c <= '9' || c == '_' || c == '-'
  }

  /** A credential ID in base64url. */
  predicate ValidId(s: Bytes) {
    0 < |s| <= MAX_ID_LEN && forall i :: 0 <= i < |s| ==> IdByte(s[i])
  }

  predicate ValidKind(k: Bytes) { k in {KIND_CREDENTIAL, KIND_SIGNING_KEY, KIND_LOGIN_STATE} }

  predicate NameByte(c: char) { 'a' <= c <= 'z' || '0' <= c <= '9' || c == '-' }

  predicate ValidName(s: Bytes) {
    0 < |s| <= 32 && 'a' <= s[0] <= 'z' && forall i :: 0 <= i < |s| ==> NameByte(s[i])
  }

  predicate NonEmpty(ct: Cipher) { ct.Sealed? || ct.bytes != [] }

  predicate ValidWrap(w: WrapRecord) {
    ValidId(w.cred) && |w.salt| == SALT_SIZE && |w.nonce| == NONCE_SIZE && NonEmpty(w.ct)
  }

  predicate ValidItem(it: ItemRecord) {
    ValidKind(it.kind) && ValidName(it.name) && |it.rnd| == ITEM_RND_SIZE && NonEmpty(it.ct)
  }

  predicate DistinctWraps(ws: seq<WrapRecord>) {
    forall i, j :: 0 <= i < j < |ws| ==> ws[i].cred != ws[j].cred
  }

  predicate DistinctItems(its: seq<ItemRecord>) {
    forall i, j :: 0 <= i < j < |its| ==> its[i].kind != its[j].kind || its[i].name != its[j].name
  }

  lemma ValidIsNulFree(kind: Bytes, name: Bytes)
    ensures ValidKind(kind) ==> NulFree(kind)
    ensures ValidName(name) ==> NulFree(name)
  {
  }

  function ItemTag(it: ItemRecord): Bytes { it.kind + "\0" + it.name }

  lemma SameTag(a: ItemRecord, b: ItemRecord)
    requires ValidItem(a) && ValidItem(b)
    ensures ItemTag(a) == ItemTag(b) <==> a.kind == b.kind && a.name == b.name
  {
    hide ValidKind, ValidName;
    ValidIsNulFree(a.kind, a.name);
    ValidIsNulFree(b.kind, b.name);
    if ItemTag(a) == ItemTag(b) {
      assert a.kind + "\0" + a.name == b.kind + "\0" + b.name;
      FirstNul(a.kind, a.name, b.kind, b.name);
    }
  }

  method CheckWraps(ws: seq<WrapRecord>) returns (ok: bool)
    ensures ok <==> (forall i :: 0 <= i < |ws| ==> ValidWrap(ws[i])) && DistinctWraps(ws)
  {
    hide ValidWrap;
    var seen: set<Bytes> := {};
    for n := 0 to |ws|
      invariant seen == set w | w in ws[..n] :: w.cred
      invariant (forall i :: 0 <= i < n ==> ValidWrap(ws[i])) && DistinctWraps(ws[..n])
    {
      if !ValidWrap(ws[n]) { return false; }
      if ws[n].cred in seen {
        var w :| w in ws[..n] && w.cred == ws[n].cred;
        var i :| 0 <= i < n && ws[i] == w;
        return false;
      }
      assert ws[..n + 1] == ws[..n] + [ws[n]];
      assert forall i :: 0 <= i < n ==> ws[..n][i] in ws[..n];
      seen := seen + {ws[n].cred};
    }
    assert ws[..|ws|] == ws;
    return true;
  }

  method CheckItems(its: seq<ItemRecord>) returns (ok: bool)
    ensures ok <==> (forall i :: 0 <= i < |its| ==> ValidItem(its[i])) && DistinctItems(its)
  {
    hide ValidItem, ItemTag;
    var seen: set<Bytes> := {};
    for n := 0 to |its|
      invariant forall i :: 0 <= i < n ==> ItemTag(its[i]) in seen
      invariant forall t :: t in seen ==> exists i :: 0 <= i < n && ItemTag(its[i]) == t
      invariant (forall i :: 0 <= i < n ==> ValidItem(its[i])) && DistinctItems(its[..n])
    {
      if !ValidItem(its[n]) { return false; }
      if ItemTag(its[n]) in seen {
        var i :| 0 <= i < n && ItemTag(its[i]) == ItemTag(its[n]);
        SameTag(its[i], its[n]);
        return false;
      }
      forall i | 0 <= i < n ensures its[i].kind != its[n].kind || its[i].name != its[n].name {
        SameTag(its[i], its[n]);
      }
      seen := seen + {ItemTag(its[n])};
    }
    assert its[..|its|] == its;
    return true;
  }

  /** validate: the scans with their sets of names accept exactly the valid documents. */
  method Validate(d: Document) returns (ok: bool)
    ensures ok == d.Valid()
  {
    if d.version != FORMAT_VERSION || |d.id| != VAULT_ID_SIZE { return false; }
    if |d.wraps| == 0 || |d.wraps| > MAX_WRAPS { return false; }
    if |d.items| > MAX_ITEMS { return false; }
    ok := CheckWraps(d.wraps);
    if ok { ok := CheckItems(d.items); }
  }

  // ----- the changes that the vault makes to a document -----

  function Without(ws: seq<WrapRecord>, cred: Bytes): seq<WrapRecord> {
    if ws == [] then []
    else
      var rest := Without(ws[..|ws| - 1], cred);
      if ws[|ws| - 1].cred == cred then rest else rest + [ws[|ws| - 1]]
  }

  lemma {:induction false} WithoutMembers(ws: seq<WrapRecord>, cred: Bytes)
    ensures forall w :: w in Without(ws, cred) <==> w in ws && w.cred != cred
  {
    if ws != [] {
      WithoutMembers(ws[..|ws| - 1], cred);
      assert ws == ws[..|ws| - 1] + [ws[|ws| - 1]];
    }
  }

  lemma {:induction false} WithoutDistinct(ws: seq<WrapRecord>, cred: Bytes)
    requires DistinctWraps(ws)
    ensures DistinctWraps(Without(ws, cred))
    ensures |Without(ws, cred)| == |ws| - (if exists w :: w in ws && w.cred == cred then 1 else 0)
  {
    if ws != [] {
      var front, last := ws[..|ws| - 1], ws[|ws| - 1];
      WithoutDistinct(front, cred);
      WithoutMembers(front, cred);
      var rest := Without(front, cred);
      forall i | 0 <= i < |rest| ensures rest[i].cred != last.cred {
        assert rest[i] in rest;
        var j :| 0 <= j < |front| && front[j] == rest[i];
      }
      assert forall w :: w in ws <==> w in front || w == last;
      if last.cred == cred {
        assert last in ws;
        assert forall w :: w in front ==> w.cred != cred by {
          forall w | w in front ensures w.cred != cred {
            var j :| 0 <= j < |front| && front[j] == w;
          }
        }
      }
    }
  }

  /** Where an item with this kind and name stands, or the end of the list. */
  function ItemIndex(its: seq<ItemRecord>, kind: Bytes, name: Bytes): (i: nat)
    ensures i <= |its|
    ensures i < |its| ==> its[i].kind == kind && its[i].name == name
    ensures forall j :: 0 <= j < i ==> its[j].kind != kind || its[j].name != name
  {
    if its == [] then 0
    else if its[0].kind == kind && its[0].name == name then 0
    else
      var i := ItemIndex(its[1..], kind, name);
      assert forall j :: 1 <= j < |its| ==> its[j] == its[1..][j - 1];
      i + 1
  }

  function WithItem(its: seq<ItemRecord>, rec: ItemRecord): seq<ItemRecord> {
    var i := ItemIndex(its, rec.kind, rec.name);
    if i < |its| then its[i := rec] else its + [rec]
  }

  lemma WithItemDistinct(its: seq<ItemRecord>, rec: ItemRecord)
    requires DistinctItems(its)
    ensures DistinctItems(WithItem(its, rec))
    ensures forall x :: x in WithItem(its, rec) <==> x == rec || (x in its && (x.kind != rec.kind || x.name != rec.name))
  {
    var i, out := ItemIndex(its, rec.kind, rec.name), WithItem(its, rec);
    if i < |its| {
      assert out[i] == rec;
      forall x ensures x in out <==> x == rec || (x in its && (x.kind != rec.kind || x.name != rec.name)) {
        if x in out && x != rec { var j :| 0 <= j < |out| && out[j] == x; assert j != i && its[j] == x; }
        if x in its && (x.kind != rec.kind || x.name != rec.name) {
          var j :| 0 <= j < |its| && its[j] == x;
          assert out[j] == x;
        }
      }
    } else {
      assert forall x :: x in its ==> x.kind != rec.kind || x.name != rec.name;
    }
  }

  /** One line of the audit log; of a credential ID only the head. */
  datatype Entry = Entry(event: string, vaultId: Bytes, cred: Bytes, target: Bytes)

  function Head(id: Bytes): Bytes { if |id| > 12 then id[..12] else id }

  /** What a call makes of the document: founding it, a passkey more or less, an item stored. */
  datatype Change =
    | Founding(id: Bytes, wrap: WrapRecord)
    | Adding(authorizer: Bytes, wrap: WrapRecord)
    | Removing(authorizer: Bytes, target: Bytes)
    | Storing(rec: ItemRecord)

  /** What the callers have checked by the time they write; nothing checks the whole document then. */
  predicate Applies(mem: Option<Document>, c: Change) {
    match c
    case Founding(id, w) => mem.None? && |id| == VAULT_ID_SIZE && ValidWrap(w)
    case Adding(_, w) =>
      mem.Some? && ValidWrap(w) && |mem.value.wraps| < MAX_WRAPS && forall x :: x in mem.value.wraps ==> x.cred != w.cred
    case Removing(_, target) =>
      mem.Some? && |mem.value.wraps| > 1 && exists x :: x in mem.value.wraps && x.cred == target
    case Storing(rec) =>
      mem.Some? && ValidItem(rec) &&
      (ItemIndex(mem.value.items, rec.kind, rec.name) < |mem.value.items| || |mem.value.items| < MAX_ITEMS)
  }

  function After(mem: Option<Document>, c: Change): Document
    requires Applies(mem, c)
  {
    match c
    case Founding(id, w) => Document(FORMAT_VERSION, id, [w], [])
    case Adding(_, w) => mem.value.(wraps := mem.value.wraps + [w])
    case Removing(_, target) => mem.value.(wraps := Without(mem.value.wraps, target))
    case Storing(rec) => mem.value.(items := WithItem(mem.value.items, rec))
  }

  /** The entry that is to be in the audit log before the change; storing an item has none. */
  function EntryOf(mem: Option<Document>, c: Change): Option<Entry>
    requires Applies(mem, c)
  {
    match c
    case Founding(id, w) => Some(Entry("init", id, Head(w.cred), ""))
    case Adding(authorizer, w) => Some(Entry("add-wrap", mem.value.id, Head(authorizer), Head(w.cred)))
    case Removing(authorizer, target) => Some(Entry("remove-wrap", mem.value.id, Head(authorizer), Head(target)))
    case Storing(_) => None
  }

  lemma AddingValid(d: Document, w: WrapRecord)
    requires d.Valid() && ValidWrap(w) && |d.wraps| < MAX_WRAPS && forall x :: x in d.wraps ==> x.cred != w.cred
    ensures d.(wraps := d.wraps + [w]).Valid()
  {
    hide ValidWrap, ValidItem, DistinctItems;
    assert forall i :: 0 <= i < |d.wraps| ==> d.wraps[i] in d.wraps;
  }

  lemma RemovingValid(d: Document, target: Bytes)
    requires d.Valid() && |d.wraps| > 1 && exists x :: x in d.wraps && x.cred == target
    ensures d.(wraps := Without(d.wraps, target)).Valid()
  {
    hide ValidWrap, ValidItem, DistinctItems, DistinctWraps, Without;
    WithoutMembers(d.wraps, target);
    WithoutDistinct(d.wraps, target);
    var ws := Without(d.wraps, target);
    forall i | 0 <= i < |ws| ensures ValidWrap(ws[i]) { assert ws[i] in ws; }
  }

  lemma StoringValid(d: Document, rec: ItemRecord)
    requires d.Valid() && ValidItem(rec)
    requires ItemIndex(d.items, rec.kind, rec.name) < |d.items| || |d.items| < MAX_ITEMS
    ensures d.(items := WithItem(d.items, rec)).Valid()
  {
    hide ValidWrap, ValidItem, DistinctItems, DistinctWraps;
    WithItemDistinct(d.items, rec);
    var its := WithItem(d.items, rec);
    forall i | 0 <= i < |its| ensures ValidItem(its[i]) { assert its[i] in its; }
  }

  /** What the callers check is enough: a change of a valid document leaves one that validate accepts. */
  lemma AfterValid(mem: Option<Document>, c: Change)
    requires (mem.Some? ==> mem.value.Valid()) && Applies(mem, c)
    ensures After(mem, c).Valid()
  {
    hide ValidWrap, ValidItem, Without, WithItem;
    match c
    case Founding(_, _) =>
    case Adding(_, w) => AddingValid(mem.value, w);
    case Removing(_, target) => RemovingValid(mem.value, target);
    case Storing(rec) => StoringValid(mem.value, rec);
  }
}
