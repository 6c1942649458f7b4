/**
  vault/crypto.go with symbolic primitives: a derived key and a sealed text are terms, so that a
  text opens exactly under the key, nonce and additional data it was sealed with. What the
  source adds to the primitives, the two encodings that bind a text to its place, is spelled
  out byte by byte. A char stands for a byte.
 */
module VaultCrypto {
  import opened Wrappers

  type Bytes = string

  const PRF_SIZE := 32
  const SALT_SIZE := 32
  const KEY_SIZE := 32
  const VAULT_ID_SIZE := 16
  const ITEM_RND_SIZE := 16
  const NONCE_SIZE := 12
  const FORMAT_VERSION := 1

  const INFO_WRAP := "goronation/vault/wrap/v1\0"
  const INFO_ITEM := "goronation/vault/item/v1\0"
  const AAD_WRAP := "goronation/vault/wrap-aad/v1"
  const AAD_ITEM := "goronation/vault/item-aad/v1"
  const ZERO_NONCE := "\0\0\0\0\0\0\0\0\0\0\0\0"
  const TWO32 := 0x1_0000_0000

  // ----- the additional data -----

  function ByteOf(n: nat): char { (n % 256) as char }

  /** The low 32 bits of n, most significant byte first. */
  function Be32(n: nat): (r: Bytes)
    ensures |r| == 4
  {
    [ByteOf(n / 0x100_0000), ByteOf(n / 0x1_0000), ByteOf(n / 0x100), ByteOf(n)]
  }

  function FromBe32(b: Bytes): nat
    requires |b| == 4
  {
    (b[0] as nat) * 0x100_0000 + (b[1] as nat) * 0x1_0000 + (b[2] as nat) * 0x100 + b[3] as nat
  }

  lemma Be32RoundTrip(n: nat)
    ensures FromBe32(Be32(n)) == n % TWO32
  {
    var a, b, c := n / 0x100, n / 0x1_0000, n / 0x100_0000;
    assert n == 0x100 * a + n % 0x100;
    assert a == 0x100 * b + a % 0x100 by { assert b == a / 0x100; }
    assert b == 0x100 * c + b % 0x100 by { assert c == b / 0x100; }
    var low := c % 0x100 * 0x100_0000 + b % 0x100 * 0x1_0000 + a % 0x100 * 0x100 + n % 0x100;
    assert n == c / 0x100 * TWO32 + low;
  }

  /** Every part after its length. */
  function Aad(parts: seq<Bytes>): Bytes {
    if parts == [] then [] else Be32(|parts[0]|) + parts[0] + Aad(parts[1..])
  }

  method BuildAad(parts: seq<Bytes>) returns (out: Bytes)
    ensures out == Aad(parts)
  {
    out := [];
    for i := 0 to |parts|
      invariant out + Aad(parts[i..]) == Aad(parts)
    {
      assert parts[i..][1..] == parts[i + 1..];
      out := out + Be32(|parts[i]|);
      out := out + parts[i];
    }
    assert parts[|parts|..] == [];
  }

  /** The first part and what follows it. */
  function ReadPart(s: Bytes): (r: Option<(Bytes, Bytes)>)
    ensures r.Some? ==> |r.value.1| < |s|
  {
    if |s| < 4 then None
    else
      var n := FromBe32(s[..4]);
      if |s| < 4 + n then None else Some((s[4..4 + n], s[4 + n..]))
  }

  /** Reads the parts back from the front. */
  function ReadAad(s: Bytes): Option<seq<Bytes>>
    decreases |s|
  {
    if s == [] then Some([])
    else if ReadPart(s).None? then None
    else
      var (p, s') := ReadPart(s).value;
      var rest := ReadAad(s');
      if rest.None? then None else Some([p] + rest.value)
  }

  predicate Short(parts: seq<Bytes>) { forall i :: 0 <= i < |parts| ==> |parts[i]| < TWO32 }

  lemma {:induction false} AadRoundTrip(parts: seq<Bytes>)
    requires Short(parts)
    ensures ReadAad(Aad(parts)) == Some(parts)
  {
    hide Be32, ReadPart;
    if parts != [] {
      AadRoundTrip(parts[1..]);
      ReadFirst(parts[0], Aad(parts[1..]));
      assert parts == [parts[0]] + parts[1..];
    }
  }

  lemma ReadFirst(p: Bytes, rest: Bytes)
    requires |p| < TWO32
    ensures ReadPart(Be32(|p|) + p + rest) == Some((p, rest))
  {
    hide FromBe32, Be32;
    var s := Be32(|p|) + p + rest;
    Be32RoundTrip(|p|);
    assert s[..4] == Be32(|p|) && s[4..4 + |p|] == p && s[4 + |p|..] == rest;
  }

  /** No two lists of parts have the same additional data, as long as each length fits its four bytes. */
  lemma AadInjective(p: seq<Bytes>, q: seq<Bytes>)
    requires Short(p) && Short(q) && Aad(p) == Aad(q)
    ensures p == q
  {
    AadRoundTrip(p);
    AadRoundTrip(q);
  }

  function Zeros(n: nat): Bytes { seq(n, _ => '\0') }

  function Empties(n: nat): seq<Bytes> { seq(n, _ => []) }

  lemma {:induction false} AadOfEmpties(n: nat)
    ensures Aad(Empties(n)) == Zeros(4 * n)
  {
    if n > 0 {
      AadOfEmpties(n - 1);
      assert Empties(n)[1..] == Empties(n - 1);
      assert Be32(0) == Zeros(4);
    }
  }

  /** A part of 2^32 bytes is where it ends: its length is cut to zero and its text reads as empty parts. */
  lemma AadAmbiguousWhenLong()
    ensures var p, q := [Zeros(TWO32)], Empties(TWO32 / 4 + 1); p != q && Aad(p) == Aad(q)
  {
    var p, q := [Zeros(TWO32)], Empties(TWO32 / 4 + 1);
    AadOfEmpties(TWO32 / 4 + 1);
    assert p[1..] == [];
    assert Be32(TWO32) == Zeros(4);
    assert |p| == 1 && |q| != 1;
  }

  // ----- the primitives, as terms -----

  /** HKDF (RFC 5869): a key is what it was derived from. */
  datatype Derived = Derived(secret: Bytes, salt: Bytes, info: Bytes)

  /** An AEAD ciphertext, or bytes that are none. */
  datatype Cipher = Sealed(key: Derived, nonce: Bytes, plaintext: Bytes, aad: Bytes) | Foreign(bytes: Bytes)

  function OpenSealed(key: Derived, nonce: Bytes, ct: Cipher, aad: Bytes): Option<Bytes> {
    if ct.Sealed? && ct.key == key && ct.nonce == nonce && ct.aad == aad then Some(ct.plaintext) else None
  }

  // ----- wraps of the body key -----

  function WrapKey(prf: Bytes, vaultId: Bytes, cred: Bytes): Derived { Derived(prf, vaultId, INFO_WRAP + cred) }

  function WrapAad(vaultId: Bytes, cred: Bytes, salt: Bytes): Bytes {
    Aad([AAD_WRAP, vaultId, cred, salt, [ByteOf(FORMAT_VERSION)]])
  }

  function WrapBodyKey(bodyKey: Bytes, prf: Bytes, vaultId: Bytes, cred: Bytes, salt: Bytes, nonce: Bytes): Cipher {
    Sealed(WrapKey(prf, vaultId, cred), nonce, bodyKey, WrapAad(vaultId, cred, salt))
  }

  function UnwrapBodyKey(prf: Bytes, vaultId: Bytes, cred: Bytes, salt: Bytes, nonce: Bytes, ct: Cipher): Option<Bytes> {
    if |nonce| != NONCE_SIZE then None
    else
      var bk := OpenSealed(WrapKey(prf, vaultId, cred), nonce, ct, WrapAad(vaultId, cred, salt));
      if bk.Some? && |bk.value| == KEY_SIZE then bk else None
  }

  /** A wrap opens for exactly the PRF output, vault, credential, salt and nonce it was made with. */
  lemma UnwrapIff(bk: Bytes, prf: Bytes, id: Bytes, cred: Bytes, salt: Bytes, nonce: Bytes,
                  prf': Bytes, id': Bytes, cred': Bytes, salt': Bytes, nonce': Bytes)
    requires |bk| == KEY_SIZE && |nonce| == NONCE_SIZE
    requires |id| < TWO32 && |cred| < TWO32 && |salt| < TWO32 && |id'| < TWO32 && |cred'| < TWO32 && |salt'| < TWO32
    ensures var r := UnwrapBodyKey(prf', id', cred', salt', nonce', WrapBodyKey(bk, prf, id, cred, salt, nonce));
      r == if prf == prf' && id == id' && cred == cred' && salt == salt' && nonce == nonce' then Some(bk) else None
  {
    var a, b := [AAD_WRAP, id, cred, salt, [ByteOf(FORMAT_VERSION)]], [AAD_WRAP, id', cred', salt', [ByteOf(FORMAT_VERSION)]];
    assert Short(a) && Short(b);
    if Aad(a) == Aad(b) {
      AadInjective(a, b);
      assert a[1] == b[1] && a[2] == b[2] && a[3] == b[3];
    }
  }

  // ----- items -----

  predicate NulFree(s: Bytes) { forall i :: 0 <= i < |s| ==> s[i] != '\0' }

  function ItemInfo(kind: Bytes, name: Bytes, rnd: Bytes): Bytes {
    INFO_ITEM + kind + "\0" + name + "\0" + rnd
  }

  /** A text without NUL ends at the first NUL. */
  lemma FirstNul(a: Bytes, rest: Bytes, b: Bytes, rest': Bytes)
    requires NulFree(a) && NulFree(b) && a + "\0" + rest == b + "\0" + rest'
    ensures a == b && rest == rest'
  {
    var s, t := a + "\0" + rest, b + "\0" + rest';
    assert s[|a|] == '\0' && t[|b|] == '\0';
    assert forall i :: 0 <= i < |a| ==> s[i] == a[i];
    assert forall i :: 0 <= i < |b| ==> t[i] == b[i];
    assert |a| == |b|;
    assert a == s[..|a|] && b == t[..|b|];
    assert rest == s[|a| + 1..] && rest' == t[|b| + 1..];
  }

  lemma ItemInfoInjective(kind: Bytes, name: Bytes, rnd: Bytes, kind': Bytes, name': Bytes, rnd': Bytes)
    requires NulFree(kind) && NulFree(name) && NulFree(kind') && NulFree(name')
    requires ItemInfo(kind, name, rnd) == ItemInfo(kind', name', rnd')
    ensures kind == kind' && name == name' && rnd == rnd'
  {
    var n := |INFO_ITEM|;
    var s, t := kind + "\0" + (name + "\0" + rnd), kind' + "\0" + (name' + "\0" + rnd');
    assert ItemInfo(kind, name, rnd) == INFO_ITEM + s && ItemInfo(kind', name', rnd') == INFO_ITEM + t;
    assert s == (INFO_ITEM + s)[n..] && t == (INFO_ITEM + t)[n..];
    FirstNul(kind, name + "\0" + rnd, kind', name' + "\0" + rnd');
    FirstNul(name, rnd, name', rnd');
  }

  function ItemKey(bodyKey: Bytes, vaultId: Bytes, kind: Bytes, name: Bytes, rnd: Bytes): Derived {
    Derived(bodyKey, vaultId, ItemInfo(kind, name, rnd))
  }

  function ItemAad(vaultId: Bytes, kind: Bytes, name: Bytes): Bytes {
    Aad([AAD_ITEM, vaultId, kind, name, [ByteOf(FORMAT_VERSION)]])
  }

  function SealItem(bodyKey: Bytes, vaultId: Bytes, kind: Bytes, name: Bytes, rnd: Bytes, plaintext: Bytes): Cipher {
    Sealed(ItemKey(bodyKey, vaultId, kind, name, rnd), ZERO_NONCE, plaintext, ItemAad(vaultId, kind, name))
  }

  function OpenItem(bodyKey: Bytes, vaultId: Bytes, kind: Bytes, name: Bytes, rnd: Bytes, ct: Cipher): Option<Bytes> {
    if |rnd| != ITEM_RND_SIZE then None
    else OpenSealed(ItemKey(bodyKey, vaultId, kind, name, rnd), ZERO_NONCE, ct, ItemAad(vaultId, kind, name))
  }

  /** An item opens under exactly the body key, vault, kind, name and random bytes it was sealed with. */
  lemma OpenItemIff(bk: Bytes, id: Bytes, kind: Bytes, name: Bytes, rnd: Bytes, plaintext: Bytes,
                    bk': Bytes, id': Bytes, kind': Bytes, name': Bytes, rnd': Bytes)
    requires |rnd| == ITEM_RND_SIZE
    requires NulFree(kind) && NulFree(name) && NulFree(kind') && NulFree(name')
    ensures var r := OpenItem(bk', id', kind', name', rnd', SealItem(bk, id, kind, name, rnd, plaintext));
      r == if bk == bk' && id == id' && kind == kind' && name == name' && rnd == rnd' then Some(plaintext) else None
  {
    if ItemInfo(kind, name, rnd) == ItemInfo(kind', name', rnd') {
      ItemInfoInjective(kind, name, rnd, kind', name', rnd');
    }
  }

  /** Two writes with different random bytes never use the same key, so the fixed nonce is never used twice with one. */
  lemma FreshKeyPerWrite(bk: Bytes, id: Bytes, kind: Bytes, name: Bytes, rnd: Bytes,
                         id': Bytes, kind': Bytes, name': Bytes, rnd': Bytes)
    requires NulFree(kind) && NulFree(name) && NulFree(kind') && NulFree(name')
    ensures ItemKey(bk, id, kind, name, rnd) == ItemKey(bk, id', kind', name', rnd') <==>
      id == id' && kind == kind' && name == name' && rnd == rnd'
  {
    if ItemInfo(kind, name, rnd) == ItemInfo(kind', name', rnd') {
      ItemInfoInjective(kind, name, rnd, kind', name', rnd');
    }
  }

  /** A wrap key is never an item key: the purposes differ. */
  lemma PurposesDiffer(prf: Bytes, id: Bytes, cred: Bytes, bk: Bytes, id': Bytes, kind: Bytes, name: Bytes, rnd: Bytes)
    ensures WrapKey(prf, id, cred) != ItemKey(bk, id', kind, name, rnd)
  {
    assert (INFO_WRAP + cred)[17] == 'w' && ItemInfo(kind, name, rnd)[17] == 'i';
  }
}
