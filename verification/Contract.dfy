/** sandbox/contract: which host paths may be shown in a cage, and where. */
module Contract {
  import opened Strings

  // ----- paths -----

  predicate Control(c: char) { c < ' ' || c == '\U{7f}' }

  /** A path that filepath.Clean leaves as it is, absolute and without control characters. */
  predicate CleanPath(p: string) {
    && p != "" && p[0] == '/'
    && (forall i :: 0 <= i < |p| ==> !Control(p[i]))
    && (p == "/" || forall seg :: seg in Split(p[1..], '/') ==> seg != "" && seg != "." && seg != "..")
  }

  predicate Below(p: string, root: string) { Starts(p, root + "/") }

  predicate Under(p: string, root: string) { root == "/" || p == root || Below(p, root) }

  predicate Overlap(a: string, b: string) { Under(a, b) || Under(b, a) }

  lemma BelowTrans(a: string, b: string, c: string)
    requires Below(a, b) && Below(b, c)
    ensures Below(a, c)
  {
    StartsTrans(b + "/", b, c + "/");
    StartsTrans(a, b + "/", c + "/");
  }

  lemma BelowLonger(a: string, b: string)
    requires Below(a, b)
    ensures |a| > |b|
  {
  }

  /** Two paths at or above the same path are comparable. */
  lemma Comparable(q: string, a: string, b: string)
    requires Under(q, a) && Under(q, b)
    ensures Overlap(a, b)
  {
    if a != "/" && b != "/" && q != a && q != b {
      if |a| < |b| {
        assert b == q[..|b|] by { assert q[..|b| + 1][..|b|] == b; }
        assert b[..|a| + 1] == q[..|a| + 1];
      } else if |b| < |a| {
        assert a == q[..|a|] by { assert q[..|a| + 1][..|a|] == a; }
        assert a[..|b| + 1] == q[..|b| + 1];
      } else {
        assert a == q[..|a| + 1][..|a|] && b == q[..|b| + 1][..|b|];
      }
    }
  }

  predicate OneName(p: string) { forall k :: 1 <= k < |p| ==> p[k] != '/' }

  /** A path with one name has nothing above it but the root. */
  lemma ShortRoot(p: string, g: string)
    requires OneName(p) && g != "" && g != "/"
    ensures Under(p, g) ==> p == g
  {
    if Below(p, g) { SlashAfter(p, g); }
  }

  lemma SlashAfter(p: string, g: string)
    requires Below(p, g)
    ensures |g| < |p| && p[|g|] == '/'
  {
    assert p[|g|] == p[..|g| + 1][|g|];
  }

  // ----- sources -----

  datatype Host = Host(home: string, secrets: seq<string>)
  {
    predicate Ok() { CleanPath(home) && home != "/" && forall s :: s in secrets ==> CleanPath(s) }
  }

  datatype Policy = Policy(
    protectedTrees: seq<string>, wholeDenied: seq<string>, readOnlyTrees: seq<string>,
    guestReserved: seq<string>, systemPaths: seq<string>, systemLinks: seq<string>)

  const LINUX := Policy(
    ["/root", "/home", "/run", "/var/run", "/proc", "/sys", "/dev", "/boot",
     "/etc/shadow", "/etc/gshadow", "/etc/ssh", "/etc/sudoers", "/etc/sudoers.d", "/etc/ssl/private",
     "/var/lib/docker", "/var/lib/containerd"],
    ["/tmp", "/var/tmp"],
    ["/usr", "/bin", "/sbin", "/lib", "/lib32", "/lib64", "/libx32", "/opt", "/etc", "/var"],
    ["/proc", "/dev"], ["/usr"], ["/lib", "/lib64", "/bin", "/sbin"])

  const HOME_SECRETS: seq<string> := [
    ".ssh", ".aws", ".azure", ".kube", ".docker",
    ".netrc", ".git-credentials", ".npmrc", ".pypirc", ".password-store", ".codex", ".copilot", ".commandcode",
    ".config/gh", ".config/git", ".config/gcloud", ".config/op", ".local/share/keyrings",
    ".local/share/opencode", ".config/opencode"]

  datatype Mount = Mount(hostPath: string, guestPath: string, inHome: bool)
  {
    function Guest(): string { if guestPath != "" then guestPath else hostPath }
  }

  datatype Rules = Rules(host: Host, policy: Policy, pathRemap: bool)

  function FirstName(rel: string): string { rel[..IndexOf(rel, '/')] }

  predicate SecretName(name: string) { Starts(name, ".claude") || Starts(name, ".gnupg") }

  predicate IsHomeSecret(rel: string) {
    SecretName(FirstName(rel)) || exists s :: s in HOME_SECRETS && Overlap(rel, s)
  }

  /** What follows HOME and its slash. */
  function Rel(src: string, home: string): string { if Starts(src, home + "/") then src[|home| + 1..] else src }

  /** checkSource: src may be shown. trees are the resolved forms of refused paths. */
  predicate SourceOk(r: Rules, inHome: bool, src: string, write: bool, lexical: bool, trees: seq<string>) {
    && CleanPath(src) && !Under(r.host.home, src)
    && (if Under(src, r.host.home) then !IsHomeSecret(Rel(src, r.host.home)) && inHome
        else
          && !(lexical && inHome)
          && (forall p :: p in r.policy.protectedTrees ==> !Overlap(src, p))
          && src !in r.policy.wholeDenied)
    && (forall s :: s in r.host.secrets ==> !Overlap(src, s))
    && (forall t :: t in trees ==> !Overlap(src, t))
    && (write ==> forall p :: p in r.policy.readOnlyTrees ==> !Under(src, p))
  }

  /** A path below HOME whose first name is one of the agent's or of gnupg, or that is at or below a listed secret. */
  ghost predicate InHomeSecret(home: string, q: string) {
    Below(q, home) && (SecretName(FirstName(Rel(q, home))) || exists s :: s in HOME_SECRETS && Under(Rel(q, home), s))
  }

  lemma RelUnder(q: string, src: string, home: string)
    requires Under(q, src) && Below(src, home) && src != "/"
    ensures Below(q, home) && Under(Rel(q, home), Rel(src, home))
    ensures FirstName(Rel(q, home)) == FirstName(Rel(src, home))
  {
    var n := |home| + 1;
    if q != src {
      BelowTrans(q, src, home);
      var a, b := Rel(q, home), Rel(src, home);
      assert q[..|src| + 1] == src + "/";
      assert b + "/" == (src + "/")[n..] == q[..|src| + 1][n..];
      assert a[..|b| + 1] == b + "/";
      assert Below(a, b);
      SameFirst(a, b);
    }
  }

  lemma SameFirst(a: string, b: string)
    requires Below(a, b)
    ensures FirstName(a) == FirstName(b)
  {
    var i := IndexOf(b, '/');
    assert a[..|b| + 1] == b + "/";
    var first := b[..i];
    assert (b + "/")[i] == '/';
    assert a[..i] == a[..|b| + 1][..i] == first && a[i] == a[..|b| + 1][i];
    assert a == first + ['/'] + a[i + 1..];
    IndexOfUnique(first, '/', a[i + 1..]);
  }

  /**
    Whatever lies at or below an accepted source is not a secret: not of HOME, not of the host,
    not one that a refused path resolves to, and for a source outside HOME not in a protected tree.
   */
  lemma NoSecretShown(r: Rules, inHome: bool, src: string, write: bool, lexical: bool, trees: seq<string>, q: string)
    requires r.host.Ok() && SourceOk(r, inHome, src, write, lexical, trees) && Under(q, src)
    ensures !InHomeSecret(r.host.home, q) && q != r.host.home
    ensures forall s :: s in r.host.secrets || s in trees ==> !Under(q, s)
    ensures !Under(src, r.host.home) ==> forall p :: p in r.policy.protectedTrees ==> !Under(q, p)
  {
    hide CleanPath, IsHomeSecret, SecretName, Below;
    forall s | s in r.host.secrets || s in trees ensures !Under(q, s) {
      if Under(q, s) { Comparable(q, src, s); }
    }
    if !Under(src, r.host.home) {
      forall p | p in r.policy.protectedTrees ensures !Under(q, p) {
        if Under(q, p) { Comparable(q, src, p); }
      }
    }
    NotHomeSecret(r, inHome, src, write, lexical, trees, q);
  }

  lemma NotHomeSecret(r: Rules, inHome: bool, src: string, write: bool, lexical: bool, trees: seq<string>, q: string)
    requires r.host.Ok() && SourceOk(r, inHome, src, write, lexical, trees) && Under(q, src)
    ensures !InHomeSecret(r.host.home, q)
  {
    hide CleanPath, SecretName, Below, Starts, FirstName;
    var home := r.host.home;
    if Below(q, home) {
      Comparable(q, src, home);
      assert Below(src, home) && src != "/";
      RelUnder(q, src, home);
      forall s | s in HOME_SECRETS ensures !Under(Rel(q, home), s) {
        if Under(Rel(q, home), s) { Comparable(Rel(q, home), Rel(src, home), s); }
      }
    }
  }

  // ----- a whole specification -----

  /** The part of a specification that says what is mounted where. */
  datatype Spec = Spec(system: bool, read: seq<Mount>, write: seq<Mount>, scratch: seq<string>)

  function Guests(ms: seq<Mount>): seq<string> { seq(|ms|, i requires 0 <= i < |ms| => ms[i].Guest()) }

  function SystemBinds(r: Rules, s: Spec): seq<string> { if s.system then r.policy.systemPaths else [] }

  function SystemLinks(r: Rules, s: Spec): seq<string> { if s.system then r.policy.systemLinks else [] }

  function MountGuests(s: Spec): seq<string> { Guests(s.read) + Guests(s.write) }

  /** Every path in the cage that something is put at, in the order in which they are claimed. */
  function Claims(r: Rules, s: Spec): seq<string> {
    SystemBinds(r, s) + SystemLinks(r, s) + MountGuests(s) + s.scratch
  }

  predicate GuestOk(r: Rules, g: string) {
    CleanPath(g) && g != "/" && forall p :: p in r.policy.guestReserved ==> !Under(g, p)
  }

  predicate Distinct(ps: seq<string>) { forall i, j :: 0 <= i < j < |ps| ==> ps[i] != ps[j] }

  predicate MountOk(r: Rules, m: Mount, write: bool) {
    && CleanPath(m.hostPath) && (m.guestPath == "" || m.guestPath == m.hostPath || r.pathRemap)
    && SourceOk(r, m.inHome, m.hostPath, write, true, [])
  }

  predicate ScratchOk(r: Rules, s: Spec, p: string) {
    r.pathRemap && forall g :: g in MountGuests(s) + SystemBinds(r, s) ==> p == g || !Under(p, g)
  }

  predicate Valid(r: Rules, s: Spec) {
    && r.host.Ok()
    && (forall g :: g in Claims(r, s) ==> GuestOk(r, g)) && Distinct(Claims(r, s))
    && (forall m :: m in s.read ==> MountOk(r, m, false))
    && (forall m :: m in s.write ==> MountOk(r, m, true))
    && (forall p :: p in s.scratch ==> ScratchOk(r, s, p))
    && (forall g, l :: g in Claims(r, s) && l in SystemLinks(r, s) ==> g == l || !Under(g, l))
  }

  /** Claims the paths one by one; the set is what the source keeps as the map of owners. */
  method ClaimAll(r: Rules, guests: set<string>, ps: seq<string>) returns (ok: bool, after: set<string>)
    ensures ok <==> (forall p :: p in ps ==> GuestOk(r, p) && p !in guests) && Distinct(ps)
    ensures ok ==> after == guests + set p | p in ps
  {
    hide GuestOk;
    after := guests;
    for i := 0 to |ps|
      invariant after == guests + set p | p in ps[..i]
      invariant (forall j :: 0 <= j < i ==> GuestOk(r, ps[j]) && ps[j] !in guests) && Distinct(ps[..i])
    {
      if !GuestOk(r, ps[i]) || ps[i] in after {
        if ps[i] in after && ps[i] !in guests {
          var j :| 0 <= j < i && ps[..i][j] == ps[i];
          assert ps[j] == ps[i];
        }
        return false, after;
      }
      assert ps[..i + 1] == ps[..i] + [ps[i]];
      after := after + {ps[i]};
    }
    assert ps[..|ps|] == ps;
    return true, after;
  }

  /** Claims the guest of each mount and checks its source. */
  method ClaimMounts(r: Rules, guests: set<string>, ms: seq<Mount>, write: bool) returns (ok: bool, after: set<string>)
    ensures ok <==>
      && (forall m :: m in ms ==> MountOk(r, m, write))
      && (forall p :: p in Guests(ms) ==> GuestOk(r, p) && p !in guests) && Distinct(Guests(ms))
    ensures ok ==> after == guests + set p | p in Guests(ms)
  {
    hide GuestOk, MountOk;
    after := guests;
    ghost var gs := Guests(ms);
    for i := 0 to |ms|
      invariant after == guests + set p | p in gs[..i]
      invariant forall j :: 0 <= j < i ==> MountOk(r, ms[j], write)
      invariant (forall j :: 0 <= j < i ==> GuestOk(r, gs[j]) && gs[j] !in guests) && Distinct(gs[..i])
    {
      if !MountOk(r, ms[i], write) { return false, after; }
      var g := ms[i].Guest();
      assert gs[i] == g;
      if !GuestOk(r, g) || g in after {
        if g in after && g !in guests {
          ghost var j :| 0 <= j < i && gs[..i][j] == g;
          assert gs[j] == gs[i];
        }
        return false, after;
      }
      assert gs[..i + 1] == gs[..i] + [g];
      after := after + {g};
    }
    assert gs[..|gs|] == gs;
    return true, after;
  }

  /** Two lists claimed one after the other are claimed as one. */
  lemma ClaimsJoin(a: seq<string>, b: seq<string>)
    ensures Distinct(a + b) <==> Distinct(a) && Distinct(b) && forall x :: x in b ==> x !in a
  {
    var all := a + b;
    assert forall i :: 0 <= i < |a| ==> all[i] == a[i];
    assert forall i :: 0 <= i < |b| ==> all[|a| + i] == b[i];
    if Distinct(all) {
      forall x | x in b ensures x !in a {
        var j :| 0 <= j < |b| && b[j] == x;
        forall i | 0 <= i < |a| ensures a[i] != x { assert all[i] != all[|a| + j]; }
      }
      forall i, j | 0 <= i < j < |b| ensures b[i] != b[j] { assert all[|a| + i] != all[|a| + j]; }
    } else {
      var i, j :| 0 <= i < j < |all| && all[i] == all[j];
      if i >= |a| { assert b[i - |a|] == b[j - |a|]; } else if j >= |a| { assert b[j - |a|] in b; }
    }
  }

  predicate MountsOk(r: Rules, s: Spec) {
    (forall m :: m in s.read ==> MountOk(r, m, false)) && (forall m :: m in s.write ==> MountOk(r, m, true))
  }

  /** The claims of two lists, the second after the first. */
  ghost predicate Claimable(r: Rules, ps: seq<string>) { (forall p :: p in ps ==> GuestOk(r, p)) && Distinct(ps) }

  lemma ClaimableJoin(r: Rules, a: seq<string>, b: seq<string>)
    ensures Claimable(r, a + b) <==> Claimable(r, a) && Claimable(r, b) && forall x :: x in b ==> x !in a
  {
    hide GuestOk, Distinct;
    ClaimsJoin(a, b);
    assert forall x :: x in a + b <==> x in a || x in b;
  }

  /** Claim by claim, in the order of the source. */
  method ClaimSpec(r: Rules, s: Spec) returns (ok: bool, guests: set<string>)
    ensures ok <==> Claimable(r, Claims(r, s)) && MountsOk(r, s)
    ensures ok ==> guests == set g | g in Claims(r, s)
  {
    hide GuestOk, MountOk, Distinct, SystemBinds, SystemLinks, Guests;
    var a, b, c, d, e := SystemBinds(r, s), SystemLinks(r, s), Guests(s.read), Guests(s.write), s.scratch;
    assert Claims(r, s) == a + b + c + d + e;
    ClaimableJoin(r, a, b);
    ClaimableJoin(r, a + b, c);
    ClaimableJoin(r, a + b + c, d);
    ClaimableJoin(r, a + b + c + d, e);
    guests := {};
    ok, guests := ClaimAll(r, guests, a);
    if !ok { return; }
    ok, guests := ClaimAll(r, guests, b);
    if !ok { return; }
    ok, guests := ClaimMounts(r, guests, s.read, false);
    if !ok { return; }
    ok, guests := ClaimMounts(r, guests, s.write, true);
    if !ok { return; }
    ok, guests := ClaimAll(r, guests, e);
  }

  /** Validate: the claims and sources, then what hides a scratch directory, then what lies under a link. */
  method Validate(r: Rules, s: Spec) returns (ok: bool)
    ensures ok == Valid(r, s)
  {
    hide GuestOk, MountOk, ScratchOk, CleanPath, Distinct, Claims, Under, SystemLinks;
    if !r.host.Ok() { return false; }
    var guests;
    ok, guests := ClaimSpec(r, s);
    if !ok { return; }
    var links := SystemLinks(r, s);
    if exists p :: p in s.scratch && !ScratchOk(r, s, p) { return false; }
    if exists g :: g in guests && exists l :: l in links && g != l && Under(g, l) { return false; }
    forall g, l | g in Claims(r, s) && l in SystemLinks(r, s) ensures g == l || !Under(g, l) {
      assert g in guests && l in links;
    }
  }
}
