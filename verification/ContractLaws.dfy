/**
  The contract on Linux, path by path: what may be shown, what may be written, and where things may
  be put, in plain names.
 */
module ContractLaws {
  import opened Strings
  import opened Contract

  /** The path is the root's own or begins with the root and a slash. */
  predicate In(p: string, root: string) { root == "/" || p == root || root + "/" <= p }

  /** One of the two lies in the other. */
  predicate Touches(a: string, b: string) { In(a, b) || In(b, a) }

  lemma InIs(p: string, root: string)
    ensures Under(p, root) <==> In(p, root)
    ensures Overlap(p, root) <==> Touches(p, root)
  {
  }

  /** A name in a path: not empty, no dots alone, no slash and nothing invisible. */
  predicate Name(s: string) {
    s != "" && s != "." && s != ".." && forall c :: c in s ==> c != '/' && ' ' <= c && c != '\U{7f}'
  }

  /** A clean path is the root, or a slash and names with slashes between them. */
  lemma CleanTells(p: string)
    ensures CleanPath(p) <==>
      p == "/" || exists names :: names != [] && (forall n :: n in names ==> Name(n)) && p == "/" + Join(names, "/")
  {
    hide Split, Join;
    if p != "/" {
      if CleanPath(p) {
        var names := Split(p[1..], '/');
        JoinSplit(p[1..], '/');
        assert p == "/" + p[1..];
        forall n | n in names ensures Name(n) { PartOf(p, names, n); }
      }
      if names :| names != [] && (forall n :: n in names ==> Name(n)) && p == "/" + Join(names, "/") {
        assert p[1..] == Join(names, "/");
        SplitJoin(names, '/');
        Visible(names);
      }
    }
  }

  lemma PartOf(p: string, names: seq<string>, n: string)
    requires p != "" && (forall i :: 0 <= i < |p| ==> !Control(p[i])) && Join(names, "/") == p[1..] && n in names
    requires n != "" && n != "." && n != ".." && '/' !in n
    ensures Name(n)
  {
    forall c | c in n ensures !Control(c) {
      InJoin(names, n, c);
      var i :| 0 <= i < |p[1..]| && p[1..][i] == c;
      assert p[i + 1] == c;
    }
  }

  lemma {:induction false} InJoin(names: seq<string>, n: string, c: char)
    requires n in names && c in n
    ensures c in Join(names, "/")
  {
    if |names| > 1 {
      assert names == [names[0]] + names[1..];
      if n != names[0] { InJoin(names[1..], n, c); }
    } else {
      assert n == names[0];
    }
  }

  lemma {:induction false} Visible(names: seq<string>)
    requires forall n :: n in names ==> Name(n)
    ensures forall c :: c in Join(names, "/") ==> !Control(c)
  {
    if |names| > 1 {
      assert names == [names[0]] + names[1..];
      Visible(names[1..]);
      forall c | c in Join(names, "/") ensures !Control(c) {
        assert c in names[0] || c == '/' || c in Join(names[1..], "/");
        assert names[0] in names;
      }
    } else if |names| == 1 {
      assert names[0] in names;
    }
  }

  // ----- sources -----

  /** What never is shown from outside HOME, and nothing that holds it. */
  predicate Protected(p: string) {
    p in {"/root", "/home", "/run", "/var/run", "/proc", "/sys", "/dev", "/boot",
          "/etc/shadow", "/etc/gshadow", "/etc/ssh", "/etc/sudoers", "/etc/sudoers.d", "/etc/ssl/private",
          "/var/lib/docker", "/var/lib/containerd"}
  }

  /** What can only be shown to be read. */
  predicate OfTheSystem(p: string) {
    p in {"/usr", "/bin", "/sbin", "/lib", "/lib32", "/lib64", "/libx32", "/opt", "/etc", "/var"}
  }

  /** What never is shown of HOME: the login states and keys of the tools, and all that begins like the agent's or gnupg's own. */
  predicate SecretOfHome(rel: string) {
    || ".claude" <= rel || ".gnupg" <= rel
    || exists s :: s in {".ssh", ".aws", ".azure", ".kube", ".docker",
                         ".netrc", ".git-credentials", ".npmrc", ".pypirc", ".password-store", ".codex", ".copilot", ".commandcode",
                         ".config/gh", ".config/git", ".config/gcloud", ".config/op", ".local/share/keyrings",
                         ".local/share/opencode", ".config/opencode"} && Touches(rel, s)
  }

  lemma FirstNameTells(rel: string, front: string)
    requires '/' !in front
    ensures Starts(FirstName(rel), front) <==> front <= rel
  {
    var i := IndexOf(rel, '/');
    assert front <= rel && |front| <= i ==> rel[..i][..|front|] == front;
    assert Starts(FirstName(rel), front) ==> rel[..|front|] == rel[..i][..|front|];
  }

  lemma HomeSecretsTell(rel: string)
    ensures IsHomeSecret(rel) <==> SecretOfHome(rel)
  {
    hide Overlap, Touches, FirstName;
    FirstNameTells(rel, ".claude");
    FirstNameTells(rel, ".gnupg");
    forall s ensures Overlap(rel, s) <==> Touches(rel, s) { InIs(rel, s); }
  }

  lemma ProtectedAre()
    ensures forall p :: p in LINUX.protectedTrees <==> Protected(p)
    ensures forall p :: p in LINUX.readOnlyTrees <==> OfTheSystem(p)
    ensures forall p :: p in LINUX.wholeDenied <==> p in {"/tmp", "/var/tmp"}
    ensures forall p :: p in LINUX.guestReserved <==> p in {"/proc", "/dev"}
    ensures LINUX.systemPaths == ["/usr"] && LINUX.systemLinks == ["/lib", "/lib64", "/bin", "/sbin"]
  {
    TreesAre();
    assert forall p :: p in LINUX.readOnlyTrees <==> OfTheSystem(p) by { hide Protected; }
  }

  lemma TreesAre()
    ensures forall p :: p in LINUX.protectedTrees <==> Protected(p)
  {
  }

  /** Exactly which paths of the host may be shown, and which of them to be written. */
  lemma SourceTells(r: Rules, inHome: bool, src: string, write: bool, lexical: bool, trees: seq<string>)
    requires r.policy == LINUX
    ensures SourceOk(r, inHome, src, write, lexical, trees) <==>
      var home := r.host.home;
      && CleanPath(src) && !In(home, src)
      && (if In(src, home) then inHome && !SecretOfHome(if home + "/" <= src then src[|home| + 1..] else src)
          else
            && !(lexical && inHome) && src != "/tmp" && src != "/var/tmp"
            && forall p :: Protected(p) ==> !Touches(src, p))
      && (forall s :: s in r.host.secrets || s in trees ==> !Touches(src, s))
      && (write ==> forall p :: OfTheSystem(p) ==> !In(src, p))
  {
    hide CleanPath, In, Touches, Under, Overlap, IsHomeSecret, SecretOfHome, Protected, OfTheSystem, LINUX;
    ProtectedAre();
    HomeSecretsTell(Rel(src, r.host.home));
    forall a, b ensures (Under(a, b) <==> In(a, b)) && (Overlap(a, b) <==> Touches(a, b)) { InIs(a, b); }
  }

  /** Nothing at or below what may be written is the system's. */
  lemma NothingOfTheSystemWritten(r: Rules, inHome: bool, src: string, lexical: bool, trees: seq<string>, q: string, tree: string)
    requires r.policy == LINUX && r.host.Ok() && SourceOk(r, inHome, src, true, lexical, trees)
    requires Under(q, src) && OfTheSystem(tree)
    ensures !Under(q, tree)
  {
    hide CleanPath, IsHomeSecret, OfTheSystem, LINUX;
    ProtectedAre();
    if Under(q, tree) {
      Comparable(q, src, tree);
      TopLevel(r, src, tree);
    }
  }

  /** Above a path with one name there is only the root, and the root is never a source. */
  lemma TopLevel(r: Rules, src: string, tree: string)
    requires r.host.Ok() && !Under(r.host.home, src) && OfTheSystem(tree) && CleanPath(src)
    ensures Under(tree, src) ==> src == tree
  {
    hide Below, OneName;
    OneSlash(tree);
    ShortRoot(tree, src);
  }

  lemma OneSlash(tree: string)
    requires OfTheSystem(tree)
    ensures OneName(tree)
  {
  }

  // ----- specifications -----

  function Places(ms: seq<Mount>): seq<string> {
    seq(|ms|, i requires 0 <= i < |ms| => if ms[i].guestPath != "" then ms[i].guestPath else ms[i].hostPath)
  }

  /** All places of the cage that are taken: those of the system, of the mounts, of scratch. */
  function AllPlaces(s: Spec): seq<string> {
    (if s.system then ["/usr", "/lib", "/lib64", "/bin", "/sbin"] else []) + Places(s.read) + Places(s.write) + s.scratch
  }

  /** A place that something may be put at. */
  predicate FreePlace(g: string) { CleanPath(g) && g != "/" && !In(g, "/proc") && !In(g, "/dev") }

  predicate MountTold(r: Rules, m: Mount, write: bool) {
    && CleanPath(m.hostPath) && SourceOk(r, m.inHome, m.hostPath, write, true, [])
    && (r.pathRemap || m.guestPath in {"", m.hostPath})
  }

  /**
    Exactly which specifications are accepted: every place is taken once and is free for it, every
    mount may be shown, scratch lies in no mount and not in /usr, and nothing lies in a link of the system.
   */
  lemma SpecTells(r: Rules, s: Spec)
    requires r.policy == LINUX
    ensures Valid(r, s) <==>
      var ps := AllPlaces(s);
      && r.host.Ok()
      && (forall p :: p in ps ==> FreePlace(p)) && (forall i, j :: 0 <= i < j < |ps| ==> ps[i] != ps[j])
      && (forall m :: m in s.read ==> MountTold(r, m, false)) && (forall m :: m in s.write ==> MountTold(r, m, true))
      && (forall p :: p in s.scratch ==> r.pathRemap && (s.system ==> p == "/usr" || !In(p, "/usr")))
      && (forall p, g :: p in s.scratch && g in Places(s.read) + Places(s.write) ==> p == g || !In(p, g))
      && (s.system ==> forall p, l :: p in ps && l in {"/lib", "/lib64", "/bin", "/sbin"} ==> p == l || !In(p, l))
  {
    hide CleanPath, In, Under, SourceOk, LINUX, Touches, Overlap;
    ProtectedAre();
    forall a, b ensures Under(a, b) <==> In(a, b) { InIs(a, b); }
    ClaimsAre(r, s);
    GuestsAre(s.read);
    GuestsAre(s.write);
    forall g ensures GuestOk(r, g) <==> FreePlace(g) { GuestTells(r, g); }
    forall m: Mount, w ensures MountOk(r, m, w) <==> MountTold(r, m, w) { }
    hide GuestOk, FreePlace, MountOk, MountTold, Claims, AllPlaces;
    forall p ensures ScratchOk(r, s, p) <==>
      r.pathRemap && (s.system ==> p == "/usr" || !In(p, "/usr")) &&
      forall g :: g in Places(s.read) + Places(s.write) ==> p == g || !In(p, g)
    {
      ScratchTells(r, s, p);
    }
    LinksTell(r, s);
  }

  lemma GuestTells(r: Rules, g: string)
    requires r.policy == LINUX
    ensures GuestOk(r, g) <==> FreePlace(g)
  {
    hide CleanPath, In, Under, LINUX;
    ProtectedAre();
    InIs(g, "/proc");
    InIs(g, "/dev");
  }

  lemma GuestsAre(ms: seq<Mount>)
    ensures Guests(ms) == Places(ms)
  {
  }

  lemma ClaimsAre(r: Rules, s: Spec)
    requires r.policy == LINUX
    ensures Claims(r, s) == AllPlaces(s)
  {
    hide LINUX;
    ProtectedAre();
    GuestsAre(s.read);
    GuestsAre(s.write);
    assert ["/usr"] + ["/lib", "/lib64", "/bin", "/sbin"] == ["/usr", "/lib", "/lib64", "/bin", "/sbin"];
  }

  lemma ScratchTells(r: Rules, s: Spec, p: string)
    requires r.policy == LINUX
    ensures ScratchOk(r, s, p) <==>
      r.pathRemap && (s.system ==> p == "/usr" || !In(p, "/usr")) &&
      forall g :: g in Places(s.read) + Places(s.write) ==> p == g || !In(p, g)
  {
    hide In, Under, LINUX;
    ProtectedAre();
    GuestsAre(s.read);
    GuestsAre(s.write);
    forall a, b ensures Under(a, b) <==> In(a, b) { InIs(a, b); }
  }

  lemma LinksTell(r: Rules, s: Spec)
    requires r.policy == LINUX
    ensures forall l :: l in SystemLinks(r, s) <==> s.system && l in {"/lib", "/lib64", "/bin", "/sbin"}
  {
    hide LINUX;
    ProtectedAre();
  }
}
