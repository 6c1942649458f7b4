/** egress/git/policy.go: which refs a session may push to. */
module GitPolicy {
  import opened Wrappers
  import opened Strings
  import opened GitReceive

  const MAX_REF_LEN := 200
  const ZERO_OID := "0000000000000000000000000000000000000000"
  const NAMESPACE := "refs/heads/goronation/"

  datatype Refusal = Malformed(code: Code) | Delete | RefNotAllowed

  datatype Checked = Accepted(push: Push) | Refused(why: Refusal)

  predicate SegmentChar(c: char) {
    'a' <= c <= 'z' || 'A' <= c <= 'Z' || '0' <= c <= '9' || c == '.' || c == '_' || c == '-'
  }

  predicate ValidSegment(s: string) {
    && s != "" && s[0] != '.' && s[|s| - 1] != '.' && !Ends(s, ".lock")
    && (forall i :: 0 <= i < |s| - 1 ==> !(s[i] == '.' && s[i + 1] == '.'))
    && forall i :: 0 <= i < |s| ==> SegmentChar(s[i])
  }

  predicate ValidSession(s: string) { |s| <= 64 && ValidSegment(s) }

  function Prefix(session: string): string { NAMESPACE + session + "/" }

  predicate RefAllowed(session: string, ref: string) {
    && Starts(ref, Prefix(session)) && |ref| <= MAX_REF_LEN
    && forall seg :: seg in Split(ref[|Prefix(session)|..], '/') ==> ValidSegment(seg)
  }

  /** The first command that is refused, from position i on. */
  function Check(session: string, cmds: seq<Command>, i: nat): Option<Refusal>
    requires i <= |cmds|
    decreases |cmds| - i
  {
    if i == |cmds| then None
    else if cmds[i].newOid == ZERO_OID then Some(Delete)
    else if !RefAllowed(session, cmds[i].ref) then Some(RefNotAllowed)
    else Check(session, cmds, i + 1)
  }

  function ReadPush(session: string, input: string, lim: Limits): Checked {
    var p := Parse(input, lim);
    if p.Err? then Refused(Malformed(p.code))
    else
      var c := Check(session, p.value.commands, 0);
      if c.Some? then Refused(c.value) else Accepted(p.value)
  }

  lemma {:induction false} CheckIff(session: string, cmds: seq<Command>, i: nat)
    requires i <= |cmds|
    ensures Check(session, cmds, i).None? <==>
      forall j :: i <= j < |cmds| ==> cmds[j].newOid != ZERO_OID && RefAllowed(session, cmds[j].ref)
    decreases |cmds| - i
  {
    hide RefAllowed;
    if i < |cmds| { CheckIff(session, cmds, i + 1); }
  }

  /** A push goes through exactly when it is canonical and every command creates or updates a ref of the session. */
  lemma AcceptedIff(session: string, input: string, lim: Limits, push: Push)
    ensures ReadPush(session, input, lim) == Accepted(push) <==>
      && WellFormed(push.commands, push.caps, lim)
      && push.raw == Encode(push.commands, push.caps) && Starts(input, push.raw)
      && (push.commands == [] ==> input == push.raw)
      && forall i :: 0 <= i < |push.commands| ==>
           push.commands[i].newOid != ZERO_OID && RefAllowed(session, push.commands[i].ref)
  {
    hide Parse, WellFormed, RefAllowed;
    ParseIff(input, lim, push);
    CheckIff(session, push.commands, 0);
  }

  /** A ref is of one session only: two sessions can never push to the same ref. */
  lemma NamespacesDisjoint(a: string, b: string, ref: string)
    requires ValidSession(a) && ValidSession(b)
    requires RefAllowed(a, ref) && RefAllowed(b, ref)
    ensures a == b
  {
    hide Split;
    var n := |NAMESPACE|;
    var rest := ref[n..];
    assert '/' !in a && '/' !in b;
    var ta, tb := rest[|a| + 1..], rest[|b| + 1..];
    assert rest == a + ['/'] + ta by { Inside(a, ref); }
    assert rest == b + ['/'] + tb by { Inside(b, ref); }
    IndexOfUnique(a, '/', ta);
    IndexOfUnique(b, '/', tb);
    assert a == rest[..|a|] && b == rest[..|b|];
  }

  lemma Inside(session: string, ref: string)
    requires Starts(ref, Prefix(session))
    ensures |NAMESPACE| + |session| < |ref|
    ensures ref[|NAMESPACE|..] == session + ['/'] + ref[|NAMESPACE|..][|session| + 1..]
  {
    var n := |Prefix(session)|;
    assert ref == ref[..n] + ref[n..];
    assert ref[|NAMESPACE|..] == session + "/" + ref[n..];
  }

  /** Under an allowed prefix no ref climbs out, hides or locks: the whole rest is made of valid segments. */
  lemma AllowedRefShape(session: string, ref: string)
    requires ValidSession(session) && RefAllowed(session, ref)
    ensures exists segs :: segs != [] && (forall s :: s in segs ==> ValidSegment(s)) && ref == Prefix(session) + Join(segs, "/")
  {
    hide ValidSegment, Split;
    var n := |Prefix(session)|;
    var segs := Split(ref[n..], '/');
    JoinSplit(ref[n..], '/');
    assert ref == ref[..n] + ref[n..];
    assert ref == Prefix(session) + Join(segs, "/");
  }
}
