/**
  The grammar of a push in plain words, byte by byte, with the code of each fault and the first
  fault of a whole request; and the refs that a session may push to.
 */
module GitLaws {
  import opened Wrappers
  import opened Strings
  import opened GitReceive
  import opened GitPolicy

  // ----- words -----

  predicate HexChar(c: char) { '0' <= c <= '9' || 'a' <= c <= 'f' }

  /** A hexadecimal digit is worth its place in the row of digits. */
  lemma DigitTells(c: char)
    ensures HexDigit(c).Some? <==> HexChar(c)
    ensures HexDigit(c).Some? ==> HexDigit(c).value < 16 && "0123456789abcdef"[HexDigit(c).value] == c
  {
    var row := "0123456789abcdef";
    if '0' <= c <= '9' {
      assert row[0] == '0' && row[1] == '1' && row[2] == '2' && row[3] == '3' && row[4] == '4';
      assert row[5] == '5' && row[6] == '6' && row[7] == '7' && row[8] == '8' && row[9] == '9';
    } else if HexChar(c) {
      assert row[10] == 'a' && row[11] == 'b' && row[12] == 'c' && row[13] == 'd' && row[14] == 'e' && row[15] == 'f';
    }
  }

  /** Four digits are worth the most significant one first. */
  lemma FourTell(s: string)
    requires |s| == 4
    ensures HexValue(s) ==
      if HexChar(s[0]) && HexChar(s[1]) && HexChar(s[2]) && HexChar(s[3])
      then Some(HexDigit(s[0]).value * 4096 + HexDigit(s[1]).value * 256 + HexDigit(s[2]).value * 16 + HexDigit(s[3]).value)
      else None
  {
    hide HexValue, HexDigit;
    forall c ensures HexDigit(c).Some? <==> HexChar(c) { DigitTells(c); }
    ValueNext(s);
    ValueNext(s[..3]);
    ValueNext(s[..2]);
    ValueNext(s[..1]);
    assert s[..3][..2] == s[..2] && s[..2][..1] == s[..1] && s[..1][..0] == "";
    NoDigits();
  }

  lemma ValueNext(s: string)
    requires s != ""
    ensures var front, last := HexValue(s[..|s| - 1]), HexDigit(s[|s| - 1]);
      HexValue(s) == if front.None? || last.None? then None else Some(front.value * 16 + last.value)
  {
  }

  lemma NoDigits()
    ensures HexValue("") == Some(0)
  {
  }

  predicate ObjectId(s: string) { |s| == 40 && forall c :: c in s ==> HexChar(c) }

  predicate Visible(s: string) { forall c :: c in s ==> '!' <= c <= '~' }

  lemma OidTells(s: string)
    ensures ValidOid(s) <==> ObjectId(s)
  {
    hide HexDigit;
    forall c ensures HexDigit(c).Some? <==> HexChar(c) { DigitTells(c); }
    if ValidOid(s) {
      forall c | c in s ensures HexChar(c) { var i :| 0 <= i < |s| && s[i] == c; }
    } else if ObjectId(s) {
      forall i | 0 <= i < |s| ensures HexChar(s[i]) { assert s[i] in s; }
    }
  }

  lemma VisibleTells(s: string)
    ensures Printable(s) <==> Visible(s)
  {
    if Printable(s) {
      forall c | c in s ensures '!' <= c <= '~' { var i :| 0 <= i < |s| && s[i] == c; }
    } else if Visible(s) {
      forall i | 0 <= i < |s| ensures '!' <= s[i] <= '~' { assert s[i] in s; }
    }
  }

  // ----- what a request may say -----

  /** Two object names of forty digits and a ref of up to 255 visible characters. */
  lemma CommandTells(c: Command)
    ensures ValidCommand(c) <==> ObjectId(c.oldOid) && ObjectId(c.newOid) && 1 <= |c.ref| <= 255 && Visible(c.ref)
    ensures CommandText(c) == c.oldOid + " " + c.newOid + " " + c.ref
  {
    OidTells(c.oldOid);
    OidTells(c.newOid);
    VisibleTells(c.ref);
  }

  /** One of the seven that have no value of the client's, or its own name. */
  predicate Capability(c: string) {
    || c in {"report-status", "report-status-v2", "side-band-64k", "quiet", "atomic", "ofs-delta", "object-format=sha1"}
    || ("agent=" <= c && 1 <= |c| - 6 <= 128 && Visible(c[6..]))
  }

  /** What stands before the first equals sign, or all of it. */
  predicate NameOf(c: string, name: string) {
    '=' !in name && (c == name || name + "=" <= c)
  }

  lemma NameTells(c: string)
    ensures NameOf(c, CapName(c)) && forall name :: NameOf(c, name) ==> name == CapName(c)
  {
    hide IndexOf;
    var i := IndexOf(c, '=');
    if i == |c| { assert c[..i] == c; } else { assert c[..i] + "=" == c[..i + 1]; }
    forall name | NameOf(c, name) ensures name == CapName(c) {
      if c == name {
        IndexOfUnique(name, '=', "");
        assert c[..|c|] == c;
      } else {
        assert c == name + ['='] + c[|name| + 1..];
        IndexOfUnique(name, '=', c[|name| + 1..]);
        assert c[..|name|] == name;
      }
    }
  }

  lemma CapabilityTells(c: string)
    ensures CapAllowed(c) <==> Capability(c)
  {
    if |c| >= 6 { VisibleTells(c[6..]); }
  }

  lemma CapsTell(caps: seq<string>)
    ensures CapsAllowed(caps) <==>
      && (forall i :: 0 <= i < |caps| ==> Capability(caps[i]))
      && forall i, j, name :: 0 <= i < j < |caps| && NameOf(caps[i], name) ==> !NameOf(caps[j], name)
  {
    hide CapAllowed, Capability, CapName, NameOf;
    forall c ensures CapAllowed(c) <==> Capability(c) { CapabilityTells(c); }
    forall c ensures NameOf(c, CapName(c)) && forall name :: NameOf(c, name) ==> name == CapName(c) { NameTells(c); }
  }

  /** The limits are those given, or 16 KiB and 32 commands where none is given. */
  lemma LimitsTell(lim: Limits)
    ensures lim.Bytes() == (if lim.maxBytes > 0 then lim.maxBytes else 16384)
    ensures lim.Commands() == (if lim.maxCommands > 0 then lim.maxCommands else 32)
  {
  }

  /** A line in its packet: four digits for the length of both, then the line, which is not empty and fits 65,520 bytes. */
  predicate Packs(p: string, line: string) {
    && |p| == 4 + |line| && p[4..] == line && HexValue(p[..4]) == Some(|p|) && 5 <= |p| <= 65520
  }

  lemma PacketTells(line: string)
    ensures ValidPacket(Line(line)) <==> 1 <= |line| <= 65516
    ensures ValidPacket(Line(line)) ==> Packs(PacketText(Line(line)), line)
  {
    FourDigits();
    if ValidPacket(Line(line)) {
      HexRoundTrip(|line| + 4, 4);
      var p := PacketText(Line(line));
      assert p[..4] == Hex(|line| + 4, 4) && p[4..] == line;
    }
  }

  /** The request is its lines in packets, one for each command, and the flush packet; the capabilities stand on the first line. */
  ghost predicate Says(raw: string, cmds: seq<Command>, caps: seq<string>)
    decreases |cmds|
  {
    if cmds == [] then raw == "0000"
    else exists line, p, more ::
      && raw == p + more && Packs(p, line) && Says(more, cmds[1..], [])
      && line == cmds[0].oldOid + " " + cmds[0].newOid + " " + cmds[0].ref + if caps == [] then "" else "\0 " + Join(caps, " ")
  }

  lemma {:induction false} LinesSay(cmds: seq<Command>, caps: seq<string>, first: bool)
    requires ValidLines(cmds, caps, first)
    ensures Says(Lines(cmds, caps, first) + "0000", cmds, if first then caps else [])
    decreases |cmds|
  {
    hide ValidLine, PacketText, Packs, HexValue, LineText, Says, Join;
    if cmds == [] {
      NothingSaid(if first then caps else []);
      assert Lines(cmds, caps, first) + "0000" == "0000";
    } else {
      var own := if first then caps else [];
      var line := LineText(cmds[0], own);
      var p, more := PacketText(Line(line)), Lines(cmds[1..], caps, false) + "0000";
      PacketTells(line);
      TailValid(cmds, caps, first);
      SameLines(cmds[1..], caps, []);
      LinesSay(cmds[1..], [], false);
      LineIs(cmds[0], own);
      assert Lines(cmds, caps, first) + "0000" == p + more;
      SaysNext(p + more, cmds, own, line, p, more);
    }
  }

  lemma NothingSaid(caps: seq<string>)
    ensures Says("0000", [], caps)
  {
  }

  lemma SaysNext(raw: string, cmds: seq<Command>, caps: seq<string>, line: string, p: string, more: string)
    requires cmds != [] && raw == p + more && Packs(p, line) && Says(more, cmds[1..], [])
    requires line == cmds[0].oldOid + " " + cmds[0].newOid + " " + cmds[0].ref + if caps == [] then "" else "\0 " + Join(caps, " ")
    ensures Says(raw, cmds, caps)
  {
    hide Packs, Join;
  }

  lemma LineIs(c: Command, caps: seq<string>)
    ensures LineText(c, caps) == c.oldOid + " " + c.newOid + " " + c.ref + if caps == [] then "" else "\0 " + Join(caps, " ")
  {
    hide Join;
    if caps != [] { assert "\0" + (" " + Join(caps, " ")) == "\0 " + Join(caps, " "); }
  }

  /** What is handed on says just the commands and capabilities that were returned. */
  lemma RawTells(input: string, lim: Limits)
    requires Parse(input, lim).Ok?
    ensures var push := Parse(input, lim).value; Says(push.raw, push.commands, push.caps) && push.raw <= input
  {
    hide Parse, Says, Lines, ValidLines;
    var push := Parse(input, lim).value;
    ParseIff(input, lim, push);
    LinesSay(push.commands, push.caps, true);
  }

  // ----- the code of each fault -----

  /** What is read of the next packet, and what is wrong with it when nothing is. */
  lemma NextPacketTells(rest: string, used: nat, max: int)
    ensures NextPacket(rest, used, max) ==
      if used + 4 > max then Err(TooLarge)
      else if |rest| < 4 then Err(Truncated)
      else if exists i :: 0 <= i < 4 && !HexChar(rest[i]) then Err(BadPacket)
      else
        var n := HexDigit(rest[0]).value * 4096 + HexDigit(rest[1]).value * 256 + HexDigit(rest[2]).value * 16 + HexDigit(rest[3]).value;
        if n == 0 then Ok(Flush)
        else if n < 5 || n > 65520 then Err(BadPacket)
        else if used + n > max then Err(TooLarge)
        else if |rest| < n then Err(Truncated)
        else Ok(Line(rest[4..n]))
  {
    hide HexValue, HexDigit;
    forall c ensures HexDigit(c).Some? <==> HexChar(c) { DigitTells(c); }
    if |rest| >= 4 { FourTell(rest[..4]); }
  }

  /** A line in three parts with a blank between them. */
  predicate Parts(s: string, c: Command) {
    |s| >= 83 && s[40] == ' ' && s[81] == ' ' && c == Command(s[..40], s[41..81], s[82..])
  }

  /** What is wrong with a line. */
  lemma LineTells(line: string, first: bool)
    ensures var i := IndexOf(line, '\0'); var c := ParseCommand(line[..i]);
      ParseLine(line, first) ==
        if "shallow " <= line then Err(Shallow)
        else if "push-cert" <= line then Err(PushCert)
        else if '\0' in line && !first then Err(BadCommand)
        else if c.None? then Err(BadCommand)
        else if '\0' !in line then Ok((c.value, []))
        else if ParseCaps(line[i + 1..]).Err? then Err(ParseCaps(line[i + 1..]).code)
        else Ok((c.value, ParseCaps(line[i + 1..]).value))
  {
    hide ParseCommand, ParseCaps, IndexOf;
    var i := IndexOf(line, '\0');
    assert line[..|line|] == line;
    if '\0' !in line { IndexOfUnique(line, '\0', ""); }
  }

  lemma CommandFaultTells(s: string, c: Command)
    ensures ParseCommand(s) == Some(c) <==>
      Parts(s, c) && ObjectId(c.oldOid) && ObjectId(c.newOid) && |c.ref| <= 255 && Visible(c.ref)
  {
    hide ObjectId, ValidOid, Visible, Printable;
    if |s| >= 83 {
      OidTells(s[..40]);
      OidTells(s[41..81]);
      VisibleTells(s[82..]);
    }
  }

  /** The capability at k is the first that is not let through, and this is its code. */
  ghost predicate FaultyCap(caps: seq<string>, k: int, code: Code) {
    && 0 <= k < |caps| && CapsAllowed(caps[..k]) && !CapsAllowed(caps[..k + 1])
    && code == if caps[k] == "push-options" then PushOptions else BadCapability
  }

  lemma {:induction false} CheckCapsTells(caps: seq<string>, i: nat)
    requires i <= |caps| && CapsAllowed(caps[..i])
    ensures CheckCaps(caps, i).Some? ==> exists k :: FaultyCap(caps, k, CheckCaps(caps, i).value)
    decreases |caps| - i
  {
    hide CapAllowed, CapName;
    if i < |caps| {
      assert caps[..i + 1] == caps[..i] + [caps[i]];
      assert CapAllowed(caps[i]) ==> caps[i] != "push-options" by {
        if CapAllowed(caps[i]) { CapHasNoSpace(caps[i]); }
      }
      if CapsAllowed(caps[..i + 1]) {
        assert CapAllowed(caps[..i + 1][i]);
        CheckCapsTells(caps, i + 1);
      } else {
        assert CheckCaps(caps, i).Some? ==> FaultyCap(caps, i, CheckCaps(caps, i).value);
      }
    }
  }

  /** What is wrong with a list of capabilities: it does not begin with a blank, or the first that is not let through. */
  lemma CapsFaultTell(s: string)
    ensures s == "" || s[0] != ' ' ==> ParseCaps(s) == Err(BadCapability)
    ensures s != "" && s[0] == ' ' && ParseCaps(s).Err? ==> exists k :: FaultyCap(Split(s[1..], ' '), k, ParseCaps(s).code)
  {
    hide Split, CapsAllowed, CheckCaps, FaultyCap;
    if s != "" && s[0] == ' ' {
      var caps := Split(s[1..], ' ');
      NoneAllowed();
      assert caps[..0] == [];
      CheckCapsTells(caps, 0);
    }
  }

  // ----- the first fault -----

  /** The lines, each in its packet. */
  function Packed(lines: seq<string>): string { if lines == [] then "" else PacketText(Line(lines[0])) + Packed(lines[1..]) }

  /** What is wrong with the next packet. */
  ghost predicate NextFault(rest: string, used: nat, done: nat, lim: Limits, code: Code) {
    var next := NextPacket(rest, used, lim.Bytes());
    || next == Err(code)
    || (next.Ok? && next.value.Line? && done >= lim.Commands() && code == TooManyCommands)
    || (next.Ok? && next.value.Line? && done < lim.Commands() && ParseLine(next.value.text, done == 0) == Err(code))
  }

  /** The line is a command when so many came before it. */
  ghost predicate ReadAsCommand(line: string, done: nat, lim: Limits) {
    done < lim.Commands() && ValidPacket(Line(line)) && ParseLine(line, done == 0).Ok?
  }

  /** After these lines were read as commands the next packet, or its line, is at fault with this code. */
  ghost predicate FaultAfter(input: string, used: nat, done: nat, lim: Limits, lines: seq<string>, rest: string, code: Code) {
    && input == Packed(lines) + rest
    && (forall i :: 0 <= i < |lines| ==> ReadAsCommand(lines[i], done + i, lim))
    && NextFault(rest, used + |Packed(lines)|, done + |lines|, lim, code)
  }

  lemma {:induction false} FirstFault(input: string, used: nat, done: nat, lim: Limits)
    requires ParseLines(input, used, done, lim).Err?
    ensures exists lines, rest :: FaultAfter(input, used, done, lim, lines, rest, ParseLines(input, used, done, lim).code)
    decreases |input|
  {
    hide NextPacket, ParseLine, PacketText;
    var code, p := ParseLines(input, used, done, lim).code, NextPacket(input, used, lim.Bytes());
    if p.Err? || done >= lim.Commands() || ParseLine(p.value.text, done == 0).Err? {
      assert Packed([]) + input == input;
      assert FaultAfter(input, used, done, lim, [], input, code);
    } else {
      var text := p.value.text;
      LineShape(input, used, lim.Bytes(), p.value);
      var n := 4 + |text|;
      FirstFault(input[n..], used + n, done + 1, lim);
      var lines, rest :| FaultAfter(input[n..], used + n, done + 1, lim, lines, rest, code);
      OneMoreLine(input, used, done, lim, p.value, lines, rest, code);
    }
  }

  lemma OneMoreLine(input: string, used: nat, done: nat, lim: Limits, p: Packet, lines: seq<string>, rest: string, code: Code)
    requires NextPacket(input, used, lim.Bytes()) == Ok(p) && p.Line? && done < lim.Commands() && ParseLine(p.text, done == 0).Ok?
    requires 4 + |p.text| <= |input| && input[..4 + |p.text|] == PacketText(p) && |PacketText(p)| == 4 + |p.text|
    requires FaultAfter(input[4 + |p.text|..], used + 4 + |p.text|, done + 1, lim, lines, rest, code)
    ensures FaultAfter(input, used, done, lim, [p.text] + lines, rest, code)
  {
    hide NextPacket, ParseLine, PacketText;
    NextPacketIff(input, used, lim.Bytes(), p);
    var all, n := [p.text] + lines, 4 + |p.text|;
    assert p == Line(p.text) && all[0] == p.text && all[1..] == lines;
    assert Packed(all) == PacketText(p) + Packed(lines);
    assert input == input[..n] + input[n..];
    assert input == Packed(all) + rest;
    forall i | 0 <= i < |all| ensures ReadAsCommand(all[i], done + i, lim) {
      if i > 0 {
        var k := i - 1;
        assert all[i] == lines[k] && done + 1 + k == done + i;
        assert ReadAsCommand(lines[k], done + 1 + k, lim);
      }
    }
    SameFault(rest, used + n + |Packed(lines)|, used + |Packed(all)|, done + 1 + |lines|, done + |all|, lim, code);
  }

  lemma SameFault(rest: string, used: nat, used': nat, done: nat, done': nat, lim: Limits, code: Code)
    requires used == used' && done == done' && NextFault(rest, used, done, lim, code)
    ensures NextFault(rest, used', done', lim, code)
  {
  }

  /** A request is refused with the code of its first fault, or for what follows when it has no command. */
  lemma RefusedTells(input: string, lim: Limits)
    requires Parse(input, lim).Err?
    ensures var code := Parse(input, lim).code;
      || (code == TrailingData && "0000" <= input && |input| > 4)
      || exists lines, rest :: FaultAfter(input, 0, 0, lim, lines, rest, code)
  {
    hide FaultAfter;
    if ParseLines(input, 0, 0, lim).Err? {
      FirstFault(input, 0, 0, lim);
    } else {
      hide NextPacket, ParseLine;
      assert NextPacket(input, 0, lim.Bytes()) == Ok(Flush);
      NextPacketIff(input, 0, lim.Bytes(), Flush);
    }
  }

  // ----- the refs of a session -----

  /** Letters, digits, dots, hyphens and underscores; no dot at an end and no two together, and no lock. */
  predicate Segment(s: string) {
    && s != "" && (forall c :: c in s ==> 'a' <= c <= 'z' || 'A' <= c <= 'Z' || '0' <= c <= '9' || c in {'.', '_', '-'})
    && s[0] != '.' && s[|s| - 1] != '.' && (forall i :: 0 <= i < |s| - 1 ==> s[i] != '.' || s[i + 1] != '.')
    && !(|s| >= 5 && s[|s| - 5..] == ".lock")
  }

  lemma SegmentTells(s: string)
    ensures ValidSegment(s) <==> Segment(s)
    ensures ValidSession(s) <==> |s| <= 64 && Segment(s)
  {
    if ValidSegment(s) {
      forall c | c in s ensures SegmentChar(c) { var i :| 0 <= i < |s| && s[i] == c; }
    } else if Segment(s) {
      forall i | 0 <= i < |s| ensures SegmentChar(s[i]) { assert s[i] in s; }
    }
  }

  /** After the front come these segments, with slashes between. */
  ghost predicate Follows(ref: string, front: string, segs: seq<string>) {
    segs != [] && (forall s :: s in segs ==> Segment(s)) && ref == front + Join(segs, "/")
  }

  /** A session may push to exactly the refs of up to 200 characters that are its prefix and valid segments with slashes between. */
  lemma RefTells(session: string, ref: string)
    ensures RefAllowed(session, ref) <==>
      |ref| <= 200 && exists segs :: Follows(ref, "refs/heads/goronation/" + session + "/", segs)
  {
    hide ValidSegment, Segment, Split, Join;
    var front := "refs/heads/goronation/" + session + "/";
    assert Prefix(session) == front;
    forall s ensures ValidSegment(s) <==> Segment(s) { SegmentTells(s); }
    if RefAllowed(session, ref) {
      var rest := ref[|front|..];
      JoinSplit(rest, '/');
      assert ref == front + rest;
      assert Follows(ref, front, Split(rest, '/'));
    }
    if segs :| |ref| <= 200 && Follows(ref, front, segs) {
      assert ref[..|front|] == front && ref[|front|..] == Join(segs, "/");
      forall s | s in segs ensures '/' !in s { NoSlash(s); }
      SplitJoin(segs, '/');
    }
  }

  lemma NoSlash(s: string)
    requires Segment(s)
    ensures '/' !in s
  {
  }

  /** Forty zeros stand for no object. */
  predicate NoObject(oid: string) { |oid| == 40 && forall c :: c in oid ==> c == '0' }

  lemma NoObjectTells(oid: string)
    ensures oid == ZERO_OID <==> NoObject(oid)
  {
    if NoObject(oid) {
      forall i | 0 <= i < 40 ensures oid[i] == '0' == ZERO_OID[i] { assert oid[i] in oid; }
      assert oid == ZERO_OID;
    }
  }

  /** A push is refused as malformed, or else for its first command that deletes or that names another ref. */
  lemma PushTells(session: string, input: string, lim: Limits)
    ensures var r, p := ReadPush(session, input, lim), Parse(input, lim);
      match r
      case Accepted(push) =>
        && p == Ok(push)
        && forall i :: 0 <= i < |push.commands| ==> !NoObject(push.commands[i].newOid) && RefAllowed(session, push.commands[i].ref)
      case Refused(Malformed(code)) => p == Err(code)
      case Refused(why) =>
        p.Ok? && exists i :: FirstRefused(session, p.value.commands, i, why)
  {
    hide Parse, RefAllowed, NoObject;
    forall oid ensures oid == ZERO_OID <==> NoObject(oid) { NoObjectTells(oid); }
    if Parse(input, lim).Ok? {
      CheckIff(session, Parse(input, lim).value.commands, 0);
      CheckTells(session, Parse(input, lim).value.commands, 0);
    }
  }

  ghost predicate FirstRefused(session: string, cmds: seq<Command>, i: int, why: Refusal) {
    && 0 <= i < |cmds| && (NoObject(cmds[i].newOid) || !RefAllowed(session, cmds[i].ref))
    && why == (if NoObject(cmds[i].newOid) then Delete else RefNotAllowed)
    && forall j :: 0 <= j < i ==> !NoObject(cmds[j].newOid) && RefAllowed(session, cmds[j].ref)
  }

  lemma {:induction false} CheckTells(session: string, cmds: seq<Command>, i: nat)
    requires i <= |cmds| && forall j :: 0 <= j < i ==> !NoObject(cmds[j].newOid) && RefAllowed(session, cmds[j].ref)
    ensures Check(session, cmds, i).Some? ==> exists k :: FirstRefused(session, cmds, k, Check(session, cmds, i).value)
    decreases |cmds| - i
  {
    hide RefAllowed, NoObject;
    forall oid ensures oid == ZERO_OID <==> NoObject(oid) { NoObjectTells(oid); }
    if i < |cmds| {
      if NoObject(cmds[i].newOid) || !RefAllowed(session, cmds[i].ref) {
        assert FirstRefused(session, cmds, i, Check(session, cmds, i).value);
      } else {
        CheckTells(session, cmds, i + 1);
      }
    }
  }
}
