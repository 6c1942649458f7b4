/**
  egress/git/receive.go: the command part of a receive-pack request. There is one way to write a
  request and the parser accepts exactly that: what it has read is the encoding of what it
  returns. A char stands for a byte.
 */
module GitReceive {
  import opened Wrappers
  import opened Strings

  const MAX_PKT := 65520

  datatype Code =
    | TooLarge | Truncated | BadPacket | TooManyCommands | BadCommand | BadCapability
    | Shallow | PushCert | PushOptions | TrailingData

  datatype Result<T> = Ok(value: T) | Err(code: Code)

  datatype Limits = Limits(maxBytes: int, maxCommands: int)
  {
    function Bytes(): int { if maxBytes <= 0 then 0x4000 else maxBytes }
    function Commands(): int { if maxCommands <= 0 then 32 else maxCommands }
  }

  datatype Command = Command(oldOid: string, newOid: string, ref: string)

  datatype Push = Push(commands: seq<Command>, caps: seq<string>, raw: string)

  // ----- words -----

  function HexDigit(c: char): Option<nat> {
    if '0' <= c <= '9' then Some(c as int - '0' as int)
    else if 'a' <= c <= 'f' then Some(c as int - 'a' as int + 10)
    else None
  }

  function DigitHex(n: nat): char
    requires n < 16
  {
    if n < 10 then '0' + n as char else 'a' + (n - 10) as char
  }

  function HexValue(s: string): Option<nat> {
    if s == [] then Some(0)
    else
      var front, last := HexValue(s[..|s| - 1]), HexDigit(s[|s| - 1]);
      if front.None? || last.None? then None else Some(front.value * 16 + last.value)
  }

  /** n in `digits` lower-case hexadecimal digits. */
  function Hex(n: nat, digits: nat): string {
    if digits == 0 then "" else Hex(n / 16, digits - 1) + [DigitHex(n % 16)]
  }

  function Power16(k: nat): nat { if k == 0 then 1 else 16 * Power16(k - 1) }

  lemma {:induction false} HexRoundTrip(n: nat, digits: nat)
    requires n < Power16(digits)
    ensures |Hex(n, digits)| == digits && HexValue(Hex(n, digits)) == Some(n)
  {
    if digits > 0 {
      HexRoundTrip(n / 16, digits - 1);
      var s := Hex(n, digits);
      assert s[..|s| - 1] == Hex(n / 16, digits - 1);
    }
  }

  /** A number has one spelling of each length. */
  lemma {:induction false} HexCanonical(s: string)
    requires HexValue(s).Some?
    ensures HexValue(s).value < Power16(|s|) && s == Hex(HexValue(s).value, |s|)
  {
    if s != [] {
      var front, last := s[..|s| - 1], s[|s| - 1];
      HexCanonical(front);
      assert s == front + [last];
      assert (HexValue(front).value * 16 + HexDigit(last).value) / 16 == HexValue(front).value;
    }
  }

  predicate ValidOid(s: string) { |s| == 40 && forall i :: 0 <= i < |s| ==> HexDigit(s[i]).Some? }

  predicate Printable(s: string) { forall i :: 0 <= i < |s| ==> '!' <= s[i] <= '~' }

  // ----- capabilities -----

  const FIXED_CAPS: set<string> := {
    "report-status", "report-status-v2", "side-band-64k", "quiet", "atomic", "ofs-delta", "object-format=sha1"}

  predicate CapAllowed(c: string) {
    c in FIXED_CAPS || (Starts(c, "agent=") && 0 < |c| - 6 <= 128 && Printable(c[6..]))
  }

  function CapName(c: string): string { c[..IndexOf(c, '=')] }

  predicate CapsAllowed(caps: seq<string>) {
    && (forall i :: 0 <= i < |caps| ==> CapAllowed(caps[i]))
    && forall i, j :: 0 <= i < j < |caps| ==> CapName(caps[i]) != CapName(caps[j])
  }

  lemma CapHasNoSpace(c: string)
    requires CapAllowed(c)
    ensures ' ' !in c && c != "push-options"
  {
    if c !in FIXED_CAPS {
      assert c == c[..6] + c[6..];
      assert c[0] == c[..6][0] == 'a';
    }
  }

  /** The first thing wrong with the capabilities from position i on. */
  function CheckCaps(caps: seq<string>, i: nat): Option<Code>
    requires i <= |caps|
    decreases |caps| - i
  {
    if i == |caps| then None
    else if caps[i] == "push-options" then Some(PushOptions)
    else if !CapAllowed(caps[i]) || exists j :: 0 <= j < i && CapName(caps[j]) == CapName(caps[i]) then Some(BadCapability)
    else CheckCaps(caps, i + 1)
  }

  lemma {:induction false} CheckCapsIff(caps: seq<string>, i: nat)
    requires i <= |caps| && CapsAllowed(caps[..i])
    ensures CheckCaps(caps, i).None? <==> CapsAllowed(caps)
    decreases |caps| - i
  {
    hide CapAllowed, CapName;
    if i == |caps| {
      assert caps[..i] == caps;
    } else {
      assert CapAllowed(caps[i]) ==> caps[i] != "push-options" by {
        if CapAllowed(caps[i]) { CapHasNoSpace(caps[i]); }
      }
      assert caps[..i + 1] == caps[..i] + [caps[i]];
      if caps[i] != "push-options" && CapAllowed(caps[i]) && forall j :: 0 <= j < i ==> CapName(caps[j]) != CapName(caps[i]) {
        CheckCapsIff(caps, i + 1);
      }
    }
  }

  function ParseCaps(s: string): Result<seq<string>> {
    if s == "" || s[0] != ' ' then Err(BadCapability)
    else
      var caps := Split(s[1..], ' ');
      if CheckCaps(caps, 0).Some? then Err(CheckCaps(caps, 0).value) else Ok(caps)
  }

  lemma ParseCapsIff(s: string, caps: seq<string>)
    ensures ParseCaps(s) == Ok(caps) <==> caps != [] && CapsAllowed(caps) && s == " " + Join(caps, " ")
  {
    hide CapsAllowed, CheckCaps, CapAllowed;
    if s != "" && s[0] == ' ' {
      assert s == " " + s[1..];
      var split := Split(s[1..], ' ');
      JoinSplit(s[1..], ' ');
      NoneAllowed();
      assert split[..0] == [];
      CheckCapsIff(split, 0);
    }
    if caps != [] && CapsAllowed(caps) && s == " " + Join(caps, " ") {
      assert s[1..] == Join(caps, " ");
      NoSpaces(caps);
      SplitJoin(caps, ' ');
    }
  }

  lemma NoneAllowed()
    ensures CapsAllowed([])
  {
  }

  lemma NoSpaces(caps: seq<string>)
    requires CapsAllowed(caps)
    ensures forall p :: p in caps ==> ' ' !in p
  {
    hide CapAllowed, CapName;
    forall p | p in caps ensures ' ' !in p { CapHasNoSpace(p); }
  }

  // ----- one line -----

  predicate ValidCommand(c: Command) {
    ValidOid(c.oldOid) && ValidOid(c.newOid) && 0 < |c.ref| <= 255 && Printable(c.ref)
  }

  function CommandText(c: Command): string { c.oldOid + " " + c.newOid + " " + c.ref }

  function LineText(c: Command, caps: seq<string>): string {
    if caps == [] then CommandText(c) else CommandText(c) + "\0" + (" " + Join(caps, " "))
  }

  function ParseCommand(s: string): Option<Command> {
    if |s| < 83 || s[40] != ' ' || s[81] != ' ' then None
    else
      var c := Command(s[..40], s[41..81], s[82..]);
      if !ValidOid(c.oldOid) || !ValidOid(c.newOid) || |c.ref| > 255 || !Printable(c.ref) then None else Some(c)
  }

  lemma ParseCommandIff(s: string, c: Command)
    ensures ParseCommand(s) == Some(c) <==> ValidCommand(c) && s == CommandText(c)
  {
    hide ValidOid, Printable;
    if ParseCommand(s) == Some(c) {
      assert s == s[..40] + [s[40]] + s[41..81] + [s[81]] + s[82..];
    }
    if ValidCommand(c) && s == CommandText(c) {
      assert |c.oldOid| == 40 && |c.newOid| == 40 by { OidSize(c.oldOid); OidSize(c.newOid); }
      assert s[..40] == c.oldOid && s[40] == ' ' && s[41..81] == c.newOid && s[81] == ' ' && s[82..] == c.ref;
    }
  }

  lemma OidSize(s: string)
    requires ValidOid(s)
    ensures |s| == 40
  {
  }

  function ParseLine(line: string, first: bool): Result<(Command, seq<string>)> {
    if Starts(line, "shallow ") then Err(Shallow)
    else if Starts(line, "push-cert") then Err(PushCert)
    else
      var i := IndexOf(line, '\0');
      if i < |line| && !first then Err(BadCommand)
      else
        var cmd := ParseCommand(line[..i]);
        if cmd.None? then Err(BadCommand)
        else if i == |line| then Ok((cmd.value, []))
        else
          var caps := ParseCaps(line[i + 1..]);
          if caps.Err? then Err(caps.code) else Ok((cmd.value, caps.value))
  }

  predicate ValidLine(c: Command, caps: seq<string>, first: bool) {
    ValidCommand(c) && CapsAllowed(caps) && (first || caps == [])
  }

  lemma CommandTextPlain(c: Command)
    requires ValidCommand(c)
    ensures '\0' !in CommandText(c) && CommandText(c) != ""
    ensures forall rest :: !Starts(CommandText(c) + rest, "shallow ") && !Starts(CommandText(c) + rest, "push-cert")
  {
    var s := CommandText(c);
    assert HexDigit(c.oldOid[0]).Some? && s[0] == c.oldOid[0];
    forall i | 0 <= i < |s| ensures s[i] != '\0' {
      if i < 40 { assert s[i] == c.oldOid[i]; }
      else if 41 <= i < 81 { assert s[i] == c.newOid[i - 41]; }
      else if i >= 82 { assert s[i] == c.ref[i - 82]; }
    }
    forall rest ensures !Starts(s + rest, "shallow ") && !Starts(s + rest, "push-cert") {
      assert (s + rest)[0] == s[0];
      OtherStart(s + rest, "shallow ");
      OtherStart(s + rest, "push-cert");
    }
  }

  lemma LineRead(line: string, first: bool)
    requires ParseLine(line, first).Ok?
    ensures var (c, caps) := ParseLine(line, first).value; ValidLine(c, caps, first) && line == LineText(c, caps)
  {
    hide ParseCommand, ParseCaps, CapsAllowed, ValidCommand, CommandText, Starts, IndexOf;
    var (c, caps) := ParseLine(line, first).value;
    var i := IndexOf(line, '\0');
    NoneAllowed();
    ParseCommandIff(line[..i], c);
    if i < |line| {
      ParseCapsIff(line[i + 1..], caps);
      assert line == line[..i] + "\0" + line[i + 1..];
    } else {
      assert line[..i] == line;
    }
  }

  lemma PlainLineParses(c: Command, first: bool)
    requires ValidCommand(c)
    ensures ParseLine(CommandText(c), first) == Ok((c, []))
  {
    hide ParseCommand, ParseCaps, ValidCommand, CommandText, Starts, IndexOf;
    var line := CommandText(c);
    CommandTextPlain(c);
    ParseCommandIff(line, c);
    IndexOfUnique(line, '\0', []);
    assert line[..|line|] == line && line + "" == line;
  }

  lemma CappedLineParses(c: Command, caps: seq<string>)
    requires ValidCommand(c) && CapsAllowed(caps) && caps != []
    ensures ParseLine(LineText(c, caps), true) == Ok((c, caps))
  {
    hide ParseCommand, ParseCaps, CapsAllowed, ValidCommand, CommandText, Starts, IndexOf;
    var line, head, tail := LineText(c, caps), CommandText(c), " " + Join(caps, " ");
    CommandTextPlain(c);
    ParseCommandIff(head, c);
    ParseCapsIff(tail, caps);
    IndexOfUnique(head, '\0', tail);
    assert line == head + ['\0'] + tail;
    assert line == head + (['\0'] + tail);
    assert line[..|head|] == head && line[|head| + 1..] == tail;
  }

  /** A line is accepted exactly when it is the text of a valid command with its capabilities. */
  lemma ParseLineIff(line: string, first: bool, c: Command, caps: seq<string>)
    ensures ParseLine(line, first) == Ok((c, caps)) <==> ValidLine(c, caps, first) && line == LineText(c, caps)
  {
    hide ParseLine, CapsAllowed, ValidCommand, CommandText;
    if ParseLine(line, first) == Ok((c, caps)) { LineRead(line, first); }
    if ValidLine(c, caps, first) && line == LineText(c, caps) {
      if caps == [] { PlainLineParses(c, first); } else { CappedLineParses(c, caps); }
    }
  }

  // ----- packets -----

  datatype Packet = Flush | Line(text: string)

  function PacketText(p: Packet): string {
    match p
    case Flush => "0000"
    case Line(s) => Hex(|s| + 4, 4) + s
  }

  /** One packet from the front of the unread input, when `used` bytes were read before it. */
  function NextPacket(rest: string, used: nat, max: int): Result<Packet> {
    if used + 4 > max then Err(TooLarge)
    else if |rest| < 4 then Err(Truncated)
    else
      var n := HexValue(rest[..4]);
      if n.None? then Err(BadPacket)
      else if n.value == 0 then Ok(Flush)
      else if n.value <= 4 || n.value > MAX_PKT then Err(BadPacket)
      else if used + n.value > max then Err(TooLarge)
      else if |rest| < n.value then Err(Truncated)
      else Ok(Line(rest[4..n.value]))
  }

  predicate ValidPacket(p: Packet) { p.Line? ==> 0 < |p.text| <= MAX_PKT - 4 }

  lemma FourDigits()
    ensures Power16(4) == 65536
  {
    assert Power16(0) == 1 && Power16(1) == 16 && Power16(2) == 256 && Power16(3) == 4096;
  }

  lemma PacketSize(p: Packet)
    requires ValidPacket(p)
    ensures |PacketText(p)| == if p.Flush? then 4 else 4 + |p.text|
  {
    FourDigits();
    if p.Line? { HexRoundTrip(|p.text| + 4, 4); }
  }

  /** A packet is read exactly when its text is at the front and fits. */
  lemma NextPacketIff(rest: string, used: nat, max: int, p: Packet)
    ensures NextPacket(rest, used, max) == Ok(p) <==>
      ValidPacket(p) && Starts(rest, PacketText(p)) && used + |PacketText(p)| <= max
  {
    hide Hex, HexValue;
    FourDigits();
    if NextPacket(rest, used, max) == Ok(p) {
      HexCanonical(rest[..4]);
      var n := HexValue(rest[..4]).value;
      if n == 0 {
        ZeroHex();
      } else {
        PacketSize(p);
        assert rest[..n] == rest[..4] + rest[4..n];
      }
    }
    if ValidPacket(p) && Starts(rest, PacketText(p)) && used + |PacketText(p)| <= max {
      PacketSize(p);
      var n := if p.Flush? then 0 else |p.text| + 4;
      HexRoundTrip(n, 4);
      ZeroHex();
      assert rest[..4] == PacketText(p)[..4] == Hex(n, 4) by {
        assert rest[..4] == rest[..|PacketText(p)|][..4];
      }
      if p.Line? {
        assert rest[4..n] == rest[..n][4..] == p.text;
      }
    }
  }

  lemma ZeroHex()
    ensures Hex(0, 4) == "0000"
  {
    assert Hex(0, 0) == "" && Hex(0, 1) == "0" && Hex(0, 2) == "00" && Hex(0, 3) == "000";
  }

  // ----- the whole command part -----

  datatype Parsed = Parsed(commands: seq<Command>, caps: seq<string>, used: nat)

  /** The text of the lines from the front; the capabilities stand on the first. */
  function Lines(cmds: seq<Command>, caps: seq<string>, first: bool): string {
    if cmds == [] then ""
    else PacketText(Line(LineText(cmds[0], if first then caps else []))) + Lines(cmds[1..], caps, false)
  }

  function Encode(cmds: seq<Command>, caps: seq<string>): string { Lines(cmds, caps, true) + "0000" }

  /** The lines that may follow when n commands came before. */
  predicate ValidLines(cmds: seq<Command>, caps: seq<string>, first: bool) {
    forall i :: 0 <= i < |cmds| ==>
      && ValidLine(cmds[i], if first && i == 0 then caps else [], first && i == 0)
      && ValidPacket(Line(LineText(cmds[i], if first && i == 0 then caps else [])))
  }

  /** What a request may say, within the limits. */
  predicate WellFormed(cmds: seq<Command>, caps: seq<string>, lim: Limits) {
    && ValidLines(cmds, caps, true) && (cmds == [] ==> caps == [])
    && |cmds| <= lim.Commands() && |Encode(cmds, caps)| <= lim.Bytes()
  }

  /** Reads the lines up to the flush packet; `done` commands came before. */
  function ParseLines(rest: string, used: nat, done: nat, lim: Limits): Result<Parsed>
    decreases |rest|
  {
    var p := NextPacket(rest, used, lim.Bytes());
    if p.Err? then Err(p.code)
    else if p.value.Flush? then Ok(Parsed([], [], used + 4))
    else if done >= lim.Commands() then Err(TooManyCommands)
    else
      var line := ParseLine(p.value.text, done == 0);
      if line.Err? then Err(line.code)
      else
        var n := 4 + |p.value.text|;
        Prepend(line.value.0, if done == 0 then line.value.1 else [], ParseLines(rest[n..], used + n, done + 1, lim))
  }

  function Prepend(c: Command, caps: seq<string>, more: Result<Parsed>): Result<Parsed> {
    if more.Err? then more else Ok(Parsed([c] + more.value.commands, caps, more.value.used))
  }

  function Parse(input: string, lim: Limits): Result<Push> {
    var r := ParseLines(input, 0, 0, lim);
    if r.Err? then Err(r.code)
    else if r.value.commands == [] && r.value.used < |input| then Err(TrailingData)
    else Ok(Push(r.value.commands, r.value.caps, if r.value.used <= |input| then input[..r.value.used] else input))
  }

  /** What was read is the text of what is returned. */
  lemma {:induction false} ParseLinesSound(rest: string, used: nat, done: nat, lim: Limits)
    requires ParseLines(rest, used, done, lim).Ok?
    ensures var r := ParseLines(rest, used, done, lim).value;
      var text := Lines(r.commands, r.caps, done == 0) + "0000";
      && ValidLines(r.commands, r.caps, done == 0) && (done > 0 || r.commands == [] ==> r.caps == [])
      && Starts(rest, text) && r.used == used + |text| <= lim.Bytes()
      && (r.commands != [] ==> done + |r.commands| <= lim.Commands())
    decreases |rest|
  {
    hide NextPacket, ParseLine, ValidLine, ValidPacket, PacketText, LineText;
    var p := NextPacket(rest, used, lim.Bytes()).value;
    NextPacketIff(rest, used, lim.Bytes(), p);
    if p.Flush? {
      FlushText();
    } else {
      var line := ParseLine(p.text, done == 0).value;
      ParseLineIff(p.text, done == 0, line.0, line.1);
      LineShape(rest, used, lim.Bytes(), p);
      var n := 4 + |p.text|;
      ParseLinesSound(rest[n..], used + n, done + 1, lim);
      var more, r := ParseLines(rest[n..], used + n, done + 1, lim).value, ParseLines(rest, used, done, lim).value;
      SoundStep(rest, line.0, line.1, more, r, p, n, done);
    }
  }

  lemma FlushText()
    ensures PacketText(Flush) == "0000"
  {
  }

  lemma LineShape(rest: string, used: nat, max: int, p: Packet)
    requires NextPacket(rest, used, max) == Ok(p) && p.Line?
    ensures 4 + |p.text| <= |rest| && rest[..4 + |p.text|] == PacketText(p) && |PacketText(p)| == 4 + |p.text|
  {
    hide NextPacket;
    NextPacketIff(rest, used, max, p);
    PacketSize(p);
  }

  lemma SoundStep(rest: string, c: Command, caps: seq<string>, more: Parsed, r: Parsed, p: Packet, n: nat, done: nat)
    requires n <= |rest| && p.Line? && rest[..n] == PacketText(p) && p.text == LineText(c, caps) && ValidPacket(p)
    requires ValidLine(c, caps, done == 0)
    requires r == Parsed([c] + more.commands, if done == 0 then caps else [], more.used)
    requires ValidLines(more.commands, more.caps, false) && Starts(rest[n..], Lines(more.commands, more.caps, false) + "0000")
    ensures ValidLines(r.commands, r.caps, done == 0)
    ensures Lines(r.commands, r.caps, done == 0) == rest[..n] + Lines(more.commands, more.caps, false)
    ensures Starts(rest, Lines(r.commands, r.caps, done == 0) + "0000")
  {
    hide ValidLine, ValidPacket, PacketText, LineText;
    var first := done == 0;
    assert caps == if first then r.caps else [] by { LineCaps(c, caps, first); }
    assert r.commands[1..] == more.commands;
    SameLines(more.commands, more.caps, r.caps);
    forall i | 0 <= i < |r.commands|
      ensures ValidLine(r.commands[i], if first && i == 0 then r.caps else [], first && i == 0)
      ensures ValidPacket(Line(LineText(r.commands[i], if first && i == 0 then r.caps else [])))
    {
      if i > 0 { assert r.commands[i] == more.commands[i - 1]; }
    }
    var tail := Lines(more.commands, more.caps, false) + "0000";
    assert rest == rest[..n] + rest[n..];
    assert Lines(r.commands, r.caps, first) + "0000" == rest[..n] + tail;
    assert rest[..n + |tail|] == rest[..n] + rest[n..][..|tail|];
  }

  lemma LineCaps(c: Command, caps: seq<string>, first: bool)
    requires ValidLine(c, caps, first)
    ensures !first ==> caps == []
  {
  }

  lemma {:induction false} SameLines(cmds: seq<Command>, a: seq<string>, b: seq<string>)
    ensures Lines(cmds, a, false) == Lines(cmds, b, false)
  {
    hide PacketText, LineText;
    if cmds != [] { SameLines(cmds[1..], a, b); }
  }

  /** The text of a well-formed request is read to its end, and nothing after it. */
  lemma {:induction false} ParseLinesComplete(cmds: seq<Command>, caps: seq<string>, rest: string, used: nat, done: nat, lim: Limits)
    requires ValidLines(cmds, caps, done == 0) && (done > 0 || cmds == [] ==> caps == [])
    requires done + |cmds| <= lim.Commands() && used + |Lines(cmds, caps, done == 0) + "0000"| <= lim.Bytes()
    ensures ParseLines(Lines(cmds, caps, done == 0) + "0000" + rest, used, done, lim) ==
      Ok(Parsed(cmds, caps, used + |Lines(cmds, caps, done == 0) + "0000"|))
    decreases |cmds|
  {
    hide NextPacket, ParseLine, ValidLine, ValidPacket, PacketText, LineText;
    var input := Lines(cmds, caps, done == 0) + "0000" + rest;
    FlushText();
    if cmds == [] {
      FlushNext(rest, used, lim.Bytes());
      assert input == "0000" + rest;
    } else {
      var first, c := done == 0, cmds[0];
      var text := LineText(c, if first then caps else []);
      var tail := Lines(cmds[1..], [], false) + "0000";
      SameLines(cmds[1..], caps, []);
      assert input == PacketText(Line(text)) + (tail + rest);
      LineNext(text, tail + rest, used, lim.Bytes());
      ParseLineIff(text, first, c, if first then caps else []);
      assert ValidLines(cmds[1..], [], false) by { TailValid(cmds, caps, first); }
      ParseLinesComplete(cmds[1..], [], rest, used + 4 + |text|, done + 1, lim);
      assert tail + rest == Lines(cmds[1..], [], false) + "0000" + rest;
      assert [c] + cmds[1..] == cmds;
    }
  }

  lemma TailValid(cmds: seq<Command>, caps: seq<string>, first: bool)
    requires cmds != [] && ValidLines(cmds, caps, first)
    ensures ValidLines(cmds[1..], [], false)
  {
    hide ValidLine, ValidPacket, LineText;
    var rest := cmds[1..];
    forall i | 0 <= i < |rest|
      ensures ValidLine(rest[i], [], false) && ValidPacket(Line(LineText(rest[i], [])))
    {
      assert rest[i] == cmds[i + 1];
    }
  }

  lemma FlushNext(rest: string, used: nat, max: int)
    requires used + 4 <= max
    ensures NextPacket("0000" + rest, used, max) == Ok(Flush)
  {
    hide NextPacket;
    NextPacketIff("0000" + rest, used, max, Flush);
  }

  lemma LineNext(text: string, rest: string, used: nat, max: int)
    requires ValidPacket(Line(text)) && used + |PacketText(Line(text))| <= max
    ensures NextPacket(PacketText(Line(text)) + rest, used, max) == Ok(Line(text))
    ensures |PacketText(Line(text))| == 4 + |text|
    ensures (PacketText(Line(text)) + rest)[4 + |text|..] == rest
  {
    hide NextPacket, PacketText;
    PacketSize(Line(text));
    NextPacketIff(PacketText(Line(text)) + rest, used, max, Line(text));
  }

  /**
    A request is accepted exactly when it is the one encoding of well-formed commands and
    capabilities, followed by the packfile, or by nothing when there is no command; and the bytes
    that are handed on are that encoding.
   */
  lemma ParseIff(input: string, lim: Limits, push: Push)
    ensures Parse(input, lim) == Ok(push) <==>
      && WellFormed(push.commands, push.caps, lim)
      && push.raw == Encode(push.commands, push.caps)
      && Starts(input, push.raw)
      && (push.commands == [] ==> input == push.raw)
  {
    hide ParseLines, ValidLines, Lines;
    if Parse(input, lim) == Ok(push) {
      ParseLinesSound(input, 0, 0, lim);
    }
    if WellFormed(push.commands, push.caps, lim) && push.raw == Encode(push.commands, push.caps) && Starts(input, push.raw)
      && (push.commands == [] ==> input == push.raw)
    {
      var rest := input[|push.raw|..];
      assert input == push.raw + rest;
      ParseLinesComplete(push.commands, push.caps, rest, 0, 0, lim);
    }
  }

  /** No two requests have the same bytes. */
  lemma EncodeInjective(a: seq<Command>, ac: seq<string>, b: seq<Command>, bc: seq<string>, lim: Limits)
    requires WellFormed(a, ac, lim) && WellFormed(b, bc, lim) && Encode(a, ac) == Encode(b, bc)
    ensures a == b && ac == bc
  {
    hide Parse, WellFormed;
    var s := Encode(a, ac);
    assert s[..|s|] == s;
    ParseIff(s, lim, Push(a, ac, s));
    ParseIff(s, lim, Push(b, bc, s));
  }

  // ----- the reader -----

  /** pktReader: what is unread, and what was read so far. */
  class PktReader {
    var rest: string
    var raw: string
    const max: int

    constructor (input: string, max: int)
      ensures rest == input && raw == "" && this.max == max
    {
      rest, raw, this.max := input, "", max;
    }

    /** readN: exactly n bytes, or nothing is added to raw. */
    method ReadN(n: nat) returns (r: Result<string>)
      modifies this
      ensures r == if |old(raw)| + n > max then Err(TooLarge)
                   else if |old(rest)| < n then Err(Truncated)
                   else Ok(old(rest)[..n])
      ensures r.Ok? ==> raw == old(raw) + old(rest)[..n] && rest == old(rest)[n..]
      ensures r.Err? ==> raw == old(raw)
    {
      if |raw| + n > max { return Err(TooLarge); }
      if |rest| < n {
        rest := "";
        return Err(Truncated);
      }
      r := Ok(rest[..n]);
      raw, rest := raw + rest[..n], rest[n..];
    }

    method Next() returns (r: Result<Packet>)
      modifies this
      ensures r == NextPacket(old(rest), |old(raw)|, max)
      ensures r.Ok? ==> raw + rest == old(raw + rest)
      ensures r.Ok? ==> |raw| == |old(raw)| + if r.value.Flush? then 4 else 4 + |r.value.text|
      ensures r.Ok? && r.value.Line? ==> 4 + |r.value.text| <= |old(rest)| && rest == old(rest)[4 + |r.value.text|..]
    {
      ghost var before := rest;
      var h := ReadN(4);
      if h.Err? { return Err(h.code); }
      var n: nat := 0;
      for i := 0 to 4
        invariant HexValue(h.value[..i]) == Some(n)
      {
        assert h.value[..i + 1][..i] == h.value[..i];
        var d := HexDigit(h.value[i]);
        if d.None? {
          BadDigit(h.value, i);
          return Err(BadPacket);
        }
        n := n * 16 + d.value;
      }
      assert h.value[..4] == h.value;
      if n == 0 { return Ok(Flush); }
      if n <= 4 || n > MAX_PKT { return Err(BadPacket); }
      var body := ReadN(n - 4);
      if body.Err? { return Err(body.code); }
      assert before[4..][..n - 4] == before[4..n];
      return Ok(Line(body.value));
    }

    static lemma {:induction false} BadDigit(s: string, i: nat)
      requires i < |s| && HexDigit(s[i]).None?
      ensures HexValue(s).None?
    {
      if i < |s| - 1 { BadDigit(s[..|s| - 1], i); }
    }
  }

  /** ParseCommands, packet by packet. */
  method ParseCommands(input: string, lim: Limits) returns (r: Result<Push>)
    ensures r == Parse(input, lim)
  {
    hide ParseLine, NextPacket, Resume, Prepend;
    var p := new PktReader(input, lim.Bytes());
    ResumeStart(ParseLines(input, 0, 0, lim));
    var cmds: seq<Command>, caps: seq<string> := [], [];
    var flushed := false;
    while !flushed
      invariant p.raw + p.rest == input && (flushed ==> |p.raw| >= 4) && p.max == lim.Bytes()
      invariant cmds == [] ==> caps == []
      invariant !flushed ==> ParseLines(input, 0, 0, lim) == Resume(ParseLines(p.rest, |p.raw|, |cmds|, lim), cmds, caps)
      invariant flushed ==> ParseLines(input, 0, 0, lim) == Ok(Parsed(cmds, caps, |p.raw|))
      decreases !flushed, |p.rest|
    {
      ResumeFailed(cmds, caps);
      var next := p.Next();
      if next.Err? { return Err(next.code); }
      if next.value.Flush? {
        ResumeEnd(cmds, caps, |p.raw|);
        flushed := true;
      } else {
        if |cmds| >= lim.Commands() { return Err(TooManyCommands); }
        var line := ParseLine(next.value.text, |cmds| == 0);
        if line.Err? { return Err(line.code); }
        ResumeLine(ParseLines(p.rest, |p.raw|, |cmds| + 1, lim), cmds, caps, line.value.0, line.value.1);
        if |cmds| == 0 { caps := line.value.1; }
        cmds := cmds + [line.value.0];
      }
    }
    if |cmds| == 0 && |p.rest| > 0 { return Err(TrailingData); }
    assert input[..|p.raw|] == p.raw;
    return Ok(Push(cmds, caps, p.raw));
  }

  /** What the commands so far and those still to come make together. */
  function Resume(r: Result<Parsed>, cmds: seq<Command>, caps: seq<string>): Result<Parsed> {
    if r.Err? then r
    else Ok(Parsed(cmds + r.value.commands, if cmds == [] then r.value.caps else caps, r.value.used))
  }

  lemma ResumeStart(r: Result<Parsed>)
    ensures Resume(r, [], []) == r
  {
    if r.Ok? { assert [] + r.value.commands == r.value.commands; }
  }

  lemma ResumeFailed(cmds: seq<Command>, caps: seq<string>)
    ensures forall code :: Resume(Err(code), cmds, caps) == Err(code)
  {
  }

  lemma ResumeEnd(cmds: seq<Command>, caps: seq<string>, used: nat)
    requires cmds == [] ==> caps == []
    ensures Resume(Ok(Parsed([], [], used)), cmds, caps) == Ok(Parsed(cmds, caps, used))
  {
    assert cmds + [] == cmds;
  }

  lemma ResumeLine(more: Result<Parsed>, cmds: seq<Command>, caps: seq<string>, c: Command, own: seq<string>)
    ensures Resume(Prepend(c, if |cmds| == 0 then own else [], more), cmds, caps) ==
      Resume(more, cmds + [c], if |cmds| == 0 then own else caps)
    ensures more.Err? ==> Resume(more, cmds, caps) == more
  {
    if more.Ok? { assert cmds + ([c] + more.value.commands) == cmds + [c] + more.value.commands; }
  }
}
