/**
  What the relay answers and writes, in the words of the protocol: the values of the headers that
  it writes itself, and the status for each fault of a request line, a header or a line.
 */
module RelayLaws {
  import opened Wrappers
  import opened Strings
  import opened Relay

  // ----- the values of the headers -----

  /** The header of this line under this name has this value. */
  predicate Says(line: string, lower: string, value: string) {
    Named(line, lower) ==> HeaderOf(line).value.value == value
  }

  /**
    In an emitted head the Host, the Authorization and the Connection have the relay's own values,
    and the Content-Length reads as the length of the body.
   */
  lemma HeadTells(input: string, host: string, auth: string, lim: Limits, rest: string)
    requires Parse(input, host, auth, lim).Ok? && Sendable(host, auth)
    ensures var q := Parse(input, host, auth, lim).value.request;
      && SplitHead(q.head + rest).Some? && SplitHead(q.head + rest).value.0 != []
      && forall l :: l in SplitHead(q.head + rest).value.0[1..] ==>
           && HeaderOf(l).Ok?
           && Says(l, "host", host) && Says(l, "authorization", auth) && Says(l, "connection", "close")
           && (Named(l, "content-length") ==>
                 Digits(HeaderOf(l).value.value) && Atoi(HeaderOf(l).value.value) == q.bodyLen)
  {
    hide Parse, ProperFirst, Kept, Sendable, HeadLines, HeaderLines, SplitHead, Says, Named, HeaderOf, OwnHeaders, Atoi, Digits;
    var t, st := ParseShape(input, host, auth, lim);
    EmittedLines(t, host, auth, st, rest);
    var hs := OwnHeaders(host, auth, BodyLen(st)) + st.headers;
    AllProper(host, auth, st);
    forall l | l in HeaderLines(hs)
      ensures HeaderOf(l).Ok? && Says(l, "host", host) && Says(l, "authorization", auth) && Says(l, "connection", "close")
      ensures Named(l, "content-length") ==> Digits(HeaderOf(l).value.value) && Atoi(HeaderOf(l).value.value) == BodyLen(st)
    {
      var h := LineOf(hs, l);
      HeaderRoundTrip(h);
      ValueOf(host, auth, st, h);
      NamedIs(h, l);
    }
  }

  lemma LineOf(hs: seq<Header>, l: string) returns (h: Header)
    requires l in HeaderLines(hs)
    ensures h in hs && l == HeaderText(h)
  {
    var i :| 0 <= i < |hs| && HeaderLines(hs)[i] == l;
    h := hs[i];
  }

  lemma NamedIs(h: Header, l: string)
    requires HeaderOf(l) == Ok(h)
    ensures forall lower :: Named(l, lower) <==> Lower(h.name) == lower
    ensures forall lower, v :: Says(l, lower, v) <==> (Lower(h.name) == lower ==> h.value == v)
  {
    hide HeaderOf, Lower;
  }

  /** The value of a header of the head by its name; the allowed ones have none of these names. */
  lemma ValueOf(host: string, auth: string, st: State, h: Header)
    requires Kept(st) && h in OwnHeaders(host, auth, BodyLen(st)) + st.headers
    ensures (Lower(h.name) == "host" ==> h.value == host) && (Lower(h.name) == "authorization" ==> h.value == auth)
    ensures Lower(h.name) == "connection" ==> h.value == "close"
    ensures Lower(h.name) == "content-length" ==> Digits(h.value) && Atoi(h.value) == BodyLen(st)
  {
    hide Lower, Proper, Itoa, Atoi, Digits;
    OwnNames();
    AtoiItoa(BodyLen(st));
    NamesDiffer();
    if h in OwnHeaders(host, auth, BodyLen(st)) {
      var own := OwnHeaders(host, auth, BodyLen(st));
      var i :| 0 <= i < 4 && own[i] == h;
    } else {
      assert Lower(h.name) in ALLOWED;
    }
  }

  lemma NamesDiffer()
    ensures "host" !in ALLOWED && "authorization" !in ALLOWED && "connection" !in ALLOWED && "content-length" !in ALLOWED
    ensures "host" != "authorization" && "host" != "connection" && "host" != "content-length"
    ensures "authorization" != "connection" && "authorization" != "content-length" && "connection" != "content-length"
  {
    assert "host"[0] == 'h' && "authorization"[0] == 'a' && "connection"[2] == 'n' && "content-length"[2] == 'n';
    assert "authorization"[1] == 'u' && "accept"[1] == 'c';
    assert |"content-type"| == 12 && |"content-length"| == 14 && |"connection"| == 10 && |"cache-control"| == 13 && |"last-event-id"| == 13;
  }

  /** The head, line by line: the request line as it came, the four headers, the allowed ones as they came. */
  lemma HeadText(t: Target, host: string, auth: string, st: State)
    ensures Emit(t, host, auth, st).head ==
      (t.verb + " " + t.target + " HTTP/1.1") + "\r\n" + (("Host: " + host) + "\r\n" + (("Authorization: " + auth) + "\r\n"
      + ("Connection: close" + "\r\n" + (("Content-Length: " + Itoa(if st.clen < 0 then 0 else st.clen)) + "\r\n"
      + Text(HeaderLines(st.headers))))))
  {
    hide Itoa, HeaderLines, HeaderText, Text;
    var own := OwnHeaders(host, auth, BodyLen(st));
    var all := own + st.headers;
    assert all[0..] == all && all[4..] == st.headers;
    OwnTexts(host, auth, BodyLen(st));
    TextOf(FirstText(t), HeaderLines(all));
    HeadNext(all, 0);
    HeadNext(all, 1);
    HeadNext(all, 2);
    HeadNext(all, 3);
    Grouped(HeaderText(all[0]), Text(HeaderLines(all[1..])));
    Grouped(HeaderText(all[1]), Text(HeaderLines(all[2..])));
  }

  lemma TextOf(first: string, lines: seq<string>)
    ensures Text([first] + lines) == first + "\r\n" + Text(lines)
  {
    assert ([first] + lines)[1..] == lines;
  }

  lemma Grouped(a: string, b: string)
    ensures a + "\r\n" + b == a + ("\r\n" + b)
  {
  }

  lemma OwnTexts(host: string, auth: string, n: nat)
    ensures var own := OwnHeaders(host, auth, n);
      && HeaderText(own[0]) == "Host: " + host && HeaderText(own[1]) == "Authorization: " + auth
      && HeaderText(own[2]) == "Connection: close" && HeaderText(own[3]) == "Content-Length: " + Itoa(n)
  {
    hide Itoa;
    assert "Host" + ": " == "Host: " && "Authorization" + ": " == "Authorization: ";
    assert "Content-Length" + ": " == "Content-Length: ";
  }

  // ----- the status of each fault -----

  lemma LowerTells(s: string)
    ensures |Lower(s)| == |s|
    ensures forall i :: 0 <= i < |s| ==>
      Lower(s)[i] == if 'A' <= s[i] <= 'Z' then (s[i] as int - 'A' as int + 'a' as int) as char else s[i]
  {
  }

  /** A line ends with CR LF within both limits; without an end it is too long or not all there. */
  lemma LineTells(input: string, budget: int, maxLine: nat, text: string, rest: string)
    requires '\n' !in text
    ensures '\n' !in input ==> ReadLine(input, budget, maxLine) == if |input| >= maxLine then Rejected(431) else Ended
    ensures input == text + "\n" + rest ==>
      ReadLine(input, budget, maxLine) ==
        if |text| + 1 > maxLine || |text| + 1 > budget then Rejected(431)
        else if text == "" || text[|text| - 1] != '\r' then Rejected(400)
        else Ok(Line(text[..|text| - 1], rest))
  {
    if '\n' !in input {
      IndexOfUnique(input, '\n', "");
    } else if input == text + "\n" + rest {
      assert "\n" == ['\n'];
      IndexOfUnique(text, '\n', rest);
      assert input[..|text|] == text && input[|text| + 1..] == rest;
      assert text != "" ==> input[..|text| - 1] == text[..|text| - 1] && input[|text| - 1] == text[|text| - 1];
    }
  }

  predicate Stands(s: string, i: nat, part: string) { i + |part| <= |s| && s[i..i + |part|] == part }

  /** No segment of the path is a dot or two, and none of '.', '/' and '\\' stands there encoded. */
  ghost predicate NoTricks(path: string) {
    && (forall i: nat :: !Stands(path, i, "%2e") && !Stands(path, i, "%2E"))
    && (forall i: nat :: !Stands(path, i, "%2f") && !Stands(path, i, "%2F"))
    && (forall i: nat :: !Stands(path, i, "%5c") && !Stands(path, i, "%5C"))
    && forall seg :: seg in Split(path, '/') ==> seg != "." && seg != ".."
  }

  /** The two spellings of an encoded character, of which the second has a capital. */
  predicate Spellings(part: string, capital: string) {
    && |part| == |capital| == 3 && part[0] == '%' == capital[0] && '0' <= part[1] <= '9' && capital[1] == part[1]
    && 'a' <= part[2] <= 'z' && capital[2] as int == part[2] as int - 32
  }

  lemma EncodedTells(path: string, i: nat, part: string, capital: string)
    requires Spellings(part, capital)
    ensures i <= |path| && Starts(Lower(path)[i..], part) <==> Stands(path, i, part) || Stands(path, i, capital)
  {
    var l := Lower(path);
    if i + 3 <= |path| {
      assert l[i..][..3] == [LowerByte(path[i]), LowerByte(path[i + 1]), LowerByte(path[i + 2])];
      assert path[i..i + 3] == [path[i], path[i + 1], path[i + 2]];
      assert part == [part[0], part[1], part[2]] && capital == [capital[0], capital[1], capital[2]];
    }
  }

  lemma ContainsTells(path: string, part: string, capital: string)
    requires Spellings(part, capital)
    ensures Contains(Lower(path), part) <==> exists i: nat :: Stands(path, i, part) || Stands(path, i, capital)
  {
    hide Lower, Starts, Stands;
    LowerTells(path);
    forall i: nat ensures i <= |path| && Starts(Lower(path)[i..], part) <==> Stands(path, i, part) || Stands(path, i, capital) {
      EncodedTells(path, i, part, capital);
    }
    if Contains(Lower(path), part) {
      var i :| 0 <= i <= |path| && Starts(Lower(path)[i..], part);
      assert Stands(path, i, part) || Stands(path, i, capital);
    }
  }

  lemma PathTells(path: string)
    ensures PlainPath(path) <==> NoTricks(path)
  {
    hide Lower, Split, Contains, Stands;
    ContainsTells(path, "%2e", "%2E");
    ContainsTells(path, "%2f", "%2F");
    ContainsTells(path, "%5c", "%5C");
  }

  /** A target begins with /api/, is short and printable, and names no fragment and no backslash. */
  predicate ApiTarget(t: string) {
    && |t| <= 4096 && "/api/" <= t
    && forall c :: c in t ==> ' ' <= c <= '~' && c != '#' && c != '\\'
  }

  lemma TargetTells(t: string)
    ensures GoodTarget(t) <==> ApiTarget(t)
  {
    if GoodTarget(t) {
      forall c | c in t ensures ' ' <= c <= '~' { var i :| 0 <= i < |t| && t[i] == c; }
    } else if ApiTarget(t) {
      forall i | 0 <= i < |t| ensures ' ' <= t[i] <= '~' { assert t[i] in t; }
    }
  }

  /** The request line has three words, a method that is let through, the version, and a target below /api/. */
  lemma RequestLineTells(line: string)
    ensures var ws := Split(line, ' ');
      ParseFirst(line) ==
        if |ws| != 3 then Rejected(400)
        else if ws[0] !in {"GET", "POST", "PUT", "PATCH", "DELETE"} then Rejected(405)
        else if ws[2] != "HTTP/1.1" then Rejected(505)
        else if ApiTarget(ws[1]) && NoTricks(ws[1][..IndexOf(ws[1], '?')]) then Ok(Target(ws[0], ws[1]))
        else Rejected(400)
  {
    hide Split, GoodTarget, ApiTarget, PlainPath, NoTricks, IndexOf;
    var ws := Split(line, ' ');
    if |ws| == 3 {
      TargetTells(ws[1]);
      PathTells(ws[1][..IndexOf(ws[1], '?')]);
    }
  }

  predicate Blanks(s: string) { forall c :: c in s ==> c == ' ' || c == '\t' }

  /** Letters, digits and the marks that a name may have. */
  predicate NameChars(s: string) {
    forall c :: c in s ==>
      || 'a' <= c <= 'z' || 'A' <= c <= 'Z' || '0' <= c <= '9'
      || c in {'!', '#', '$', '%', '&', '\'', '*', '+', '-', '.', '^', '_', '`', '|', '~'}
  }

  predicate Printable(s: string) { forall c :: c in s ==> ' ' <= c <= '~' || c == '\t' }

  /** The line is a name, a colon, and the value between blanks. */
  ghost predicate Spells(line: string, h: Header, l: string, r: string) {
    && line == h.name + ":" + (l + h.value + r) && Blanks(l) && Blanks(r)
    && h.name != "" && NameChars(h.name) && Printable(h.value)
    && (h.value != "" ==> !Blank(h.value[0]) && !Blank(h.value[|h.value| - 1]))
  }

  lemma NamesAre(s: string)
    ensures Token(s) <==> NameChars(s)
  {
    if Token(s) {
      forall c | c in s ensures TokenByte(c) { var i :| 0 <= i < |s| && s[i] == c; }
    } else if NameChars(s) {
      forall i | 0 <= i < |s| ensures TokenByte(s[i]) { assert s[i] in s; }
    }
  }

  lemma PrintableAre(s: string)
    ensures Visible(s, true) <==> Printable(s)
  {
    if Visible(s, true) {
      forall c | c in s ensures ' ' <= c <= '~' || c == '\t' { var i :| 0 <= i < |s| && s[i] == c; }
    } else if Printable(s) {
      forall i | 0 <= i < |s| ensures ' ' <= s[i] <= '~' || s[i] == '\t' { assert s[i] in s; }
    }
  }

  lemma {:induction false} LeftBlanks(s: string) returns (l: string)
    ensures s == l + TrimLeft(s) && Blanks(l)
  {
    if s != "" && Blank(s[0]) {
      var more := LeftBlanks(s[1..]);
      l := [s[0]] + more;
    } else {
      l := "";
    }
  }

  lemma {:induction false} RightBlanks(s: string) returns (r: string)
    ensures s == TrimRight(s) + r && Blanks(r)
  {
    if s != "" && Blank(s[|s| - 1]) {
      var more := RightBlanks(s[..|s| - 1]);
      r := more + [s[|s| - 1]];
      assert s == s[..|s| - 1] + [s[|s| - 1]];
    } else {
      r := "";
    }
  }

  lemma {:induction false} TrimLeftBlanks(l: string, v: string)
    requires Blanks(l)
    ensures TrimLeft(l + v) == TrimLeft(v)
  {
    if l == "" {
      assert l + v == v;
    } else {
      assert l[0] in l && (l + v)[1..] == l[1..] + v;
      assert forall c :: c in l[1..] ==> c in l;
      TrimLeftBlanks(l[1..], v);
    }
  }

  lemma {:induction false} TrimRightBlanks(v: string, r: string)
    requires Blanks(r)
    ensures TrimRight(v + r) == TrimRight(v)
  {
    if r == "" {
      assert v + r == v;
    } else {
      assert r[|r| - 1] in r && (v + r)[..|v + r| - 1] == v + r[..|r| - 1];
      var front := r[..|r| - 1];
      assert r == front + [r[|r| - 1]];
      forall c | c in front ensures c in r { assert c in front + [r[|r| - 1]]; }
      assert Blanks(front);
      TrimRightBlanks(v, front);
    }
  }

  /** What is left of a value between blanks is the value. */
  lemma TrimTells(l: string, v: string, r: string)
    requires Blanks(l) && Blanks(r) && (v != "" ==> !Blank(v[0]) && !Blank(v[|v| - 1]))
    ensures Trim(l + v + r) == v
  {
    hide Blank;
    assert l + v + r == l + (v + r);
    TrimLeftBlanks(l, v + r);
    if v == "" {
      assert v + r == r + "";
      TrimLeftBlanks(r, "");
    } else {
      assert (v + r)[0] == v[0];
      TrimRightBlanks(v, r);
    }
  }

  /** A header line is read exactly when it spells a header, and then as that header. */
  lemma HeaderTells(line: string, h: Header)
    requires line != ""
    ensures HeaderOf(line) == Ok(h) <==> exists l, r :: Spells(line, h, l, r)
    ensures !HeaderOf(line).Ok? ==> HeaderOf(line) == Rejected(400)
  {
    hide Trim, Token, IndexOf;
    if HeaderOf(line) == Ok(h) {
      var raw := line[|h.name| + 1..];
      assert line == h.name + [':'] + raw;
      var l := LeftBlanks(raw);
      var r := RightBlanks(TrimLeft(raw));
      SpelledBy(line, h, raw, l, r);
    }
    if l, r :| Spells(line, h, l, r) {
      SpellsIs(line, h, l, r);
    }
  }

  lemma SpelledBy(line: string, h: Header, raw: string, l: string, r: string)
    requires HeaderOf(line) == Ok(h) && line == h.name + [':'] + raw && raw == line[|h.name| + 1..]
    requires raw == l + TrimLeft(raw) && TrimLeft(raw) == TrimRight(TrimLeft(raw)) + r && Blanks(l) && Blanks(r)
    ensures Spells(line, h, l, r)
  {
    hide Token, IndexOf, TrimLeft, TrimRight;
    TrimIs(raw);
    NamesAre(h.name);
    PrintableAre(h.value);
    assert h.value == Trim(raw);
    assert raw == l + (h.value + r) == l + h.value + r;
  }

  lemma SpellsIs(line: string, h: Header, l: string, r: string)
    requires Spells(line, h, l, r)
    ensures HeaderOf(line) == Ok(h)
  {
    hide Trim, Token, IndexOf, Blank;
    var raw := l + h.value + r;
    assert line == h.name + [':'] + raw;
    NamesAre(h.name);
    TokenPlain(h.name);
    IndexOfUnique(h.name, ':', raw);
    assert line[..|h.name|] == h.name && line[|h.name| + 1..] == raw && line[0] == h.name[0];
    TrimTells(l, h.value, r);
    BlanksPrintable(l, h.value, r);
    PrintableAre(raw);
  }

  lemma BlanksPrintable(l: string, v: string, r: string)
    requires Blanks(l) && Blanks(r) && Printable(v)
    ensures Printable(l + v + r)
  {
    forall c | c in l + v + r ensures ' ' <= c <= '~' || c == '\t' {
      if c in l { } else if c in v { } else { assert c in r; }
    }
  }

  /** Up to ten digits. */
  predicate LengthDigits(v: string) { 1 <= |v| <= 10 && forall i :: 0 <= i < |v| ==> '0' <= v[i] <= '9' }

  /** What one header line does: it is refused with this status, dropped, read as the length, or kept. */
  lemma HeaderLineTells(st: State, line: string)
    ensures TakeLine(st, line) ==
      if st.lines >= 64 then Rejected(431)
      else if !HeaderOf(line).Ok? then Rejected(400)
      else
        var h, more := HeaderOf(line).value, st.(lines := st.lines + 1);
        match Lower(h.name)
        case "transfer-encoding" => Rejected(501)
        case "upgrade" => Rejected(400)
        case "expect" => Rejected(417)
        case "content-length" =>
          if st.clen >= 0 || !LengthDigits(h.value) then Rejected(400)
          else if Atoi(h.value) > 1048576 then Rejected(413)
          else Ok(more.(clen := Atoi(h.value)))
        case "host" => Ok(more)
        case "authorization" => Ok(more)
        case "proxy-authorization" => Ok(more)
        case "connection" => Ok(more)
        case name =>
          if name in {"content-type", "accept", "cache-control", "last-event-id"} && forall x :: x in st.headers ==> Lower(x.name) != name
          then Ok(more.(headers := st.headers + [h])) else Rejected(400)
  {
    hide HeaderOf, Lower, Atoi;
    MalformedTells(line);
    if HeaderOf(line).Ok? { LengthTells(HeaderOf(line).value.value); }
  }

  lemma MalformedTells(line: string)
    ensures !HeaderOf(line).Ok? ==> HeaderOf(line) == Rejected(400)
  {
  }

  lemma LengthTells(v: string)
    ensures ContentLength(v) ==
      if !LengthDigits(v) then Rejected(400) else if Atoi(v) > 1048576 then Rejected(413) else Ok(Atoi(v))
  {
    hide Atoi;
  }

  // ----- which requests are accepted -----

  /** The input is a request line and header lines that are all taken, an empty line and the rest, within the limits. */
  ghost predicate Accepts(input: string, lim: Limits, first: string, lines: seq<string>, rest: string) {
    && input == first + "\r\n" + (Text(lines) + rest) && '\n' !in first && |first| + 2 <= lim.line
    && ParseFirst(first).Ok? && TakeAll(START, lines).Ok?
    && Readable(lines, lim) && lim.line >= 2 && |first| + 2 + |Text(lines)| <= lim.head
  }

  /** A request is accepted exactly when it is such an input, and what follows its head is left for the body. */
  lemma AcceptedIff(input: string, host: string, auth: string, lim: Limits)
    ensures Parse(input, host, auth, lim).Ok? <==> exists first, lines, rest :: Accepts(input, lim, first, lines, rest)
    ensures forall first, lines, rest :: Accepts(input, lim, first, lines, rest) ==>
      Parse(input, host, auth, lim) ==
        Ok(Parsed(Emit(ParseFirst(first).value, host, auth, TakeAll(START, lines).value), rest))
  {
    hide ReadLine, ParseHeaders, ParseFirst, TakeAll, Emit;
    if Parse(input, host, auth, lim).Ok? {
      var r := ReadLine(input, lim.head, lim.line).value;
      ReadLineIff(input, lim.head, lim.line, r);
      var lines := InputWithin(r.rest, lim.head - (|r.text| + 2), lim, START);
      var done := ParseHeaders(r.rest, lim.head - (|r.text| + 2), lim, START).value;
      assert input == r.text + "\r\n" + (Text(lines) + done.rest);
      assert Accepts(input, lim, r.text, lines, done.rest);
    }
    forall first, lines, rest | Accepts(input, lim, first, lines, rest)
      ensures Parse(input, host, auth, lim) ==
        Ok(Parsed(Emit(ParseFirst(first).value, host, auth, TakeAll(START, lines).value), rest))
    {
      ReadFirst(first, Text(lines) + rest, lim.head, lim.line);
      ReadText(lines, rest, lim.head - (|first| + 2), lim, START);
    }
  }

  /** The lines that the loop has read, within the limits. */
  lemma {:induction false} InputWithin(input: string, budget: int, lim: Limits, st: State) returns (lines: seq<string>)
    requires ParseHeaders(input, budget, lim, st).Ok?
    ensures var done := ParseHeaders(input, budget, lim, st).value;
      && input == Text(lines) + done.rest && TakeAll(st, lines) == Ok(done.state)
      && Readable(lines, lim) && |Text(lines)| <= budget && lim.line >= 2
    decreases |input|
  {
    hide ReadLine, TakeLine;
    var r := ReadLine(input, budget, lim.line).value;
    ReadLineIff(input, budget, lim.line, r);
    if r.text == "" {
      lines := [];
      assert input == "\r\n" + r.rest;
    } else {
      var more := InputWithin(r.rest, budget - (|r.text| + 2), lim, TakeLine(st, r.text).value);
      lines := [r.text] + more;
      assert lines[1..] == more;
      assert input == r.text + "\r\n" + (Text(more) + ParseHeaders(input, budget, lim, st).value.rest);
    }
  }

  /** With the limits of the source no accepted line is longer than 16 KiB and no accepted head than 32 KiB. */
  lemma AcceptedWithin(input: string, host: string, auth: string, first: string, lines: seq<string>, rest: string)
    requires Accepts(input, RELAY_LIMITS, first, lines, rest)
    ensures |first| + 2 <= 16384 && (forall i :: 0 <= i < |lines| ==> |lines[i]| + 2 <= 16384)
    ensures |input| - |rest| <= 32768
  {
    hide Text, TakeAll, ParseFirst;
  }

  // ----- the first fault -----

  /** The lines one after the other, each with its end. */
  function Closed(lines: seq<string>): string { if lines == [] then "" else lines[0] + "\r\n" + Closed(lines[1..]) }

  /** After these lines were taken the next one is refused with this status. */
  ghost predicate Refuses(input: string, budget: int, lim: Limits, st: State, lines: seq<string>, rest: string, status: nat) {
    && input == Closed(lines) + rest && TakeAll(st, lines).Ok? && Readable(lines, lim)
    && var next := ReadLine(rest, budget - |Closed(lines)|, lim.line);
       || next == Rejected(status)
       || (next.Ok? && next.value.text != "" && TakeLine(TakeAll(st, lines).value, next.value.text) == Rejected(status))
  }

  /** The headers are refused with the status of the first line that cannot be read or taken. */
  lemma {:induction false} FirstFault(input: string, budget: int, lim: Limits, st: State)
    requires ParseHeaders(input, budget, lim, st).Rejected?
    ensures exists lines, rest :: Refuses(input, budget, lim, st, lines, rest, ParseHeaders(input, budget, lim, st).status)
    decreases |input|
  {
    hide ReadLine, TakeLine;
    var status := ParseHeaders(input, budget, lim, st).status;
    var r := ReadLine(input, budget, lim.line);
    if r.Rejected? || TakeLine(st, r.value.text).Rejected? {
      assert Closed([]) + input == input;
      assert Refuses(input, budget, lim, st, [], input, status);
    } else {
      var line := r.value;
      ReadLineIff(input, budget, lim.line, line);
      var next := TakeLine(st, line.text).value;
      FirstFault(line.rest, budget - (|line.text| + 2), lim, next);
      var lines, rest :| Refuses(line.rest, budget - (|line.text| + 2), lim, next, lines, rest, status);
      OneMoreRefuses(input, budget, lim, st, line, lines, rest, status);
    }
  }

  lemma OneMoreRefuses(input: string, budget: int, lim: Limits, st: State, line: Line, lines: seq<string>, rest: string, status: nat)
    requires ReadLine(input, budget, lim.line) == Ok(line) && line.text != "" && TakeLine(st, line.text).Ok?
    requires Refuses(line.rest, budget - (|line.text| + 2), lim, TakeLine(st, line.text).value, lines, rest, status)
    ensures Refuses(input, budget, lim, st, [line.text] + lines, rest, status)
  {
    hide ReadLine, TakeLine;
    ReadLineIff(input, budget, lim.line, line);
    var all := [line.text] + lines;
    assert all[1..] == lines;
    assert input == line.text + "\r\n" + line.rest == Closed(all) + rest;
    assert |Closed(all)| == |line.text| + 2 + |Closed(lines)|;
  }

  ghost predicate HeaderRefused(input: string, budget: int, lim: Limits, status: nat) {
    exists lines, rest :: Refuses(input, budget, lim, START, lines, rest, status)
  }

  /** A request is refused for its first line, or else for the first of its headers that is at fault. */
  lemma RejectedTells(input: string, host: string, auth: string, lim: Limits)
    requires Parse(input, host, auth, lim).Rejected?
    ensures var status, first := Parse(input, host, auth, lim).status, ReadLine(input, lim.head, lim.line);
      || first == Rejected(status)
      || (first.Ok? && ParseFirst(first.value.text) == Rejected(status))
      || (first.Ok? && ParseFirst(first.value.text).Ok?
          && HeaderRefused(first.value.rest, lim.head - (|first.value.text| + 2), lim, status))
  {
    hide ReadLine, ParseFirst, ParseHeaders, Refuses;
    var first := ReadLine(input, lim.head, lim.line);
    if first.Ok? && ParseFirst(first.value.text).Ok? {
      FirstFault(first.value.rest, lim.head - (|first.value.text| + 2), lim, START);
    }
  }
}
