/**
  cmd/goronation/relay_http.go: the head of a request is read line by line, checked and written
  anew. Sections 3, 5 and 6.3 of RFC 9112 say what a reader makes of a head; here every reader
  makes the same of what is written. A char stands for a byte.
 */
module Relay {
  import opened Wrappers
  import opened Strings

  const MAX_HEADERS := 64
  const MAX_TARGET := 0x1000
  const MAX_BODY := 0x10_0000

  datatype Limits = Limits(line: nat, head: nat)

  /** The limits of the source; the laws below hold for any. */
  const RELAY_LIMITS := Limits(0x4000, 0x8000)

  /** Ended: the input ends where something is still to come. */
  datatype Result<T> = Ok(value: T) | Rejected(status: nat) | Ended

  const METHODS: set<string> := {"GET", "POST", "PUT", "PATCH", "DELETE"}
  const REPLACED: set<string> := {"authorization", "proxy-authorization", "host", "connection"}
  const ALLOWED: set<string> := {"content-type", "accept", "cache-control", "last-event-id"}

  datatype Header = Header(name: string, value: string)

  // ----- characters -----

  predicate TokenByte(c: char) {
    'a' <= c <= 'z' || 'A' <= c <= 'Z' || '0' <= c <= '9' || c in "!#$%&'*+-.^_`|~"
  }

  predicate Token(s: string) { forall i :: 0 <= i < |s| ==> TokenByte(s[i]) }

  predicate Visible(s: string, tabs: bool) { forall i :: 0 <= i < |s| ==> ' ' <= s[i] <= '~' || (tabs && s[i] == '\t') }

  function LowerByte(c: char): char { if 'A' <= c <= 'Z' then (c as int + 32) as char else c }

  function Lower(s: string): string { seq(|s|, i requires 0 <= i < |s| => LowerByte(s[i])) }

  predicate Blank(c: char) { c == ' ' || c == '\t' }

  function TrimLeft(s: string): string { if s != "" && Blank(s[0]) then TrimLeft(s[1..]) else s }

  function TrimRight(s: string): string { if s != "" && Blank(s[|s| - 1]) then TrimRight(s[..|s| - 1]) else s }

  function Trim(s: string): string { TrimRight(TrimLeft(s)) }

  predicate Trimmed(s: string) { s == "" || (!Blank(s[0]) && !Blank(s[|s| - 1])) }

  lemma {:induction false} TrimLeftIs(s: string)
    ensures var t := TrimLeft(s); |t| <= |s| && s[|s| - |t|..] == t && (t == "" || !Blank(t[0]))
  {
    if s != "" && Blank(s[0]) { TrimLeftIs(s[1..]); }
  }

  lemma {:induction false} TrimRightIs(s: string)
    ensures var t := TrimRight(s); |t| <= |s| && s[..|t|] == t && (t == "" || !Blank(t[|t| - 1]))
  {
    if s != "" && Blank(s[|s| - 1]) { TrimRightIs(s[..|s| - 1]); }
  }

  /** What is left after trimming is trimmed, and has no other characters than before. */
  lemma TrimIs(s: string)
    ensures Trimmed(Trim(s)) && (Visible(s, true) ==> Visible(Trim(s), true))
  {
    hide TrimLeft, TrimRight, Blank;
    var l := TrimLeft(s);
    TrimLeftIs(s);
    TrimRightIs(l);
    var t := TrimRight(l);
    if t != "" { assert t[0] == l[0]; }
    forall i | 0 <= i < |t| ensures t[i] in s { assert t[i] == l[i] == s[|s| - |l| + i]; }
  }

  lemma TrimSpaced(v: string)
    requires Trimmed(v)
    ensures Trim(" " + v) == v
  {
    assert (" " + v)[1..] == v;
    assert TrimLeft(v) == v;
  }

  // ----- lines -----

  datatype Line = Line(text: string, rest: string)

  /** readHeadLine: one line that ends with CR LF, within the limits. */
  function ReadLine(input: string, budget: int, maxLine: nat): Result<Line> {
    var i := IndexOf(input, '\n');
    if i == |input| then (if i >= maxLine then Rejected(431) else Ended)
    else if i + 1 > maxLine || i + 1 > budget then Rejected(431)
    else if i == 0 || input[i - 1] != '\r' then Rejected(400)
    else Ok(Line(input[..i - 1], input[i + 1..]))
  }

  lemma ReadLineIff(input: string, budget: int, maxLine: nat, line: Line)
    ensures ReadLine(input, budget, maxLine) == Ok(line) <==>
      && '\n' !in line.text && input == line.text + "\r\n" + line.rest
      && |line.text| + 2 <= maxLine && |line.text| + 2 <= budget
  {
    hide IndexOf;
    var i := IndexOf(input, '\n');
    if ReadLine(input, budget, maxLine) == Ok(line) {
      assert input == input[..i - 1] + [input[i - 1]] + [input[i]] + input[i + 1..];
      assert '\n' !in line.text by {
        assert forall k :: 0 <= k < i - 1 ==> input[..i][k] == line.text[k];
      }
    }
    if '\n' !in line.text && input == line.text + "\r\n" + line.rest {
      var front := line.text + "\r";
      assert input == front + ['\n'] + line.rest;
      IndexOfUnique(front, '\n', line.rest);
      assert input[..i - 1] == line.text && input[i - 1] == '\r' && input[i + 1..] == line.rest;
    }
  }

  // ----- one header -----

  /** The name and the trimmed value of a header line. */
  function HeaderOf(line: string): Result<Header> {
    if line == "" || Blank(line[0]) then Rejected(400)
    else
      var i := IndexOf(line, ':');
      if i == |line| || i == 0 || !Token(line[..i]) || !Visible(line[i + 1..], true) then Rejected(400)
      else Ok(Header(line[..i], Trim(line[i + 1..])))
  }

  predicate Proper(h: Header) { h.name != "" && Token(h.name) && Visible(h.value, true) && Trimmed(h.value) }

  function HeaderText(h: Header): string { h.name + ": " + h.value }

  lemma HeaderOfProper(line: string)
    ensures HeaderOf(line).Ok? ==> Proper(HeaderOf(line).value)
  {
    hide Trim, Trimmed, Token;
    var i := IndexOf(line, ':');
    if HeaderOf(line).Ok? { TrimIs(line[i + 1..]); }
  }

  lemma TokenPlain(s: string)
    requires Token(s)
    ensures ':' !in s && '\n' !in s && (s != "" ==> !Blank(s[0]))
  {
    if s != "" { assert TokenByte(s[0]); }
  }

  /** A header is read back from its text. */
  lemma HeaderRoundTrip(h: Header)
    requires Proper(h)
    ensures HeaderOf(HeaderText(h)) == Ok(h)
    ensures '\n' !in HeaderText(h) && HeaderText(h) != ""
  {
    hide Trim, Trimmed, IndexOf, Token, Blank;
    var s := HeaderText(h);
    assert s == h.name + [':'] + (" " + h.value);
    TokenPlain(h.name);
    IndexOfUnique(h.name, ':', " " + h.value);
    TrimSpaced(h.value);
    assert s[..|h.name|] == h.name && s[|h.name| + 1..] == " " + h.value;
    assert s[0] == h.name[0];
    assert '\n' !in h.value;
    assert Visible(" " + h.value, true);
  }

  // ----- the loop over the headers -----

  /** clen is -1 until there is a Content-Length. */
  datatype State = State(headers: seq<Header>, clen: int, lines: nat)

  const START := State([], -1, 0)

  function ContentLength(v: string): Result<nat> {
    if v == "" || |v| > 10 || !Digits(v) then Rejected(400)
    else if Atoi(v) > MAX_BODY then Rejected(413)
    else Ok(Atoi(v))
  }

  predicate Seen(hs: seq<Header>, lower: string) { exists h :: h in hs && Lower(h.name) == lower }

  function RejectStatus(lower: string): nat {
    if lower == "transfer-encoding" then 501
    else if lower == "upgrade" then 400
    else if lower == "expect" then 417
    else 0
  }

  function TakeHeader(st: State, h: Header): Result<State> {
    var lower, counted := Lower(h.name), st.(lines := st.lines + 1);
    if RejectStatus(lower) != 0 then Rejected(RejectStatus(lower))
    else if lower == "content-length" then
      if st.clen >= 0 then Rejected(400)
      else
        var n := ContentLength(h.value);
        if n.Ok? then Ok(counted.(clen := n.value)) else Rejected(n.status)
    else if lower in REPLACED then Ok(counted)
    else if lower !in ALLOWED || Seen(st.headers, lower) then Rejected(400)
    else Ok(counted.(headers := st.headers + [h]))
  }

  function TakeLine(st: State, line: string): Result<State> {
    if st.lines >= MAX_HEADERS then Rejected(431)
    else
      var h := HeaderOf(line);
      if h.Ok? then TakeHeader(st, h.value) else Rejected(h.status)
  }

  datatype Rest = Rest(state: State, rest: string)

  function ParseHeaders(input: string, budget: int, lim: Limits, st: State): Result<Rest>
    decreases |input|
  {
    var r := ReadLine(input, budget, lim.line);
    if r.Rejected? then Rejected(r.status)
    else if r.Ended? then Ended
    else if r.value.text == "" then Ok(Rest(st, r.value.rest))
    else
      var next := TakeLine(st, r.value.text);
      if next.Rejected? then Rejected(next.status)
      else if next.Ended? then Ended
      else
        ReadLineIff(input, budget, lim.line, r.value);
        ParseHeaders(r.value.rest, budget - (|r.value.text| + 2), lim, next.value)
  }

  // ----- the request line -----

  datatype Target = Target(verb: string, target: string)

  predicate Contains(s: string, part: string) { exists i :: 0 <= i <= |s| && Starts(s[i..], part) }

  predicate PlainPath(path: string) {
    var lower := Lower(path);
    && !Contains(lower, "%2e") && !Contains(lower, "%2f") && !Contains(lower, "%5c")
    && forall seg :: seg in Split(path, '/') ==> seg != "." && seg != ".."
  }

  function PathOf(target: string): string { target[..IndexOf(target, '?')] }

  predicate GoodTarget(t: string) {
    |t| <= MAX_TARGET && Starts(t, "/api/") && Visible(t, false) && '#' !in t && '\\' !in t
  }

  function ParseFirst(line: string): Result<Target> {
    var parts := Split(line, ' ');
    if |parts| != 3 then Rejected(400)
    else if parts[0] !in METHODS then Rejected(405)
    else if parts[2] != "HTTP/1.1" then Rejected(505)
    else if !GoodTarget(parts[1]) || !PlainPath(PathOf(parts[1])) then Rejected(400)
    else Ok(Target(parts[0], parts[1]))
  }

  function FirstText(t: Target): string { t.verb + " " + t.target + " HTTP/1.1" }

  predicate ProperFirst(t: Target) {
    t.verb in METHODS && GoodTarget(t.target) && ' ' !in t.target && PlainPath(PathOf(t.target))
  }

  lemma ParseFirstProper(line: string)
    requires ParseFirst(line).Ok?
    ensures ProperFirst(ParseFirst(line).value) && line == FirstText(ParseFirst(line).value)
  {
    hide GoodTarget, PlainPath, Split, Join, IndexOf, PathOf;
    var ps := Split(line, ' ');
    JoinSplit(line, ' ');
    assert ps[1] in ps;
    JoinThree(ps[0], ps[1], ps[2], " ");
    assert ps == [ps[0], ps[1], ps[2]];
  }

  lemma JoinThree(a: string, b: string, c: string, sep: string)
    ensures Join([a, b, c], sep) == a + sep + b + sep + c
  {
    hide Join;
    JoinCons(a, [b, c], sep);
    JoinCons(b, [c], sep);
    JoinOne(c, sep);
    assert [a] + [b, c] == [a, b, c] && [b] + [c] == [b, c];
  }

  lemma WordsPlain(t: Target)
    requires t.verb in METHODS && GoodTarget(t.target)
    ensures ' ' !in t.verb && '\n' !in t.verb && '\n' !in t.target && ' ' !in "HTTP/1.1" && '\n' !in "HTTP/1.1"
  {
  }

  lemma FirstRoundTrip(t: Target)
    requires ProperFirst(t)
    ensures ParseFirst(FirstText(t)) == Ok(t) && '\n' !in FirstText(t) && FirstText(t) != ""
  {
    hide PlainPath, Split, GoodTarget;
    var version := "HTTP/1.1";
    var ps := [t.verb, t.target, version];
    WordsPlain(t);
    JoinThree(t.verb, t.target, version, " ");
    assert FirstText(t) == t.verb + " " + t.target + " " + version;
    assert forall p :: p in ps ==> ' ' !in p;
    SplitJoin(ps, ' ');
  }

  // ----- the whole head -----

  /** head is what is written upstream. */
  datatype Request = Request(head: string, bodyLen: nat, verb: string, path: string)

  function Text(lines: seq<string>): string { if lines == [] then "\r\n" else lines[0] + "\r\n" + Text(lines[1..]) }

  function OwnHeaders(host: string, auth: string, clen: nat): seq<Header> {
    [Header("Host", host), Header("Authorization", auth), Header("Connection", "close"), Header("Content-Length", Itoa(clen))]
  }

  function HeaderLines(hs: seq<Header>): seq<string> { seq(|hs|, i requires 0 <= i < |hs| => HeaderText(hs[i])) }

  function HeadLines(t: Target, host: string, auth: string, clen: nat, hs: seq<Header>): seq<string> {
    [FirstText(t)] + HeaderLines(OwnHeaders(host, auth, clen) + hs)
  }

  datatype Parsed = Parsed(request: Request, rest: string)

  function BodyLen(st: State): nat { if st.clen < 0 then 0 else st.clen }

  function Emit(t: Target, host: string, auth: string, st: State): Request {
    Request(Text(HeadLines(t, host, auth, BodyLen(st), st.headers)), BodyLen(st), t.verb, PathOf(t.target))
  }

  function Parse(input: string, host: string, auth: string, lim: Limits): Result<Parsed> {
    var first := ReadLine(input, lim.head, lim.line);
    if first.Rejected? then Rejected(first.status)
    else if first.Ended? then Ended
    else
      var t := ParseFirst(first.value.text);
      if t.Rejected? then Rejected(t.status)
      else if t.Ended? then Ended
      else
        var hs := ParseHeaders(first.value.rest, lim.head - (|first.value.text| + 2), lim, START);
        if hs.Rejected? then Rejected(hs.status)
        else if hs.Ended? then Ended
        else Ok(Parsed(Emit(t.value, host, auth, hs.value.state), hs.value.rest))
  }

  // ----- what the loop keeps -----

  /** The headers that are kept: proper, on the list of allowed ones, each once. */
  ghost predicate Kept(st: State) {
    && (forall h :: h in st.headers ==> Proper(h) && Lower(h.name) in ALLOWED)
    && (forall i, j :: 0 <= i < j < |st.headers| ==> Lower(st.headers[i].name) != Lower(st.headers[j].name))
    && -1 <= st.clen <= MAX_BODY
  }

  lemma TakeLineKeeps(st: State, line: string)
    requires Kept(st) && TakeLine(st, line).Ok?
    ensures Kept(TakeLine(st, line).value)
  {
    hide Proper, HeaderOf, Lower, ContentLength, Itoa;
    HeaderOfProper(line);
    ContentLengthSmall(HeaderOf(line).value.value);
  }

  lemma ContentLengthSmall(v: string)
    ensures ContentLength(v).Ok? ==> ContentLength(v).value <= MAX_BODY
  {
  }

  lemma {:induction false} ParseHeadersKeeps(input: string, budget: int, lim: Limits, st: State)
    requires Kept(st) && ParseHeaders(input, budget, lim, st).Ok?
    ensures Kept(ParseHeaders(input, budget, lim, st).value.state)
    decreases |input|
  {
    hide Kept, TakeLine, ReadLine;
    var r := ReadLine(input, budget, lim.line).value;
    if r.text != "" {
      TakeLineKeeps(st, r.text);
      ReadLineIff(input, budget, lim.line, r);
      ParseHeadersKeeps(r.rest, budget - (|r.text| + 2), lim, TakeLine(st, r.text).value);
    }
  }

  lemma {:induction false} FewHeaders(hs: seq<Header>, names: set<string>)
    requires forall h :: h in hs ==> Lower(h.name) in names
    requires forall i, j :: 0 <= i < j < |hs| ==> Lower(hs[i].name) != Lower(hs[j].name)
    ensures |hs| <= |names|
  {
    hide Lower;
    if hs != [] {
      var front, last := hs[..|hs| - 1], hs[|hs| - 1];
      forall h | h in front ensures Lower(h.name) in names - {Lower(last.name)} {
        var i :| 0 <= i < |front| && front[i] == h;
        assert hs[i] == h && hs[i] in hs;
      }
      assert last in hs;
      FewHeaders(front, names - {Lower(last.name)});
    }
  }

  lemma AtMostFour(st: State)
    requires Kept(st)
    ensures |st.headers| <= 4
  {
    hide Lower, Proper;
    FewHeaders(st.headers, ALLOWED);
  }

  // ----- reading back what was written -----

  /** Lines as the head has them: proper, and not too long for the limits. */
  ghost predicate Readable(lines: seq<string>, lim: Limits) {
    forall i :: 0 <= i < |lines| ==> '\n' !in lines[i] && lines[i] != "" && |lines[i]| + 2 <= lim.line
  }

  function TakeAll(st: State, lines: seq<string>): Result<State>
    decreases |lines|
  {
    if lines == [] then Ok(st)
    else
      var next := TakeLine(st, lines[0]);
      if next.Ok? then TakeAll(next.value, lines[1..]) else next
  }

  lemma ReadFirst(line: string, rest: string, budget: int, maxLine: nat)
    requires '\n' !in line && |line| + 2 <= maxLine && |line| + 2 <= budget
    ensures ReadLine(line + "\r\n" + rest, budget, maxLine) == Ok(Line(line, rest))
  {
    hide ReadLine;
    ReadLineIff(line + "\r\n" + rest, budget, maxLine, Line(line, rest));
  }

  /** A text of lines is read line by line, up to the empty one. */
  lemma {:induction false} ReadText(lines: seq<string>, rest: string, budget: int, lim: Limits, st: State)
    requires Readable(lines, lim) && |Text(lines)| <= budget && lim.line >= 2 && TakeAll(st, lines).Ok?
    ensures ParseHeaders(Text(lines) + rest, budget, lim, st) == Ok(Rest(TakeAll(st, lines).value, rest))
    decreases |lines|
  {
    hide ReadLine, TakeLine;
    if lines == [] {
      ReadFirst("", rest, budget, lim.line);
      assert "" + "\r\n" + rest == Text(lines) + rest;
    } else {
      var tail := Text(lines[1..]) + rest;
      assert Text(lines) + rest == lines[0] + "\r\n" + tail;
      ReadFirst(lines[0], tail, budget, lim.line);
      ReadText(lines[1..], rest, budget - (|lines[0]| + 2), lim, TakeLine(st, lines[0]).value);
    }
  }

  lemma {:induction false} TakeAllConcat(st: State, a: seq<string>, b: seq<string>)
    ensures TakeAll(st, a + b) == if TakeAll(st, a).Ok? then TakeAll(TakeAll(st, a).value, b) else TakeAll(st, a)
    decreases |a|
  {
    hide TakeLine;
    if a == [] {
      assert a + b == b;
    } else {
      assert (a + b)[1..] == a[1..] + b;
      if TakeLine(st, a[0]).Ok? { TakeAllConcat(TakeLine(st, a[0]).value, a[1..], b); }
    }
  }

  /** The allowed headers are taken as they are, after those before them. */
  lemma {:induction false} TakeKept(st: State, n: nat, clen: nat, lines: nat)
    requires Kept(st) && n <= |st.headers| && lines + |st.headers| <= MAX_HEADERS && clen <= MAX_BODY
    ensures TakeAll(State(st.headers[..n], clen, lines + n), HeaderLines(st.headers[n..])) ==
      Ok(State(st.headers, clen, lines + |st.headers|))
    decreases |st.headers| - n
  {
    hide Lower, Proper, HeaderText, HeaderOf, TakeLine;
    var hs := st.headers;
    if n == |hs| {
      assert hs[..n] == hs && hs[n..] == [];
    } else {
      var h := hs[n];
      assert h in hs;
      assert HeaderLines(hs[n..])[0] == HeaderText(h);
      assert HeaderLines(hs[n..])[1..] == HeaderLines(hs[n + 1..]);
      assert hs[..n + 1] == hs[..n] + [h];
      TakeNext(State(hs[..n], clen, lines + n), h);
      TakeKept(st, n + 1, clen, lines);
    }
  }

  lemma TakeNext(st: State, h: Header)
    requires Proper(h) && Lower(h.name) in ALLOWED && !Seen(st.headers, Lower(h.name)) && st.lines < MAX_HEADERS
    ensures TakeLine(st, HeaderText(h)) == Ok(State(st.headers + [h], st.clen, st.lines + 1))
  {
    hide Proper, HeaderText, HeaderOf, Lower;
    HeaderRoundTrip(h);
  }

  lemma OwnNames()
    ensures Lower("Host") == "host" && Lower("Authorization") == "authorization" && Lower("Connection") == "connection"
    ensures Lower("Content-Length") == "content-length"
  {
  }

  predicate Sendable(host: string, auth: string) {
    Visible(host, true) && Trimmed(host) && Visible(auth, true) && Trimmed(auth)
  }

  lemma OwnProper(host: string, auth: string, clen: nat)
    requires Sendable(host, auth)
    ensures forall h :: h in OwnHeaders(host, auth, clen) ==> Proper(h)
  {
    hide Itoa;
    AtoiItoa(clen);
    assert Proper(Header("Content-Length", Itoa(clen)));
  }

  lemma LengthRoundTrip(n: nat)
    requires n <= MAX_BODY
    ensures ContentLength(Itoa(n)) == Ok(n)
  {
    hide Itoa;
    AtoiItoa(n);
    assert Power10(7) == 10000000 by {
      assert Power10(0) == 1 && Power10(1) == 10 && Power10(2) == 100 && Power10(3) == 1000 && Power10(4) == 10000;
      assert Power10(5) == 100000 && Power10(6) == 1000000;
    }
    ItoaShort(n, 7);
  }

  /** The four headers of the relay itself: three are dropped again, the length is read. */
  lemma TakeOwn(host: string, auth: string, clen: nat)
    requires Sendable(host, auth) && clen <= MAX_BODY
    ensures TakeAll(START, HeaderLines(OwnHeaders(host, auth, clen))) == Ok(State([], clen, 4))
  {
    hide Proper, HeaderText, HeaderOf, Lower, Itoa, ContentLength;
    var own := OwnHeaders(host, auth, clen);
    var ls := HeaderLines(own);
    OwnProper(host, auth, clen);
    OwnNames();
    LengthRoundTrip(clen);
    TakeOther(START, own[0]);
    TakeOther(State([], -1, 1), own[1]);
    TakeOther(State([], -1, 2), own[2]);
    HeaderRoundTrip(own[3]);
    assert ls == [HeaderText(own[0]), HeaderText(own[1]), HeaderText(own[2]), HeaderText(own[3])];
    assert TakeLine(State([], -1, 3), HeaderText(own[3])) == Ok(State([], clen, 4));
    TakeFour(ls, clen);
  }

  lemma TakeOther(st: State, h: Header)
    requires Proper(h) && Lower(h.name) in REPLACED && st.lines < MAX_HEADERS
    ensures TakeLine(st, HeaderText(h)) == Ok(st.(lines := st.lines + 1))
  {
    hide Proper, HeaderText, HeaderOf, Lower;
    HeaderRoundTrip(h);
  }

  lemma TakeFour(ls: seq<string>, clen: nat)
    requires |ls| == 4
    requires TakeLine(START, ls[0]) == Ok(State([], -1, 1)) && TakeLine(State([], -1, 1), ls[1]) == Ok(State([], -1, 2))
    requires TakeLine(State([], -1, 2), ls[2]) == Ok(State([], -1, 3)) && TakeLine(State([], -1, 3), ls[3]) == Ok(State([], clen, 4))
    ensures TakeAll(START, ls) == Ok(State([], clen, 4))
  {
    hide TakeLine;
    var a, b, c := ls[1..], ls[2..], ls[3..];
    assert a[1..] == b && b[1..] == c && c[1..] == [];
    assert TakeAll(State([], -1, 3), c) == Ok(State([], clen, 4));
    assert TakeAll(State([], -1, 2), b) == Ok(State([], clen, 4));
    assert TakeAll(State([], -1, 1), a) == Ok(State([], clen, 4));
  }

  lemma TakeEmitted(host: string, auth: string, st: State)
    requires Kept(st) && Sendable(host, auth)
    ensures TakeAll(START, HeaderLines(OwnHeaders(host, auth, BodyLen(st)) + st.headers)) ==
      Ok(State(st.headers, BodyLen(st), 4 + |st.headers|))
  {
    hide Proper, HeaderText, TakeLine, Lower, Itoa, TakeAll;
    var own := OwnHeaders(host, auth, BodyLen(st));
    AtMostFour(st);
    TakeOwn(host, auth, BodyLen(st));
    assert HeaderLines(own + st.headers) == HeaderLines(own) + HeaderLines(st.headers);
    TakeAllConcat(START, HeaderLines(own), HeaderLines(st.headers));
    assert st.headers[..0] == [] && st.headers[0..] == st.headers;
    TakeKept(st, 0, BodyLen(st), 4);
  }

  lemma AllProper(host: string, auth: string, st: State)
    requires Kept(st) && Sendable(host, auth)
    ensures forall h :: h in OwnHeaders(host, auth, BodyLen(st)) + st.headers ==> Proper(h)
  {
    hide Proper, OwnHeaders, Lower;
    OwnProper(host, auth, BodyLen(st));
  }

  lemma LinesReadable(hs: seq<Header>, lim: Limits)
    requires forall h :: h in hs ==> Proper(h)
    requires forall i :: 0 <= i < |hs| ==> |HeaderText(hs[i])| + 2 <= lim.line
    ensures Readable(HeaderLines(hs), lim)
  {
    hide Proper, HeaderText;
    forall i | 0 <= i < |hs| ensures '\n' !in HeaderText(hs[i]) && HeaderText(hs[i]) != "" {
      HeaderRoundTrip(hs[i]);
    }
  }

  /** The line limit holds for every line of the head. */
  ghost predicate LinesFit(t: Target, host: string, auth: string, st: State, lim: Limits) {
    var ls := HeadLines(t, host, auth, BodyLen(st), st.headers);
    lim.line >= 2 && |Text(ls)| <= lim.head && forall i :: 0 <= i < |ls| ==> |ls[i]| + 2 <= lim.line
  }

  /** What Parse accepts comes from a proper request line and kept headers. */
  lemma ParseShape(input: string, host: string, auth: string, lim: Limits) returns (t: Target, st: State)
    requires Parse(input, host, auth, lim).Ok?
    ensures ProperFirst(t) && Kept(st) && Parse(input, host, auth, lim).value.request == Emit(t, host, auth, st)
  {
    hide ParseHeaders, ParseFirst, ReadLine, ProperFirst, Emit;
    var first := ReadLine(input, lim.head, lim.line).value;
    ParseFirstProper(first.text);
    t := ParseFirst(first.text).value;
    ParseHeadersKeeps(first.rest, lim.head - (|first.text| + 2), lim, START);
    st := ParseHeaders(first.rest, lim.head - (|first.text| + 2), lim, START).value.state;
  }

  /** The emitted head is read back to itself, whatever follows it, when it fits the limits. */
  lemma EmitFixed(t: Target, host: string, auth: string, st: State, lim: Limits, rest: string)
    requires ProperFirst(t) && Kept(st) && Sendable(host, auth) && LinesFit(t, host, auth, st, lim)
    ensures var q := Emit(t, host, auth, st); Parse(q.head + rest, host, auth, lim) == Ok(Parsed(q, rest))
  {
    hide ParseHeaders, ParseFirst, ReadLine, ProperFirst, Proper, Kept, Sendable, HeaderText, FirstText, OwnHeaders, TakeAll;
    var q, hs := Emit(t, host, auth, st), OwnHeaders(host, auth, BodyLen(st)) + st.headers;
    var ls := HeadLines(t, host, auth, BodyLen(st), st.headers);
    assert ls[0] == FirstText(t) && ls[1..] == HeaderLines(hs);
    FirstRoundTrip(t);
    AllProper(host, auth, st);
    forall i | 0 <= i < |hs| ensures |HeaderText(hs[i])| + 2 <= lim.line { assert ls[i + 1] == HeaderText(hs[i]); }
    LinesReadable(hs, lim);
    var tail := Text(HeaderLines(hs)) + rest;
    assert q.head + rest == FirstText(t) + "\r\n" + tail;
    ReadFirst(FirstText(t), tail, lim.head, lim.line);
    TakeEmitted(host, auth, st);
    ReadText(HeaderLines(hs), rest, lim.head - (|FirstText(t)| + 2), lim, START);
    var again := State(st.headers, BodyLen(st), 4 + |st.headers|);
    assert Emit(t, host, auth, again) == q;
  }

  /**
    Parsing what was emitted emits it again and stops where it ends: the head is a fixed point,
    for every input, as long as the limits leave room for it.
   */
  lemma HeadIsFixedPoint(input: string, host: string, auth: string, lim: Limits, room: Limits, rest: string)
    requires Parse(input, host, auth, lim).Ok? && Sendable(host, auth)
    requires var head := Parse(input, host, auth, lim).value.request.head; room.line >= |head| && room.head >= |head|
    ensures var q := Parse(input, host, auth, lim).value.request;
      Parse(q.head + rest, host, auth, room) == Ok(Parsed(q, rest))
  {
    hide Parse, ProperFirst, Kept, Sendable, HeadLines;
    var t, st := ParseShape(input, host, auth, lim);
    TextLong(HeadLines(t, host, auth, BodyLen(st), st.headers));
    EmitFixed(t, host, auth, st, room, rest);
  }

  lemma {:induction false} TextLong(lines: seq<string>)
    ensures |Text(lines)| >= 2 && forall i :: 0 <= i < |lines| ==> |lines[i]| + 2 <= |Text(lines)|
  {
    if lines != [] {
      TextLong(lines[1..]);
      forall i | 0 <= i < |lines| ensures |lines[i]| + 2 <= |Text(lines)| {
        if i > 0 { assert lines[i] == lines[1..][i - 1]; }
      }
    }
  }

  // ----- what any reader finds in the head -----

  /** The lines of a text up to the first empty one, as any reader splits them, and what follows. */
  function SplitHead(s: string): Option<(seq<string>, string)>
    decreases |s|
  {
    var r := ReadLine(s, |s|, |s|);
    if !r.Ok? then None
    else if r.value.text == "" then Some(([], r.value.rest))
    else
      ReadLineIff(s, |s|, |s|, r.value);
      var more := SplitHead(r.value.rest);
      if more.None? then None else Some(([r.value.text] + more.value.0, more.value.1))
  }

  lemma {:induction false} SplitText(lines: seq<string>, rest: string)
    requires forall i :: 0 <= i < |lines| ==> '\n' !in lines[i] && lines[i] != ""
    ensures SplitHead(Text(lines) + rest) == Some((lines, rest))
  {
    hide ReadLine;
    var s := Text(lines) + rest;
    if lines == [] {
      assert s == "" + "\r\n" + rest;
      ReadFirst("", rest, |s|, |s|);
    } else {
      var tail := Text(lines[1..]) + rest;
      assert s == lines[0] + "\r\n" + tail;
      ReadFirst(lines[0], tail, |s|, |s|);
      SplitText(lines[1..], rest);
      assert [lines[0]] + lines[1..] == lines;
    }
  }

  predicate Named(line: string, lower: string) { HeaderOf(line).Ok? && Lower(HeaderOf(line).value.name) == lower }

  function Count(lines: seq<string>, lower: string): nat {
    if lines == [] then 0 else Count(lines[..|lines| - 1], lower) + if Named(lines[|lines| - 1], lower) then 1 else 0
  }

  function CountHeaders(hs: seq<Header>, lower: string): nat {
    if hs == [] then 0 else CountHeaders(hs[..|hs| - 1], lower) + if Lower(hs[|hs| - 1].name) == lower then 1 else 0
  }

  lemma {:induction false} CountSame(hs: seq<Header>, lower: string)
    requires forall h :: h in hs ==> Proper(h)
    ensures Count(HeaderLines(hs), lower) == CountHeaders(hs, lower)
  {
    hide Proper, Lower, HeaderText, HeaderOf;
    if hs != [] {
      var front, last := hs[..|hs| - 1], hs[|hs| - 1];
      assert last in hs;
      CountSame(front, lower);
      HeaderRoundTrip(last);
      assert HeaderLines(hs)[..|hs| - 1] == HeaderLines(front);
    }
  }

  lemma {:induction false} CountConcat(a: seq<Header>, b: seq<Header>, lower: string)
    ensures CountHeaders(a + b, lower) == CountHeaders(a, lower) + CountHeaders(b, lower)
  {
    hide Lower;
    if b == [] {
      assert a + b == a;
    } else {
      CountConcat(a, b[..|b| - 1], lower);
      assert (a + b)[..|a + b| - 1] == a + b[..|b| - 1];
    }
  }

  lemma {:induction false} CountKept(hs: seq<Header>, lower: string)
    requires forall h :: h in hs ==> Lower(h.name) in ALLOWED
    requires forall i, j :: 0 <= i < j < |hs| ==> Lower(hs[i].name) != Lower(hs[j].name)
    ensures CountHeaders(hs, lower) <= 1
    ensures CountHeaders(hs, lower) == 1 ==> exists h :: h in hs && Lower(h.name) == lower
  {
    hide Lower;
    if hs != [] {
      var front, last := hs[..|hs| - 1], hs[|hs| - 1];
      assert last in hs && forall h :: h in front ==> h in hs;
      CountKept(front, lower);
      forall h | h in front ensures Lower(h.name) != Lower(last.name) {
        var i :| 0 <= i < |front| && front[i] == h;
        assert hs[i] == h;
      }
    }
  }

  lemma CountOwn(host: string, auth: string, clen: nat, lower: string)
    ensures CountHeaders(OwnHeaders(host, auth, clen), lower) ==
      if lower in {"host", "authorization", "connection", "content-length"} then 1 else 0
  {
    hide Lower, Itoa, CountHeaders;
    OwnNames();
    var own := OwnHeaders(host, auth, clen);
    CountNone(lower);
    CountSnoc([], own[0], lower);
    CountSnoc([own[0]], own[1], lower);
    CountSnoc([own[0], own[1]], own[2], lower);
    CountSnoc([own[0], own[1], own[2]], own[3], lower);
    assert [own[0]] == [] + [own[0]] && [own[0], own[1]] == [own[0]] + [own[1]];
    assert [own[0], own[1], own[2]] == [own[0], own[1]] + [own[2]];
    assert own == [own[0], own[1], own[2]] + [own[3]];
  }

  lemma CountNone(lower: string)
    ensures CountHeaders([], lower) == 0
  {
  }

  lemma CountSnoc(hs: seq<Header>, h: Header, lower: string)
    ensures CountHeaders(hs + [h], lower) == CountHeaders(hs, lower) + if Lower(h.name) == lower then 1 else 0
  {
    assert (hs + [h])[..|hs|] == hs;
  }

  /**
    Any reader of an emitted head finds one Host, one Authorization, one Connection and one
    Content-Length, at most one of each allowed header, and no other header at all.
   */
  lemma HeadersOfHead(input: string, host: string, auth: string, lim: Limits, lower: string, rest: string)
    requires Parse(input, host, auth, lim).Ok? && Sendable(host, auth)
    ensures var head := Parse(input, host, auth, lim).value.request.head;
      && SplitHead(head + rest).Some? && SplitHead(head + rest).value.1 == rest && SplitHead(head + rest).value.0 != []
      && (lower in {"host", "authorization", "connection", "content-length"} ==>
            Count(SplitHead(head + rest).value.0[1..], lower) == 1)
      && Count(SplitHead(head + rest).value.0[1..], lower) <= 1
      && (Count(SplitHead(head + rest).value.0[1..], lower) == 1 ==>
            lower in ALLOWED || lower in {"host", "authorization", "connection", "content-length"})
  {
    hide Parse, ProperFirst, Sendable, Kept, HeadLines, HeaderLines, SplitHead, Count, OwnHeaders;
    var t, st := ParseShape(input, host, auth, lim);
    EmittedLines(t, host, auth, st, rest);
    CountEmitted(host, auth, st, lower);
  }

  lemma EmittedLines(t: Target, host: string, auth: string, st: State, rest: string)
    requires ProperFirst(t) && Kept(st) && Sendable(host, auth)
    ensures var ls := HeadLines(t, host, auth, BodyLen(st), st.headers);
      && SplitHead(Text(ls) + rest) == Some((ls, rest)) && ls != []
      && ls[1..] == HeaderLines(OwnHeaders(host, auth, BodyLen(st)) + st.headers)
  {
    hide ProperFirst, Kept, Sendable, Proper, HeaderText, FirstText, OwnHeaders, SplitHead;
    var hs := OwnHeaders(host, auth, BodyLen(st)) + st.headers;
    var ls := HeadLines(t, host, auth, BodyLen(st), st.headers);
    AllProper(host, auth, st);
    FirstRoundTrip(t);
    assert ls[1..] == HeaderLines(hs) && ls[0] == FirstText(t);
    forall i | 0 <= i < |ls| ensures '\n' !in ls[i] && ls[i] != "" {
      if i > 0 {
        assert ls[i] == HeaderLines(hs)[i - 1] == HeaderText(hs[i - 1]);
        HeaderRoundTrip(hs[i - 1]);
      }
    }
    SplitText(ls, rest);
  }

  lemma CountEmitted(host: string, auth: string, st: State, lower: string)
    requires Kept(st) && Sendable(host, auth)
    ensures var n := Count(HeaderLines(OwnHeaders(host, auth, BodyLen(st)) + st.headers), lower);
      var own := lower in {"host", "authorization", "connection", "content-length"};
      (own ==> n == 1) && n <= 1 && (n == 1 ==> lower in ALLOWED || own)
  {
    hide Sendable, Proper, Lower, HeaderLines, OwnHeaders, Count, CountHeaders;
    var own := OwnHeaders(host, auth, BodyLen(st));
    AllProper(host, auth, st);
    CountSame(own + st.headers, lower);
    CountConcat(own, st.headers, lower);
    CountOwn(host, auth, BodyLen(st), lower);
    CountKept(st.headers, lower);
  }

  // ----- what an accepted input looked like -----

  const KNOWN: set<string> := REPLACED + ALLOWED + {"content-length"}

  /** The allowed headers among the lines, in order. */
  function AllowedOf(lines: seq<string>): seq<Header> {
    if lines == [] then []
    else
      var rest, h := AllowedOf(lines[..|lines| - 1]), HeaderOf(lines[|lines| - 1]);
      if h.Ok? && Lower(h.value.name) in ALLOWED then rest + [h.value] else rest
  }

  /** The length that a reader of these lines takes the body to have; none without a Content-Length. */
  function DeclaredLength(lines: seq<string>): int {
    if lines == [] then -1
    else
      var h := HeaderOf(lines[|lines| - 1]);
      if h.Ok? && Lower(h.value.name) == "content-length" && ContentLength(h.value.value).Ok?
      then ContentLength(h.value.value).value else DeclaredLength(lines[..|lines| - 1])
  }

  ghost predicate Understood(st: State, lines: seq<string>) {
    && (forall l :: l in lines ==> HeaderOf(l).Ok? && Lower(HeaderOf(l).value.name) in KNOWN)
    && st.headers == AllowedOf(lines) && st.clen == DeclaredLength(lines) && st.lines == |lines| <= MAX_HEADERS
    && Count(lines, "content-length") == (if st.clen >= 0 then 1 else 0)
    && forall n :: n in ALLOWED ==> Count(lines, n) == CountHeaders(st.headers, n)
  }

  lemma TakenLine(st: State, lines: seq<string>, line: string)
    requires Understood(st, lines) && TakeLine(st, line).Ok?
    ensures Understood(TakeLine(st, line).value, lines + [line])
  {
    hide HeaderOf, Lower, ContentLength, AllowedOf, DeclaredLength, Count, CountHeaders, Named;
    var all, st' := lines + [line], TakeLine(st, line).value;
    TakenName(st, line);
    OneMoreLine(lines, line);
    var h := HeaderOf(line).value;
    forall n | n in ALLOWED ensures Count(all, n) == CountHeaders(st'.headers, n) {
      CountSnoc(st.headers, h, n);
    }
    assert forall l :: l in all ==> l in lines || l == line;
  }

  /** The name of a line that is taken is known, and what it changes depends on the name alone. */
  lemma TakenName(st: State, line: string)
    requires TakeLine(st, line).Ok?
    ensures HeaderOf(line).Ok? && st.lines < MAX_HEADERS
    ensures var h, st' := HeaderOf(line).value, TakeLine(st, line).value;
      var lower := Lower(h.name);
      && lower in KNOWN && st'.lines == st.lines + 1
      && (lower == "content-length" ==>
            st.clen < 0 && ContentLength(h.value).Ok? && st'.clen == ContentLength(h.value).value && st'.headers == st.headers)
      && (lower != "content-length" ==> st'.clen == st.clen)
      && (lower in ALLOWED ==> st'.headers == st.headers + [h])
      && (lower !in ALLOWED ==> st'.headers == st.headers)
  {
    hide HeaderOf, Lower, ContentLength;
    LengthNeverEnded(HeaderOf(line).value.value);
  }

  lemma OneMoreLine(lines: seq<string>, line: string)
    requires HeaderOf(line).Ok?
    ensures var all, h := lines + [line], HeaderOf(line).value; var lower := Lower(h.name);
      && AllowedOf(all) == (if lower in ALLOWED then AllowedOf(lines) + [h] else AllowedOf(lines))
      && DeclaredLength(all) == (if lower == "content-length" && ContentLength(h.value).Ok?
                                 then ContentLength(h.value).value else DeclaredLength(lines))
      && forall n :: Count(all, n) == Count(lines, n) + if lower == n then 1 else 0
  {
    hide HeaderOf, Lower, ContentLength;
    assert (lines + [line])[..|lines|] == lines;
  }

  lemma {:induction false} TakenLines(lines: seq<string>)
    requires TakeAll(START, lines).Ok?
    ensures Understood(TakeAll(START, lines).value, lines)
  {
    hide Understood, TakeLine;
    if lines == [] {
      NothingTaken();
    } else {
      var front, last := lines[..|lines| - 1], lines[|lines| - 1];
      assert lines == front + [last];
      TakeAllConcat(START, front, [last]);
      TakenLines(front);
      var st := TakeAll(START, front).value;
      assert [last][1..] == [];
      TakenLine(st, front, last);
    }
  }

  lemma NothingTaken()
    ensures Understood(START, [])
  {
  }

  lemma {:induction false} InputLines(input: string, budget: int, lim: Limits, st: State) returns (lines: seq<string>)
    requires ParseHeaders(input, budget, lim, st).Ok?
    ensures var done := ParseHeaders(input, budget, lim, st).value;
      SplitHead(input) == Some((lines, done.rest)) && TakeAll(st, lines) == Ok(done.state)
    decreases |input|
  {
    hide ReadLine, TakeLine;
    var r := ReadLine(input, budget, lim.line).value;
    ReadLineIff(input, budget, lim.line, r);
    ReadLineIff(input, |input|, |input|, r);
    if r.text == "" {
      lines := [];
    } else {
      var more := InputLines(r.rest, budget - (|r.text| + 2), lim, TakeLine(st, r.text).value);
      lines := [r.text] + more;
      assert lines[1..] == more;
    }
  }

  /**
    An accepted input, read by any reader, has the emitted request line and headers of known names
    only: none that frames the body another way or asks for more. At most one of them declares a
    length, which is the one emitted, and the allowed ones are emitted as they came.
   */
  lemma AcceptedInput(input: string, host: string, auth: string, lim: Limits) returns (first: string, lines: seq<string>)
    requires Parse(input, host, auth, lim).Ok?
    ensures var p := Parse(input, host, auth, lim).value;
      && SplitHead(input) == Some(([first] + lines, p.rest))
      && (forall l :: l in lines ==> HeaderOf(l).Ok? && Lower(HeaderOf(l).value.name) in KNOWN)
      && Count(lines, "content-length") <= 1 && (forall n :: n in ALLOWED ==> Count(lines, n) <= 1)
      && p.request.bodyLen == (if DeclaredLength(lines) < 0 then 0 else DeclaredLength(lines))
      && p.request.head == Text([first] + HeaderLines(OwnHeaders(host, auth, p.request.bodyLen) + AllowedOf(lines)))
  {
    hide ReadLine, ParseHeaders, ParseFirst, TakeLine, TakeAll, HeaderText, OwnHeaders, Count, CountHeaders, Lower, AllowedOf, DeclaredLength;
    var r := ReadLine(input, lim.head, lim.line).value;
    ReadLineIff(input, lim.head, lim.line, r);
    ReadLineIff(input, |input|, |input|, r);
    ParseFirstProper(r.text);
    first := r.text;
    lines := InputLines(r.rest, lim.head - (|r.text| + 2), lim, START);
    var st := ParseHeaders(r.rest, lim.head - (|r.text| + 2), lim, START).value.state;
    TakenLines(lines);
    ParseHeadersKeeps(r.rest, lim.head - (|r.text| + 2), lim, START);
    forall n | n in ALLOWED ensures Count(lines, n) <= 1 { KeptOnce(st, n); }
    assert first != "" by { FirstRoundTrip(ParseFirst(r.text).value); }
  }

  lemma KeptOnce(st: State, n: string)
    requires Kept(st)
    ensures CountHeaders(st.headers, n) <= 1
  {
    hide Lower, Proper, CountHeaders;
    CountKept(st.headers, n);
  }

  // ----- step by step -----

  /** The buffered reader and what is left of the budget for the head. */
  class HeadReader {
    var rest: string
    var budget: int
    const maxLine: nat

    constructor (input: string, lim: Limits)
      ensures rest == input && budget == lim.head && maxLine == lim.line
    {
      rest, budget, maxLine := input, lim.head, lim.line;
    }

    method ReadHeadLine() returns (r: Result<string>)
      modifies this
      ensures var want := ReadLine(old(rest), old(budget), maxLine);
        match want
        case Rejected(status) => r == Rejected(status)
        case Ended => r == Ended
        case Ok(line) => r == Ok(line.text) && rest == line.rest && budget == old(budget) - (|line.text| + 2)
    {
      var i := IndexOf(rest, '\n');
      if i == |rest| { return if i >= maxLine then Rejected(431) else Ended; }
      if i + 1 > maxLine { return Rejected(431); }
      var line := rest[..i + 1];
      budget := budget - |line|;
      if budget < 0 { return Rejected(431); }
      if |line| < 2 || line[|line| - 2] != '\r' { return Rejected(400); }
      r := Ok(line[..|line| - 2]);
      assert line[..|line| - 2] == rest[..i - 1];
      rest := rest[i + 1..];
    }
  }

  method ReadHeaders(rd: HeadReader, lim: Limits) returns (r: Result<State>)
    requires rd.maxLine == lim.line
    modifies rd
    ensures var want := ParseHeaders(old(rd.rest), old(rd.budget), lim, START);
      match want
      case Rejected(status) => r == Rejected(status)
      case Ended => r == Ended
      case Ok(done) => r == Ok(done.state) && rd.rest == done.rest
  {
    hide HeaderOf, ContentLength, Lower, ReadLine;
    var headers: seq<Header>, seen: set<string>, clen: int, lines: nat := [], {}, -1, 0;
    while true
      invariant ParseHeaders(old(rd.rest), old(rd.budget), lim, START) ==
        ParseHeaders(rd.rest, rd.budget, lim, State(headers, clen, lines))
      invariant forall n :: n in seen <==> Seen(headers, n)
      decreases |rd.rest|
    {
      ghost var before, budget := rd.rest, rd.budget;
      var line := rd.ReadHeadLine();
      if line.Rejected? { return Rejected(line.status); }
      if line.Ended? { return Ended; }
      ReadLineIff(before, budget, lim.line, ReadLine(before, budget, lim.line).value);
      if line.value == "" { return Ok(State(headers, clen, lines)); }
      ghost var st := State(headers, clen, lines);
      lines := lines + 1;
      if lines > MAX_HEADERS { return Rejected(431); }
      var h := HeaderOf(line.value);
      if h.Rejected? { return Rejected(h.status); }
      NeverEnded(line.value);
      var lower := Lower(h.value.name);
      if RejectStatus(lower) != 0 { return Rejected(RejectStatus(lower)); }
      if lower == "content-length" {
        if clen >= 0 { return Rejected(400); }
        var n := ContentLength(h.value.value);
        LengthNeverEnded(h.value.value);
        if n.Rejected? { return Rejected(n.status); }
        clen := n.value;
      } else if lower !in REPLACED {
        if lower !in ALLOWED { return Rejected(400); }
        if lower in seen { return Rejected(400); }
        SeenOneMore(headers, h.value);
        seen := seen + {lower};
        headers := headers + [h.value];
      }
      assert TakeLine(st, line.value) == Ok(State(headers, clen, lines));
    }
  }

  lemma NeverEnded(line: string)
    ensures !HeaderOf(line).Ended?
  {
  }

  lemma LengthNeverEnded(v: string)
    ensures !ContentLength(v).Ended?
  {
  }

  lemma SeenOneMore(hs: seq<Header>, h: Header)
    ensures forall n :: Seen(hs + [h], n) <==> Seen(hs, n) || n == Lower(h.name)
  {
    hide Lower;
    forall n ensures Seen(hs + [h], n) <==> Seen(hs, n) || n == Lower(h.name) {
      assert h in hs + [h];
      if Seen(hs, n) {
        var x :| x in hs && Lower(x.name) == n;
        assert x in hs + [h];
      }
    }
  }

  /** parseRequest: the request line, the headers, then the head written anew. */
  method ParseRequest(input: string, host: string, auth: string, lim: Limits) returns (r: Result<Parsed>)
    ensures r == Parse(input, host, auth, lim)
  {
    hide ParseHeaders, ReadLine, HeaderText, Itoa, ParseFirst;
    var rd := new HeadReader(input, lim);
    var first := rd.ReadHeadLine();
    if first.Rejected? { return Rejected(first.status); }
    if first.Ended? { return Ended; }
    var t := ParseFirst(first.value);
    if t.Rejected? { return Rejected(t.status); }
    if t.Ended? { return Ended; }
    var st := ReadHeaders(rd, lim);
    if st.Rejected? { return Rejected(st.status); }
    if st.Ended? { return Ended; }
    var rest, clen := rd.rest, if st.value.clen < 0 then 0 else st.value.clen;
    var hs := OwnHeaders(host, auth, clen) + st.value.headers;
    var head := FirstText(t.value) + "\r\n";
    for i := 0 to |hs|
      invariant head + Text(HeaderLines(hs[i..])) == Text(HeadLines(t.value, host, auth, clen, st.value.headers))
    {
      HeadNext(hs, i);
      head := head + HeaderText(hs[i]) + "\r\n";
    }
    assert HeaderLines(hs[|hs|..]) == [];
    head := head + "\r\n";
    assert Request(head, clen, t.value.verb, PathOf(t.value.target)) == Emit(t.value, host, auth, st.value);
    return Ok(Parsed(Request(head, clen, t.value.verb, PathOf(t.value.target)), rest));
  }

  lemma HeadNext(hs: seq<Header>, i: nat)
    requires i < |hs|
    ensures Text(HeaderLines(hs[i..])) == HeaderText(hs[i]) + "\r\n" + Text(HeaderLines(hs[i + 1..]))
  {
    hide HeaderText;
    assert HeaderLines(hs[i..])[1..] == HeaderLines(hs[i + 1..]);
  }

  /** What happens around the request: a free slot, the relay still running, the upstream there, how many bytes it takes. */
  datatype World = World(slotFree: bool, stopped: bool, dialled: bool, alive: bool, takes: nat)
  {
    predicate Reached() { slotFree && !stopped && dialled && alive }
  }

  /** All that the upstream is to be sent: the head and as much of the declared body as the client has. */
  function Whole(p: Parsed): string { p.request.head + Clip(p.rest, p.request.bodyLen) }

  /**
    handle: what the upstream is sent, and the status that the client gets instead of an answer.
    A request that goes through sends the head and exactly the declared number of body bytes;
    one that fails on the way has sent what the upstream took of that and nothing else.
   */
  method Handle(input: string, host: string, auth: string, lim: Limits, w: World)
    returns (sent: string, status: Option<nat>)
    ensures !Parse(input, host, auth, lim).Ok? ==> sent == ""
    ensures Parse(input, host, auth, lim).Rejected? ==> status == Some(Parse(input, host, auth, lim).status)
    ensures Parse(input, host, auth, lim).Ok? ==>
      var p := Parse(input, host, auth, lim).value;
      && sent == (if w.Reached() then Clip(Whole(p), w.takes) else "")
      && (status.None? <==> w.Reached() && |p.rest| >= p.request.bodyLen && w.takes >= |p.request.head| + p.request.bodyLen)
      && (status.None? ==> sent == p.request.head + p.rest[..p.request.bodyLen])
      && (status.Some? ==>
            status.value == (if !w.slotFree || w.stopped then 503
                             else if !w.dialled || !w.alive || w.takes < |p.request.head| then 502 else 400))
    ensures Parse(input, host, auth, lim).Ended? ==> status.None?
  {
    hide Parse;
    sent := "";
    var r := ParseRequest(input, host, auth, lim);
    if r.Rejected? { return sent, Some(r.status); }
    if r.Ended? { return sent, None; }
    var q, rest := r.value.request, r.value.rest;
    if !w.slotFree || w.stopped { return sent, Some(503); }
    if !w.dialled || !w.alive { return sent, Some(502); }
    sent := Clip(q.head, w.takes);
    ClipConcat(q.head, Clip(rest, q.bodyLen), w.takes);
    if |sent| < |q.head| { return sent, Some(502); }
    if q.bodyLen > 0 {
      var body := Clip(Clip(rest, q.bodyLen), w.takes - |q.head|);
      sent := sent + body;
      if |body| < q.bodyLen { return sent, Some(400); }
    }
    assert sent == q.head + rest[..q.bodyLen];
    return sent, None;
  }

  lemma ClipConcat(a: string, b: string, n: nat)
    ensures Clip(a + b, n) == if n < |a| then Clip(a, n) else a + Clip(b, n - |a|)
    ensures n < |a| <==> |Clip(a, n)| < |a|
  {
    if n < |a| { assert (a + b)[..n] == a[..n]; }
    else if n < |a| + |b| { assert (a + b)[..n] == a + b[..n - |a|]; }
  }

  function Clip(s: string, n: nat): string { if |s| <= n then s else s[..n] }
}
