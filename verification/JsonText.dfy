/**
  The text of a JSON value without insignificant white space, and how such a text reads back. A
  string has one spelling here, the one that escapes only what has to be escaped.
 */
module JsonText {
  import opened Wrappers
  import opened Json

  // ----- the text of a value with the insignificant white space removed -----

  function Hex(n: nat): char
    requires n < 16
  {
    if n < 10 then '0' + n as char else 'a' + (n - 10) as char
  }

  function Escaped(c: char): string {
    if c == '"' then "\\\"" else if c == '\\' then "\\\\"
    else if c < ' ' then "\\u00" + [Hex(c as int / 16), Hex(c as int % 16)]
    else [c]
  }

  function EscapedAll(s: string): string { if s == "" then "" else Escaped(s[0]) + EscapedAll(s[1..]) }

  function Quoted(s: string): string { "\"" + EscapedAll(s) + "\"" }

  function Compact(v: Value): string {
    match v
    case Null => "null"
    case Bool(b) => if b then "true" else "false"
    case Number(t) => t
    case Str(s) => Quoted(s)
    case Array(items) => "[" + CompactItems(items) + "]"
    case Object(members) => "{" + CompactMembers(members) + "}"
  }

  function CompactItems(items: seq<Value>): string {
    if items == [] then ""
    else if |items| == 1 then Compact(items[0])
    else Compact(items[0]) + "," + CompactItems(items[1..])
  }

  function CompactMembers(members: seq<Member>): string {
    if members == [] then ""
    else
      var head := Quoted(members[0].name) + ":" + Compact(members[0].value);
      if |members| == 1 then head else head + "," + CompactMembers(members[1..])
  }

  // ----- reading a text back -----

  function HexValue(c: char): Option<nat> {
    if '0' <= c <= '9' then Some(c as int - '0' as int)
    else if 'a' <= c <= 'f' then Some(c as int - 'a' as int + 10) else None
  }

  /** A value and what follows it. */
  datatype Parsed<T> = Parsed(value: T, rest: string)

  /** A string after its opening quote. */
  function ParseString(t: string): (r: Option<Parsed<string>>)
    ensures r.Some? ==> |r.value.rest| < |t|
  {
    if t == "" then None
    else if t[0] == '"' then Some(Parsed("", t[1..]))
    else if t[0] != '\\' then Before(t[0], ParseString(t[1..]))
    else if |t| >= 2 && (t[1] == '"' || t[1] == '\\') then Before(t[1], ParseString(t[2..]))
    else if |t| >= 6 && t[1..4] == "u00" && HexValue(t[4]).Some? && HexValue(t[5]).Some? then
      Before((HexValue(t[4]).value * 16 + HexValue(t[5]).value) as char, ParseString(t[6..]))
    else None
  }

  function Before(c: char, r: Option<Parsed<string>>): Option<Parsed<string>> {
    if r.None? then None else Some(Parsed([c] + r.value.value, r.value.rest))
  }

  function NumberEnd(t: string): (n: nat)
    ensures n <= |t| && (forall i :: 0 <= i < n ==> NumberChar(t[i])) && (n < |t| ==> !NumberChar(t[n]))
  {
    if t == "" || !NumberChar(t[0]) then 0 else 1 + NumberEnd(t[1..])
  }

  predicate Begins(t: string, p: string) { |p| <= |t| && t[..|p|] == p }

  /** The value at the front of a text without white space. */
  function Parse(t: string): (r: Option<Parsed<Value>>)
    ensures r.Some? ==> |r.value.rest| < |t|
    decreases |t|, 0
  {
    if t == "" then None
    else if t[0] == '"' then
      var s := ParseString(t[1..]);
      if s.None? then None else Some(Parsed(Str(s.value.value), s.value.rest))
    else if t[0] == '[' then
      if |t| > 1 && t[1] == ']' then Some(Parsed(Array([]), t[2..]))
      else
        var items := ParseItems(t[1..]);
        if items.None? then None else Some(Parsed(Array(items.value.value), items.value.rest))
    else if t[0] == '{' then
      if |t| > 1 && t[1] == '}' then Some(Parsed(Object([]), t[2..]))
      else
        var members := ParseMembers(t[1..]);
        if members.None? then None else Some(Parsed(Object(members.value.value), members.value.rest))
    else if Begins(t, "null") then Some(Parsed(Null, t[4..]))
    else if Begins(t, "true") then Some(Parsed(Bool(true), t[4..]))
    else if Begins(t, "false") then Some(Parsed(Bool(false), t[5..]))
    else if NumberChar(t[0]) then Some(Parsed(Number(t[..NumberEnd(t)]), t[NumberEnd(t)..]))
    else None
  }

  /** The items of an array up to its closing bracket. */
  function ParseItems(t: string): (r: Option<Parsed<seq<Value>>>)
    ensures r.Some? ==> |r.value.rest| < |t|
    decreases |t|, 1
  {
    var v := Parse(t);
    if v.None? || v.value.rest == "" then None
    else if v.value.rest[0] == ']' then Some(Parsed([v.value.value], v.value.rest[1..]))
    else if v.value.rest[0] != ',' then None
    else
      var more := ParseItems(v.value.rest[1..]);
      if more.None? then None else Some(Parsed([v.value.value] + more.value.value, more.value.rest))
  }

  /** The members of an object up to its closing brace. */
  function ParseMembers(t: string): (r: Option<Parsed<seq<Member>>>)
    ensures r.Some? ==> |r.value.rest| < |t|
    decreases |t|, 1
  {
    if t == "" || t[0] != '"' then None
    else
      var name := ParseString(t[1..]);
      if name.None? || name.value.rest == "" || name.value.rest[0] != ':' then None
      else
        var v := Parse(name.value.rest[1..]);
        if v.None? || v.value.rest == "" then None
        else
          var m := Member(name.value.value, v.value.value);
          if v.value.rest[0] == '}' then Some(Parsed([m], v.value.rest[1..]))
          else if v.value.rest[0] != ',' then None
          else
            var more := ParseMembers(v.value.rest[1..]);
            if more.None? then None else Some(Parsed([m] + more.value.value, more.value.rest))
  }

  lemma ReadEscaped(c: char, t: string)
    ensures ParseString(Escaped(c) + t) == Before(c, ParseString(t))
  {
    var e := Escaped(c);
    assert (e + t)[|e|..] == t;
    if c < ' ' { assert (e + t)[1..4] == "u00"; }
  }

  lemma {:induction false} StringReadsBack(s: string, t: string)
    ensures ParseString(EscapedAll(s) + "\"" + t) == Some(Parsed(s, t))
  {
    hide Escaped;
    if s == "" {
      assert (EscapedAll(s) + "\"" + t) == "\"" + t;
    } else {
      StringReadsBack(s[1..], t);
      ReadEscaped(s[0], EscapedAll(s[1..]) + "\"" + t);
      assert EscapedAll(s) + "\"" + t == Escaped(s[0]) + (EscapedAll(s[1..]) + "\"" + t);
      assert s == [s[0]] + s[1..];
    }
  }

  lemma QuotedReadsBack(s: string, t: string)
    ensures var q := Quoted(s) + t; q != "" && q[0] == '"' && ParseString(q[1..]) == Some(Parsed(s, t))
  {
    StringReadsBack(s, t);
    assert (Quoted(s) + t)[1..] == EscapedAll(s) + "\"" + t;
  }

  /** What may follow a value. */
  predicate Ends(t: string) { t == "" || !NumberChar(t[0]) }

  lemma NumberReadsBack(n: NumberText, t: string)
    requires Ends(t)
    ensures Parse(n + t) == Some(Parsed(Number(n), t))
  {
    hide NumberEnd;
    var all := n + t;
    assert all[0] == n[0] && NumberChar(all[0]);
    assert NumberEnd(all) == |n| by { NumberEndIs(n, t); }
    assert all[..|n|] == n && all[|n|..] == t;
    NoWord(all);
  }

  lemma NumberEndIs(n: NumberText, t: string)
    requires Ends(t)
    ensures NumberEnd(n + t) == |n|
  {
    var all, e := n + t, NumberEnd(n + t);
    assert forall i :: 0 <= i < |n| ==> all[i] == n[i];
    assert |n| < |all| ==> all[|n|] == t[0];
  }

  lemma NoWord(t: string)
    requires t != "" && NumberChar(t[0])
    ensures !Begins(t, "null") && !Begins(t, "true") && !Begins(t, "false")
  {
    assert |t| >= 4 ==> t[..4][0] == t[0];
    assert |t| >= 5 ==> t[..5][0] == t[0];
  }

  lemma WordReadsBack(v: Value, t: string)
    requires v.Null? || v.Bool?
    ensures Parse(Compact(v) + t) == Some(Parsed(v, t))
  {
    var w := Compact(v);
    assert (w + t)[..|w|] == w && (w + t)[|w|..] == t;
    assert (w + t)[0] == w[0];
  }

  lemma CompactStarts(v: Value)
    ensures Compact(v) != "" && Compact(v)[0] !in {']', '}', ','}
  {
  }

  /** The text of a value reads back to that very value. */
  lemma {:induction false} ReadsBack(v: Value, t: string)
    requires Ends(t)
    ensures Parse(Compact(v) + t) == Some(Parsed(v, t))
    decreases v, 0
  {
    hide Quoted, ParseString, ParseItems, ParseMembers, CompactItems, CompactMembers;
    match v
    case Null => WordReadsBack(v, t);
    case Bool(b) => WordReadsBack(v, t);
    case Number(n) => NumberReadsBack(n, t);
    case Str(s) => QuotedReadsBack(s, t);
    case Array(items) => ArrayReadsBack(items, t);
    case Object(members) => ObjectReadsBack(members, t);
  }

  lemma ArrayReadsBack(items: seq<Value>, t: string)
    ensures Parse(Compact(Array(items)) + t) == Some(Parsed(Array(items), t))
    decreases items, 2
  {
    hide ParseItems, CompactItems, Ends, ParseString;
    var all := Compact(Array(items)) + t;
    var inside := CompactItems(items) + "]" + t;
    assert all == "[" + inside;
    assert all[1..] == inside && all[0] == '[';
    if items == [] {
      NoItems();
      assert all[1] == ']' && all[2..] == t;
    } else {
      ItemsStart(items);
      assert all[1] == CompactItems(items)[0];
      ItemsReadBack(items, t);
    }
  }

  lemma NoItems()
    ensures CompactItems([]) == "" && CompactMembers([]) == ""
  {
  }

  lemma ItemsStart(items: seq<Value>)
    requires items != []
    ensures CompactItems(items) != "" && CompactItems(items)[0] != ']'
  {
    CompactStarts(items[0]);
  }

  lemma LastItem(t: string, v: Value, rest: string)
    requires Parse(t) == Some(Parsed(v, "]" + rest))
    ensures ParseItems(t) == Some(Parsed([v], rest))
  {
    hide Parse;
    assert ("]" + rest)[1..] == rest;
  }

  lemma NextItem(t: string, v: Value, tail: string, vs: seq<Value>, rest: string)
    requires Parse(t) == Some(Parsed(v, "," + tail)) && ParseItems(tail) == Some(Parsed(vs, rest))
    ensures ParseItems(t) == Some(Parsed([v] + vs, rest))
  {
    hide Parse;
    assert ("," + tail)[1..] == tail;
  }

  lemma {:induction false} ItemsReadBack(items: seq<Value>, t: string)
    requires items != []
    ensures ParseItems(CompactItems(items) + "]" + t) == Some(Parsed(items, t))
    decreases items, 1
  {
    hide Parse, Compact, ParseItems;
    var head, all := Compact(items[0]), CompactItems(items) + "]" + t;
    if |items| == 1 {
      ReadsBack(items[0], "]" + t);
      assert all == head + ("]" + t);
      LastItem(all, items[0], t);
      assert items == [items[0]];
    } else {
      var tail := CompactItems(items[1..]) + "]" + t;
      ReadsBack(items[0], "," + tail);
      ItemsReadBack(items[1..], t);
      assert all == head + ("," + tail);
      NextItem(all, items[0], tail, items[1..], t);
      assert items == [items[0]] + items[1..];
    }
  }

  lemma ObjectReadsBack(members: seq<Member>, t: string)
    ensures Parse(Compact(Object(members)) + t) == Some(Parsed(Object(members), t))
    decreases members, 2
  {
    hide ParseMembers, CompactMembers, Ends, ParseString;
    var all := Compact(Object(members)) + t;
    var inside := CompactMembers(members) + "}" + t;
    assert all == "{" + inside;
    assert all[1..] == inside && all[0] == '{';
    if members == [] {
      NoItems();
      assert all[1] == '}' && all[2..] == t;
    } else {
      MembersStart(members);
      assert all[1] == CompactMembers(members)[0];
      MembersReadBack(members, t);
    }
  }

  lemma MembersStart(members: seq<Member>)
    requires members != []
    ensures CompactMembers(members) != "" && CompactMembers(members)[0] == '"'
  {
  }

  /** The text has this member at the front, and rest follows it. */
  ghost predicate HasMember(t: string, m: Member, rest: string) {
    && t != "" && t[0] == '"' && ParseString(t[1..]).Some?
    && var name := ParseString(t[1..]).value;
       name.value == m.name && name.rest != "" && name.rest[0] == ':' && Parse(name.rest[1..]) == Some(Parsed(m.value, rest))
  }

  lemma MemberReadsBack(m: Member, t: string)
    requires Ends(t)
    ensures HasMember(Quoted(m.name) + ":" + Compact(m.value) + t, m, t)
    decreases m, 1
  {
    hide Parse, Compact, Ends, Quoted, ParseString;
    var after := ":" + Compact(m.value) + t;
    QuotedReadsBack(m.name, after);
    assert Quoted(m.name) + ":" + Compact(m.value) + t == Quoted(m.name) + after;
    assert after[1..] == Compact(m.value) + t;
    ReadsBack(m.value, t);
  }

  lemma LastMember(t: string, m: Member, rest: string)
    requires HasMember(t, m, "}" + rest)
    ensures ParseMembers(t) == Some(Parsed([m], rest))
  {
    hide Parse, ParseString;
    assert ("}" + rest)[1..] == rest;
  }

  lemma NextMember(t: string, m: Member, tail: string, ms: seq<Member>, rest: string)
    requires HasMember(t, m, "," + tail) && ParseMembers(tail) == Some(Parsed(ms, rest))
    ensures ParseMembers(t) == Some(Parsed([m] + ms, rest))
  {
    hide Parse, ParseString;
    assert ("," + tail)[1..] == tail;
  }

  lemma MembersText(members: seq<Member>, t: string)
    requires members != []
    ensures var m := members[0]; var head := Quoted(m.name) + ":" + Compact(m.value);
      CompactMembers(members) + "}" + t ==
        head + if |members| == 1 then "}" + t else "," + (CompactMembers(members[1..]) + "}" + t)
  {
    hide Compact, Quoted, CompactMembers;
    var m := members[0];
    var head := Quoted(m.name) + ":" + Compact(m.value);
    MembersFirst(members);
    Joined(head, CompactMembers(members[1..]), t);
  }

  lemma MembersFirst(members: seq<Member>)
    requires members != []
    ensures var m := members[0]; var head := Quoted(m.name) + ":" + Compact(m.value);
      CompactMembers(members) == if |members| == 1 then head else head + "," + CompactMembers(members[1..])
  {
    hide Compact, Quoted;
  }

  lemma Joined(a: string, b: string, t: string)
    ensures a + "," + b + "}" + t == a + ("," + (b + "}" + t))
    ensures a + "}" + t == a + ("}" + t)
  {
  }

  lemma {:induction false} MembersReadBack(members: seq<Member>, t: string)
    requires members != []
    ensures ParseMembers(CompactMembers(members) + "}" + t) == Some(Parsed(members, t))
    decreases members, 1
  {
    hide Parse, Compact, CompactMembers, Quoted, HasMember, ParseMembers;
    var m, all := members[0], CompactMembers(members) + "}" + t;
    MembersText(members, t);
    if |members| == 1 {
      MemberReadsBack(m, "}" + t);
      LastMember(all, m, t);
      assert members == [m];
    } else {
      var tail := CompactMembers(members[1..]) + "}" + t;
      MemberReadsBack(m, "," + tail);
      MembersReadBack(members[1..], t);
      NextMember(all, m, tail, members[1..], t);
      assert members == [m] + members[1..];
    }
  }
}
