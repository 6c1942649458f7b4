/** tools/docgen/index.go: the generated part of the index of decisions, between its two marker lines. */
module DocgenSplice {
  import opened Wrappers
  import opened Strings

  const BEGIN := "<!-- docgen:adr-index begin -->"
  const END := "<!-- docgen:adr-index end -->"

  /** The pieces of s, each up to and with its newline; the last one has none. */
  function SplitAfter(s: string): seq<string> {
    var i := IndexOf(s, '\n');
    if i == |s| then [s] else [s[..i + 1]] + SplitAfter(s[i + 1..])
  }

  function Concat(parts: seq<string>): string { if parts == [] then "" else parts[0] + Concat(parts[1..]) }

  /** The line without its newline. */
  function Bare(line: string): string { if line != "" && line[|line| - 1] == '\n' then line[..|line| - 1] else line }

  function CountLines(lines: seq<string>, text: string): nat {
    if lines == [] then 0 else CountLines(lines[..|lines| - 1], text) + if Bare(lines[|lines| - 1]) == text then 1 else 0
  }

  /** The last line with this text, or -1. */
  function LastLine(lines: seq<string>, text: string): int {
    if lines == [] then -1
    else if Bare(lines[|lines| - 1]) == text then |lines| - 1
    else LastLine(lines[..|lines| - 1], text)
  }

  function Splice(readme: string, table: string): Option<string> {
    var lines := SplitAfter(readme);
    var begin, end := LastLine(lines, BEGIN), LastLine(lines, END);
    if CountLines(lines, BEGIN) != 1 || CountLines(lines, END) != 1 || begin >= end then None
    else
      LastLineIs(lines, BEGIN);
      LastLineIs(lines, END);
      Some(Concat(lines[..begin + 1]) + table + Concat(lines[end..]))
  }

  lemma {:induction false} LastLineIs(lines: seq<string>, text: string)
    ensures -1 <= LastLine(lines, text) < |lines|
    ensures LastLine(lines, text) == -1 <==> CountLines(lines, text) == 0
    ensures LastLine(lines, text) >= 0 ==> Bare(lines[LastLine(lines, text)]) == text
  {
    if lines != [] { LastLineIs(lines[..|lines| - 1], text); }
  }

  /** spliceADRIndex, line by line. */
  method SpliceIndex(readme: string, table: string) returns (r: Option<string>)
    ensures r == Splice(readme, table)
  {
    hide Bare, SplitAfter;
    var lines := SplitAfter(readme);
    var begin, end, nBegin, nEnd := -1, -1, 0, 0;
    for i := 0 to |lines|
      invariant begin == LastLine(lines[..i], BEGIN) && nBegin == CountLines(lines[..i], BEGIN)
      invariant end == LastLine(lines[..i], END) && nEnd == CountLines(lines[..i], END)
    {
      assert lines[..i + 1][..i] == lines[..i];
      var bare := Bare(lines[i]);
      if bare == BEGIN {
        begin, nBegin := i, nBegin + 1;
      } else if bare == END {
        end, nEnd := i, nEnd + 1;
      }
    }
    assert lines[..|lines|] == lines;
    if nBegin != 1 || nEnd != 1 || begin >= end { return None; }
    LastLineIs(lines, BEGIN);
    LastLineIs(lines, END);
    return Some(Concat(lines[..begin + 1]) + table + Concat(lines[end..]));
  }

  // ----- pieces and texts -----

  /** Lines that all end with their newline and have no other. */
  predicate Closed(line: string) { line != "" && IndexOf(line, '\n') == |line| - 1 }

  predicate AllClosed(lines: seq<string>) { forall i :: 0 <= i < |lines| ==> Closed(lines[i]) }

  /** Lines whose text is s, all but the last ending with their newline. */
  ghost predicate Shaped(ls: seq<string>, s: string) {
    ls != [] && Concat(ls) == s && AllClosed(ls[..|ls| - 1]) && '\n' !in ls[|ls| - 1]
  }

  lemma ShapedCons(line: string, ls: seq<string>, s: string)
    requires Closed(line) && Shaped(ls, s)
    ensures Shaped([line] + ls, line + s)
  {
    hide Closed;
    var all := [line] + ls;
    assert all[1..] == ls;
    assert all[..|all| - 1] == [line] + ls[..|ls| - 1];
  }

  lemma {:induction false} SplitAfterShape(s: string)
    ensures Shaped(SplitAfter(s), s)
    decreases |s|
  {
    hide IndexOf, Closed, Shaped;
    var i := IndexOf(s, '\n');
    if i == |s| {
      LastShaped(s);
    } else {
      SplitAfterShape(s[i + 1..]);
      FirstIsClosed(s);
      ShapedCons(s[..i + 1], SplitAfter(s[i + 1..]), s[i + 1..]);
    }
  }

  lemma LastShaped(s: string)
    requires IndexOf(s, '\n') == |s|
    ensures Shaped([s], s)
  {
    assert s[..|s|] == s;
    assert [s][1..] == [];
  }

  lemma FirstIsClosed(s: string)
    requires IndexOf(s, '\n') < |s|
    ensures var i := IndexOf(s, '\n'); Closed(s[..i + 1]) && s == s[..i + 1] + s[i + 1..]
  {
    hide IndexOf, Closed;
    var i := IndexOf(s, '\n');
    TwoParts(s, i + 1);
    ClosedLine(s[..i]);
    assert s[..i + 1] == s[..i] + ['\n'];
  }

  lemma TwoParts(s: string, i: nat)
    requires i <= |s|
    ensures s == s[..i] + s[i..]
  {
  }

  lemma ClosedLine(body: string)
    requires '\n' !in body
    ensures Closed(body + ['\n'])
  {
    hide IndexOf;
    IndexOfUnique(body, '\n', "");
    assert body + ['\n'] + "" == body + ['\n'];
  }

  /** Lines that end with their newline are split off in front of any text. */
  lemma {:induction false} SplitClosed(lines: seq<string>, rest: string)
    requires AllClosed(lines)
    ensures SplitAfter(Concat(lines) + rest) == lines + SplitAfter(rest)
    decreases |lines|
  {
    hide IndexOf, SplitAfter, Closed;
    if lines == [] {
      assert Concat(lines) + rest == rest;
      assert [] + SplitAfter(rest) == SplitAfter(rest);
    } else {
      var line, more := lines[0], Concat(lines[1..]) + rest;
      SplitClosed(lines[1..], rest);
      assert Concat(lines) + rest == line + more;
      SplitFirst(line, more);
      assert [line] + (lines[1..] + SplitAfter(rest)) == lines + SplitAfter(rest);
    }
  }

  lemma SplitFirst(line: string, more: string)
    requires Closed(line)
    ensures SplitAfter(line + more) == [line] + SplitAfter(more)
  {
    hide IndexOf;
    var body := line[..|line| - 1];
    assert line == body + ['\n'];
    assert line + more == body + ['\n'] + more;
    assert '\n' !in body by { assert body == line[..IndexOf(line, '\n')]; }
    IndexOfUnique(body, '\n', more);
    assert (line + more)[..|line|] == line && (line + more)[|line|..] == more;
  }

  lemma {:induction false} CountConcat(a: seq<string>, b: seq<string>, text: string)
    ensures CountLines(a + b, text) == CountLines(a, text) + CountLines(b, text)
    ensures LastLine(a + b, text) == if LastLine(b, text) >= 0 then |a| + LastLine(b, text) else LastLine(a, text)
  {
    hide Bare;
    LastLineIs(b, text);
    if b == [] {
      assert a + b == a;
    } else {
      CountConcat(a, b[..|b| - 1], text);
      LastLineIs(b[..|b| - 1], text);
      assert (a + b)[..|a + b| - 1] == a + b[..|b| - 1];
    }
  }

  /** The lines of a table: whole, and none of them a marker. */
  ghost predicate TableLines(lines: seq<string>) {
    AllClosed(lines) && CountLines(lines, BEGIN) == 0 && CountLines(lines, END) == 0
  }

  /** The rows that are rendered, each beginning with a bar, are such lines. */
  lemma {:induction false} RowsAreTable(lines: seq<string>)
    requires AllClosed(lines) && forall i :: 0 <= i < |lines| ==> lines[i][0] == '|'
    ensures TableLines(lines)
  {
    hide IndexOf;
    if lines != [] {
      var front, last := lines[..|lines| - 1], lines[|lines| - 1];
      RowsAreTable(front);
      assert Bare(last) == "" || Bare(last)[0] == '|';
    }
  }

  /** The lines of the spliced text: those up to the first marker, the table, those from the second on. */
  lemma SplicedLines(readme: string, table: seq<string>)
    requires TableLines(table) && Splice(readme, Concat(table)).Some?
    ensures var lines := SplitAfter(readme); var begin, end := LastLine(lines, BEGIN), LastLine(lines, END);
      && 0 <= begin < end < |lines|
      && SplitAfter(Splice(readme, Concat(table)).value) == lines[..begin + 1] + table + lines[end..]
  {
    hide Bare, IndexOf, SplitAfter, LastLine, CountLines, Concat, Closed;
    var lines := SplitAfter(readme);
    var begin, end := LastLine(lines, BEGIN), LastLine(lines, END);
    LastLineIs(lines, BEGIN);
    LastLineIs(lines, END);
    SplitAfterShape(readme);
    var a, b := lines[..begin + 1], lines[end..];
    assert AllClosed(a) by {
      assert forall i :: 0 <= i < |a| ==> a[i] == lines[..|lines| - 1][i];
    }
    var text := Concat(a) + Concat(table) + Concat(b);
    assert text == Concat(a) + (Concat(table) + Concat(b));
    SplitClosed(a, Concat(table) + Concat(b));
    SplitClosed(table, Concat(b));
    SplitTail(lines, end);
    assert a + (table + b) == a + table + b;
  }

  /** The last lines of a split text are the split of their own text. */
  lemma SplitTail(lines: seq<string>, k: nat)
    requires k < |lines| && AllClosed(lines[..|lines| - 1]) && '\n' !in lines[|lines| - 1]
    ensures SplitAfter(Concat(lines[k..])) == lines[k..]
  {
    hide IndexOf, Closed, Concat;
    var n := |lines| - 1;
    var front, last := lines[k..n], lines[n];
    assert lines[k..] == front + [last];
    assert AllClosed(front) by { assert forall i :: 0 <= i < |front| ==> front[i] == lines[..n][k + i]; }
    ConcatSnoc(front, last);
    SplitClosed(front, last);
    assert SplitAfter(last) == [last] by { NoNewline(last); }
  }

  lemma NoNewline(s: string)
    requires '\n' !in s
    ensures SplitAfter(s) == [s]
  {
    hide IndexOf;
    IndexOfUnique(s, '\n', "");
  }

  lemma {:induction false} ConcatSnoc(lines: seq<string>, last: string)
    ensures Concat(lines + [last]) == Concat(lines) + last
  {
    if lines == [] {
      assert [] + [last] == [last] && [last][1..] == [];
    } else {
      ConcatSnoc(lines[1..], last);
      assert (lines + [last])[1..] == lines[1..] + [last];
    }
  }

  /**
    Splicing again changes nothing: what was generated is found as it is the next time, and all
    that lies outside the markers stays.
   */
  lemma SpliceStable(readme: string, table: seq<string>)
    requires TableLines(table) && Splice(readme, Concat(table)).Some?
    ensures var once := Splice(readme, Concat(table)).value; Splice(once, Concat(table)) == Some(once)
  {
    hide Bare, IndexOf, SplitAfter, LastLine, CountLines, Concat, Closed;
    var lines := SplitAfter(readme);
    var begin, end := LastLine(lines, BEGIN), LastLine(lines, END);
    SplicedLines(readme, table);
    var a, b := lines[..begin + 1], lines[end..];
    MarkersStay(lines, table);
    var again := a + table + b;
    assert again[..begin + 1] == a && again[begin + 1 + |table|..] == b;
  }

  lemma MarkersStay(lines: seq<string>, table: seq<string>)
    requires TableLines(table) && CountLines(lines, BEGIN) == 1 && CountLines(lines, END) == 1
    requires 0 <= LastLine(lines, BEGIN) < LastLine(lines, END) < |lines|
    ensures var begin, end := LastLine(lines, BEGIN), LastLine(lines, END);
      var again := lines[..begin + 1] + table + lines[end..];
      && CountLines(again, BEGIN) == 1 && CountLines(again, END) == 1
      && LastLine(again, BEGIN) == begin && LastLine(again, END) == begin + 1 + |table|
  {
    hide Bare, Closed, LastLine, CountLines;
    var begin, end := LastLine(lines, BEGIN), LastLine(lines, END);
    var a, mid, b := lines[..begin + 1], lines[begin + 1..end], lines[end..];
    assert lines == a + (mid + b);
    assert lines == a + mid + b;
    LastLineIs(lines, BEGIN);
    LastLineIs(lines, END);
    MarkerIn(a, begin, BEGIN);
    MarkerIn(b, 0, END);
    CountConcat(a, mid + b, BEGIN);
    CountConcat(a + mid, b, END);
    CountConcat(a, mid, END);
    CountConcat(mid, b, BEGIN);
    CountConcat(a + table, b, BEGIN);
    CountConcat(a, table, BEGIN);
    CountConcat(a + table, b, END);
    CountConcat(a, table, END);
    OneMarker(a, begin, BEGIN);
    OneMarker(b, 0, END);
    LastLineIs(table, BEGIN);
    LastLineIs(table, END);
    LastLineIs(b, BEGIN);
    LastLineIs(a, END);
  }

  lemma {:induction false} MarkerIn(lines: seq<string>, k: nat, text: string)
    requires k < |lines| && Bare(lines[k]) == text
    ensures CountLines(lines, text) >= 1 && LastLine(lines, text) >= k
  {
    hide Bare;
    if k < |lines| - 1 { MarkerIn(lines[..|lines| - 1], k, text); }
  }

  lemma {:induction false} OneMarker(lines: seq<string>, k: nat, text: string)
    requires k < |lines| && Bare(lines[k]) == text && CountLines(lines, text) == 1
    ensures LastLine(lines, text) == k
  {
    hide Bare;
    if k < |lines| - 1 {
      MarkerIn(lines[..|lines| - 1], k, text);
      OneMarker(lines[..|lines| - 1], k, text);
    }
  }

  // ----- exactly when the index is spliced -----

  /** The line is this text, with or without its newline. */
  predicate LineIs(line: string, text: string) { line == text || line == text + "\n" }

  lemma BareTells(line: string, text: string)
    requires '\n' !in text
    ensures Bare(line) == text <==> LineIs(line, text)
  {
    if line != "" && line[|line| - 1] == '\n' { assert line == line[..|line| - 1] + "\n"; }
    if line == text + "\n" { assert line[..|line| - 1] == text; }
  }

  /** This one line, and no other, has this text. */
  ghost predicate OnlyAt(lines: seq<string>, k: int, text: string) {
    0 <= k < |lines| && forall i :: 0 <= i < |lines| ==> (LineIs(lines[i], text) <==> i == k)
  }

  lemma {:induction false} OnceTells(lines: seq<string>, text: string)
    requires '\n' !in text
    ensures CountLines(lines, text) == 0 <==> forall i :: 0 <= i < |lines| ==> !LineIs(lines[i], text)
    ensures CountLines(lines, text) == 1 <==> exists k :: OnlyAt(lines, k, text)
    ensures CountLines(lines, text) == 1 ==> OnlyAt(lines, LastLine(lines, text), text)
  {
    hide Bare, LineIs, OnlyAt;
    if lines == [] {
      NoneOnly(text);
    } else {
      var front, last := lines[..|lines| - 1], lines[|lines| - 1];
      OnceTells(front, text);
      BareTells(last, text);
      forall k ensures OnlyAt(lines, k, text) <==>
        if LineIs(last, text) then k == |front| && forall i :: 0 <= i < |front| ==> !LineIs(front[i], text) else OnlyAt(front, k, text)
      {
        OnlyNext(lines, k, text);
      }
      if LineIs(last, text) && CountLines(front, text) == 0 { assert OnlyAt(lines, |front|, text); }
      if k :| OnlyAt(front, k, text) { assert LineIs(last, text) || OnlyAt(lines, k, text); }
      assert forall i :: 0 <= i < |front| ==> front[i] == lines[i];
    }
  }

  lemma NoneOnly(text: string)
    ensures forall k :: !OnlyAt([], k, text)
  {
  }

  lemma OnlyNext(lines: seq<string>, k: int, text: string)
    requires lines != []
    ensures var front, last := lines[..|lines| - 1], lines[|lines| - 1];
      OnlyAt(lines, k, text) <==>
        if LineIs(last, text) then k == |front| && forall i :: 0 <= i < |front| ==> !LineIs(front[i], text) else OnlyAt(front, k, text)
  {
    hide LineIs;
    var front, last := lines[..|lines| - 1], lines[|lines| - 1];
    assert forall i :: 0 <= i < |front| ==> front[i] == lines[i];
    if OnlyAt(lines, k, text) { assert LineIs(lines[k], text); }
  }

  const FIRST_MARK := "<!-- docgen:adr-index begin -->"
  const SECOND_MARK := "<!-- docgen:adr-index end -->"

  /** The lines at i and j are the two markers, each the only one of its kind, and in this order. */
  ghost predicate Marked(lines: seq<string>, i: int, j: int) {
    OnlyAt(lines, i, FIRST_MARK) && OnlyAt(lines, j, SECOND_MARK) && i < j
  }

  /**
    The index is spliced exactly when each marker stands on one line and the first comes first, and
    then what is between the two lines is the table and nothing else has changed.
   */
  lemma SpliceTells(readme: string, table: string)
    ensures Splice(readme, table).Some? ==> exists i, j :: Marked(SplitAfter(readme), i, j)
    ensures forall i, j :: Marked(SplitAfter(readme), i, j) ==>
      Splice(readme, table) == Some(Concat(SplitAfter(readme)[..i + 1]) + table + Concat(SplitAfter(readme)[j..]))
  {
    hide SplitAfter, CountLines, LastLine, LineIs;
    var lines := SplitAfter(readme);
    OnceTells(lines, BEGIN);
    OnceTells(lines, END);
    if Splice(readme, table).Some? { assert Marked(lines, LastLine(lines, BEGIN), LastLine(lines, END)); }
    forall i, j | Marked(lines, i, j)
      ensures Splice(readme, table) == Some(Concat(lines[..i + 1]) + table + Concat(lines[j..]))
    {
      SameAt(lines, i, LastLine(lines, BEGIN), BEGIN);
      SameAt(lines, j, LastLine(lines, END), END);
    }
  }

  lemma SameAt(lines: seq<string>, i: int, j: int, text: string)
    requires OnlyAt(lines, i, text) && OnlyAt(lines, j, text)
    ensures i == j
  {
    assert LineIs(lines[i], text);
  }
}
