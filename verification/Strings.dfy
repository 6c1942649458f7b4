/** Go's string functions that several of the models use, with the laws that tie them together. */
module Strings {

  function Join(parts: seq<string>, sep: string): string {
    if parts == [] then "" else if |parts| == 1 then parts[0] else parts[0] + sep + Join(parts[1..], sep)
  }

  /** Where c first stands in s, or the length of s. */
  function IndexOf(s: string, c: char): (i: nat)
    ensures i <= |s| && (i < |s| ==> s[i] == c) && c !in s[..i]
  {
    if s == [] || s[0] == c then 0
    else
      var i := IndexOf(s[1..], c);
      assert s[..i + 1] == [s[0]] + s[1..][..i];
      i + 1
  }

  lemma IndexOfUnique(a: string, c: char, rest: string)
    requires c !in a
    ensures IndexOf(a + [c] + rest, c) == |a| && IndexOf(a, c) == |a|
  {
    var s := a + [c] + rest;
    assert s[|a|] == c;
    var i := IndexOf(s, c);
    assert forall k :: 0 <= k < i ==> s[..i][k] != c;
    assert forall j :: 0 <= j < |a| ==> s[j] == a[j];
  }

  function Split(s: string, sep: char): seq<string> {
    var i := IndexOf(s, sep);
    if i == |s| then [s] else [s[..i]] + Split(s[i + 1..], sep)
  }

  lemma JoinCons(p: string, ps: seq<string>, sep: string)
    requires ps != []
    ensures Join([p] + ps, sep) == p + sep + Join(ps, sep)
  {
    assert ([p] + ps)[1..] == ps;
  }

  lemma {:induction false} JoinSplit(s: string, sep: char)
    ensures Split(s, sep) != [] && Join(Split(s, sep), [sep]) == s
    ensures forall p :: p in Split(s, sep) ==> sep !in p
    decreases |s|
  {
    hide IndexOf, Join;
    var i := IndexOf(s, sep);
    if i == |s| {
      assert s[..i] == s;
      JoinOne(s, [sep]);
    } else {
      JoinSplit(s[i + 1..], sep);
      JoinCons(s[..i], Split(s[i + 1..], sep), [sep]);
      assert s == s[..i] + [sep] + s[i + 1..];
    }
  }

  lemma JoinOne(p: string, sep: string)
    ensures Join([p], sep) == p
  {
  }

  lemma {:induction false} SplitJoin(ps: seq<string>, sep: char)
    requires ps != [] && forall p :: p in ps ==> sep !in p
    ensures Split(Join(ps, [sep]), sep) == ps
  {
    hide IndexOf, Join;
    if |ps| == 1 {
      JoinOne(ps[0], [sep]);
      assert ps == [ps[0]];
      IndexOfUnique(ps[0], sep, []);
    } else {
      var rest := Join(ps[1..], [sep]);
      SplitJoin(ps[1..], sep);
      assert ps == [ps[0]] + ps[1..];
      JoinCons(ps[0], ps[1..], [sep]);
      SplitCons(ps[0], sep, rest);
    }
  }

  lemma SplitCons(p: string, sep: char, rest: string)
    requires sep !in p
    ensures Split(p + [sep] + rest, sep) == [p] + Split(rest, sep)
  {
    hide IndexOf;
    var s := p + [sep] + rest;
    IndexOfUnique(p, sep, rest);
    assert s[..|p|] == p && s[|p| + 1..] == rest;
  }

  predicate Starts(s: string, p: string) { |p| <= |s| && s[..|p|] == p }

  lemma OtherStart(s: string, p: string)
    requires s != "" && p != "" && s[0] != p[0]
    ensures !Starts(s, p)
  {
    assert |p| <= |s| ==> s[..|p|][0] == s[0];
  }

  predicate Ends(s: string, p: string) { |p| <= |s| && s[|s| - |p|..] == p }

  lemma StartsTrans(a: string, b: string, c: string)
    requires Starts(a, b) && Starts(b, c)
    ensures Starts(a, c)
  {
    assert a[..|c|] == a[..|b|][..|c|];
  }

  // ----- decimal numbers -----

  function Digit(n: nat): char
    requires n < 10
  {
    (n as char) + '0'
  }

  function Itoa(n: nat): string {
    if n < 10 then [Digit(n)] else Itoa(n / 10) + [Digit(n % 10)]
  }

  lemma {:induction false} ItoaInjective(m: nat, n: nat)
    requires Itoa(m) == Itoa(n)
    ensures m == n
  {
    var s, t := Itoa(m), Itoa(n);
    assert s[|s| - 1] == Digit(m % 10) && t[|t| - 1] == Digit(n % 10);
    assert m % 10 == n % 10;
    if m >= 10 && n >= 10 {
      assert s[..|s| - 1] == Itoa(m / 10) && t[..|t| - 1] == Itoa(n / 10);
      ItoaInjective(m / 10, n / 10);
    }
  }

  predicate Digits(s: string) { forall i :: 0 <= i < |s| ==> '0' <= s[i] <= '9' }

  function Atoi(s: string): nat
    requires Digits(s)
  {
    if s == "" then 0 else Atoi(s[..|s| - 1]) * 10 + (s[|s| - 1] as nat - '0' as nat)
  }

  lemma {:induction false} AtoiItoa(n: nat)
    ensures Digits(Itoa(n)) && Itoa(n) != "" && Atoi(Itoa(n)) == n
  {
    var s := Itoa(n);
    if n < 10 {
      assert s[..0] == "";
      assert Atoi(s[..0]) == 0;
    } else {
      AtoiItoa(n / 10);
      assert s[..|s| - 1] == Itoa(n / 10);
    }
  }

  lemma {:induction false} ItoaShort(n: nat, digits: nat)
    requires digits > 0 && n < Power10(digits)
    ensures |Itoa(n)| <= digits
  {
    if n >= 10 { ItoaShort(n / 10, digits - 1); }
  }

  function Power10(k: nat): nat { if k == 0 then 1 else 10 * Power10(k - 1) }
}
