/** egress/egress.go: dialUpstream shares what is left of the time among the addresses still to try. */
module EgressDial {
  import opened Wrappers

  const MAX_ADDRS := 8

  datatype Error = Resolve | DeadlineExceeded | Forbidden(n: nat) | Other(n: nat)

  datatype Attempt = Connected | Denied | Broke(over: bool)

  /** What an attempt comes to and how long it takes; over: the whole dial's time is over with it. */
  datatype Try = Try(attempt: Attempt, took: nat)

  datatype Outcome = Conn(index: nat) | Err(error: Error)

  /** Go's division of durations. */
  function Per(left: int, addrs: nat): int
    requires addrs > 0
  {
    if left >= 0 then left / addrs else -((-left) / addrs)
  }

  /** What is left before attempt i. */
  function Left(total: int, tries: seq<Try>, i: nat): int
    requires i <= |tries|
  {
    if i == 0 then total else Left(total, tries, i - 1) - tries[i - 1].took
  }

  function Budget(total: int, tries: seq<Try>, i: nat): int
    requires i < |tries|
  {
    Per(Left(total, tries, i), |tries| - i)
  }

  predicate WithinBudget(total: int, tries: seq<Try>) {
    forall i :: 0 <= i < |tries| ==> tries[i].took <= Budget(total, tries, i)
  }

  lemma SharesGrow(left: nat, took: nat, n: nat)
    requires n > 1 && took <= left / n
    ensures (left - took) / (n - 1) >= left / n
  {
    var q := left / n;
    QuotientFits(left, n);
    OneLess(q, n);
    AtLeast(left - took, n - 1, q);
  }

  lemma QuotientFits(a: nat, n: nat)
    requires n > 0
    ensures a / n * n <= a
  {
  }

  lemma OneLess(q: nat, n: nat)
    ensures q * (n - 1) == q * n - q
  {
  }

  /** A quotient is at least q when the dividend is at least q times the divisor. */
  lemma AtLeast(a: nat, n: nat, q: nat)
    requires n > 0 && a >= q * n
    ensures a / n >= q
  {
    var p, r := a / n, a % n;
    assert a == p * n + r && r < n;
    assert (p + 1 - q) * n == p * n + n - q * n;
    PositiveFactor(p + 1 - q, n);
  }

  lemma PositiveFactor(d: int, n: nat)
    requires d * n > 0
    ensures d > 0
  {
  }

  lemma TimesAtLeast(q: nat, n: nat)
    requires n > 0
    ensures q * n >= q
  {
  }

  /**
    If every attempt keeps to its budget, the budgets never shrink, each address has at least its
    equal share of the time, and all attempts together take no more than there is.
   */
  lemma {:induction false} FairShares(total: nat, tries: seq<Try>, i: nat)
    requires WithinBudget(total, tries) && i < |tries|
    ensures Budget(total, tries, i) >= total / |tries|
    ensures i > 0 ==> Budget(total, tries, i) >= Budget(total, tries, i - 1)
    ensures Left(total, tries, i) >= 0 && Left(total, tries, i + 1) >= 0
  {
    hide Left;
    if i == 0 {
      LeftAtStart(total, tries);
    } else {
      FairShares(total, tries, i - 1);
      LeftNext(total, tries, i - 1);
      SharesGrow(Left(total, tries, i - 1), tries[i - 1].took, |tries| - (i - 1));
    }
    LeftNext(total, tries, i);
    ShareFits(Left(total, tries, i), |tries| - i);
  }

  lemma LeftAtStart(total: int, tries: seq<Try>)
    ensures Left(total, tries, 0) == total
  {
  }

  lemma LeftNext(total: int, tries: seq<Try>, i: nat)
    requires i < |tries|
    ensures Left(total, tries, i + 1) == Left(total, tries, i) - tries[i].took
  {
  }

  lemma ShareFits(left: nat, n: nat)
    requires n > 0
    ensures left / n <= left
  {
    var q := left / n;
    QuotientFits(left, n);
    TimesAtLeast(q, n);
  }

  // ----- the loop -----

  /** The first non-forbidden error wins over any forbidden one. */
  function Final(forbidden: Option<Error>, other: Option<Error>): Outcome {
    if other.Some? then Err(other.value) else if forbidden.Some? then Err(forbidden.value) else Err(Resolve)
  }

  function From(total: int, tries: seq<Try>, i: nat, forbidden: Option<Error>, other: Option<Error>): Outcome
    requires i <= |tries|
    decreases |tries| - i
  {
    if i == |tries| then Final(forbidden, other)
    else if Budget(total, tries, i) <= 0 then Err(DeadlineExceeded)
    else match tries[i].attempt
      case Connected => Conn(i)
      case Denied => From(total, tries, i + 1, if forbidden.None? then Some(Forbidden(i)) else forbidden, other)
      case Broke(over) =>
        var other' := if other.None? then Some(Other(i)) else other;
        if over then Final(forbidden, other') else From(total, tries, i + 1, forbidden, other')
  }

  /** dialUpstream; tries says what each resolved address would come to. No more than eight are tried. */
  method DialUpstream(total: int, resolved: seq<Try>) returns (r: Outcome)
    ensures resolved == [] ==> r == Err(Resolve)
    ensures resolved != [] ==> r == From(total, resolved[..if |resolved| < 8 then |resolved| else 8], 0, None, None)
  {
    if |resolved| == 0 { return Err(Resolve); }
    var tries := Cap(resolved);
    assert tries == resolved[..if |resolved| < 8 then |resolved| else 8];
    var left := total;
    var forbidden, other := None, None;
    for i := 0 to |tries|
      invariant left == Left(total, tries, i)
      invariant From(total, tries, 0, None, None) == From(total, tries, i, forbidden, other)
      invariant i > 0 ==> forbidden.Some? || other.Some?
    {
      var per := Per(left, |tries| - i);
      if per <= 0 {
        other := Some(DeadlineExceeded);
        return Err(other.value);
      }
      left := left - tries[i].took;
      match tries[i].attempt
      case Connected => return Conn(i);
      case Denied =>
        if forbidden.None? { forbidden := Some(Forbidden(i)); }
      case Broke(over) =>
        if other.None? { other := Some(Other(i)); }
        if over { return Err(other.value); }
    }
    if other.Some? { return Err(other.value); }
    return Err(forbidden.value);
  }

  function Cap(resolved: seq<Try>): seq<Try> { if |resolved| <= MAX_ADDRS then resolved else resolved[..MAX_ADDRS] }

  /** The attempts before i failed and did not end the dial. */
  predicate FailedBefore(tries: seq<Try>, i: nat) {
    i <= |tries| && forall j :: 0 <= j < i ==> !tries[j].attempt.Connected? && tries[j].attempt != Broke(true)
  }

  /** The first break before i, if any. */
  function FirstBreak(tries: seq<Try>, i: nat): Option<Error>
    requires i <= |tries|
  {
    if i == 0 then None
    else
      var before := FirstBreak(tries, i - 1);
      if before.Some? then before else if tries[i - 1].attempt.Broke? then Some(Other(i - 1)) else None
  }

  function FirstDenied(tries: seq<Try>, i: nat): Option<Error>
    requires i <= |tries|
  {
    if i == 0 then None
    else
      var before := FirstDenied(tries, i - 1);
      if before.Some? then before else if tries[i - 1].attempt.Denied? then Some(Forbidden(i - 1)) else None
  }

  lemma {:induction false} Reaches(total: int, tries: seq<Try>, i: nat)
    requires FailedBefore(tries, i) && forall j :: 0 <= j < i ==> Budget(total, tries, j) > 0
    ensures From(total, tries, 0, None, None) == From(total, tries, i, FirstDenied(tries, i), FirstBreak(tries, i))
  {
    hide Budget;
    if i > 0 {
      Reaches(total, tries, i - 1);
      var t := tries[i - 1].attempt;
      assert !t.Connected? && t != Broke(true);
    }
  }

  /** The least index at which an attempt broke, or was refused. */
  predicate FirstAt(tries: seq<Try>, i: nat, k: int, denied: bool) {
    && i <= |tries| && 0 <= k < i && (if denied then tries[k].attempt.Denied? else tries[k].attempt.Broke?)
    && forall j :: 0 <= j < k ==> if denied then !tries[j].attempt.Denied? else !tries[j].attempt.Broke?
  }

  /** Whether the dial goes on to address i: there was time for each one before, and none connected or ended it. */
  ghost predicate ComesTo(total: int, tries: seq<Try>, i: nat) {
    FailedBefore(tries, i) && forall j :: 0 <= j < i ==> Budget(total, tries, j) > 0
  }

  /**
    What the dial comes to, whatever the time: it gives up at the first address that has no time left,
    connects at the first that connects, and otherwise reports the first break, or else the first refusal.
   */
  lemma DialTells(total: int, tries: seq<Try>, i: nat)
    requires tries != [] && ComesTo(total, tries, i)
    ensures var r := From(total, tries, 0, None, None);
      if i < |tries| then
        && (Budget(total, tries, i) <= 0 ==> r == Err(DeadlineExceeded))
        && (Budget(total, tries, i) > 0 && tries[i].attempt.Connected? ==> r == Conn(i))
        && (Budget(total, tries, i) > 0 && tries[i].attempt == Broke(true) ==>
              exists k :: FirstAt(tries, i + 1, k, false) && r == Err(Other(k)))
      else if exists j :: 0 <= j < i && tries[j].attempt.Broke?
      then exists k :: FirstAt(tries, i, k, false) && r == Err(Other(k))
      else exists k :: FirstAt(tries, i, k, true) && r == Err(Forbidden(k))
  {
    hide Budget, FirstBreak, FirstDenied, FirstAt;
    Reaches(total, tries, i);
    FirstErrors(tries, i);
    FirstTells(tries, i);
    if i < |tries| {
      FirstTells(tries, i + 1);
      if tries[i].attempt.Broke? { BreakNext(tries, i); }
    } else {
      assert !tries[0].attempt.Connected?;
    }
  }

  lemma {:induction false} FirstTells(tries: seq<Try>, i: nat)
    requires i <= |tries|
    ensures FirstBreak(tries, i).Some? ==> exists k :: FirstAt(tries, i, k, false) && FirstBreak(tries, i) == Some(Other(k))
    ensures FirstDenied(tries, i).Some? ==> exists k :: FirstAt(tries, i, k, true) && FirstDenied(tries, i) == Some(Forbidden(k))
  {
    if i > 0 {
      FirstTells(tries, i - 1);
      FirstErrors(tries, i - 1);
      if k :| FirstAt(tries, i - 1, k, false) && FirstBreak(tries, i - 1) == Some(Other(k)) { assert FirstAt(tries, i, k, false); }
      if k :| FirstAt(tries, i - 1, k, true) && FirstDenied(tries, i - 1) == Some(Forbidden(k)) { assert FirstAt(tries, i, k, true); }
      if tries[i - 1].attempt.Broke? && FirstBreak(tries, i - 1).None? { assert FirstAt(tries, i, i - 1, false); }
      if tries[i - 1].attempt.Denied? && FirstDenied(tries, i - 1).None? { assert FirstAt(tries, i, i - 1, true); }
    }
  }

  lemma BreakNext(tries: seq<Try>, i: nat)
    requires i < |tries| && tries[i].attempt.Broke?
    ensures FirstBreak(tries, i + 1) == if FirstBreak(tries, i).Some? then FirstBreak(tries, i) else Some(Other(i))
  {
  }

  /** The time for an address is what is left, shared among those still to be tried. */
  lemma BudgetTells(total: int, tries: seq<Try>, i: nat)
    requires i < |tries|
    ensures var left, n := Left(total, tries, i), |tries| - i;
      if left >= 0 then Budget(total, tries, i) * n <= left < (Budget(total, tries, i) + 1) * n
      else Budget(total, tries, i) * n >= left > (Budget(total, tries, i) - 1) * n
    ensures Left(total, tries, 0) == total && Left(total, tries, i + 1) == Left(total, tries, i) - tries[i].took
  {
    var left, n := Left(total, tries, i), |tries| - i;
    Quotient(if left >= 0 then left else -left, n);
    if left < 0 { Negated((-left) / n, n); }
  }

  lemma Quotient(a: nat, n: nat)
    requires n > 0
    ensures a / n * n <= a < (a / n + 1) * n
  {
    var q, r := a / n, a % n;
    assert a == q * n + r && r < n;
    assert (q + 1) * n == q * n + n;
  }

  lemma Negated(q: int, n: int)
    ensures -q * n == -(q * n) && (-q - 1) * n == -((q + 1) * n)
  {
  }

  /**
    With time for every address and attempts that keep to their budgets: the dial ends with the
    first connection, if no attempt before it ended the whole dial; if there is none, with the
    first error that is not a refusal of the address, else with the first refusal.
   */
  lemma DialOutcome(total: nat, tries: seq<Try>, i: nat)
    requires tries != [] && total >= |tries| && WithinBudget(total, tries) && FailedBefore(tries, i)
    ensures i < |tries| && tries[i].attempt.Connected? ==> From(total, tries, 0, None, None) == Conn(i)
    ensures i < |tries| && tries[i].attempt == Broke(true) ==>
      FirstBreak(tries, i + 1).Some? && From(total, tries, 0, None, None) == Err(FirstBreak(tries, i + 1).value)
    ensures i == |tries| && FirstBreak(tries, i).Some? ==>
      From(total, tries, 0, None, None) == Err(FirstBreak(tries, i).value)
    ensures i == |tries| && FirstBreak(tries, i).None? ==>
      FirstDenied(tries, i).Some? && From(total, tries, 0, None, None) == Err(FirstDenied(tries, i).value)
  {
    hide Budget, WithinBudget, FirstDenied;
    forall j | 0 <= j < |tries| ensures Budget(total, tries, j) > 0 {
      FairShares(total, tries, j);
      AtLeast(total, |tries|, 1);
    }
    Reaches(total, tries, i);
    FirstErrors(tries, i);
    if i == |tries| { assert !tries[0].attempt.Connected?; }
  }

  /** There is a first break, or a first refusal, exactly when there is one at all. */
  lemma {:induction false} FirstErrors(tries: seq<Try>, i: nat)
    requires i <= |tries|
    ensures FirstBreak(tries, i).None? <==> forall j :: 0 <= j < i ==> !tries[j].attempt.Broke?
    ensures FirstDenied(tries, i).None? <==> forall j :: 0 <= j < i ==> !tries[j].attempt.Denied?
  {
    if i > 0 { FirstErrors(tries, i - 1); }
  }

  /** From any point on, a refusal is the outcome exactly when nothing but refusals was met and is still to be met. */
  lemma {:induction false} RefusalFrom(total: int, tries: seq<Try>, i: nat, forbidden: Option<Error>, other: Option<Error>, k: nat)
    requires i <= |tries| && (forbidden.Some? ==> forbidden.value.Forbidden?) && (other.Some? ==> other.value.Other?)
    ensures From(total, tries, i, forbidden, other) == Err(Forbidden(k)) <==>
      && other.None? && (forall j :: i <= j < |tries| ==> tries[j].attempt.Denied? && Budget(total, tries, j) > 0)
      && (if forbidden.Some? then forbidden.value == Forbidden(k) else i < |tries| && k == i)
    decreases |tries| - i
  {
    hide Budget;
    if i < |tries| && Budget(total, tries, i) > 0 {
      match tries[i].attempt
      case Connected =>
      case Denied =>
        RefusalFrom(total, tries, i + 1, if forbidden.None? then Some(Forbidden(i)) else forbidden, other, k);
      case Broke(over) =>
        if !over { RefusalFrom(total, tries, i + 1, forbidden, if other.None? then Some(Other(i)) else other, k); }
    }
  }

  /**
    Whatever the time and however long the attempts take, the dial reports the refusal of an
    address exactly when every address was tried and refused: any other error wins over it.
   */
  lemma BreakWins(total: int, tries: seq<Try>, k: nat)
    ensures From(total, tries, 0, None, None) == Err(Forbidden(k)) <==>
      && tries != [] && k == 0
      && forall j :: 0 <= j < |tries| ==> tries[j].attempt.Denied? && Budget(total, tries, j) > 0
  {
    RefusalFrom(total, tries, 0, None, None, k);
  }

  /** Without time for each address the dial gives up before the first. */
  lemma TooLittleTime(total: int, tries: seq<Try>)
    requires tries != [] && total < |tries|
    ensures From(total, tries, 0, None, None) == Err(DeadlineExceeded)
  {
    if total >= 0 { assert total / |tries| == 0; } else { NegativeShare(total, |tries|); }
  }

  lemma NegativeShare(total: int, n: nat)
    requires total < 0 && n > 0
    ensures Per(total, n) <= 0
  {
  }
}
