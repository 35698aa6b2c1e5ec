/**
 * What every settlement of the OMT account keeps: conservation, order, and the promises about partial rows, extra and
 * credit.
 */
module SettlementTheorems {
  import opened Coverage
  import opened Settlement

  /** The row is neither closed nor untouched. */
  predicate PartCovered(x: Input, i: nat)
    requires i < |Orig(x)|
  {
    Settle(x).rem[i] != 0 && Settle(x).rem[i] != Orig(x)[i]
  }

  lemma {:induction false} NoneOpen(rem: seq<int>, pool: seq<nat>, side: Side, i: nat)
    requires Queue(pool, |rem|) && Open(rem, pool, side) == 0 && i in pool
    ensures Owing(side, rem[i]) <= 0
  {
    var a :| 0 <= a < |pool| && pool[a] == i;
    OpenBound(rem, pool, side, a);
  }

  // ----- the steps after netting -----

  lemma CreditMoves(x: Input)
    ensures var r, c := Netted(x), AfterCredit(x);
            Within(r, c) && Sum(c) == Sum(r) && Queue(AccountCredits(x), |c|) &&
            Open(c, AccountCredits(x), Credits) == CreditPool(x) - CreditNetted(x)
  {
    Queues(x);
    if CreditNets(x) {
      var r, m := Netted(x), CreditNetted(x);
      var mid := Cover(r, Scope(x), Debts, m);
      NetConserves(r, Scope(x), AccountCredits(x), Min(Abs(x.creditUsed), Owed(x)));
      CreditsUnmoved(r, Scope(x), AccountCredits(x), m);
      NettingIsAmount(x);
      CoverLeaves(mid, AccountCredits(x), Credits, m);
    } else {
      WithinRefl(Netted(x));
    }
  }

  lemma NettingIsAmount(x: Input)
    requires CreditNets(x)
    ensures 0 <= CreditNetted(x) <= CreditPool(x)
  {
    Queues(x);
  }

  lemma WithinRefl(a: seq<int>)
    ensures Within(a, a)
  {
  }

  /** What is left open is what was open less what was spent. */
  lemma {:induction false} CoverLeaves(rem: seq<int>, pool: seq<nat>, side: Side, budget: int)
    requires Queue(pool, |rem|)
    ensures Open(Cover(rem, pool, side, budget), pool, side) ==
            Open(rem, pool, side) - Min(Max(0, budget), Open(rem, pool, side))
    decreases |pool|
  {
    if pool != [] && budget > 0 {
      var i, rest := pool[0], pool[1..];
      QueueTail(pool, |rem|);
      var take := Min(budget, Max(0, Owing(side, rem[i])));
      var next := rem[i := Owing(side, Owing(side, rem[i]) - take)];
      CoverHead(rem, pool, side, budget, take, next);
      CoverLeaves(next, rest, side, budget - take);
      CoverFrame(next, rest, side, budget - take);
      OpenSame(rem, next, rest, side);
      LeftStep(budget, Owing(side, rem[i]), Open(rem, rest, side));
    }
  }

  /** The account credits are apart from the scope, so covering the scope leaves them open as they were. */
  lemma ScopeLeavesCredits(q: Lanes, rem: seq<int>, scope: seq<nat>, side: Side, budget: int)
    requires WellLaid(q) && |rem| == |q.orig| && scope == q.days + q.debts && Queue(scope, |rem|)
    ensures Open(Cover(rem, scope, side, budget), q.credits, Credits) == Open(rem, q.credits, Credits)
  {
    CoverFrame(rem, scope, side, budget);
    forall a | 0 <= a < |q.credits| ensures q.credits[a] !in scope {
      assert q.credits[a] !in q.days && q.credits[a] !in q.debts;
    }
    OpenSame(rem, Cover(rem, scope, side, budget), q.credits, Credits);
  }

  /** One covering step, with all its effects. */
  lemma CoverMoves(rem: seq<int>, pool: seq<nat>, side: Side, budget: nat, spent: int)
    requires Queue(pool, |rem|) && spent == Min(budget, Open(rem, pool, side))
    ensures var r := Cover(rem, pool, side, budget);
            Within(rem, r) && Sum(r) == Sum(rem) - Owing(side, spent) &&
            Open(r, pool, side) == Open(rem, pool, side) - spent
  {
    CoverFrame(rem, pool, side, budget);
    CoverSpends(rem, pool, side, budget);
    CoverLeaves(rem, pool, side, budget);
  }

  /** Everything a collection does. */
  ghost predicate Collected(scope: seq<nat>, credits: seq<nat>, rem: seq<int>, budget: nat, usable: nat, taken: int,
                            o: Outcome)
    requires |rem| == |o.rem| && Queue(scope, |rem|) && Queue(credits, |rem|)
  {
    Within(rem, o.rem) && Sum(o.rem) - Sum(rem) == budget + o.extra && 0 - budget <= o.extra <= 0 &&
    (o.extra < 0 ==> Open(o.rem, scope, Credits) == 0) &&
    Open(o.rem, credits, Credits) == Open(rem, credits, Credits) - taken && 0 <= taken <= usable &&
    (o.extra < 0 ==> taken == Min(usable, Open(rem, credits, Credits)))
  }

  /** The same, from what the two coverings did. */
  lemma CollectedFrom(scope: seq<nat>, credits: seq<nat>, rem: seq<int>, covered: seq<int>, o: Outcome, budget: nat,
                      usable: nat, spent: int, taken: int)
    requires |rem| == |covered| == |o.rem| && Queue(scope, |rem|) && Queue(credits, |rem|)
    requires Within(rem, covered) && Within(covered, o.rem)
    requires spent == Min(budget, Open(rem, scope, Credits)) && o.extra == spent + taken - budget
    requires Sum(covered) == Sum(rem) + spent && Sum(o.rem) == Sum(covered) + taken
    requires Open(covered, scope, Credits) == Open(rem, scope, Credits) - spent
    requires Open(covered, credits, Credits) == Open(rem, credits, Credits)
    requires taken == Min(Min(budget - spent, usable), Open(rem, credits, Credits))
    requires Open(o.rem, credits, Credits) == Open(covered, credits, Credits) - taken
    ensures Collected(scope, credits, rem, budget, usable, taken, o)
  {
    WithinTrans(rem, covered, o.rem);
    OpenShrinks(covered, o.rem, scope, Credits);
  }

  lemma CollectStep(scope: seq<nat>, credits: seq<nat>, rem: seq<int>, covered: seq<int>, budget: nat, usable: nat,
                    spent: int, m: nat, taken: int, applied: int)
    requires Queue(scope, |rem|) && Queue(credits, |rem|) && covered == Cover(rem, scope, Credits, budget)
    requires Open(covered, credits, Credits) == Open(rem, credits, Credits)
    requires spent == Min(budget, Open(rem, scope, Credits)) && m == Min(budget - spent, usable)
    requires taken == Min(m, Open(covered, credits, Credits))
    ensures var o := Outcome(Cover(covered, credits, Credits, m), spent + taken - budget, applied);
            Collected(scope, credits, rem, budget, usable, taken, o)
  {
    var o := Outcome(Cover(covered, credits, Credits, m), spent + taken - budget, applied);
    CoverMoves(rem, scope, Credits, budget, spent);
    CoverMoves(covered, credits, Credits, m, taken);
    CollectedFrom(scope, credits, rem, covered, o, budget, usable, spent, taken);
  }

  lemma CollectMoves(scope: seq<nat>, credits: seq<nat>, rem: seq<int>, budget: nat, usable: nat, netted: int,
                     o: Outcome)
    requires Queue(scope, |rem|) && Queue(credits, |rem|)
    requires Open(Cover(rem, scope, Credits, budget), credits, Credits) == Open(rem, credits, Credits)
    requires o == CollectFrom(scope, credits, rem, budget, usable, netted)
    ensures Collected(scope, credits, rem, budget, usable, o.creditApplied - netted, o)
  {
    var covered := Cover(rem, scope, Credits, budget);
    var spent := Min(budget, Open(rem, scope, Credits));
    var m := Min(budget - spent, usable);
    var taken := Min(m, Open(covered, credits, Credits));
    assert o == Outcome(Cover(covered, credits, Credits, m), spent + taken - budget, netted + taken);
    assert o.creditApplied - netted == taken;
    CollectStep(scope, credits, rem, covered, budget, usable, spent, m, taken, netted + taken);
  }

  /** Everything a payment does. */
  ghost predicate Paid(scope: seq<nat>, credits: seq<nat>, rem: seq<int>, budget: nat, o: Outcome)
    requires |rem| == |o.rem| && Queue(scope, |rem|) && Queue(credits, |rem|)
  {
    Within(rem, o.rem) && Sum(rem) - Sum(o.rem) == budget - o.extra && 0 <= o.extra <= budget &&
    (o.extra > 0 ==> Open(o.rem, scope, Debts) == 0) &&
    Open(o.rem, credits, Credits) == Open(rem, credits, Credits)
  }

  lemma PayMoves(scope: seq<nat>, credits: seq<nat>, rem: seq<int>, budget: nat, netted: int)
    requires Queue(scope, |rem|) && Queue(credits, |rem|)
    requires Open(Cover(rem, scope, Debts, budget), credits, Credits) == Open(rem, credits, Credits)
    ensures Paid(scope, credits, rem, budget, PayFrom(scope, rem, budget, netted))
  {
    CoverMoves(rem, scope, Debts, budget, Min(budget, Open(rem, scope, Debts)));
  }

  /** The last step of a settlement, from the state the account credit leaves. */
  ghost predicate LastStep(x: Input, o: Outcome)
    requires |o.rem| == |Orig(x)| && Queue(Scope(x), |o.rem|) && Queue(AccountCredits(x), |o.rem|)
  {
    if Budget(x) >= 0 then
      Paid(Scope(x), AccountCredits(x), AfterCredit(x), Budget(x), o) && o.creditApplied == CreditNetted(x)
    else
      Collected(Scope(x), AccountCredits(x), AfterCredit(x), -Budget(x), UsableCredit(x),
                o.creditApplied - CreditNetted(x), o)
  }

  lemma LastStepOf(x: Input)
    ensures Queue(Scope(x), |Orig(x)|) && Queue(AccountCredits(x), |Orig(x)|) && LastStep(x, Settle(x))
  {
    LanesLaid(x);
    var rem, budget := AfterCredit(x), Budget(x);
    if budget >= 0 {
      ScopeLeavesCredits(LanesOf(x), rem, Scope(x), Debts, budget);
      PayMoves(Scope(x), AccountCredits(x), rem, budget, CreditNetted(x));
    } else {
      ScopeLeavesCredits(LanesOf(x), rem, Scope(x), Credits, -budget);
      CollectMoves(Scope(x), AccountCredits(x), rem, -budget, UsableCredit(x), CreditNetted(x), Settle(x));
    }
  }

  // ----- the promises -----

  /** The step from netting to the end, in one place. */
  lemma SettleMoves(x: Input)
    ensures var o := Settle(x);
            Within(Netted(x), o.rem) && Sum(Orig(x)) - Sum(o.rem) == Budget(x) - o.extra &&
            Queue(Scope(x), |o.rem|) && Queue(AccountCredits(x), |o.rem|) && Queue(Days(x), |o.rem|) &&
            Queue(AccountDebts(x), |o.rem|) &&
            (o.extra > 0 ==> Open(o.rem, Scope(x), Debts) == 0) &&
            (o.extra < 0 ==> Open(o.rem, Scope(x), Credits) == 0) &&
            Open(o.rem, AccountCredits(x), Credits) == CreditPool(x) - o.creditApplied
  {
    NettedOneSided(x);
    CreditMoves(x);
    LastStepOf(x);
    WithinTrans(Netted(x), AfterCredit(x), Settle(x).rem);
  }

  /**
   * Nothing is made or lost: what the rows owe together falls by exactly the budget (money, waive and covering
   * commission) less the extra; no row is covered beyond zero; and the extra has the sign of the budget and is no more
   * than it.
   */
  lemma SettlementConserves(x: Input)
    ensures var o := Settle(x);
            Sum(Orig(x)) - Sum(o.rem) == Budget(x) - o.extra && Within(Orig(x), o.rem) &&
            (if Budget(x) >= 0 then 0 <= o.extra <= Budget(x) else Budget(x) <= o.extra <= 0)
  {
    SettleMoves(x);
    NettedOneSided(x);
    WithinTrans(Orig(x), Netted(x), Settle(x).rem);
    LastStepOf(x);
  }

  /** Extra is only what is left after every row in scope on its side is covered. */
  lemma ExtraOnlyBeyondScope(x: Input, i: nat)
    requires i in Scope(x)
    ensures i < |Orig(x)|
    ensures Settle(x).extra > 0 ==> Settle(x).rem[i] <= 0
    ensures Settle(x).extra < 0 ==> Settle(x).rem[i] >= 0
  {
    Queues(x);
    SettleMoves(x);
    if Settle(x).extra > 0 {
      NoneOpen(Settle(x).rem, Scope(x), Debts, i);
    } else if Settle(x).extra < 0 {
      NoneOpen(Settle(x).rem, Scope(x), Credits, i);
    }
  }

  lemma OneDayPartial(x: Input, rem: seq<int>, i: nat, j: nat)
    requires Orderly(LanesOf(x), rem) && i < |x.days| && j < |x.days|
    requires Open(rem, Days(x), Debts) == 0 || Open(rem, Days(x), Credits) == 0
    requires rem[i] != 0 && rem[i] != Orig(x)[i] && rem[j] != 0 && rem[j] != Orig(x)[j]
    ensures i == j
  {
    assert Days(x)[i] == i && Days(x)[j] == j;
    var side := if Open(rem, Days(x), Debts) == 0 then Credits else Debts;
    SameSide(x, rem, Days(x), side, i, j);
    OnePartial(Orig(x), rem, Days(x), side, i, j);
  }

  lemma OneAccountPartial(x: Input, rem: seq<int>, i: nat, j: nat)
    requires Orderly(LanesOf(x), rem) && |x.days| <= i < |rem| && |x.days| <= j < |rem|
    requires Open(rem, AccountDebts(x), Debts) == 0 || Open(rem, AccountCredits(x), Credits) == 0
    requires rem[i] != 0 && rem[i] != Orig(x)[i] && rem[j] != 0 && rem[j] != Orig(x)[j]
    ensures i == j
  {
    AccountSide(x, rem, i);
    AccountSide(x, rem, j);
    Queues(x);
    if Open(rem, AccountDebts(x), Debts) == 0 {
      SameQueue(x, rem, AccountCredits(x), Credits, i, j);
    } else {
      SameQueue(x, rem, AccountDebts(x), Debts, i, j);
    }
  }

  /**
   * At most one day row and at most one account row are left part-covered, so every row is in exactly one of closed,
   * untouched, the partial day row and the partial account row.
   */
  lemma AtMostOnePartial(x: Input, i: nat, j: nat)
    requires i < |Orig(x)| && j < |Orig(x)| && PartCovered(x, i) && PartCovered(x, j)
    requires (i < |x.days|) == (j < |x.days|)
    ensures i == j
  {
    SettledOrderly(x);
    SettledOneSided(x);
    if i < |x.days| {
      OneDayPartial(x, Settle(x).rem, i, j);
    } else {
      OneAccountPartial(x, Settle(x).rem, i, j);
    }
  }

  /** At the end, too, only one side is open among the day rows and among the account rows. */
  lemma SettledOneSided(x: Input)
    ensures var r := Settle(x).rem;
            Queue(Days(x), |r|) && Queue(AccountDebts(x), |r|) && Queue(AccountCredits(x), |r|) &&
            (Open(r, Days(x), Debts) == 0 || Open(r, Days(x), Credits) == 0) &&
            (Open(r, AccountDebts(x), Debts) == 0 || Open(r, AccountCredits(x), Credits) == 0)
  {
    var rem := Settle(x).rem;
    SettleMoves(x);
    NettedOneSided(x);
    OpenShrinks(Netted(x), rem, Days(x), Debts);
    OpenShrinks(Netted(x), rem, Days(x), Credits);
    OpenShrinks(Netted(x), rem, AccountDebts(x), Debts);
    OpenShrinks(Netted(x), rem, AccountCredits(x), Credits);
  }

  lemma SameSide(x: Input, rem: seq<int>, pool: seq<nat>, side: Side, i: nat, j: nat)
    requires Within(Orig(x), rem) && Queue(pool, |rem|) && i in pool && j in pool
    requires Open(rem, pool, if side.Debts? then Credits else Debts) == 0
    requires rem[i] != 0 && rem[j] != 0
    ensures Owing(side, Orig(x)[i]) > 0 && Owing(side, Orig(x)[j]) > 0
  {
    var other := if side.Debts? then Credits else Debts;
    NoneOpen(rem, pool, other, i);
    NoneOpen(rem, pool, other, j);
  }

  /** An account row that is not closed is in the queue of its sign. */
  lemma AccountSide(x: Input, rem: seq<int>, i: nat)
    requires Within(Orig(x), rem) && |x.days| <= i < |rem| && rem[i] != 0
    requires Queue(AccountDebts(x), |rem|) && Queue(AccountCredits(x), |rem|)
    ensures Open(rem, AccountDebts(x), Debts) == 0 ==> i in AccountCredits(x)
    ensures Open(rem, AccountCredits(x), Credits) == 0 ==> i in AccountDebts(x)
  {
    Queues(x);
    if Orig(x)[i] > 0 {
      assert i in AccountDebts(x);
      if Open(rem, AccountDebts(x), Debts) == 0 {
        NoneOpen(rem, AccountDebts(x), Debts, i);
      }
    } else {
      assert i in AccountCredits(x);
      if Open(rem, AccountCredits(x), Credits) == 0 {
        NoneOpen(rem, AccountCredits(x), Credits, i);
      }
    }
  }

  lemma SameQueue(x: Input, rem: seq<int>, pool: seq<nat>, side: Side, i: nat, j: nat)
    requires Within(Orig(x), rem) && InOrder(Orig(x), rem, pool, side) && i in pool && j in pool
    requires Owing(side, Orig(x)[i]) > 0 && Owing(side, Orig(x)[j]) > 0
    requires rem[i] != 0 && rem[i] != Orig(x)[i] && rem[j] != 0 && rem[j] != Orig(x)[j]
    ensures i == j
  {
    var a :| 0 <= a < |pool| && pool[a] == i;
    var b :| 0 <= b < |pool| && pool[b] == j;
    OnePartial(Orig(x), rem, pool, side, a, b);
  }

  // ----- the account credit -----

  lemma {:induction false} NothingOpen(rem: seq<int>, pool: seq<nat>, side: Side)
    requires Bounded(pool, |rem|) && forall a :: 0 <= a < |pool| ==> Owing(side, rem[pool[a]]) <= 0
    ensures Open(rem, pool, side) == 0
  {
    if pool != [] {
      NothingOpen(rem, pool[1..], side);
    }
  }

  /** A queue of debts holds no credit, whatever has been covered. */
  lemma DebtsHoldNoCredit(q: Lanes, rem: seq<int>)
    requires WellLaid(q) && Within(q.orig, rem)
    ensures Open(rem, q.debts, Credits) == 0
  {
    forall a | 0 <= a < |q.debts| ensures Owing(Credits, rem[q.debts[a]]) <= 0 {
      assert q.orig[q.debts[a]] > 0;
    }
    NothingOpen(rem, q.debts, Credits);
  }

  /** After netting the scope is one-sided, so what is open on either side is told by what it owes. */
  lemma ScopeOpens(x: Input)
    ensures Queue(Scope(x), |Orig(x)|)
    ensures Open(Netted(x), Scope(x), Credits) == Max(0, -Owed(x))
    ensures Open(Netted(x), Scope(x), Debts) == Max(0, Owed(x))
  {
    NettedOneSided(x);
    LanesLaid(x);
    var r := Netted(x);
    DebtsHoldNoCredit(LanesOf(x), r);
    OpenAppend(r, Days(x), AccountDebts(x), Credits);
    OpenAppend(r, Days(x), AccountDebts(x), Debts);
    TotalIsOpen(r, Scope(x));
  }

  /** The credit the user chose does not touch the credits of the scope. */
  lemma ScopeCreditsAfter(x: Input)
    ensures Queue(Scope(x), |Orig(x)|) && Open(AfterCredit(x), Scope(x), Credits) == Max(0, -Owed(x))
  {
    ScopeOpens(x);
    CreditMoves(x);
    if CreditNets(x) {
      OpenShrinks(Netted(x), AfterCredit(x), Scope(x), Credits);
    }
  }

  lemma PoolAfter(x: Input)
    ensures Queue(AccountCredits(x), |Orig(x)|) && Queue(Scope(x), |Orig(x)|)
    ensures Open(AfterCredit(x), AccountCredits(x), Credits) == CreditPool(x) - CreditNetted(x)
    ensures forall budget :: Open(Cover(AfterCredit(x), Scope(x), Credits, budget), AccountCredits(x), Credits) ==
                             Open(AfterCredit(x), AccountCredits(x), Credits)
  {
    CreditMoves(x);
    LanesLaid(x);
    forall budget
      ensures Open(Cover(AfterCredit(x), Scope(x), Credits, budget), AccountCredits(x), Credits) ==
              Open(AfterCredit(x), AccountCredits(x), Credits)
    {
      ScopeLeavesCredits(LanesOf(x), AfterCredit(x), Scope(x), Credits, budget);
    }
  }

  /** What the money received takes of the account credit. */
  lemma TakenByMoney(x: Input)
    requires Budget(x) < 0
    ensures var b := -Budget(x);
            Settle(x).creditApplied - CreditNetted(x) ==
            Min(Min(b - Min(b, Max(0, -Owed(x))), UsableCredit(x)), CreditPool(x) - CreditNetted(x))
  {
    PoolAfter(x);
    ScopeCreditsAfter(x);
    CollectTakes(Scope(x), AccountCredits(x), AfterCredit(x), -Budget(x), UsableCredit(x), CreditNetted(x));
  }

  lemma CollectTakes(scope: seq<nat>, credits: seq<nat>, rem: seq<int>, budget: nat, usable: nat, netted: int)
    requires Queue(scope, |rem|) && Queue(credits, |rem|)
    requires Open(Cover(rem, scope, Credits, budget), credits, Credits) == Open(rem, credits, Credits)
    ensures CollectFrom(scope, credits, rem, budget, usable, netted).creditApplied - netted ==
            Min(Min(budget - Min(budget, Open(rem, scope, Credits)), usable), Open(rem, credits, Credits))
  {
  }

  /**
   * The account credit that is used: none when too much was chosen. When the shop is owed, what was chosen, as far as
   * the money received beyond what is owed reaches. When the shop owes, what was chosen; under the whole-credit rule,
   * as far as the debts and then the money received reach.
   */
  function CreditUsed(tooHigh: bool, owed: int, budget: int, chosen: nat, whole: bool): int {
    if tooHigh then 0
    else if owed <= 0 then Min(chosen, Max(0, owed - budget))
    else if whole then Min(chosen, owed + Max(0, -budget))
    else chosen
  }

  /** The amounts of the two steps, put together. */
  lemma CreditAdds(tooHigh: bool, owed: int, budget: int, chosen: nat, whole: bool, pool: int, netted: int, usable: int)
    requires !tooHigh ==> chosen <= pool && (owed > 0 && !whole ==> chosen <= owed)
    requires netted == if owed > 0 && !tooHigh then Min(chosen, owed) else 0
    requires usable == if tooHigh then 0 else if owed <= 0 then chosen else if whole then chosen - netted else 0
    requires pool >= 0
    ensures budget >= 0 ==> netted == CreditUsed(tooHigh, owed, budget, chosen, whole)
    ensures budget < 0 ==>
              netted + Min(Min(-budget - Min(-budget, Max(0, -owed)), usable), pool - netted) ==
              CreditUsed(tooHigh, owed, budget, chosen, whole)
  {
  }

  /**
   * The account credit is the user's to choose: for every input, exactly how much of it is applied, told by what is
   * owed, the budget and the choice. It is never more than was chosen.
   */
  lemma CreditAsChosen(x: Input)
    ensures Settle(x).creditApplied ==
            CreditUsed(CreditTooHigh(x), Owed(x), Budget(x), Abs(x.creditUsed), x.wholeCredit)
    ensures 0 <= Settle(x).creditApplied <= Abs(x.creditUsed)
  {
    NettedCreditExact(x);
    CreditAdds(CreditTooHigh(x), Owed(x), Budget(x), Abs(x.creditUsed), x.wholeCredit, CreditPool(x), CreditNetted(x),
               UsableCredit(x));
    if Budget(x) < 0 {
      TakenByMoney(x);
    }
  }

  /** Extra money received stands only beyond the account credit that was chosen. */
  lemma ExtraBeyondCredit(x: Input)
    requires Settle(x).extra < 0 && !CreditTooHigh(x) && (Owed(x) <= 0 || x.wholeCredit)
    ensures Settle(x).creditApplied == Abs(x.creditUsed)
  {
    CreditMoves(x);
    NettedCreditExact(x);
    LastStepOf(x);
  }

  /** In particular: all that was chosen, when the shop pays, or when the money received suffices for it. */
  lemma CreditInFull(x: Input)
    requires !CreditTooHigh(x)
    ensures Settle(x).creditApplied == Abs(x.creditUsed) <==>
            x.creditUsed == 0 || (Owed(x) > 0 && !x.wholeCredit) ||
            Abs(x.creditUsed) <= if Owed(x) <= 0 then Owed(x) - Budget(x) else Owed(x) + Max(0, -Budget(x))
  {
    CreditAsChosen(x);
  }

  /** While the shop pays, the chosen credit covers debts in full, up to what is owed. */
  lemma NettedCreditExact(x: Input)
    ensures CreditNets(x) ==> CreditNetted(x) == Min(Abs(x.creditUsed), Owed(x))
    ensures !CreditNets(x) ==> CreditNetted(x) == 0
    ensures !CreditTooHigh(x) ==> Abs(x.creditUsed) <= CreditPool(x)
    ensures !CreditTooHigh(x) && Owed(x) > 0 && !x.wholeCredit ==> Abs(x.creditUsed) <= Owed(x)
  {
    Queues(x);
    NettedOneSided(x);
    TotalIsOpen(Netted(x), Scope(x));
  }
}
