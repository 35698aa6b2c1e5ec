/**
 * packages/core/src/utils/accountSettleAllocation.ts, `allocateAccountSettlement`: what a settlement of the OMT account
 * closes, in one currency. Rows are given in queue order and amounts in whole minor units, with the tolerances the
 * callers pass (half a minor unit), so a row is closed when nothing is left of it.
 */
module Settlement {
  import opened Text
  import opened Coverage

  /**
   * Open amounts of the day rows and of the account rows, the signed money, the waive, the commission and whether it
   * covers, and the account credit the user chose, with the rule that lets it be the whole credit.
   */
  datatype Input = Input(
    days: seq<int>, account: seq<int>, paid: int, waive: int, commission: int, commissionCovers: bool,
    creditUsed: int, wholeCredit: bool)

  function Orig(x: Input): seq<int> {
    x.days + x.account
  }

  /** The positions from `lo` on whose original amount is open on a side. */
  function OnSide(orig: seq<int>, lo: nat, hi: nat, side: Side): seq<nat>
    requires lo <= hi <= |orig|
    decreases hi - lo
  {
    if lo == hi then []
    else (if Owing(side, orig[lo]) > 0 then [lo] else []) + OnSide(orig, lo + 1, hi, side)
  }

  function Range(lo: nat, hi: nat): (r: seq<nat>)
    requires lo <= hi
    ensures |r| == hi - lo && forall a :: 0 <= a < |r| ==> r[a] == lo + a
  {
    seq(hi - lo, a requires 0 <= a < hi - lo => lo + a)
  }

  function Days(x: Input): seq<nat> {
    Range(0, |x.days|)
  }

  /** Positive account rows: debts in scope, after every day row. */
  function AccountDebts(x: Input): seq<nat> {
    OnSide(Orig(x), |x.days|, |Orig(x)|, Debts)
  }

  /** Negative account rows: the account credit pool. */
  function AccountCredits(x: Input): seq<nat> {
    OnSide(Orig(x), |x.days|, |Orig(x)|, Credits)
  }

  function Scope(x: Input): seq<nat> {
    Days(x) + AccountDebts(x)
  }

  /** The queue holds exactly the positions in the range that are open on the side. */
  ghost predicate HoldsSide(orig: seq<int>, lo: nat, hi: nat, side: Side, pool: seq<nat>)
    requires lo <= hi <= |orig|
  {
    Queue(pool, |orig|) && forall i :: i in pool <==> lo <= i < hi && Owing(side, orig[i]) > 0
  }

  lemma {:induction false} OnSideFacts(orig: seq<int>, lo: nat, hi: nat, side: Side)
    requires lo <= hi <= |orig|
    ensures HoldsSide(orig, lo, hi, side, OnSide(orig, lo, hi, side))
    decreases hi - lo
  {
    if lo < hi {
      OnSideFacts(orig, lo + 1, hi, side);
      SideCons(orig, lo, hi, side, OnSide(orig, lo + 1, hi, side));
    }
  }

  lemma SideCons(orig: seq<int>, lo: nat, hi: nat, side: Side, tail: seq<nat>)
    requires lo < hi <= |orig| && HoldsSide(orig, lo + 1, hi, side, tail)
    ensures HoldsSide(orig, lo, hi, side, (if Owing(side, orig[lo]) > 0 then [lo] else []) + tail)
  {
    if Owing(side, orig[lo]) > 0 {
      QueueCons(lo, tail, |orig|);
    } else {
      Nothing(tail);
    }
  }

  lemma QueueCons(i: nat, tail: seq<nat>, n: nat)
    requires i < n && Queue(tail, n) && forall k :: k in tail ==> i < k
    ensures Queue([i] + tail, n) && forall k :: k in [i] + tail <==> k == i || k in tail
  {
    var r := [i] + tail;
    forall a | 0 < a < |r| ensures r[a] > i {
      assert r[a] == tail[a - 1] && tail[a - 1] in tail;
    }
  }

  /** The three queues: in order, apart from each other, and covering every row that is open. */
  lemma Queues(x: Input)
    ensures var n := |Orig(x)|;
            Queue(Days(x), n) && Queue(AccountDebts(x), n) && Queue(AccountCredits(x), n) && Queue(Scope(x), n)
    ensures forall i :: i in Days(x) <==> 0 <= i < |x.days|
    ensures forall i :: i in AccountDebts(x) <==> |x.days| <= i < |Orig(x)| && Orig(x)[i] > 0
    ensures forall i :: i in AccountCredits(x) <==> |x.days| <= i < |Orig(x)| && Orig(x)[i] < 0
  {
    var n := |Orig(x)|;
    OnSideFacts(Orig(x), |x.days|, n, Debts);
    OnSideFacts(Orig(x), |x.days|, n, Credits);
    var s, d := Scope(x), AccountDebts(x);
    forall i ensures i in Days(x) <==> 0 <= i < |x.days| {
      if 0 <= i < |x.days| {
        assert Days(x)[i] == i;
      }
    }
    forall a, b | 0 <= a < b < |s| ensures s[a] < s[b] {
      if b >= |x.days| {
        assert s[b] == d[b - |x.days|] && d[b - |x.days|] in d;
      }
    }
    forall a | 0 <= a < |s| ensures s[a] < n {}
  }

  // ----- the algorithm -----

  function Total(rem: seq<int>, pool: seq<nat>): int
    requires Bounded(pool, |rem|)
  {
    if pool == [] then 0 else rem[pool[0]] + Total(rem, pool[1..])
  }

  lemma {:induction false} TotalIsOpen(rem: seq<int>, pool: seq<nat>)
    requires Bounded(pool, |rem|)
    ensures Total(rem, pool) == Open(rem, pool, Debts) - Open(rem, pool, Credits)
  {
    if pool != [] {
      TotalIsOpen(rem, pool[1..]);
    }
  }

  function NetAll(rem: seq<int>, debts: seq<nat>, credits: seq<nat>): (r: seq<int>)
    requires Queue(debts, |rem|) && Queue(credits, |rem|)
    ensures |r| == |rem|
  {
    Net(rem, debts, credits, Open(rem, debts, Debts))
  }

  /** Day credits against day debts, then account rows among themselves, then day credits against account debts. */
  function Netted(x: Input): (r: seq<int>)
    ensures |r| == |Orig(x)|
  {
    Queues(x);
    var r1 := NetAll(Orig(x), Days(x), Days(x));
    var r2 := NetAll(r1, AccountDebts(x), AccountCredits(x));
    NetAll(r2, AccountDebts(x), Days(x))
  }

  /** What the scope owes after netting; positive when the shop pays. */
  function Owed(x: Input): int {
    Queues(x);
    Total(Netted(x), Scope(x))
  }

  function CreditPool(x: Input): nat {
    Queues(x);
    Open(Netted(x), AccountCredits(x), Credits)
  }

  predicate CreditTooHigh(x: Input) {
    var cap := if Owed(x) > 0 && !x.wholeCredit then Min(Owed(x), CreditPool(x)) else CreditPool(x);
    Abs(x.creditUsed) > cap
  }

  predicate CreditNets(x: Input) {
    Owed(x) > 0 && !CreditTooHigh(x) && Abs(x.creditUsed) > 0
  }

  /** Account credit that covers debts before the money does. */
  function CreditNetted(x: Input): int {
    Queues(x);
    if CreditNets(x) then Netting(Netted(x), Scope(x), AccountCredits(x), Min(Abs(x.creditUsed), Owed(x))) else 0
  }

  function AfterCredit(x: Input): (r: seq<int>)
    ensures |r| == |Orig(x)|
  {
    Queues(x);
    if CreditNets(x) then Net(Netted(x), Scope(x), AccountCredits(x), Min(Abs(x.creditUsed), Owed(x))) else Netted(x)
  }

  /** Account credit the money received may take. */
  function CreditForMoney(x: Input): int {
    if Owed(x) > 0 then (if x.wholeCredit then Abs(x.creditUsed) - CreditNetted(x) else 0) else Abs(x.creditUsed)
  }

  function WaiveSign(x: Input): int {
    if Owed(x) > 0 then 1 else if Owed(x) < 0 then -1 else if x.paid < 0 then -1 else 1
  }

  function Budget(x: Input): int {
    x.paid + Abs(x.waive) * WaiveSign(x) + (if x.commissionCovers then Abs(x.commission) else 0)
  }

  datatype Outcome = Outcome(rem: seq<int>, extra: int, creditApplied: int)

  function Settle(x: Input): (o: Outcome)
    ensures |o.rem| == |Orig(x)|
  {
    Queues(x);
    SpendFrom(Scope(x), AccountCredits(x), AfterCredit(x), Budget(x), UsableCredit(x), CreditNetted(x))
  }

  function SpendFrom(scope: seq<nat>, credits: seq<nat>, rem: seq<int>, budget: int, usable: nat,
                     netted: int): (o: Outcome)
    requires Queue(scope, |rem|) && Queue(credits, |rem|)
    ensures |o.rem| == |rem|
  {
    if budget >= 0 then PayFrom(scope, rem, budget, netted)
    else CollectFrom(scope, credits, rem, -budget, usable, netted)
  }

  /** Money (and waive, and commission) toward the debts of the scope. */
  function PayFrom(scope: seq<nat>, rem: seq<int>, budget: nat, netted: int): (o: Outcome)
    requires Queue(scope, |rem|)
    ensures |o.rem| == |rem|
  {
    Outcome(Cover(rem, scope, Debts, budget), budget - Min(budget, Open(rem, scope, Debts)), netted)
  }

  function UsableCredit(x: Input): nat {
    if CreditTooHigh(x) then 0 else Max(0, CreditForMoney(x))
  }

  /** Money received: the credits of the scope, then the account credit the user chose. */
  function CollectFrom(scope: seq<nat>, credits: seq<nat>, rem: seq<int>, budget: nat, usable: nat,
                       netted: int): (o: Outcome)
    requires Queue(scope, |rem|) && Queue(credits, |rem|)
    ensures |o.rem| == |rem|
  {
    var spent := Min(budget, Open(rem, scope, Credits));
    var covered := Cover(rem, scope, Credits, budget);
    var m := Min(budget - spent, usable);
    var taken := Min(m, Open(covered, credits, Credits));
    Outcome(Cover(covered, credits, Credits, m), spent + taken - budget, netted + taken)
  }

  // ----- every step keeps the queues in order -----

  /** The original amounts with the queues of day rows, account debts and account credits. */
  datatype Lanes = Lanes(orig: seq<int>, days: seq<nat>, debts: seq<nat>, credits: seq<nat>)

  ghost predicate WellLaid(q: Lanes) {
    Queue(q.days, |q.orig|) && Queue(q.debts, |q.orig|) && Queue(q.credits, |q.orig|) &&
    Bounded(q.days + q.debts, |q.orig|) &&
    (forall a :: 0 <= a < |q.debts| ==> q.orig[q.debts[a]] > 0 && q.debts[a] !in q.days && q.debts[a] !in q.credits) &&
    (forall a :: 0 <= a < |q.credits| ==>
                   q.orig[q.credits[a]] < 0 && q.credits[a] !in q.days && q.credits[a] !in q.debts) &&
    (forall a :: 0 <= a < |q.days| ==> q.days[a] !in q.debts && q.days[a] !in q.credits)
  }

  function LanesOf(x: Input): Lanes {
    Lanes(Orig(x), Days(x), AccountDebts(x), AccountCredits(x))
  }

  lemma LanesLaid(x: Input)
    ensures WellLaid(LanesOf(x)) && Queue(Scope(x), |Orig(x)|)
  {
    Queues(x);
    var q := LanesOf(x);
    forall a | 0 <= a < |q.debts|
      ensures q.orig[q.debts[a]] > 0 && q.debts[a] !in q.days && q.debts[a] !in q.credits
    {
      assert q.debts[a] in AccountDebts(x);
    }
    forall a | 0 <= a < |q.credits|
      ensures q.orig[q.credits[a]] < 0 && q.credits[a] !in q.days && q.credits[a] !in q.debts
    {
      assert q.credits[a] in AccountCredits(x);
    }
  }

  /** Against the original amounts, every queue has been served oldest first and no row beyond zero. */
  ghost predicate Orderly(q: Lanes, rem: seq<int>) {
    Within(q.orig, rem) &&
    InOrder(q.orig, rem, q.days, Debts) && InOrder(q.orig, rem, q.days, Credits) &&
    InOrder(q.orig, rem, q.debts, Debts) && InOrder(q.orig, rem, q.credits, Credits)
  }

  lemma StartsOrderly(q: Lanes)
    requires WellLaid(q)
    ensures Orderly(q, q.orig)
  {
  }

  lemma CoverDays(q: Lanes, rem: seq<int>, side: Side, budget: int)
    requires WellLaid(q) && Orderly(q, rem)
    ensures Orderly(q, Cover(rem, q.days, side, budget))
  {
    CoverFrame(rem, q.days, side, budget);
    WithinTrans(q.orig, rem, Cover(rem, q.days, side, budget));
    CoverInOrder(q.orig, rem, q.days, side, budget, Debts);
    CoverInOrder(q.orig, rem, q.days, side, budget, Credits);
    CoverElsewhere(q.orig, rem, q.days, side, budget, Debts, q.debts);
    CoverElsewhere(q.orig, rem, q.days, side, budget, Credits, q.credits);
  }

  lemma CoverDebts(q: Lanes, rem: seq<int>, side: Side, budget: int)
    requires WellLaid(q) && Orderly(q, rem)
    ensures Orderly(q, Cover(rem, q.debts, side, budget))
  {
    CoverFrame(rem, q.debts, side, budget);
    WithinTrans(q.orig, rem, Cover(rem, q.debts, side, budget));
    CoverInOrder(q.orig, rem, q.debts, side, budget, Debts);
    CoverElsewhere(q.orig, rem, q.debts, side, budget, Debts, q.days);
    CoverElsewhere(q.orig, rem, q.debts, side, budget, Credits, q.days);
    CoverElsewhere(q.orig, rem, q.debts, side, budget, Credits, q.credits);
  }

  lemma CoverCredits(q: Lanes, rem: seq<int>, side: Side, budget: int)
    requires WellLaid(q) && Orderly(q, rem)
    ensures Orderly(q, Cover(rem, q.credits, side, budget))
  {
    CoverFrame(rem, q.credits, side, budget);
    WithinTrans(q.orig, rem, Cover(rem, q.credits, side, budget));
    CoverInOrder(q.orig, rem, q.credits, side, budget, Credits);
    CoverElsewhere(q.orig, rem, q.credits, side, budget, Debts, q.days);
    CoverElsewhere(q.orig, rem, q.credits, side, budget, Credits, q.days);
    CoverElsewhere(q.orig, rem, q.credits, side, budget, Debts, q.debts);
  }

  lemma CoverScope(q: Lanes, rem: seq<int>, side: Side, budget: int)
    requires WellLaid(q) && Orderly(q, rem)
    ensures Orderly(q, Cover(rem, q.days + q.debts, side, budget))
  {
    CoverAppend(rem, q.days, q.debts, side, budget);
    CoverDays(q, rem, side, budget);
    CoverDebts(q, Cover(rem, q.days, side, budget), side, Left(budget, Open(rem, q.days, side)));
  }

  /** The queues that netting and money work on. */
  predicate OwnQueue(q: Lanes, pool: seq<nat>) {
    pool == q.days || pool == q.debts || pool == q.credits || pool == q.days + q.debts
  }

  lemma CoverOwn(q: Lanes, rem: seq<int>, pool: seq<nat>, side: Side, budget: int)
    requires WellLaid(q) && Orderly(q, rem) && OwnQueue(q, pool)
    ensures Orderly(q, Cover(rem, pool, side, budget))
  {
    if pool == q.days {
      CoverDays(q, rem, side, budget);
    } else if pool == q.debts {
      CoverDebts(q, rem, side, budget);
    } else if pool == q.credits {
      CoverCredits(q, rem, side, budget);
    } else {
      CoverScope(q, rem, side, budget);
    }
  }

  lemma NetOwn(q: Lanes, rem: seq<int>, debts: seq<nat>, credits: seq<nat>, cap: int)
    requires WellLaid(q) && Orderly(q, rem) && OwnQueue(q, debts) && OwnQueue(q, credits)
    requires Queue(debts, |rem|) && Queue(credits, |rem|)
    ensures Orderly(q, Net(rem, debts, credits, cap))
  {
    var m := Netting(rem, debts, credits, cap);
    CoverOwn(q, rem, debts, Debts, m);
    CoverOwn(q, Cover(rem, debts, Debts, m), credits, Credits, m);
  }

  lemma NettedOrderly(x: Input)
    ensures Orderly(LanesOf(x), Netted(x))
  {
    LanesLaid(x);
    Queues(x);
    var q := LanesOf(x);
    StartsOrderly(q);
    NetOwn(q, q.orig, q.days, q.days, Open(q.orig, q.days, Debts));
    var r1 := NetAll(q.orig, q.days, q.days);
    NetOwn(q, r1, q.debts, q.credits, Open(r1, q.debts, Debts));
    var r2 := NetAll(r1, q.debts, q.credits);
    NetOwn(q, r2, q.debts, q.days, Open(r2, q.debts, Debts));
  }

  lemma AfterCreditOrderly(x: Input)
    ensures Orderly(LanesOf(x), AfterCredit(x))
  {
    NettedOrderly(x);
    LanesLaid(x);
    Queues(x);
    if CreditNets(x) {
      NetOwn(LanesOf(x), Netted(x), Scope(x), AccountCredits(x), Min(Abs(x.creditUsed), Owed(x)));
    }
  }

  lemma CollectOrderly(q: Lanes, rem: seq<int>, scope: seq<nat>, budget: nat, usable: nat, netted: int)
    requires WellLaid(q) && Orderly(q, rem) && scope == q.days + q.debts && Queue(scope, |rem|)
    ensures Orderly(q, CollectFrom(scope, q.credits, rem, budget, usable, netted).rem)
  {
    var covered := Cover(rem, scope, Credits, budget);
    CoverOwn(q, rem, scope, Credits, budget);
    CoverOwn(q, covered, q.credits, Credits, Min(budget - Min(budget, Open(rem, scope, Credits)), usable));
  }

  /** Every settlement leaves its queues in order. */
  lemma SettledOrderly(x: Input)
    ensures WellLaid(LanesOf(x)) && Orderly(LanesOf(x), Settle(x).rem)
  {
    LanesLaid(x);
    AfterCreditOrderly(x);
    if Budget(x) >= 0 {
      CoverOwn(LanesOf(x), AfterCredit(x), Scope(x), Debts, Budget(x));
    } else {
      CollectOrderly(LanesOf(x), AfterCredit(x), Scope(x), -Budget(x), UsableCredit(x), CreditNetted(x));
    }
  }

  // ----- only one side stays open -----

  lemma {:induction false} OpenShrinks(a: seq<int>, b: seq<int>, pool: seq<nat>, side: Side)
    requires Within(a, b) && Bounded(pool, |a|)
    ensures Open(b, pool, side) <= Open(a, pool, side)
  {
    if pool != [] {
      OpenShrinks(a, b, pool[1..], side);
    }
  }

  /**
   * After netting, among the day rows and among the account rows only one side is open, and the whole scope is
   * one-sided.
   */
  lemma NettedOneSided(x: Input)
    ensures var r := Netted(x);
            Within(Orig(x), r) && Sum(r) == Sum(Orig(x)) &&
            Queue(Days(x), |r|) && Queue(AccountDebts(x), |r|) && Queue(AccountCredits(x), |r|) &&
            Queue(Scope(x), |r|) &&
            (Open(r, Days(x), Debts) == 0 || Open(r, Days(x), Credits) == 0) &&
            (Open(r, AccountDebts(x), Debts) == 0 || Open(r, AccountCredits(x), Credits) == 0) &&
            (Open(r, AccountDebts(x), Debts) == 0 || Open(r, Days(x), Credits) == 0)
  {
    Queues(x);
    var o, d, ad, ac := Orig(x), Days(x), AccountDebts(x), AccountCredits(x);
    var r1 := NetAll(o, d, d);
    NetConserves(o, d, d, Open(o, d, Debts));
    NetCloses(o, d, d, Open(o, d, Debts));
    var r2 := NetAll(r1, ad, ac);
    NetConserves(r1, ad, ac, Open(r1, ad, Debts));
    NetCloses(r1, ad, ac, Open(r1, ad, Debts));
    var r3 := NetAll(r2, ad, d);
    NetConserves(r2, ad, d, Open(r2, ad, Debts));
    NetCloses(r2, ad, d, Open(r2, ad, Debts));
    OpenShrinks(r1, r2, d, Debts);
    OpenShrinks(r1, r2, d, Credits);
    OpenShrinks(r2, r3, d, Debts);
    OpenShrinks(r2, r3, d, Credits);
    OpenShrinks(r2, r3, ad, Debts);
    OpenShrinks(r2, r3, ac, Credits);
    WithinTrans(o, r1, r2);
    WithinTrans(o, r2, r3);
  }
}
