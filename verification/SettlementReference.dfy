/**
 * The settlement of the OMT account as a bookkeeper would work it out from totals alone
 * (specs/322-omt-amount-first-settle/contracts/allocator.md), and the proof that the row-by-row settlement comes to the
 * same.
 */
module SettlementReference {
  import opened Text
  import opened Coverage
  import opened Settlement
  import opened SettlementTheorems

  // ----- totals of the input -----

  /** What the amounts have open on a side, together. */
  function SideSum(s: seq<int>, side: Side): nat {
    if s == [] then 0 else Max(0, Owing(side, s[0])) + SideSum(s[1..], side)
  }

  /** Day debts and credits, account debts and credits. */
  datatype Totals = Totals(dayDebt: nat, dayCredit: nat, accountDebt: nat, accountCredit: nat)

  function TotalsOf(x: Input): Totals {
    Totals(SideSum(x.days, Debts), SideSum(x.days, Credits), SideSum(x.account, Debts), SideSum(x.account, Credits))
  }

  lemma {:induction false} RangeOpen(orig: seq<int>, lo: nat, hi: nat, side: Side)
    requires lo <= hi <= |orig| && Bounded(Range(lo, hi), |orig|)
    ensures Open(orig, Range(lo, hi), side) == SideSum(orig[lo..hi], side)
    decreases hi - lo
  {
    if lo < hi {
      assert Range(lo, hi)[1..] == Range(lo + 1, hi);
      assert orig[lo..hi][1..] == orig[lo + 1..hi];
      RangeOpen(orig, lo + 1, hi, side);
    }
  }

  lemma {:induction false} SideOpen(orig: seq<int>, lo: nat, hi: nat, side: Side)
    requires lo <= hi <= |orig| && Bounded(OnSide(orig, lo, hi, side), |orig|)
    ensures Open(orig, OnSide(orig, lo, hi, side), side) == SideSum(orig[lo..hi], side)
    decreases hi - lo
  {
    if lo < hi {
      var tail := OnSide(orig, lo + 1, hi, side);
      OnSideFacts(orig, lo + 1, hi, side);
      assert orig[lo..hi][1..] == orig[lo + 1..hi];
      SideOpen(orig, lo + 1, hi, side);
      if Owing(side, orig[lo]) > 0 {
        assert ([lo] + tail)[1..] == tail;
      } else {
        Nothing(tail);
      }
    }
  }

  lemma DayLane(x: Input, side: Side)
    ensures Bounded(Days(x), |Orig(x)|) && Open(Orig(x), Days(x), side) == SideSum(x.days, side)
  {
    Queues(x);
    RangeOpen(Orig(x), 0, |x.days|, side);
    Cut(x.days, x.account);
  }

  lemma SecondPart(a: seq<int>, b: seq<int>)
    ensures (a + b)[|a|..|a + b|] == b
  {
  }

  lemma AccountPart(orig: seq<int>, lo: nat, side: Side, account: seq<int>)
    requires lo <= |orig| && orig[lo..|orig|] == account
    ensures Bounded(OnSide(orig, lo, |orig|, side), |orig|)
    ensures Open(orig, OnSide(orig, lo, |orig|, side), side) == SideSum(account, side)
  {
    OnSideFacts(orig, lo, |orig|, side);
    SideOpen(orig, lo, |orig|, side);
  }

  lemma AccountLane(x: Input, side: Side)
    ensures Bounded(OnSide(Orig(x), |x.days|, |Orig(x)|, side), |Orig(x)|)
    ensures Open(Orig(x), OnSide(Orig(x), |x.days|, |Orig(x)|, side), side) == SideSum(x.account, side)
  {
    SecondPart(x.days, x.account);
    AccountPart(Orig(x), |x.days|, side, x.account);
  }

  /** The lanes of the original amounts hold the totals of the input. */
  lemma LanesAtStart(x: Input)
    ensures LanesOpen(x, Orig(x)) == TotalsOf(x)
  {
    DayLane(x, Debts);
    DayLane(x, Credits);
    AccountLane(x, Debts);
    AccountLane(x, Credits);
  }

  // ----- what one netting does to the lanes -----

  lemma CoverOtherSide(rem: seq<int>, pool: seq<nat>, side: Side, budget: int, q: seq<nat>, other: Side)
    requires Queue(pool, |rem|) && Bounded(q, |rem|) && other != side
    ensures Open(Cover(rem, pool, side, budget), q, other) == Open(rem, q, other)
  {
    CoverFrame(rem, pool, side, budget);
    OpenSame(rem, Cover(rem, pool, side, budget), q, other);
  }

  predicate Apart(q: seq<nat>, pool: seq<nat>) {
    forall a :: 0 <= a < |q| ==> q[a] !in pool
  }

  lemma CoverApart(rem: seq<int>, pool: seq<nat>, side: Side, budget: int, q: seq<nat>, other: Side)
    requires Queue(pool, |rem|) && Bounded(q, |rem|) && Apart(q, pool)
    ensures Open(Cover(rem, pool, side, budget), q, other) == Open(rem, q, other)
  {
    CoverFrame(rem, pool, side, budget);
    OpenSame(rem, Cover(rem, pool, side, budget), q, other);
  }

  /** Both lanes of a netting lose what was netted. */
  lemma NetLeaves(rem: seq<int>, debts: seq<nat>, credits: seq<nat>, cap: nat)
    requires Queue(debts, |rem|) && Queue(credits, |rem|)
    ensures var r, m := Net(rem, debts, credits, cap), Netting(rem, debts, credits, cap);
            Open(r, debts, Debts) == Open(rem, debts, Debts) - m &&
            Open(r, credits, Credits) == Open(rem, credits, Credits) - m
  {
    var m := Netting(rem, debts, credits, cap);
    var mid := Cover(rem, debts, Debts, m);
    CoverLeaves(rem, debts, Debts, m);
    CoverOtherSide(rem, debts, Debts, m, credits, Credits);
    CoverLeaves(mid, credits, Credits, m);
    CoverOtherSide(mid, credits, Credits, m, debts, Debts);
  }

  /** A lane that is apart from both queues, or on the other side of the one it shares rows with, keeps what it has. */
  lemma NetKeeps(rem: seq<int>, debts: seq<nat>, credits: seq<nat>, cap: int, q: seq<nat>, side: Side)
    requires Queue(debts, |rem|) && Queue(credits, |rem|) && Bounded(q, |rem|)
    requires Apart(q, debts) || side == Credits
    requires Apart(q, credits) || side == Debts
    ensures Open(Net(rem, debts, credits, cap), q, side) == Open(rem, q, side)
  {
    var m := Netting(rem, debts, credits, cap);
    var mid := Cover(rem, debts, Debts, m);
    if side == Credits {
      CoverOtherSide(rem, debts, Debts, m, q, side);
      CoverApart(mid, credits, Credits, m, q, side);
    } else {
      CoverApart(rem, debts, Debts, m, q, side);
      CoverOtherSide(mid, credits, Credits, m, q, side);
    }
  }

  lemma LanesApart(x: Input)
    ensures Apart(Days(x), AccountDebts(x)) && Apart(Days(x), AccountCredits(x))
    ensures Apart(AccountDebts(x), Days(x)) && Apart(AccountCredits(x), Days(x))
    ensures Apart(AccountDebts(x), AccountCredits(x)) && Apart(AccountCredits(x), AccountDebts(x))
  {
    LanesLaid(x);
    var q := LanesOf(x);
    assert WellLaid(q);
  }

  /** The four lanes of some amounts. */
  function LanesOpen(x: Input, rem: seq<int>): Totals
    requires |rem| == |Orig(x)|
  {
    Queues(x);
    Totals(Open(rem, Days(x), Debts), Open(rem, Days(x), Credits), Open(rem, AccountDebts(x), Debts),
           Open(rem, AccountCredits(x), Credits))
  }

  function WithinDays(t: Totals): Totals {
    t.(dayDebt := Max(0, t.dayDebt - t.dayCredit), dayCredit := Max(0, t.dayCredit - t.dayDebt))
  }

  function WithinAccount(t: Totals): Totals {
    t.(accountDebt := Max(0, t.accountDebt - t.accountCredit), accountCredit := Max(0, t.accountCredit - t.accountDebt))
  }

  function AccountFromDays(t: Totals): Totals {
    t.(accountDebt := Max(0, t.accountDebt - t.dayCredit), dayCredit := Max(0, t.dayCredit - t.accountDebt))
  }

  /** Day credits against day debts. */
  lemma DaysNetted(x: Input, rem: seq<int>)
    requires |rem| == |Orig(x)|
    ensures Queue(Days(x), |rem|)
    ensures var t := LanesOpen(x, rem);
            LanesOpen(x, NetAll(rem, Days(x), Days(x))) == WithinDays(t)
  {
    Queues(x);
    LanesApart(x);
    var d, cap := Days(x), Open(rem, Days(x), Debts);
    NetLeaves(rem, d, d, cap);
    NetKeeps(rem, d, d, cap, AccountDebts(x), Debts);
    NetKeeps(rem, d, d, cap, AccountCredits(x), Credits);
  }

  /** Account debts against account credits. */
  lemma AccountNetted(x: Input, rem: seq<int>)
    requires |rem| == |Orig(x)|
    ensures Queue(AccountDebts(x), |rem|) && Queue(AccountCredits(x), |rem|)
    ensures var t := LanesOpen(x, rem);
            LanesOpen(x, NetAll(rem, AccountDebts(x), AccountCredits(x))) == WithinAccount(t)
  {
    Queues(x);
    LanesApart(x);
    var ad, ac, cap := AccountDebts(x), AccountCredits(x), Open(rem, AccountDebts(x), Debts);
    NetLeaves(rem, ad, ac, cap);
    NetKeeps(rem, ad, ac, cap, Days(x), Debts);
    NetKeeps(rem, ad, ac, cap, Days(x), Credits);
  }

  /** Account debts against day credits. */
  lemma CrossNetted(x: Input, rem: seq<int>)
    requires |rem| == |Orig(x)|
    ensures Queue(AccountDebts(x), |rem|) && Queue(Days(x), |rem|)
    ensures var t := LanesOpen(x, rem);
            LanesOpen(x, NetAll(rem, AccountDebts(x), Days(x))) == AccountFromDays(t)
  {
    Queues(x);
    LanesApart(x);
    var ad, d, cap := AccountDebts(x), Days(x), Open(rem, AccountDebts(x), Debts);
    NetLeaves(rem, ad, d, cap);
    NetKeeps(rem, ad, d, cap, d, Debts);
    NetKeeps(rem, ad, d, cap, AccountCredits(x), Credits);
  }

  lemma NettedInTotals(x: Input)
    ensures LanesOpen(x, Netted(x)) == AccountFromDays(WithinAccount(WithinDays(TotalsOf(x))))
  {
    LanesAtStart(x);
    DaysNetted(x, Orig(x));
    var r1 := NetAll(Orig(x), Days(x), Days(x));
    AccountNetted(x, r1);
    var r2 := NetAll(r1, AccountDebts(x), AccountCredits(x));
    CrossNetted(x, r2);
  }

  /**
   * What every lane has open after netting, from the totals of the input: the account settles its own debts and credits
   * before any account debt takes day credit.
   */
  lemma NettedLanes(x: Input)
    ensures var t := TotalsOf(x);
            var day, account := t.dayCredit - t.dayDebt, t.accountDebt - t.accountCredit;
            LanesOpen(x, Netted(x)) ==
            Totals(Max(0, -day), Max(0, Max(0, day) - Max(0, account)), Max(0, Max(0, account) - Max(0, day)),
                   Max(0, -account))
  {
    NettedInTotals(x);
  }

  // ----- the reference -----

  /** What the scope owes, and the account credit there is, after netting. */
  function OwedBy(t: Totals): int {
    t.dayDebt - t.dayCredit + Max(0, t.accountDebt - t.accountCredit)
  }

  function PoolOf(t: Totals): int {
    Max(0, t.accountCredit - t.accountDebt)
  }

  /** What is owed and the credit pool, from the totals of the input. */
  lemma OwedExact(x: Input)
    ensures Owed(x) == OwedBy(TotalsOf(x)) && CreditPool(x) == PoolOf(TotalsOf(x))
  {
    NettedLanes(x);
    NettedOneSided(x);
    LanesLaid(x);
    var r := Netted(x);
    DebtsHoldNoCredit(LanesOf(x), r);
    OpenAppend(r, Days(x), AccountDebts(x), Credits);
    OpenAppend(r, Days(x), AccountDebts(x), Debts);
    TotalIsOpen(r, Scope(x));
  }

  /**
   * The outcome in totals: extra, account credit applied, what the scope still owes, and whether too much was chosen.
   */
  datatype Books = Books(extra: int, credit: int, remaining: int, tooHigh: bool)

  /** The direction of a waive: toward what is owed, or with the money when nothing is. */
  function Toward(owed: int, paid: int): int {
    if owed > 0 || (owed == 0 && paid >= 0) then 1 else -1
  }

  /**
   * Worked out from totals. The waive goes toward what is owed, or with the money when nothing is; a covering
   * commission always counts as money paid. Credit that was chosen covers debts first. A positive budget then covers
   * debts; a negative one credits of the scope, and after them what is left of the chosen account credit. The rest is
   * extra.
   */
  function Reference(t: Totals, paid: int, waive: nat, commission: nat, covers: bool, chosen: nat, whole: bool): Books {
    var owed, pool := OwedBy(t), PoolOf(t);
    var tooHigh := chosen > pool || (owed > 0 && !whole && chosen > owed);
    var usable := if tooHigh then 0 else chosen;
    var netted := Min(usable, Max(0, owed));
    var left := owed - netted;
    var budget := paid + waive * Toward(owed, paid) + if covers then commission else 0;
    if budget >= 0 then
      var moved := Min(budget, Max(0, left));
      Books(budget - moved, netted, left - moved, tooHigh)
    else
      var moved := Min(-budget, Max(0, -left));
      var more := if owed > 0 && !whole then 0 else Min(-budget - moved, usable - netted);
      Books(budget + moved + more, netted + more, left + moved, tooHigh)
  }

  lemma TooHighExact(x: Input)
    ensures CreditTooHigh(x) <==>
            Abs(x.creditUsed) > CreditPool(x) || (Owed(x) > 0 && !x.wholeCredit && Abs(x.creditUsed) > Owed(x))
  {
  }

  /** What the scope has open once the chosen credit has covered debts. */
  lemma ScopeAfterCredit(x: Input)
    ensures Queue(Scope(x), |Orig(x)|)
    ensures Open(AfterCredit(x), Scope(x), Debts) == Max(0, Owed(x)) - CreditNetted(x)
    ensures Open(AfterCredit(x), Scope(x), Credits) == Max(0, -Owed(x))
  {
    ScopeOpens(x);
    ScopeCreditsAfter(x);
    Queues(x);
    if CreditNets(x) {
      NetLeaves(Netted(x), Scope(x), AccountCredits(x), Min(Abs(x.creditUsed), Owed(x)));
    }
  }

  lemma ScopeApart(x: Input)
    ensures Apart(Scope(x), AccountCredits(x))
  {
    LanesApart(x);
    var s := Scope(x);
    forall a | 0 <= a < |s| ensures s[a] !in AccountCredits(x) {
      if a < |Days(x)| {
        assert s[a] == Days(x)[a];
      } else {
        assert s[a] == AccountDebts(x)[a - |Days(x)|];
      }
    }
  }

  /** What a payment leaves of the scope. */
  lemma PaidLeaves(scope: seq<nat>, rem: seq<int>, budget: nat, netted: int)
    requires Queue(scope, |rem|)
    ensures var o, moved := PayFrom(scope, rem, budget, netted), Min(budget, Open(rem, scope, Debts));
            o.extra == budget - moved && Total(o.rem, scope) == Total(rem, scope) - moved
  {
    var r := Cover(rem, scope, Debts, budget);
    CoverLeaves(rem, scope, Debts, budget);
    CoverOtherSide(rem, scope, Debts, budget, scope, Credits);
    TotalIsOpen(rem, scope);
    TotalIsOpen(r, scope);
  }

  /** What a receipt leaves of it. */
  lemma ReceivedLeaves(scope: seq<nat>, credits: seq<nat>, rem: seq<int>, budget: nat, usable: nat, netted: int)
    requires Queue(scope, |rem|) && Queue(credits, |rem|) && Apart(scope, credits)
    ensures var o, moved := CollectFrom(scope, credits, rem, budget, usable, netted),
                            Min(budget, Open(rem, scope, Credits));
            o.extra == moved + (o.creditApplied - netted) - budget && Total(o.rem, scope) == Total(rem, scope) + moved
  {
    var moved := Min(budget, Open(rem, scope, Credits));
    var covered, m := Cover(rem, scope, Credits, budget), Min(budget - moved, usable);
    var r := Cover(covered, credits, Credits, m);
    CoverLeaves(rem, scope, Credits, budget);
    CoverOtherSide(rem, scope, Credits, budget, scope, Debts);
    CoverApart(covered, credits, Credits, m, scope, Credits);
    CoverApart(covered, credits, Credits, m, scope, Debts);
    TotalIsOpen(rem, scope);
    TotalIsOpen(covered, scope);
    TotalIsOpen(r, scope);
  }

  /** The settlement's extra and what its scope still owes, in terms of what was owed, netted and applied. */
  lemma SettledTotals(x: Input)
    ensures Queue(Scope(x), |Settle(x).rem|)
    ensures var o, left, b := Settle(x), Owed(x) - CreditNetted(x), Budget(x);
            if b >= 0 then
              var moved := Min(b, Max(0, Owed(x)) - CreditNetted(x));
              o.extra == b - moved && Total(o.rem, Scope(x)) == left - moved
            else
              var moved := Min(-b, Max(0, -Owed(x)));
              o.extra == b + moved + (o.creditApplied - CreditNetted(x)) && Total(o.rem, Scope(x)) == left + moved
  {
    ScopeAfterCredit(x);
    Queues(x);
    var c, b := AfterCredit(x), Budget(x);
    TotalIsOpen(c, Scope(x));
    if b >= 0 {
      PaidLeaves(Scope(x), c, b, CreditNetted(x));
    } else {
      ScopeApart(x);
      ReceivedLeaves(Scope(x), AccountCredits(x), c, -b, UsableCredit(x), CreditNetted(x));
    }
  }

  /** The reference, once what is owed, netted and applied is known. */
  lemma BooksAdd(t: Totals, paid: int, waive: nat, commission: nat, covers: bool, chosen: nat, whole: bool, owed: int,
                 pool: int,
                 tooHigh: bool, netted: int, budget: int, applied: int)
    requires owed == OwedBy(t) && pool == PoolOf(t)
    requires tooHigh == (chosen > pool || (owed > 0 && !whole && chosen > owed))
    requires netted == if owed > 0 && !tooHigh then Min(chosen, owed) else 0
    requires budget == paid + waive * Toward(owed, paid) + if covers then commission else 0
    requires applied == CreditUsed(tooHigh, owed, budget, chosen, whole)
    ensures var o := Reference(t, paid, waive, commission, covers, chosen, whole);
            o.tooHigh == tooHigh && o.credit == applied &&
            if budget >= 0 then
              var moved := Min(budget, Max(0, owed) - netted);
              o.extra == budget - moved && o.remaining == owed - netted - moved
            else
              var moved := Min(-budget, Max(0, -owed));
              o.extra == budget + moved + (applied - netted) && o.remaining == owed - netted + moved
  {
  }

  lemma BudgetExact(x: Input)
    ensures Budget(x) ==
            x.paid + Abs(x.waive) * Toward(Owed(x), x.paid) + if x.commissionCovers then Abs(x.commission) else 0
  {
  }

  /**
   * For every input the row-by-row settlement comes to what the reference works out from totals: the extra, the account
   * credit applied, what the scope still owes, and whether too much credit was chosen.
   */
  lemma SettlementIsReference(x: Input)
    ensures Queue(Scope(x), |Settle(x).rem|)
    ensures Books(Settle(x).extra, Settle(x).creditApplied, Total(Settle(x).rem, Scope(x)), CreditTooHigh(x)) ==
            Reference(TotalsOf(x), x.paid, Abs(x.waive), Abs(x.commission), x.commissionCovers, Abs(x.creditUsed),
                      x.wholeCredit)
  {
    OwedExact(x);
    TooHighExact(x);
    NettedCreditExact(x);
    CreditAsChosen(x);
    BudgetExact(x);
    SettledTotals(x);
    BooksAdd(TotalsOf(x), x.paid, Abs(x.waive), Abs(x.commission), x.commissionCovers, Abs(x.creditUsed), x.wholeCredit,
             Owed(x), CreditPool(x), CreditTooHigh(x), CreditNetted(x), Budget(x), Settle(x).creditApplied);
  }
}
