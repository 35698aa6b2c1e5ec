/**
 * packages/core/src/utils/accountSettleAllocation.ts, as it runs: the remaining amounts are changed in place, take by
 * take, and every take is recorded with its source.
 */
module Allocator {
  import opened Coverage
  import opened Settlement
  import opened SettlementTheorems
  import opened Text

  datatype Source = Netting | Payment | Commission | Waive
  datatype Take = Take(row: nat, source: Source, amount: int)

  function TakenFrom(takes: seq<Take>, row: nat): int {
    if takes == [] then 0
    else TakenFrom(takes[..|takes| - 1], row) + (if takes[|takes| - 1].row == row then takes[|takes| - 1].amount else 0)
  }

  function TakenBy(takes: seq<Take>, source: Source): int {
    if takes == [] then 0
    else TakenBy(takes[..|takes| - 1], source) +
         (if takes[|takes| - 1].source == source then takes[|takes| - 1].amount else 0)
  }

  lemma TakenSnoc(takes: seq<Take>, t: Take)
    ensures forall row :: TakenFrom(takes + [t], row) == TakenFrom(takes, row) + (if t.row == row then t.amount else 0)
    ensures forall s :: TakenBy(takes + [t], s) == TakenBy(takes, s) + (if t.source == s then t.amount else 0)
  {
    assert (takes + [t])[..|takes|] == takes;
  }

  class Run {
    const orig: seq<int>
    var rem: seq<int>
    var takes: seq<Take>

    /** No row is covered beyond zero, and the takes account for exactly what was covered. */
    ghost predicate Valid()
      reads this
    {
      Within(orig, rem) && forall i: nat :: i < |orig| ==> TakenFrom(takes, i) == Abs(orig[i] - rem[i])
    }

    constructor (x: Input)
      ensures Valid() && orig == Orig(x) && rem == Orig(x) && takes == []
    {
      orig := Orig(x);
      rem := Orig(x);
      takes := [];
    }

    method Record(i: nat, source: Source, m: int)
      requires Valid() && i < |orig| && m <= Abs(rem[i])
      modifies this
      ensures Valid()
      ensures rem ==
              if m <= 0 then old(rem)
              else old(rem)[i := if orig[i] > 0 then old(rem)[i] - m else old(rem)[i] + m]
      ensures forall s :: TakenBy(takes, s) == TakenBy(old(takes), s) + (if s == source then Max(0, m) else 0)
    {
      if m <= 0 {
        return;
      }
      TakenSnoc(takes, Take(i, source, m));
      takes := takes + [Take(i, source, m)];
      rem := rem[i := if orig[i] > 0 then rem[i] - m else rem[i] + m];
    }

    /** The first open rows of a queue take the budget, oldest first. */
    method CoverQueue(pool: seq<nat>, side: Side, source: Source, budget: int) returns (spent: int)
      requires Valid() && Queue(pool, |orig|)
      modifies this
      ensures Valid()
      ensures rem == Cover(old(rem), pool, side, budget) && spent == Min(Max(0, budget), Open(old(rem), pool, side))
      ensures forall s :: TakenBy(takes, s) == TakenBy(old(takes), s) + (if s == source then spent else 0)
    {
      spent := 0;
      Started(rem, pool, side, budget);
      for a := 0 to |pool|
        invariant Valid() && Progress(old(rem), rem, pool, a, side, budget, spent)
        invariant forall s :: TakenBy(takes, s) == TakenBy(old(takes), s) + (if s == source then spent else 0)
      {
        var take := Serve(old(rem), pool, a, side, source, budget, spent);
        spent := spent + take;
      }
      Finished(old(rem), rem, pool, side, budget, spent);
    }

    /** The next row of a queue takes its slice. */
    method Serve(ghost was: seq<int>, pool: seq<nat>, a: nat, side: Side, source: Source, budget: int, spent: int)
      returns (take: int)
      requires Valid() && a < |pool| && Progress(was, rem, pool, a, side, budget, spent) && Queue(pool, |orig|)
      modifies this
      ensures Valid() && Progress(was, rem, pool, a + 1, side, budget, spent + take)
      ensures forall s :: TakenBy(takes, s) == TakenBy(old(takes), s) + (if s == source then take else 0)
    {
      var i := pool[a];
      take := Slice(side, rem[i], budget - spent);
      ghost var next := rem[i := Owing(side, Owing(side, rem[i]) - take)];
      Advanced(was, rem, next, pool, a, side, budget, spent, take);
      Record(i, source, take);
      assert rem == next;
    }

    /** `net`. */
    method NetQueues(debts: seq<nat>, credits: seq<nat>, cap: int) returns (netted: int)
      requires Valid() && Queue(debts, |orig|) && Queue(credits, |orig|) && cap >= 0
      modifies this
      ensures Valid() && rem == Net(old(rem), debts, credits, cap)
      ensures netted == Coverage.Netting(old(rem), debts, credits, cap)
      ensures forall s :: TakenBy(takes, s) == TakenBy(old(takes), s) + (if s == Netting then 2 * netted else 0)
    {
      netted := Coverage.Netting(rem, debts, credits, cap);
      CreditsUnmoved(rem, debts, credits, netted);
      var d := CoverQueue(debts, Debts, Netting, netted);
      var c := CoverQueue(credits, Credits, Netting, netted);
    }

    /** The money step on one queue: each take is tagged as waive first, then commission, then payment. */
    method SpendBudget(pool: seq<nat>, side: Side, budget: nat, waive: nat, commission: nat) returns (spent: int)
      requires Valid() && Queue(pool, |orig|)
      modifies this
      ensures Valid()
      ensures rem == Cover(old(rem), pool, side, budget) && spent == Min(Max(0, budget), Open(old(rem), pool, side))
      ensures spent >= 0 && Tagged(old(takes), takes, spent, waive, commission)
    {
      spent := 0;
      var waiveLeft, commissionLeft := waive, commission;
      Started(rem, pool, side, budget);
      for a := 0 to |pool|
        invariant Valid() && Progress(old(rem), rem, pool, a, side, budget, spent)
        invariant waiveLeft == waive - FromWaive(spent, waive)
        invariant commissionLeft == commission - FromCommission(spent, waive, commission)
        invariant Tagged(old(takes), takes, spent, waive, commission)
      {
        spent, waiveLeft, commissionLeft :=
          ServeNext(old(rem), pool, a, side, budget, spent, waiveLeft, commissionLeft, old(takes), waive, commission);
      }
      Finished(old(rem), rem, pool, side, budget, spent);
    }

    method ServeNext(ghost was: seq<int>, pool: seq<nat>, a: nat, side: Side, budget: nat, spent: nat,
                     waiveLeft: nat, commissionLeft: nat, ghost before: seq<Take>, ghost waive: nat,
                     ghost commission: nat)
      returns (spentAfter: nat, waiveAfter: nat, commissionAfter: nat)
      requires Valid() && a < |pool| && Progress(was, rem, pool, a, side, budget, spent) && Queue(pool, |orig|)
      requires waiveLeft == waive - FromWaive(spent, waive)
      requires commissionLeft == commission - FromCommission(spent, waive, commission)
      requires Tagged(before, takes, spent, waive, commission)
      modifies this
      ensures Valid() && Progress(was, rem, pool, a + 1, side, budget, spentAfter)
      ensures waiveAfter == waive - FromWaive(spentAfter, waive)
      ensures commissionAfter == commission - FromCommission(spentAfter, waive, commission)
      ensures Tagged(before, takes, spentAfter, waive, commission)
    {
      var i := pool[a];
      var take := Slice(side, rem[i], budget - spent);
      ghost var next := rem[i := Owing(side, Owing(side, rem[i]) - take)];
      Advanced(was, rem, next, pool, a, side, budget, spent, take);
      waiveAfter, commissionAfter :=
        ServeTagged(i, side, take, waiveLeft, commissionLeft, before, spent, waive, commission);
      spentAfter := spent + take;
      assert rem == next;
    }

    /** One row takes its slice of a budget; what is left of the waive and of the commission is returned. */
    method ServeTagged(i: nat, side: Side, take: nat, waiveLeft: nat, commissionLeft: nat,
                       ghost before: seq<Take>, ghost spent: nat, ghost waive: nat, ghost commission: nat)
      returns (waiveAfter: nat, commissionAfter: nat)
      requires Valid() && i < |orig| && take <= Max(0, Owing(side, rem[i]))
      requires waiveLeft == waive - FromWaive(spent, waive)
      requires commissionLeft == commission - FromCommission(spent, waive, commission)
      requires Tagged(before, takes, spent, waive, commission)
      modifies this
      ensures Valid() && rem == old(rem)[i := Owing(side, Owing(side, old(rem)[i]) - take)]
      ensures waiveAfter == waive - FromWaive(spent + take, waive)
      ensures commissionAfter == commission - FromCommission(spent + take, waive, commission)
      ensures Tagged(before, takes, spent + take, waive, commission)
    {
      TagStep(spent, take, waive, commission);
      var fromWaive := Min(take, waiveLeft);
      waiveAfter := waiveLeft - fromWaive;
      var fromCommission := Min(take - fromWaive, commissionLeft);
      commissionAfter := commissionLeft - fromCommission;
      RecordAll(i, side, fromWaive, fromCommission, take - fromWaive - fromCommission);
    }

    /** The three takes of one row, from the three sources. */
    method RecordAll(i: nat, side: Side, waive: nat, commission: nat, money: nat)
      requires Valid() && i < |orig| && waive + commission + money <= Max(0, Owing(side, rem[i]))
      modifies this
      ensures Valid() && rem == old(rem)[i := Owing(side, Owing(side, old(rem)[i]) - waive - commission - money)]
      ensures TakenBy(takes, Waive) == TakenBy(old(takes), Waive) + waive
      ensures TakenBy(takes, Commission) == TakenBy(old(takes), Commission) + commission
      ensures TakenBy(takes, Payment) == TakenBy(old(takes), Payment) + money
      ensures TakenBy(takes, Netting) == TakenBy(old(takes), Netting)
    {
      Record(i, Waive, waive);
      Record(i, Commission, commission);
      Record(i, Payment, money);
    }
  }

  // ----- the order in which a budget is used up -----

  function FromWaive(spent: nat, waive: nat): nat {
    Min(spent, waive)
  }

  function FromCommission(spent: nat, waive: nat, commission: nat): nat {
    Min(spent - Min(spent, waive), commission)
  }

  /** The takes of a budget: the waive is used up first, then the commission, and the rest is money. */
  predicate Tagged(before: seq<Take>, after: seq<Take>, spent: nat, waive: nat, commission: nat) {
    var w, c := FromWaive(spent, waive), FromCommission(spent, waive, commission);
    TakenBy(after, Waive) == TakenBy(before, Waive) + w &&
    TakenBy(after, Commission) == TakenBy(before, Commission) + c &&
    TakenBy(after, Payment) == TakenBy(before, Payment) + spent - w - c &&
    TakenBy(after, Netting) == TakenBy(before, Netting)
  }

  lemma TagStep(spent: nat, take: nat, waive: nat, commission: nat)
    ensures var w := Min(take, waive - FromWaive(spent, waive));
            FromWaive(spent + take, waive) == FromWaive(spent, waive) + w &&
            FromCommission(spent + take, waive, commission) ==
            FromCommission(spent, waive, commission) +
            Min(take - w, commission - FromCommission(spent, waive, commission))
  {
  }

  // ----- a walk along a queue -----

  /** What the next row takes of what is left of the budget. */
  function Slice(side: Side, amount: int, left: int): int {
    if left <= 0 then 0 else Max(0, Min(left, Owing(side, amount)))
  }

  /** The first `a` rows have been served: the rest of the walk leads where the whole walk leads. */
  ghost predicate Progress(was: seq<int>, rem: seq<int>, pool: seq<nat>, a: nat, side: Side, budget: int, spent: int) {
    |rem| == |was| && a <= |pool| && Queue(pool, |was|) && Bounded(pool[a..], |was|) && 0 <= spent <= Max(0, budget) &&
    Cover(rem, pool[a..], side, budget - spent) == Cover(was, pool, side, budget) &&
    Min(Max(0, budget - spent), Open(rem, pool[a..], side)) + spent == Min(Max(0, budget), Open(was, pool, side))
  }

  lemma Started(rem: seq<int>, pool: seq<nat>, side: Side, budget: int)
    requires Queue(pool, |rem|)
    ensures Progress(rem, rem, pool, 0, side, budget, 0)
  {
    assert pool[0..] == pool;
  }

  lemma Advanced(was: seq<int>, rem: seq<int>, next: seq<int>, pool: seq<nat>, a: nat, side: Side, budget: int,
                 spent: int, take: int)
    requires Progress(was, rem, pool, a, side, budget, spent) && a < |pool|
    requires take == Slice(side, rem[pool[a]], budget - spent)
    requires next == rem[pool[a] := Owing(side, Owing(side, rem[pool[a]]) - take)]
    ensures 0 <= take <= Max(0, Owing(side, rem[pool[a]]))
    ensures Progress(was, next, pool, a + 1, side, budget, spent + take)
  {
    var i, here, rest, left := pool[a], pool[a..], pool[a + 1..], budget - spent;
    assert here[0] == i && here[1..] == rest;
    assert Bounded(rest, |was|) by {
      assert forall b :: 0 <= b < |rest| ==> rest[b] == pool[a + 1 + b];
    }
    forall b | 0 <= b < |rest| ensures rest[b] != i {
      assert rest[b] == pool[a + 1 + b];
    }
    OpenSame(rem, next, rest, side);
    if left <= 0 {
      assert next == rem;
      NothingSpent(rem, here, side, left);
      NothingSpent(rem, rest, side, left);
    } else {
      CoverHead(rem, here, side, left, take, next);
      LeftStep(left, Owing(side, rem[i]), Open(rem, rest, side));
    }
  }

  lemma Finished(was: seq<int>, rem: seq<int>, pool: seq<nat>, side: Side, budget: int, spent: int)
    requires Progress(was, rem, pool, |pool|, side, budget, spent)
    ensures rem == Cover(was, pool, side, budget) && spent == Min(Max(0, budget), Open(was, pool, side))
  {
    assert pool[|pool|..] == [];
  }

  // ----- the whole settlement -----

  /** What the waive adds to the money of a sign. */
  function WaiveToward(x: Input, sign: int): nat {
    if WaiveSign(x) == sign then Abs(x.waive) else 0
  }

  lemma AreQueues(x: Input)
    ensures var n := |Orig(x)|;
            Queue(Days(x), n) && Queue(AccountDebts(x), n) && Queue(AccountCredits(x), n) && Queue(Scope(x), n)
  {
    Queues(x);
  }

  method NetAllQueues(x: Input, run: Run)
    requires run.Valid() && run.orig == Orig(x) && run.rem == Orig(x)
    modifies run
    ensures run.Valid() && run.rem == Netted(x)
    ensures forall s :: s != Netting ==> TakenBy(run.takes, s) == TakenBy(old(run.takes), s)
  {
    AreQueues(x);
    var m := run.NetQueues(Days(x), Days(x), Open(run.rem, Days(x), Debts));
    m := run.NetQueues(AccountDebts(x), AccountCredits(x), Open(run.rem, AccountDebts(x), Debts));
    m := run.NetQueues(AccountDebts(x), Days(x), Open(run.rem, AccountDebts(x), Debts));
  }

  method ApplyCredit(x: Input, run: Run) returns (applied: int)
    requires run.Valid() && run.orig == Orig(x) && run.rem == Netted(x)
    modifies run
    ensures run.Valid() && run.rem == AfterCredit(x) && applied == CreditNetted(x)
    ensures forall s :: s != Netting ==> TakenBy(run.takes, s) == TakenBy(old(run.takes), s)
  {
    AreQueues(x);
    applied := 0;
    if CreditNets(x) {
      applied := run.NetQueues(Scope(x), AccountCredits(x), Min(Abs(x.creditUsed), Owed(x)));
    }
  }

  /** The money received, on the given queues, with the account credit that may be taken. */
  method SpendReceipt(run: Run, scope: seq<nat>, credits: seq<nat>, budget: nat, usable: nat, waive: nat)
    returns (spent: nat, fromCredit: nat)
    requires run.Valid() && Queue(scope, |run.orig|) && Queue(credits, |run.orig|)
    modifies run
    ensures run.Valid() && Received(scope, credits, old(run.rem), run.rem, budget, usable, spent, fromCredit)
    ensures Tagged(old(run.takes), run.takes, spent + fromCredit, waive, 0)
  {
    spent := run.SpendBudget(scope, Credits, budget, waive, 0);
    ghost var mid := run.takes;
    fromCredit := run.SpendBudget(credits, Credits, Min(budget - spent, usable), waive - FromWaive(spent, waive), 0);
    TaggedTwice(old(run.takes), mid, run.takes, spent, fromCredit, waive);
  }

  /** The credits of the scope have been covered, and with what is left the usable account credit. */
  ghost predicate Received(scope: seq<nat>, credits: seq<nat>, was: seq<int>, rem: seq<int>, budget: nat, usable: nat,
                           spent: int, taken: int)
    requires Queue(scope, |was|) && Queue(credits, |was|)
  {
    var covered := Cover(was, scope, Credits, budget);
    var m := Min(budget - spent, usable);
    spent == Min(budget, Open(was, scope, Credits)) &&
    rem == Cover(covered, credits, Credits, m) && taken == Min(m, Open(covered, credits, Credits))
  }

  lemma ReceivedFrom(scope: seq<nat>, credits: seq<nat>, was: seq<int>, rem: seq<int>, budget: nat, usable: nat,
                     spent: int, taken: int, netted: int)
    requires Queue(scope, |was|) && Queue(credits, |was|)
    requires Received(scope, credits, was, rem, budget, usable, spent, taken)
    ensures CollectFrom(scope, credits, was, budget, usable, netted) ==
            Outcome(rem, spent + taken - budget, netted + taken)
  {
  }

  lemma TaggedTwice(a: seq<Take>, b: seq<Take>, c: seq<Take>, spent: nat, more: nat, waive: nat)
    requires Tagged(a, b, spent, waive, 0) && Tagged(b, c, more, waive - FromWaive(spent, waive), 0)
    ensures Tagged(a, c, spent + more, waive, 0)
  {
  }

  /** What the commission adds to the money. */
  function CommissionToward(x: Input): nat {
    if x.commissionCovers && Budget(x) >= 0 then Abs(x.commission) else 0
  }

  /** What the budget moved is attributed to the waive first, then to the commission, and the rest to the money. */
  ghost predicate Attributed(takes: seq<Take>, moved: int, waive: nat, commission: nat) {
    moved >= 0 &&
    TakenBy(takes, Waive) == Min(moved, waive) &&
    TakenBy(takes, Commission) == Min(Max(0, moved - waive), commission) &&
    TakenBy(takes, Payment) == Max(0, moved - waive - commission)
  }

  ghost predicate OnlyNetted(takes: seq<Take>) {
    forall s :: s != Netting ==> TakenBy(takes, s) == 0
  }

  lemma FirstTags(before: seq<Take>, after: seq<Take>, moved: nat, waive: nat, commission: nat)
    requires OnlyNetted(before) && Tagged(before, after, moved, waive, commission)
    ensures Attributed(after, moved, waive, commission)
  {
  }

  method PayOut(run: Run, scope: seq<nat>, budget: nat, waive: nat, commission: nat, ghost netted: int)
    returns (moved: nat)
    requires run.Valid() && Queue(scope, |run.orig|) && OnlyNetted(run.takes)
    modifies run
    ensures run.Valid() && Outcome(run.rem, budget - moved, netted) == PayFrom(scope, old(run.rem), budget, netted)
    ensures moved <= budget && Attributed(run.takes, moved, waive, commission)
  {
    moved := run.SpendBudget(scope, Debts, budget, waive, commission);
    FirstTags(old(run.takes), run.takes, moved, waive, commission);
  }

  method TakeIn(run: Run, scope: seq<nat>, credits: seq<nat>, budget: nat, usable: nat, waive: nat, ghost netted: int)
    returns (moved: nat, fromCredit: nat)
    requires run.Valid() && Queue(scope, |run.orig|) && Queue(credits, |run.orig|) && OnlyNetted(run.takes)
    modifies run
    ensures run.Valid()
    ensures Outcome(run.rem, moved - budget, netted + fromCredit) ==
            CollectFrom(scope, credits, old(run.rem), budget, usable, netted)
    ensures moved <= budget && Attributed(run.takes, moved, waive, 0)
  {
    var spent;
    spent, fromCredit := SpendReceipt(run, scope, credits, budget, usable, waive);
    moved := spent + fromCredit;
    FirstTags(old(run.takes), run.takes, moved, waive, 0);
    ReceivedFrom(scope, credits, old(run.rem), run.rem, budget, usable, spent, fromCredit, netted);
  }

  /** The direction of the budget. */
  function Sign(x: Input): int {
    if Budget(x) >= 0 then 1 else -1
  }

  /** The money step. */
  method SpendMoney(run: Run, scope: seq<nat>, credits: seq<nat>, budget: int, usable: nat, waive: nat, commission: nat,
                    ghost netted: int)
    returns (extra: int, fromCredit: nat)
    requires run.Valid() && Queue(scope, |run.orig|) && Queue(credits, |run.orig|) && OnlyNetted(run.takes)
    requires budget < 0 ==> commission == 0
    modifies run
    ensures run.Valid()
    ensures Outcome(run.rem, extra, netted + fromCredit) ==
            SpendFrom(scope, credits, old(run.rem), budget, usable, netted)
    ensures Attributed(run.takes, Abs(budget) - Abs(extra), waive, commission)
  {
    fromCredit := 0;
    var moved: nat := 0;
    if budget >= 0 {
      moved := PayOut(run, scope, budget, waive, commission, netted);
      extra := budget - moved;
    } else {
      moved, fromCredit := TakeIn(run, scope, credits, -budget, usable, waive, netted);
      extra := budget + moved;
    }
    assert Abs(budget) - Abs(extra) == moved;
  }

  /**
   * `allocateAccountSettlement`: the outcome is the one the promises are proved of, the recorded takes add up, row by
   * row, to what each row was covered by, and source by source to what each source gave.
   */
  method Allocate(x: Input) returns (rem: seq<int>, takes: seq<Take>, extra: int, creditApplied: int)
    ensures Outcome(rem, extra, creditApplied) == Settle(x)
    ensures forall i: nat :: i < |Orig(x)| ==> TakenFrom(takes, i) == Abs(Orig(x)[i] - rem[i])
    ensures Attributed(takes, Abs(Budget(x)) - Abs(extra), WaiveToward(x, Sign(x)), CommissionToward(x))
  {
    var run := new Run(x);
    NetAllQueues(x, run);
    var netted := ApplyCredit(x, run);
    extra, creditApplied := SpendAll(x, run, netted);
    rem, takes := run.rem, run.takes;
  }

  method SpendAll(x: Input, run: Run, netted: int) returns (extra: int, creditApplied: int)
    requires run.Valid() && run.orig == Orig(x) && run.rem == AfterCredit(x) && netted == CreditNetted(x)
    requires OnlyNetted(run.takes)
    modifies run
    ensures run.Valid() && Outcome(run.rem, extra, creditApplied) == Settle(x)
    ensures Attributed(run.takes, Abs(Budget(x)) - Abs(extra), WaiveToward(x, Sign(x)), CommissionToward(x))
  {
    AreQueues(x);
    var fromCredit;
    extra, fromCredit := SpendMoney(run, Scope(x), AccountCredits(x), Budget(x), UsableCredit(x),
                                    WaiveToward(x, Sign(x)), CommissionToward(x), netted);
    creditApplied := netted + fromCredit;
  }

  /** The waive and the commission give to a budget of their own direction: the commission only to one that pays. */
  lemma GivenToward(x: Input)
    ensures WaiveToward(x, Sign(x)) == Max(0, Abs(x.waive) * WaiveSign(x) * if Budget(x) >= 0 then 1 else -1)
    ensures CommissionToward(x) == if x.commissionCovers && Budget(x) >= 0 then Abs(x.commission) else 0
  {
  }

  /** The rows in the four groups of the result. */
  datatype Groups = Groups(closed: seq<nat>, untouched: seq<nat>, partial: Option<nat>, accountPartial: Option<nat>)

  ghost predicate InExactlyOne(g: Groups, i: nat) {
    var closed, untouched, partial, account :=
      i in g.closed, i in g.untouched, g.partial == Some(i), g.accountPartial == Some(i);
    (closed || untouched || partial || account) &&
    !(closed && untouched) && !(closed && partial) && !(closed && account) &&
    !(untouched && partial) && !(untouched && account) && !(partial && account)
  }

  /** The place a row's outcome gives it. */
  ghost predicate Placed(x: Input, g: Groups, i: nat)
    requires i < |Orig(x)|
  {
    var r := Settle(x).rem[i];
    (i in g.closed <==> r == 0) &&
    (i in g.untouched <==> r != 0 && r == Orig(x)[i]) &&
    (g.partial == Some(i) <==> PartCovered(x, i) && i < |x.days|) &&
    (g.accountPartial == Some(i) <==> PartCovered(x, i) && i >= |x.days|)
  }

  ghost predicate PartOf(orig: seq<int>, rem: seq<int>, i: nat) {
    i < |rem| && i < |orig| && rem[i] != 0 && rem[i] != orig[i]
  }

  /** The groups of the first `n` rows: a part-covered row of each kind is kept when there is one. */
  ghost predicate Sorted(g: Groups, orig: seq<int>, rem: seq<int>, days: nat, n: nat)
    requires n <= |rem| == |orig|
  {
    (forall k: nat :: k in g.closed <==> k < n && rem[k] == 0) &&
    (forall k: nat :: k in g.untouched <==> k < n && rem[k] != 0 && rem[k] == orig[k]) &&
    (g.partial.Some? ==> g.partial.value < n && PartOf(orig, rem, g.partial.value) && g.partial.value < days) &&
    (g.accountPartial.Some? ==>
       g.accountPartial.value < n && PartOf(orig, rem, g.accountPartial.value) && g.accountPartial.value >= days) &&
    (forall k: nat :: k < n && PartOf(orig, rem, k) ==> if k < days then g.partial.Some? else g.accountPartial.Some?)
  }

  function Place(g: Groups, orig: int, rem: int, day: bool, i: nat): Groups {
    if rem == 0 then g.(closed := g.closed + [i])
    else if rem == orig then g.(untouched := g.untouched + [i])
    else if !day then (if g.accountPartial == None then g.(accountPartial := Some(i)) else g)
    else if g.partial == None then g.(partial := Some(i))
    else g
  }

  lemma PlaceSorts(g: Groups, orig: seq<int>, rem: seq<int>, days: nat, n: nat)
    requires n < |rem| == |orig| && Sorted(g, orig, rem, days, n)
    ensures Sorted(Place(g, orig[n], rem[n], n < days, n), orig, rem, days, n + 1)
  {
  }

  /** The classification loop: it keeps the first part-covered row of each kind, which is the only one. */
  method Classify(x: Input, rem: seq<int>) returns (g: Groups)
    requires rem == Settle(x).rem
    ensures forall i: nat :: i < |rem| ==> Placed(x, g, i) && InExactlyOne(g, i)
  {
    var orig, days := Orig(x), |x.days|;
    g := Groups([], [], None, None);
    for i: nat := 0 to |rem|
      invariant Sorted(g, orig, rem, days, i)
    {
      PlaceSorts(g, orig, rem, days, i);
      g := Place(g, orig[i], rem[i], i < days, i);
    }
    forall i: nat | i < |rem| ensures Placed(x, g, i) && InExactlyOne(g, i) {
      PlacedOnce(x, g, i);
    }
  }

  /** What the loop has found is each row's own place, because no kind has a second part-covered row. */
  lemma PlacedOnce(x: Input, g: Groups, i: nat)
    requires i < |Orig(x)| && Sorted(g, Orig(x), Settle(x).rem, |x.days|, |Orig(x)|)
    ensures Placed(x, g, i) && InExactlyOne(g, i)
  {
    if PartCovered(x, i) {
      assert PartOf(Orig(x), Settle(x).rem, i);
      AtMostOnePartial(x, i, if i < |x.days| then g.partial.value else g.accountPartial.value);
    }
  }
}
