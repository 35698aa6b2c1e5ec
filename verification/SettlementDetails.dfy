/**
 * The netting pairs and the commission split of one whole settlement,
 * packages/core/src/utils/accountSettleAllocation.ts.
 */
module SettlementDetails {
  import opened Text
  import opened Coverage
  import opened Settlement
  import NettingPairs
  import CommissionSplit

  // ----- the nettings of a settlement -----

  /** One netting: the amounts it finds, the two queues and the cap. */
  datatype Step = Step(rem: seq<int>, debts: seq<nat>, credits: seq<nat>, cap: int)

  predicate Sound(s: Step, n: nat) {
    |s.rem| == n && Queue(s.debts, n) && Queue(s.credits, n) && s.cap >= 0
  }

  function After(s: Step, n: nat): (r: seq<int>)
    requires Sound(s, n)
    ensures |r| == n
  {
    Net(s.rem, s.debts, s.credits, s.cap)
  }

  /** Each netting finds what the one before has left. */
  predicate Chained(steps: seq<Step>, n: nat) {
    (forall k :: 0 <= k < |steps| ==> Sound(steps[k], n)) &&
    forall k :: 0 <= k < |steps| - 1 ==> steps[k + 1].rem == After(steps[k], n)
  }

  function Uncapped(rem: seq<int>, debts: seq<nat>, credits: seq<nat>): Step
    requires Bounded(debts, |rem|)
  {
    Step(rem, debts, credits, Open(rem, debts, Debts))
  }

  /** The three nettings of every settlement, and the account credit's when the shop pays with it. */
  function Steps(x: Input): (r: seq<Step>)
    ensures |r| >= 3 && r[0].rem == Orig(x) && Chained(r, |Orig(x)|)
    ensures After(r[|r| - 1], |Orig(x)|) == AfterCredit(x)
  {
    Queues(x);
    var a := Uncapped(Orig(x), Days(x), Days(x));
    var b := Uncapped(NetAll(a.rem, a.debts, a.credits), AccountDebts(x), AccountCredits(x));
    var c := Uncapped(NetAll(b.rem, b.debts, b.credits), AccountDebts(x), Days(x));
    if CreditNets(x) then [a, b, c, Step(Netted(x), Scope(x), AccountCredits(x), Min(Abs(x.creditUsed), Owed(x)))]
    else [a, b, c]
  }

  // ----- pairs -----

  function Amount(s: Step, n: nat): (m: nat)
    requires Sound(s, n)
  {
    Netting(s.rem, s.debts, s.credits, s.cap)
  }

  function Debits(s: Step, n: nat, member: seq<int>): (ps: seq<NettingPairs.Piece>)
    requires Sound(s, n) && |member| == n
    ensures NettingPairs.Proper(ps) && NettingPairs.Total(ps) == Amount(s, n)
  {
    NettingPairs.NettingPieces(s.rem, s.debts, s.credits, s.cap, member);
    NettingPairs.Pieces(NettingPairs.Takes(s.rem, s.debts, Debts, Amount(s, n)), member)
  }

  function Credited(s: Step, n: nat, member: seq<int>): (ps: seq<NettingPairs.Piece>)
    requires Sound(s, n) && |member| == n
    ensures NettingPairs.Proper(ps) && NettingPairs.Total(ps) == Amount(s, n)
  {
    NettingPairs.NettingPieces(s.rem, s.debts, s.credits, s.cap, member);
    NettingPairs.Pieces(NettingPairs.Takes(s.rem, s.credits, Credits, Amount(s, n)), member)
  }

  /** The units of credit of one member that one netting sets against the debt of another. */
  function Common(s: Step, n: nat, member: seq<int>, c: int, d: int): nat
    requires Sound(s, n) && |member| == n
  {
    NettingPairs.Paired(Debits(s, n, member), Credited(s, n, member), Amount(s, n), c, d)
  }

  function CommonIn(steps: seq<Step>, n: nat, member: seq<int>, c: int, d: int): nat
    requires Chained(steps, n) && |member| == n
  {
    if steps == [] then 0
    else
      assert Chained(steps[..|steps| - 1], n);
      CommonIn(steps[..|steps| - 1], n, member, c, d) + Common(steps[|steps| - 1], n, member, c, d)
  }

  lemma ChainedPrefix(steps: seq<Step>, n: nat, k: nat)
    requires Chained(steps, n) && k <= |steps|
    ensures Chained(steps[..k], n)
  {
  }

  /** The pairs of different members after the first `k` nettings. */
  ghost predicate PairsUpTo(steps: seq<Step>, n: nat, member: seq<int>, k: nat, pairs: NettingPairs.Pairs)
    requires Chained(steps, n) && |member| == n && k <= |steps|
  {
    ChainedPrefix(steps, n, k);
    forall c, d :: NettingPairs.Amount(pairs, c, d) ==
                   if c != d then CommonIn(steps[..k], n, member, c, d) else 0
  }

  /** The same after one netting more. */
  lemma PairsNext(steps: seq<Step>, n: nat, member: seq<int>, k: nat, before: NettingPairs.Pairs,
                  after: NettingPairs.Pairs)
    requires Chained(steps, n) && |member| == n && k < |steps| && PairsUpTo(steps, n, member, k, before)
    requires NettingPairs.PairedUp(before, after, Debits(steps[k], n, member), Credited(steps[k], n, member),
                                   Amount(steps[k], n))
    ensures PairsUpTo(steps, n, member, k + 1, after)
  {
    ChainedPrefix(steps, n, k);
    ChainedPrefix(steps, n, k + 1);
    assert steps[..k + 1][..k] == steps[..k];
    forall c, d
      ensures NettingPairs.Amount(after, c, d) == if c != d then CommonIn(steps[..k + 1], n, member, c, d) else 0
    {
      assert NettingPairs.Amount(before, c, d) == if c != d then CommonIn(steps[..k], n, member, c, d) else 0;
    }
  }

  /** `netting_pairs`: over all the nettings of a settlement, whose credit paid whose debt. */
  method PairSettlement(x: Input, member: seq<int>) returns (pairs: NettingPairs.Pairs)
    requires |member| == |Orig(x)|
    ensures forall c, d :: NettingPairs.Amount(pairs, c, d) ==
                           if c != d then CommonIn(Steps(x), |Orig(x)|, member, c, d) else 0
  {
    var steps, n := Steps(x), |Orig(x)|;
    pairs := map[];
    assert steps[..0] == [];
    for k := 0 to |steps|
      invariant PairsUpTo(steps, n, member, k, pairs)
    {
      var s := steps[k];
      ghost var before := pairs;
      pairs := NettingPairs.PairNetting(s.rem, s.debts, s.credits, s.cap, member, pairs);
      PairsNext(steps, n, member, k, before, pairs);
    }
    assert steps[..|steps|] == steps;
  }

  // ----- nothing is paired twice or left out, over the whole settlement -----

  /** What a member's credit paid of the debts of the listed members, over all the nettings. */
  function PaidTo(steps: seq<Step>, n: nat, member: seq<int>, c: int, ds: seq<int>): int
    requires Chained(steps, n) && |member| == n
  {
    if ds == [] then 0
    else PaidTo(steps, n, member, c, ds[..|ds| - 1]) + CommonIn(steps, n, member, c, ds[|ds| - 1])
  }

  /** What the nettings have taken of a member's credit. */
  function TakenOf(steps: seq<Step>, n: nat, member: seq<int>, c: int): int
    requires Chained(steps, n) && |member| == n
  {
    if steps == [] then 0
    else
      assert Chained(steps[..|steps| - 1], n);
      var ps := Credited(steps[|steps| - 1], n, member);
      TakenOf(steps[..|steps| - 1], n, member, c) + NettingPairs.MemberTotal(ps, |ps|, c)
  }

  lemma {:induction false} PaidToSnoc(steps: seq<Step>, n: nat, member: seq<int>, c: int, ds: seq<int>)
    requires Chained(steps, n) && |member| == n && steps != [] && Chained(steps[..|steps| - 1], n)
    ensures var s := steps[|steps| - 1];
            PaidTo(steps, n, member, c, ds) ==
            PaidTo(steps[..|steps| - 1], n, member, c, ds) +
            NettingPairs.PaidTo(Debits(s, n, member), Credited(s, n, member), Amount(s, n), c, ds)
    decreases |ds|
  {
    if ds != [] {
      PaidToSnoc(steps, n, member, c, ds[..|ds| - 1]);
    }
  }

  lemma {:induction false} PaidToNobody(n: nat, member: seq<int>, c: int, ds: seq<int>)
    requires |member| == n
    ensures PaidTo([], n, member, c, ds) == 0
  {
    if ds != [] {
      PaidToNobody(n, member, c, ds[..|ds| - 1]);
    }
  }

  lemma DebitMembers(s: Step, n: nat, member: seq<int>, j: nat)
    requires Sound(s, n) && |member| == n && j < |Debits(s, n, member)|
    ensures Debits(s, n, member)[j].member in member
  {
    var ts := NettingPairs.Takes(s.rem, s.debts, Debts, Amount(s, n));
    assert NettingPairs.RowsOf(ts)[j] < n;
  }

  lemma {:induction false} PaidInAll(steps: seq<Step>, n: nat, member: seq<int>, c: int, ds: seq<int>)
    requires Chained(steps, n) && |member| == n && Distinct(ds) && forall i :: 0 <= i < n ==> member[i] in ds
    ensures PaidTo(steps, n, member, c, ds) == TakenOf(steps, n, member, c)
  {
    if steps == [] {
      PaidToNobody(n, member, c, ds);
    } else {
      var k := |steps| - 1;
      ChainedPrefix(steps, n, k);
      PaidInAll(steps[..k], n, member, c, ds);
      PaidToSnoc(steps, n, member, c, ds);
      forall j | 0 <= j < |Debits(steps[k], n, member)| ensures Debits(steps[k], n, member)[j].member in ds {
        DebitMembers(steps[k], n, member, j);
      }
      NettingPairs.CreditFullyPaired(Debits(steps[k], n, member), Credited(steps[k], n, member), c, ds);
    }
  }

  /**
   * Over a whole settlement, what a member's credit paid, itself and the others together, is what the nettings have
   * taken of it.
   */
  lemma SettlementFullyPaired(x: Input, member: seq<int>, c: int, ds: seq<int>)
    requires |member| == |Orig(x)| && Distinct(ds) && forall i :: 0 <= i < |member| ==> member[i] in ds
    ensures PaidTo(Steps(x), |Orig(x)|, member, c, ds) == TakenOf(Steps(x), |Orig(x)|, member, c)
  {
    PaidInAll(Steps(x), |Orig(x)|, member, c, ds);
  }

  // ----- the commission -----

  /** The commission marks of a row. */
  datatype Mark = Mark(model1: bool, ticked: bool, estimate: nat)

  /** The rows of a settlement as the split sees them, with what the settlement has closed. */
  function RowsOf(x: Input, marks: seq<Mark>): (r: seq<CommissionSplit.Row>)
    requires |marks| == |Orig(x)|
    ensures |r| == |marks|
    ensures forall i :: 0 <= i < |r| ==>
                          r[i] == CommissionSplit.Row(Orig(x)[i], i < |x.days|, Settle(x).rem[i] == 0, marks[i].model1,
                                                      marks[i].ticked, marks[i].estimate)
  {
    var o := Settle(x);
    seq(|marks|, i requires 0 <= i < |marks| && |marks| == |Orig(x)| == |o.rem| =>
      CommissionSplit.Row(Orig(x)[i], i < |x.days|, o.rem[i] == 0, marks[i].model1, marks[i].ticked, marks[i].estimate))
  }

  /**
   * The row shares in the commission: a ticked transfer of the days, or, when it does not cover, a debt that is closed.
   */
  predicate Shares(x: Input, marks: seq<Mark>, i: nat)
    requires |marks| == |Orig(x)| && i < |marks|
  {
    marks[i].model1 &&
    if x.commissionCovers then i < |x.days| && Orig(x)[i] != 0 && marks[i].ticked
    else Orig(x)[i] > 0 && Settle(x).rem[i] == 0
  }

  /**
   * The commission of a settlement is split to the last unit over the rows that share in it, or reported as having
   * none: when it does not cover, those are debts that this settlement leaves closed.
   */
  method SplitCommission(x: Input, marks: seq<Mark>, split: Option<nat>) returns (amounts: seq<int>, without: bool)
    requires |marks| == |Orig(x)|
    ensures var due := if x.commissionCovers && split.Some? then split.value else Abs(x.commission);
            |amounts| == |marks| && Sum(amounts) == (if without then 0 else due) &&
            without == (due > 0 && forall i :: 0 <= i < |marks| ==> !Shares(x, marks, i))
    ensures forall i :: 0 <= i < |marks| ==> amounts[i] >= 0 && (amounts[i] > 0 ==> Shares(x, marks, i))
  {
    var rows := RowsOf(x, marks);
    amounts, without := CommissionSplit.AllocateCommission(rows, x.commissionCovers, Abs(x.commission), split);
    Splits(x, marks, CommissionSplit.Due(x.commissionCovers, Abs(x.commission), split), amounts, without);
  }

  lemma Splits(x: Input, marks: seq<Mark>, due: nat, amounts: seq<int>, without: bool)
    requires |marks| == |Orig(x)|
    requires var rows, covers := RowsOf(x, marks), x.commissionCovers;
             without == (due > 0 && CommissionSplit.Pool(rows, covers) == []) &&
             if due > 0 && !without then CommissionSplit.SplitAs(rows, covers, due, amounts)
             else amounts == CommissionSplit.Zeros(|rows|)
    ensures |amounts| == |marks| && Sum(amounts) == if without then 0 else due
    ensures without == (due > 0 && forall i :: 0 <= i < |marks| ==> !Shares(x, marks, i))
    ensures forall i :: 0 <= i < |marks| ==> amounts[i] >= 0 && (amounts[i] > 0 ==> Shares(x, marks, i))
  {
    var rows, covers := RowsOf(x, marks), x.commissionCovers;
    var pool := CommissionSplit.Pool(rows, covers);
    forall i | 0 <= i < |marks| ensures Shares(x, marks, i) <==> i in pool {
      assert CommissionSplit.Shares(covers, rows[i]) <==> Shares(x, marks, i);
    }
    if pool != [] {
      assert pool[0] in pool;
    }
    if due > 0 && !without {
      CommissionSplit.CommissionExact(rows, covers, due, amounts);
    } else {
      CommissionSplit.NothingDealt(|rows|);
    }
  }
}
