/**
 * packages/core/src/utils/accountSettleAllocation.ts, step 4: the entered commission split over the transfers of a
 * settlement, as profit. Amounts are whole minor units.
 */
module CommissionSplit {
  import opened Text
  import opened Coverage
  import opened LargestRemainder

  /**
   * What the split looks at: the original amount, whether it is a day row, whether it closes, and its commission marks.
   */
  datatype Row = Row(orig: int, day: bool, closed: bool, model1: bool, ticked: bool, estimate: nat)

  /** The rows that share in a commission that covers, and in one that does not. */
  predicate Shares(covers: bool, r: Row) {
    if covers then r.day && r.model1 && r.orig != 0 && r.ticked else r.closed && r.model1 && r.orig > 0
  }

  predicate SharesByEstimate(r: Row) {
    Shares(true, r) && r.estimate > 0
  }

  /** The first `n` positions whose row has the property, in order. */
  function Positions(rows: seq<Row>, p: Row -> bool, n: nat): (r: seq<nat>)
    requires n <= |rows|
    ensures Queue(r, n) && forall k :: k in r <==> 0 <= k < n && p(rows[k])
  {
    if n == 0 then []
    else
      var r := Positions(rows, p, n - 1);
      if p(rows[n - 1]) then PositionsSnoc(r, n - 1); r + [n - 1] else r
  }

  lemma PositionsSnoc(r: seq<nat>, n: nat)
    requires Queue(r, n)
    ensures Queue(r + [n], n + 1)
  {
  }

  function Weights(rows: seq<Row>, pool: seq<nat>, weight: Row -> int): (r: seq<int>)
    requires Bounded(pool, |rows|)
    ensures |r| == |pool| && forall a :: 0 <= a < |pool| ==> r[a] == weight(rows[pool[a]])
  {
    seq(|pool|, a requires 0 <= a < |pool| && pool[a] < |rows| => weight(rows[pool[a]]))
  }

  function Owed(r: Row): int {
    Abs(r.orig)
  }

  function Estimate(r: Row): int {
    r.estimate
  }

  predicate Positive(w: seq<int>) {
    w != [] && forall a :: 0 <= a < |w| ==> w[a] > 0
  }

  lemma PositiveWeights(w: seq<int>)
    requires Positive(w)
    ensures Effective(w) == w && Sum(w) > 0
  {
    assert Clamped(w) == w;
    SumNonNegative(w);
    assert w[0] > 0;
  }

  // ----- dealing a total over a pool -----

  /** Each row of the pool has its share more, and no other row has changed. */
  ghost predicate Added(pool: seq<nat>, u: seq<int>, before: seq<int>, after: seq<int>) {
    |u| == |pool| && |after| == |before| && Bounded(pool, |before|) &&
    (forall a :: 0 <= a < |pool| ==> after[pool[a]] == before[pool[a]] + u[a]) &&
    (forall i :: 0 <= i < |before| && i !in pool ==> after[i] == before[i])
  }

  /** The total has been added over the pool by the largest-remainder split of it. */
  ghost predicate Dealt(pool: seq<nat>, w: seq<int>, total: nat, before: seq<int>, after: seq<int>) {
    Sum(after) == Sum(before) + total && exists u :: Apportioned(w, total, u) && Added(pool, u, before, after)
  }

  lemma AddedNext(pool: seq<nat>, u: seq<int>, before: seq<int>, now: seq<int>, a: nat)
    requires Queue(pool, |before|) && |u| == |pool| && a < |pool| && Added(pool[..a], u[..a], before, now)
    ensures var i := pool[a];
            now[i] == before[i] && Added(pool[..a + 1], u[..a + 1], before, now[i := now[i] + u[a]])
    ensures Sum(u[..a + 1]) == Sum(u[..a]) + u[a]
  {
    var i, p := pool[a], pool[..a + 1];
    assert pool[a] !in pool[..a];
    assert p == pool[..a] + [i];
    assert u[..a + 1][..a] == u[..a];
    var next := now[i := now[i] + u[a]];
    forall b | 0 <= b < |p| ensures next[p[b]] == before[p[b]] + u[..a + 1][b] {
      if b < a {
        assert pool[..a][b] == pool[b] && pool[b] != i;
      }
    }
  }

  /** The first `a` rows of the pool have been dealt their shares. */
  ghost predicate Dealing(pool: seq<nat>, u: seq<int>, before: seq<int>, now: seq<int>, a: nat) {
    |u| == |pool| && a <= |pool| && Added(pool[..a], u[..a], before, now) && Sum(now) == Sum(before) + Sum(u[..a])
  }

  lemma DealingStart(pool: seq<nat>, u: seq<int>, before: seq<int>)
    requires |u| == |pool|
    ensures Dealing(pool, u, before, before, 0)
  {
  }

  lemma DealingNext(pool: seq<nat>, u: seq<int>, before: seq<int>, now: seq<int>, a: nat)
    requires Queue(pool, |before|) && Dealing(pool, u, before, now, a) && a < |pool|
    ensures var i := pool[a];
            |now| == |before| && now[i] == before[i] && Dealing(pool, u, before, now[i := now[i] + u[a]], a + 1)
  {
    AddedNext(pool, u, before, now, a);
    SumUpdate(now, pool[a], now[pool[a]] + u[a]);
  }

  lemma DealingDone(pool: seq<nat>, u: seq<int>, before: seq<int>, now: seq<int>)
    requires Dealing(pool, u, before, now, |pool|)
    ensures Added(pool, u, before, now) && Sum(now) == Sum(before) + Sum(u)
  {
    assert pool[..|pool|] == pool && u[..|u|] == u;
  }

  method Deal(pool: seq<nat>, w: seq<int>, total: nat, before: seq<int>) returns (after: seq<int>)
    requires Queue(pool, |before|) && |w| == |pool| && Positive(w) && total > 0
    ensures Dealt(pool, w, total, before, after)
  {
    PositiveWeights(w);
    var shares := AllocateProportional(w, total);
    SharesApportion(w, total, shares);
    after := AddShares(pool, shares, before);
    assert Apportioned(w, total, shares) && Added(pool, shares, before, after);
  }

  lemma SharesApportion(w: seq<int>, total: nat, shares: seq<int>)
    requires exists u :: Apportioned(w, total, u) && shares == Scale(1, u)
    ensures Apportioned(w, total, shares)
  {
    var u :| Apportioned(w, total, u) && shares == Scale(1, u);
    assert shares == u;
  }

  /** Each row of the pool gets its share added. */
  method AddShares(pool: seq<nat>, shares: seq<int>, before: seq<int>) returns (after: seq<int>)
    requires Queue(pool, |before|) && |shares| == |pool|
    ensures Added(pool, shares, before, after) && Sum(after) == Sum(before) + Sum(shares)
  {
    after := before;
    DealingStart(pool, shares, before);
    for a := 0 to |pool|
      invariant Dealing(pool, shares, before, after, a)
    {
      DealingNext(pool, shares, before, after, a);
      after := after[pool[a] := after[pool[a]] + shares[a]];
    }
    DealingDone(pool, shares, before, after);
  }

  /**
   * Nobody loses by a deal; up to the sum of the weights nobody gets more than its weight, and from there on nobody
   * gets less.
   */
  lemma DealtBounds(pool: seq<nat>, w: seq<int>, total: nat, before: seq<int>, after: seq<int>)
    requires Positive(w) && |w| == |pool| && Bounded(pool, |before|) && Dealt(pool, w, total, before, after)
    ensures |after| == |before| && forall i :: 0 <= i < |before| && i !in pool ==> after[i] == before[i]
    ensures forall a :: 0 <= a < |pool| ==> after[pool[a]] >= before[pool[a]]
    ensures total <= Sum(w) ==> forall a :: 0 <= a < |pool| ==> after[pool[a]] <= before[pool[a]] + w[a]
    ensures total >= Sum(w) ==> forall a :: 0 <= a < |pool| ==> after[pool[a]] >= before[pool[a]] + w[a]
  {
    var u :| Apportioned(w, total, u) && Added(pool, u, before, after);
    forall a | 0 <= a < |pool|
      ensures u[a] >= 0 && (total <= Sum(w) ==> u[a] <= w[a]) && (total >= Sum(w) ==> u[a] >= w[a])
    {
      Products(total, Sum(w), w[a]);
      ShareBounds(w, total, u, a, 0);
      ShareBounds(w, total, u, a, w[a]);
    }
  }

  lemma Products(total: nat, sum: int, w: int)
    requires w > 0
    ensures total * w >= 0 == sum * 0
    ensures total <= sum ==> total * w <= sum * w
    ensures total >= sum ==> total * w >= sum * w
  {
  }

  // ----- the split -----

  function Due(covers: bool, commission: nat, split: Option<nat>): nat {
    if covers && split.Some? then split.value else commission
  }

  function Pool(rows: seq<Row>, covers: bool): (r: seq<nat>)
    ensures Queue(r, |rows|) && forall k :: k in r <==> 0 <= k < |rows| && Shares(covers, rows[k])
  {
    Positions(rows, r => Shares(covers, r), |rows|)
  }

  function EstimatePool(rows: seq<Row>): (r: seq<nat>)
    ensures Queue(r, |rows|) && forall k :: k in r <==> 0 <= k < |rows| && SharesByEstimate(rows[k])
  {
    Positions(rows, SharesByEstimate, |rows|)
  }

  function Estimates(rows: seq<Row>): (r: seq<int>)
    ensures |r| == |EstimatePool(rows)|
  {
    Weights(rows, EstimatePool(rows), Estimate)
  }

  lemma PoolWeights(rows: seq<Row>, covers: bool)
    requires Pool(rows, covers) != []
    ensures Positive(Weights(rows, Pool(rows, covers), Owed))
  {
    var pool := Pool(rows, covers);
    forall a | 0 <= a < |pool| ensures Owed(rows[pool[a]]) > 0 {
      assert pool[a] in pool;
    }
  }

  lemma EstimateWeights(rows: seq<Row>)
    requires EstimatePool(rows) != []
    ensures Positive(Estimates(rows))
  {
    var pool := EstimatePool(rows);
    forall a | 0 <= a < |pool| ensures rows[pool[a]].estimate > 0 {
      assert pool[a] in pool;
    }
  }

  /** Every row of the estimate pool at its estimate, every other at nothing. */
  ghost predicate AtEstimates(rows: seq<Row>, amounts: seq<int>) {
    |amounts| == |rows| &&
    forall i :: 0 <= i < |rows| ==> amounts[i] == if SharesByEstimate(rows[i]) then rows[i].estimate else 0
  }

  method SetEstimates(rows: seq<Row>) returns (amounts: seq<int>)
    ensures AtEstimates(rows, amounts) && Sum(amounts) == Sum(Estimates(rows))
  {
    NothingDealt(|rows|);
    amounts := AddShares(EstimatePool(rows), Estimates(rows), Zeros(|rows|));
    EstimatesSet(rows, amounts);
  }

  lemma EstimatesSet(rows: seq<Row>, amounts: seq<int>)
    requires Added(EstimatePool(rows), Estimates(rows), Zeros(|rows|), amounts)
    ensures AtEstimates(rows, amounts)
  {
    var pool := EstimatePool(rows);
    forall i | 0 <= i < |rows| ensures amounts[i] == if SharesByEstimate(rows[i]) then rows[i].estimate else 0 {
      if i in pool {
        var a :| 0 <= a < |pool| && pool[a] == i;
      }
    }
  }

  function Zeros(n: nat): (r: seq<int>)
    ensures |r| == n && forall i :: 0 <= i < n ==> r[i] == 0
  {
    seq(n, _ => 0)
  }

  lemma NothingDealt(n: nat)
    ensures Sum(Zeros(n)) == 0
  {
    SumZeros(Zeros(n));
  }

  /** How the commission is split once some row shares in it. */
  ghost predicate SplitAs(rows: seq<Row>, covers: bool, due: nat, amounts: seq<int>) {
    |amounts| == |rows| &&
    if !covers || EstimatePool(rows) == [] then
      Dealt(Pool(rows, covers), Weights(rows, Pool(rows, covers), Owed), due, Zeros(|rows|), amounts)
    else if due <= Sum(Estimates(rows)) then
      Dealt(EstimatePool(rows), Estimates(rows), due, Zeros(|rows|), amounts)
    else
      BeyondAll(rows, due - Sum(Estimates(rows)), amounts)
  }

  /** Every row at its estimate, and the extra dealt by the estimates on top. */
  ghost predicate BeyondAll(rows: seq<Row>, extra: nat, amounts: seq<int>) {
    exists base :: AtEstimates(rows, base) && Sum(base) == Sum(Estimates(rows)) &&
                   Dealt(EstimatePool(rows), Estimates(rows), extra, base, amounts)
  }

  /** The amounts row by row; `without` when a commission was entered and no row shares in it. */
  method AllocateCommission(rows: seq<Row>, covers: bool, commission: nat, split: Option<nat>)
    returns (amounts: seq<int>, without: bool)
    ensures var due := Due(covers, commission, split);
            without == (due > 0 && Pool(rows, covers) == []) &&
            if due > 0 && !without then SplitAs(rows, covers, due, amounts) else amounts == Zeros(|rows|)
  {
    amounts, without := Zeros(|rows|), false;
    var due := if covers && split.Some? then split.value else commission;
    if covers && commission > 0 && due == 0 {
      return;
    } else if due > 0 && covers {
      var model1, ticked := Pool(rows, true), EstimatePool(rows);
      TickedIsModel1(rows);
      if ticked == [] && model1 == [] {
        without := true;
      } else if ticked == [] {
        PoolWeights(rows, true);
        amounts := Deal(model1, Weights(rows, model1, Owed), due, amounts);
      } else {
        amounts := DealByEstimate(rows, due);
      }
    } else if commission > 0 {
      var eligible := Pool(rows, false);
      if eligible == [] {
        without := true;
      } else {
        PoolWeights(rows, false);
        amounts := Deal(eligible, Weights(rows, eligible, Owed), commission, amounts);
      }
    }
  }

  lemma TickedIsModel1(rows: seq<Row>)
    ensures EstimatePool(rows) != [] ==> Pool(rows, true) != []
  {
    if EstimatePool(rows) != [] {
      assert EstimatePool(rows)[0] in EstimatePool(rows);
      assert EstimatePool(rows)[0] in Pool(rows, true);
    }
  }

  method DealByEstimate(rows: seq<Row>, due: nat) returns (amounts: seq<int>)
    requires due > 0 && EstimatePool(rows) != []
    ensures SplitAs(rows, true, due, amounts)
  {
    EstimateWeights(rows);
    if due <= Sum(Estimates(rows)) {
      amounts := Deal(EstimatePool(rows), Estimates(rows), due, Zeros(|rows|));
      SplitWithin(rows, due, amounts);
    } else {
      amounts := DealBeyond(rows, due);
    }
  }

  method DealBeyond(rows: seq<Row>, due: nat) returns (amounts: seq<int>)
    requires EstimatePool(rows) != [] && Positive(Estimates(rows)) && due > Sum(Estimates(rows))
    ensures SplitAs(rows, true, due, amounts)
  {
    PositiveWeights(Estimates(rows));
    var base := SetEstimates(rows);
    amounts := Deal(EstimatePool(rows), Estimates(rows), due - Sum(Estimates(rows)), base);
    SplitBeyond(rows, due, base, amounts);
  }

  lemma SplitWithin(rows: seq<Row>, due: nat, amounts: seq<int>)
    requires EstimatePool(rows) != [] && due <= Sum(Estimates(rows))
    requires Dealt(EstimatePool(rows), Estimates(rows), due, Zeros(|rows|), amounts)
    ensures SplitAs(rows, true, due, amounts)
  {
  }

  lemma SplitBeyond(rows: seq<Row>, due: nat, base: seq<int>, amounts: seq<int>)
    requires EstimatePool(rows) != [] && due > Sum(Estimates(rows))
    requires AtEstimates(rows, base) && Sum(base) == Sum(Estimates(rows))
    requires Dealt(EstimatePool(rows), Estimates(rows), due - Sum(Estimates(rows)), base, amounts)
    ensures SplitAs(rows, true, due, amounts)
  {
  }

  // ----- what the split promises -----

  lemma OwedExact(rows: seq<Row>, covers: bool, due: nat, amounts: seq<int>)
    requires Pool(rows, covers) != []
    requires Dealt(Pool(rows, covers), Weights(rows, Pool(rows, covers), Owed), due, Zeros(|rows|), amounts)
    ensures Sum(amounts) == due && |amounts| == |rows|
    ensures forall i :: 0 <= i < |rows| ==> amounts[i] >= 0 && (amounts[i] > 0 ==> Shares(covers, rows[i]))
  {
    var pool := Pool(rows, covers);
    PoolWeights(rows, covers);
    SumZeros(Zeros(|rows|));
    DealtBounds(pool, Weights(rows, pool, Owed), due, Zeros(|rows|), amounts);
    forall i | 0 <= i < |rows| ensures amounts[i] >= 0 && (amounts[i] > 0 ==> Shares(covers, rows[i])) {
      if i in pool {
        var a :| 0 <= a < |pool| && pool[a] == i;
      }
    }
  }

  /** The row has what its share of the estimates allows. */
  predicate ByEstimate(r: Row, below: bool, above: bool, amount: int) {
    amount >= 0 && (amount > 0 ==> SharesByEstimate(r)) && (below ==> amount <= r.estimate) &&
    (above && SharesByEstimate(r) ==> amount >= r.estimate)
  }

  lemma WithinEstimates(rows: seq<Row>, due: nat, amounts: seq<int>)
    requires EstimatePool(rows) != [] && due <= Sum(Estimates(rows))
    requires Dealt(EstimatePool(rows), Estimates(rows), due, Zeros(|rows|), amounts)
    ensures Sum(amounts) == due && |amounts| == |rows|
    ensures forall i :: 0 <= i < |rows| ==> ByEstimate(rows[i], true, due >= Sum(Estimates(rows)), amounts[i])
  {
    var pool := EstimatePool(rows);
    EstimateWeights(rows);
    SumZeros(Zeros(|rows|));
    DealtBounds(pool, Estimates(rows), due, Zeros(|rows|), amounts);
    forall i | 0 <= i < |rows| ensures ByEstimate(rows[i], true, due >= Sum(Estimates(rows)), amounts[i]) {
      if i in pool {
        var a :| 0 <= a < |pool| && pool[a] == i;
      }
    }
  }

  lemma BeyondEstimates(rows: seq<Row>, extra: nat, amounts: seq<int>)
    requires EstimatePool(rows) != [] && BeyondAll(rows, extra, amounts)
    ensures Sum(amounts) == Sum(Estimates(rows)) + extra && |amounts| == |rows|
    ensures forall i :: 0 <= i < |rows| ==> ByEstimate(rows[i], false, true, amounts[i])
  {
    var pool := EstimatePool(rows);
    var base :| AtEstimates(rows, base) && Sum(base) == Sum(Estimates(rows)) &&
                Dealt(pool, Estimates(rows), extra, base, amounts);
    EstimateWeights(rows);
    DealtBounds(pool, Estimates(rows), extra, base, amounts);
    forall i | 0 <= i < |rows| ensures ByEstimate(rows[i], false, true, amounts[i]) {
      if i in pool {
        var a :| 0 <= a < |pool| && pool[a] == i;
      }
    }
  }

  lemma EstimateExact(rows: seq<Row>, due: nat, amounts: seq<int>)
    requires EstimatePool(rows) != [] && SplitAs(rows, true, due, amounts)
    ensures Sum(amounts) == due && |amounts| == |rows|
    ensures forall i :: 0 <= i < |rows| ==>
                          ByEstimate(rows[i], due <= Sum(Estimates(rows)), due >= Sum(Estimates(rows)), amounts[i])
  {
    if due <= Sum(Estimates(rows)) {
      WithinEstimates(rows, due, amounts);
    } else {
      BeyondEstimates(rows, due - Sum(Estimates(rows)), amounts);
    }
  }

  /**
   * The shares add up to the commission exactly, none is negative, and only rows that share get any. When estimates
   * decide: no row gets more than its estimate unless the commission is more than all estimates, and then none gets
   * less.
   */
  lemma CommissionExact(rows: seq<Row>, covers: bool, due: nat, amounts: seq<int>)
    requires Pool(rows, covers) != [] && SplitAs(rows, covers, due, amounts)
    ensures Sum(amounts) == due
    ensures forall i :: 0 <= i < |rows| ==> amounts[i] >= 0 && (amounts[i] > 0 ==> Shares(covers, rows[i]))
    ensures covers && EstimatePool(rows) != [] ==>
              forall i :: 0 <= i < |rows| ==>
                            ByEstimate(rows[i], due <= Sum(Estimates(rows)), due >= Sum(Estimates(rows)), amounts[i])
  {
    if !covers || EstimatePool(rows) == [] {
      OwedExact(rows, covers, due, amounts);
    } else {
      EstimateExact(rows, due, amounts);
    }
  }

  /** A row that owed more never gets less of a commission that is dealt by what rows owed. */
  lemma MoreOwedNeverLess(rows: seq<Row>, covers: bool, due: nat, amounts: seq<int>, i: nat, j: nat)
    requires Pool(rows, covers) != [] && SplitAs(rows, covers, due, amounts)
    requires !covers || forall k :: 0 <= k < |rows| ==> !SharesByEstimate(rows[k])
    requires i < |rows| && j < |rows| && Shares(covers, rows[i]) && Shares(covers, rows[j])
    requires Abs(rows[i].orig) > Abs(rows[j].orig)
    ensures amounts[i] >= amounts[j]
  {
    var pool := Pool(rows, covers);
    NoEstimates(rows);
    var w := Weights(rows, pool, Owed);
    var u :| Apportioned(w, due, u) && Added(pool, u, Zeros(|rows|), amounts);
    assert i in pool && j in pool;
    var a :| 0 <= a < |pool| && pool[a] == i;
    var b :| 0 <= b < |pool| && pool[b] == j;
    Monotone(w, due, u, a, b);
  }

  /** A row with a higher estimate never gets less of a commission up to the sum of the estimates. */
  lemma HigherEstimateNeverLess(rows: seq<Row>, due: nat, amounts: seq<int>, i: nat, j: nat)
    requires SplitAs(rows, true, due, amounts) && due <= Sum(Estimates(rows))
    requires i < |rows| && j < |rows| && SharesByEstimate(rows[i]) && SharesByEstimate(rows[j])
    requires rows[i].estimate > rows[j].estimate
    ensures amounts[i] >= amounts[j]
  {
    var pool, w := EstimatePool(rows), Estimates(rows);
    assert i in pool && j in pool;
    var u :| Apportioned(w, due, u) && Added(pool, u, Zeros(|rows|), amounts);
    var a :| 0 <= a < |pool| && pool[a] == i;
    var b :| 0 <= b < |pool| && pool[b] == j;
    Monotone(w, due, u, a, b);
  }

  lemma NoEstimates(rows: seq<Row>)
    ensures (forall k :: 0 <= k < |rows| ==> !SharesByEstimate(rows[k])) ==> EstimatePool(rows) == []
  {
    if EstimatePool(rows) != [] {
      assert EstimatePool(rows)[0] in EstimatePool(rows);
    }
  }
}
