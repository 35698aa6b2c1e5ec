/**
 * packages/core/src/utils/fifoCoverage.ts and the netting of packages/core/src/utils/accountSettleAllocation.ts:
 * covering signed open amounts oldest first. Amounts are whole minor units (cents, or LBP): + the shop owes, - the shop
 * is owed.
 */
module Coverage {
  import opened Text

  datatype Side = Debts | Credits

  /** How much is open on a side; the same map leads back. */
  function Owing(side: Side, x: int): int {
    if side.Debts? then x else -x
  }

  function Min(a: int, b: int): int {
    if a <= b then a else b
  }

  function Max(a: int, b: int): int {
    if a <= b then b else a
  }

  function Abs(x: int): nat {
    if x < 0 then -x else x
  }

  /** A queue of row positions, oldest first. */
  predicate Queue(pool: seq<nat>, n: nat) {
    Bounded(pool, n) && Increasing(pool)
  }

  predicate Bounded(pool: seq<nat>, n: nat) {
    forall a :: 0 <= a < |pool| ==> pool[a] < n
  }

  predicate Increasing(pool: seq<nat>) {
    forall a, b :: 0 <= a < b < |pool| ==> pool[a] < pool[b]
  }

  function Sum(s: seq<int>): int {
    if s == [] then 0 else Sum(s[..|s| - 1]) + s[|s| - 1]
  }

  function Open(rem: seq<int>, pool: seq<nat>, side: Side): (r: nat)
    requires Bounded(pool, |rem|)
  {
    if pool == [] then 0 else Max(0, Owing(side, rem[pool[0]])) + Open(rem, pool[1..], side)
  }

  /** The amounts left after `allocateFifo` has spent a budget on one side of a queue. */
  function Cover(rem: seq<int>, pool: seq<nat>, side: Side, budget: int): (r: seq<int>)
    requires Bounded(pool, |rem|)
    ensures |r| == |rem|
    decreases |pool|
  {
    if pool == [] || budget <= 0 then rem
    else
      var i := pool[0];
      var open := Owing(side, rem[i]);
      if open <= 0 then Cover(rem, pool[1..], side, budget)
      else
        var take := Min(budget, open);
        Cover(rem[i := Owing(side, open - take)], pool[1..], side, budget - take)
  }

  /** Each amount is between what it was and zero. */
  ghost predicate Within(orig: seq<int>, rem: seq<int>) {
    |orig| == |rem| &&
    forall i :: 0 <= i < |orig| ==> (0 <= rem[i] <= orig[i]) || (orig[i] <= rem[i] <= 0)
  }

  // ----- what covering does -----

  lemma {:induction false} CoverFrame(rem: seq<int>, pool: seq<nat>, side: Side, budget: int)
    requires Queue(pool, |rem|)
    ensures var r := Cover(rem, pool, side, budget);
            Within(rem, r) &&
            (forall i :: 0 <= i < |rem| && (i !in pool || Owing(side, rem[i]) <= 0) ==> r[i] == rem[i])
    decreases |pool|
  {
    if pool != [] && budget > 0 {
      var i, rest := pool[0], pool[1..];
      var open := Owing(side, rem[i]);
      if open <= 0 {
        CoverFrame(rem, rest, side, budget);
      } else {
        var take := Min(budget, open);
        var next := rem[i := Owing(side, open - take)];
        CoverFrame(next, rest, side, budget - take);
      }
    }
  }

  lemma {:induction false} OpenSame(rem: seq<int>, next: seq<int>, pool: seq<nat>, side: Side)
    requires |rem| == |next| && Bounded(pool, |rem|)
    requires forall a :: 0 <= a < |pool| ==> Max(0, Owing(side, rem[pool[a]])) == Max(0, Owing(side, next[pool[a]]))
    ensures Open(rem, pool, side) == Open(next, pool, side)
  {
    if pool != [] {
      OpenSame(rem, next, pool[1..], side);
    }
  }

  lemma {:induction false} SumUpdate(s: seq<int>, i: nat, v: int)
    requires i < |s|
    ensures Sum(s[i := v]) == Sum(s) - s[i] + v
  {
    var n := |s| - 1;
    if i == n {
      assert s[i := v][..n] == s[..n];
    } else {
      assert s[i := v][..n] == s[..n][i := v];
      SumUpdate(s[..n], i, v);
    }
  }

  /** Exactly the smaller of the budget and what is open is spent. */
  lemma {:induction false} CoverSpends(rem: seq<int>, pool: seq<nat>, side: Side, budget: int)
    requires Queue(pool, |rem|)
    ensures Sum(Cover(rem, pool, side, budget)) ==
            Sum(rem) - Owing(side, Min(Max(0, budget), Open(rem, pool, side)))
    decreases |pool|
  {
    if pool != [] && budget > 0 {
      var i, rest := pool[0], pool[1..];
      QueueTail(pool, |rem|);
      var take := Min(budget, Max(0, Owing(side, rem[i])));
      var next := rem[i := Owing(side, Owing(side, rem[i]) - take)];
      CoverHead(rem, pool, side, budget, take, next);
      CoverSpends(next, rest, side, budget - take);
      OpenSame(rem, next, rest, side);
      SumUpdate(rem, i, Owing(side, Owing(side, rem[i]) - take));
      LeftStep(budget, Owing(side, rem[i]), Open(rem, rest, side));
    }
  }

  lemma QueueTail(pool: seq<nat>, n: nat)
    requires Queue(pool, n) && pool != []
    ensures pool == [pool[0]] + pool[1..] && Queue(pool[1..], n) && pool[0] !in pool[1..]
    ensures forall a :: 0 <= a < |pool[1..]| ==> pool[1..][a] != pool[0]
  {
  }

  lemma NothingSpent(rem: seq<int>, pool: seq<nat>, side: Side, budget: int)
    requires Bounded(pool, |rem|)
    ensures budget <= 0 ==> Cover(rem, pool, side, budget) == rem
  {
  }

  /** While the first row is open, nothing is left for the others. */
  lemma HeadStops(rem: seq<int>, i: nat, rest: seq<nat>, side: Side, budget: int, take: int, next: seq<int>)
    requires i < |rem| && Queue(rest, |rem|) && i !in rest && take == Min(budget, Max(0, Owing(side, rem[i])))
    requires next == rem[i := Owing(side, Owing(side, rem[i]) - take)]
    requires Owing(side, Cover(next, rest, side, budget - take)[i]) > 0
    ensures Cover(next, rest, side, budget - take) == next
  {
    CoverFrame(next, rest, side, budget - take);
    NothingSpent(next, rest, side, budget - take);
  }

  /** Oldest first: while an earlier row is open, no later row has been touched. */
  lemma {:induction false} CoverIsFifo(rem: seq<int>, pool: seq<nat>, side: Side, budget: int, a: nat, b: nat)
    requires Queue(pool, |rem|) && a < b < |pool|
    requires Owing(side, Cover(rem, pool, side, budget)[pool[a]]) > 0
    ensures Cover(rem, pool, side, budget)[pool[b]] == rem[pool[b]]
    decreases |pool|
  {
    if budget > 0 {
      var i, rest := pool[0], pool[1..];
      QueueTail(pool, |rem|);
      var take := Min(budget, Max(0, Owing(side, rem[i])));
      var next := rem[i := Owing(side, Owing(side, rem[i]) - take)];
      CoverHead(rem, pool, side, budget, take, next);
      assert rest[b - 1] == pool[b] && next[pool[b]] == rem[pool[b]];
      if a > 0 {
        assert rest[a - 1] == pool[a];
        CoverIsFifo(next, rest, side, budget - take, a - 1, b - 1);
      } else {
        HeadStops(rem, i, rest, side, budget, take, next);
      }
    }
  }

  lemma {:induction false} OpenBound(rem: seq<int>, pool: seq<nat>, side: Side, a: nat)
    requires Queue(pool, |rem|) && a < |pool|
    ensures Max(0, Owing(side, rem[pool[a]])) <= Open(rem, pool, side)
  {
    if a > 0 {
      OpenBound(rem, pool[1..], side, a - 1);
    }
  }

  /** A budget that is large enough closes the whole side of the queue. */
  lemma {:induction false} CoverCloses(rem: seq<int>, pool: seq<nat>, side: Side, budget: int)
    requires Queue(pool, |rem|) && budget >= Open(rem, pool, side)
    ensures Open(Cover(rem, pool, side, budget), pool, side) == 0
    decreases |pool|
  {
    if pool == [] {
    } else if budget <= 0 {
    } else {
      var i, rest := pool[0], pool[1..];
      var open := Owing(side, rem[i]);
      if open <= 0 {
        CoverCloses(rem, rest, side, budget);
        CoverFrame(rem, rest, side, budget);
      } else {
        var next := rem[i := 0];
        OpenSame(rem, next, rest, side);
        CoverCloses(next, rest, side, budget - open);
        CoverFrame(next, rest, side, budget - open);
      }
    }
  }

  lemma {:induction false} OpenAppend(rem: seq<int>, p: seq<nat>, q: seq<nat>, side: Side)
    requires Bounded(p, |rem|) && Bounded(q, |rem|) && Bounded(p + q, |rem|)
    ensures Open(rem, p + q, side) == Open(rem, p, side) + Open(rem, q, side)
    decreases |p|
  {
    if p == [] {
      Nothing(q);
    } else {
      TailAppend(p, q);
      OpenAppend(rem, p[1..], q, side);
    }
  }

  lemma BoundedAppend(p: seq<nat>, q: seq<nat>, n: nat)
    requires Bounded(p, n) && Bounded(q, n)
    ensures Bounded(p + q, n)
  {
  }

  /** The first row of a queue, whether or not it is open on the side. */
  lemma CoverHead(rem: seq<int>, pool: seq<nat>, side: Side, budget: int, take: int, next: seq<int>)
    requires Bounded(pool, |rem|) && pool != [] && budget > 0
    requires take == Min(budget, Max(0, Owing(side, rem[pool[0]])))
    requires next == rem[pool[0] := Owing(side, Owing(side, rem[pool[0]]) - take)]
    ensures Cover(rem, pool, side, budget) == Cover(next, pool[1..], side, budget - take)
  {
    if Owing(side, rem[pool[0]]) <= 0 {
      assert next == rem;
    }
  }

  /** What is left of a budget once a queue has been covered. */
  function Left(budget: int, open: nat): int {
    budget - Min(Max(0, budget), open)
  }

  lemma LeftStep(budget: int, head: int, open: nat)
    requires budget > 0
    ensures Left(budget - Min(budget, Max(0, head)), open) == Left(budget, Max(0, head) + open)
  {
  }

  /** Covering two queues in a row is covering the first and then, with what is left, the second. */
  lemma {:induction false} CoverAppend(rem: seq<int>, p: seq<nat>, q: seq<nat>, side: Side, budget: int)
    requires Queue(p, |rem|) && Bounded(q, |rem|)
    ensures Bounded(p + q, |rem|)
    ensures Cover(rem, p + q, side, budget) ==
            Cover(Cover(rem, p, side, budget), q, side, Left(budget, Open(rem, p, side)))
    decreases |p|, 1
  {
    BoundedAppend(p, q, |rem|);
    if p == [] {
      Nothing(q);
    } else if budget > 0 {
      CoverAppendStep(rem, p, q, side, budget);
    }
  }

  lemma {:induction false} CoverAppendStep(rem: seq<int>, p: seq<nat>, q: seq<nat>, side: Side, budget: int)
    requires Queue(p, |rem|) && Bounded(q, |rem|) && Bounded(p + q, |rem|) && p != [] && budget > 0
    ensures Cover(rem, p + q, side, budget) ==
            Cover(Cover(rem, p, side, budget), q, side, Left(budget, Open(rem, p, side)))
    decreases |p|, 0
  {
    var i, rest := p[0], p[1..];
    QueueTail(p, |rem|);
    TailAppend(p, q);
    var take := Min(budget, Max(0, Owing(side, rem[i])));
    var next := rem[i := Owing(side, Owing(side, rem[i]) - take)];
    CoverHead(rem, p, side, budget, take, next);
    CoverHead(rem, p + q, side, budget, take, next);
    OpenSame(rem, next, rest, side);
    CoverAppend(next, rest, q, side, budget - take);
    LeftStep(budget, Owing(side, rem[i]), Open(rem, rest, side));
  }

  // ----- netting -----

  /** `net`: what debts and credits have in common, up to a cap. */
  function Netting(rem: seq<int>, debts: seq<nat>, credits: seq<nat>, cap: int): int
    requires Queue(debts, |rem|) && Queue(credits, |rem|)
  {
    Min(Min(Open(rem, debts, Debts), Open(rem, credits, Credits)), cap)
  }

  function Net(rem: seq<int>, debts: seq<nat>, credits: seq<nat>, cap: int): (r: seq<int>)
    requires Queue(debts, |rem|) && Queue(credits, |rem|)
    ensures |r| == |rem|
  {
    var m := Netting(rem, debts, credits, cap);
    Cover(Cover(rem, debts, Debts, m), credits, Credits, m)
  }

  lemma WithinTrans(a: seq<int>, b: seq<int>, c: seq<int>)
    requires Within(a, b) && Within(b, c)
    ensures Within(a, c)
  {
  }

  lemma CreditsUnmoved(rem: seq<int>, debts: seq<nat>, credits: seq<nat>, m: int)
    requires Queue(debts, |rem|) && Queue(credits, |rem|)
    ensures Open(Cover(rem, debts, Debts, m), credits, Credits) == Open(rem, credits, Credits)
  {
    var r := Cover(rem, debts, Debts, m);
    CoverFrame(rem, debts, Debts, m);
    OpenSame(rem, r, credits, Credits);
  }

  /** Netting moves equal amounts on both sides, so the total is unchanged. */
  lemma NetConserves(rem: seq<int>, debts: seq<nat>, credits: seq<nat>, cap: int)
    requires Queue(debts, |rem|) && Queue(credits, |rem|)
    ensures var r := Net(rem, debts, credits, cap); Within(rem, r) && Sum(r) == Sum(rem)
  {
    var m := Netting(rem, debts, credits, cap);
    var mid := Cover(rem, debts, Debts, m);
    CoverFrame(rem, debts, Debts, m);
    CoverFrame(mid, credits, Credits, m);
    WithinTrans(rem, mid, Net(rem, debts, credits, cap));
    CoverSpends(rem, debts, Debts, m);
    CoverSpends(mid, credits, Credits, m);
    CreditsUnmoved(rem, debts, credits, m);
  }

  /** With no tighter cap, netting closes the debts or closes the credits. */
  lemma NetCloses(rem: seq<int>, debts: seq<nat>, credits: seq<nat>, cap: int)
    requires Queue(debts, |rem|) && Queue(credits, |rem|)
    requires cap >= Open(rem, debts, Debts) || cap >= Open(rem, credits, Credits)
    ensures var r := Net(rem, debts, credits, cap);
            Open(r, debts, Debts) == 0 || Open(r, credits, Credits) == 0
  {
    var m := Netting(rem, debts, credits, cap);
    var mid := Cover(rem, debts, Debts, m);
    var r := Cover(mid, credits, Credits, m);
    CreditsUnmoved(rem, debts, credits, m);
    if m == Open(rem, debts, Debts) {
      CoverCloses(rem, debts, Debts, m);
      CoverFrame(mid, credits, Credits, m);
      OpenSame(mid, r, debts, Debts);
    } else {
      CoverCloses(mid, credits, Credits, m);
    }
  }

  // ----- queues stay oldest first -----

  /** Against the original amounts: while an earlier row of the side is open, every later one is untouched. */
  ghost predicate InOrder(orig: seq<int>, rem: seq<int>, pool: seq<nat>, side: Side) {
    |orig| == |rem| && Queue(pool, |rem|) &&
    forall a, b :: 0 <= a < b < |pool| && Owing(side, rem[pool[a]]) > 0 && Owing(side, orig[pool[b]]) > 0 ==>
                   rem[pool[b]] == orig[pool[b]]
  }

  /** Covering a queue keeps it in order, on either side. */
  lemma CoverInOrder(orig: seq<int>, rem: seq<int>, pool: seq<nat>, side: Side, budget: int, other: Side)
    requires Within(orig, rem) && InOrder(orig, rem, pool, other)
    ensures InOrder(orig, Cover(rem, pool, side, budget), pool, other)
  {
    var r := Cover(rem, pool, side, budget);
    CoverFrame(rem, pool, side, budget);
    forall a, b | 0 <= a < b < |pool| && Owing(other, r[pool[a]]) > 0 && Owing(other, orig[pool[b]]) > 0
      ensures r[pool[b]] == orig[pool[b]]
    {
      if other == side {
        CoverIsFifo(rem, pool, side, budget, a, b);
      }
    }
  }

  lemma CoverElsewhere(orig: seq<int>, rem: seq<int>, pool: seq<nat>, side: Side, budget: int, other: Side, q: seq<nat>)
    requires InOrder(orig, rem, q, other) && Queue(pool, |rem|)
    requires forall a :: 0 <= a < |q| ==> q[a] !in pool
    ensures InOrder(orig, Cover(rem, pool, side, budget), q, other)
  {
    CoverFrame(rem, pool, side, budget);
  }

  /** At most one row of a side that is in order is part-covered. */
  lemma OnePartial(orig: seq<int>, rem: seq<int>, pool: seq<nat>, side: Side, a: nat, b: nat)
    requires Within(orig, rem) && InOrder(orig, rem, pool, side)
    requires a < |pool| && b < |pool| && Owing(side, orig[pool[a]]) > 0 && Owing(side, orig[pool[b]]) > 0
    requires rem[pool[a]] != 0 && rem[pool[a]] != orig[pool[a]]
    requires rem[pool[b]] != 0 && rem[pool[b]] != orig[pool[b]]
    ensures a == b
  {
  }
}
