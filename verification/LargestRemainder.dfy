/**
 * packages/core/src/utils/largestRemainder.ts: a total split over weighted rows in whole units, summing to it exactly.
 * The total is a whole number of units and proportions are exact.
 */
module LargestRemainder {
  import opened Coverage

  // ----- sums -----

  function Zip(a: int, u: seq<int>, b: int, e: seq<int>): (d: seq<int>)
    requires |u| == |e|
    ensures |d| == |u| && forall i :: 0 <= i < |u| ==> d[i] == a * u[i] - b * e[i]
  {
    seq(|u|, i requires 0 <= i < |u| => a * u[i] - b * e[i])
  }

  lemma {:induction false} SumZip(a: int, u: seq<int>, b: int, e: seq<int>)
    requires |u| == |e|
    ensures Sum(Zip(a, u, b, e)) == a * Sum(u) - b * Sum(e)
  {
    if u != [] {
      var n := |u| - 1;
      SumZip(a, u[..n], b, e[..n]);
      assert Zip(a, u, b, e)[..n] == Zip(a, u[..n], b, e[..n]);
      Spread(a, Sum(u[..n]), u[n]);
      Spread(b, Sum(e[..n]), e[n]);
    }
  }

  lemma Spread(a: int, x: int, y: int)
    ensures a * (x + y) == a * x + a * y
  {
  }

  lemma {:induction false} SumNonNegative(s: seq<int>)
    requires forall i :: 0 <= i < |s| ==> s[i] >= 0
    ensures Sum(s) >= 0 && forall i :: 0 <= i < |s| ==> s[i] <= Sum(s)
  {
    if s != [] {
      SumNonNegative(s[..|s| - 1]);
    }
  }

  // ----- weights -----

  function Clamped(weights: seq<int>): (r: seq<int>)
    ensures |r| == |weights| && forall i :: 0 <= i < |r| ==> r[i] == Max(0, weights[i])
  {
    seq(|weights|, i requires 0 <= i < |weights| => Max(0, weights[i]))
  }

  function Ones(n: nat): (r: seq<int>)
    ensures |r| == n && forall i :: 0 <= i < n ==> r[i] == 1
  {
    seq(n, _ => 1)
  }

  /** Negative weights count as none; when no row has any weight, all have the same. */
  function Effective(weights: seq<int>): (r: seq<int>)
    ensures |r| == |weights| && forall i :: 0 <= i < |r| ==> r[i] >= 0
  {
    if Sum(Clamped(weights)) > 0 then Clamped(weights) else Ones(|weights|)
  }

  lemma EffectiveSum(weights: seq<int>)
    requires weights != []
    ensures Sum(Effective(weights)) > 0
  {
    if Sum(Clamped(weights)) <= 0 {
      SumNonNegative(Ones(|weights|));
      assert Ones(|weights|)[0] == 1;
    }
  }

  /** The whole units of a row's exact share. */
  function Whole(e: int, total: nat, sum: int): int
    requires sum > 0
  {
    e * total / sum
  }

  /** The rest of it, as a fraction of the weight sum. */
  function Fraction(e: int, total: nat, sum: int): (f: int)
    requires sum > 0
    ensures 0 <= f < sum && e * total == sum * Whole(e, total, sum) + f
  {
    e * total % sum
  }

  /** The larger remainder goes first; the earlier row where they are equal. */
  predicate Precedes(e: seq<int>, total: nat, sum: int, i: int, j: int)
    requires sum > 0 && 0 <= i < |e| && 0 <= j < |e|
  {
    var f, g := Fraction(e[i], total, sum), Fraction(e[j], total, sum);
    f > g || (f == g && i < j)
  }

  /**
   * The largest-remainder split: it sums to the total, each row has the whole units of its exact share or one more, and
   * no row has one more while a row that goes before it has not.
   */
  ghost predicate Apportioned(e: seq<int>, total: nat, u: seq<int>) {
    var sum := Sum(e);
    sum > 0 && |u| == |e| && Sum(u) == total &&
    (forall i :: 0 <= i < |e| ==> Bonus(e, total, sum, u, i) == 0 || Bonus(e, total, sum, u, i) == 1) &&
    (forall i, j :: 0 <= i < |e| && 0 <= j < |e| &&
                    Bonus(e, total, sum, u, i) == 1 && Bonus(e, total, sum, u, j) == 0 ==>
                    Precedes(e, total, sum, i, j))
  }

  function Bonus(e: seq<int>, total: nat, sum: int, u: seq<int>, i: int): int
    requires sum > 0 && |u| == |e| && 0 <= i < |e|
  {
    u[i] - Whole(e[i], total, sum)
  }

  /**
   * A row of weight zero or less gets nothing while another has weight; when none has any, all exact shares are the
   * same.
   */
  lemma EffectiveExact(weights: seq<int>, i: nat)
    requires i < |weights|
    ensures (exists j :: 0 <= j < |weights| && weights[j] > 0) ==> Effective(weights)[i] == Max(0, weights[i])
    ensures (forall j :: 0 <= j < |weights| ==> weights[j] <= 0) ==> Effective(weights)[i] == 1
  {
    var c := Clamped(weights);
    SumNonNegative(c);
    if j :| 0 <= j < |weights| && weights[j] > 0 {
      assert c[j] > 0;
    } else {
      SumZeros(c);
    }
  }

  // ----- what such a split keeps -----

  /** How far a row is above its exact share, times the weight sum. */
  lemma Above(e: seq<int>, total: nat, u: seq<int>)
    requires Sum(e) > 0 && |u| == |e| && Sum(u) == total
    ensures Sum(Zip(Sum(e), u, total, e)) == 0
  {
    SumZip(Sum(e), u, total, e);
  }

  /** A row whose exact share is whole gets exactly that; so a row without weight gets nothing. */
  lemma WholeShareExact(e: seq<int>, total: nat, u: seq<int>, i: nat)
    requires Apportioned(e, total, u) && i < |e| && Fraction(e[i], total, Sum(e)) == 0
    ensures Sum(e) * u[i] == total * e[i]
  {
    var sum := Sum(e);
    var d := Zip(sum, u, total, e);
    Above(e, total, u);
    if Bonus(e, total, sum, u, i) == 1 {
      forall j | 0 <= j < |e| ensures d[j] >= 0 {
        AboveAt(e, total, u, j);
      }
      AboveAt(e, total, u, i);
      SumNonNegative(d);
    } else {
      AboveAt(e, total, u, i);
    }
  }

  lemma AboveAt(e: seq<int>, total: nat, u: seq<int>, j: nat)
    requires Apportioned(e, total, u) && j < |e|
    ensures var sum := Sum(e);
            sum * u[j] - total * e[j] == sum * Bonus(e, total, sum, u, j) - Fraction(e[j], total, sum)
  {
    var sum := Sum(e);
    Spread(sum, Whole(e[j], total, sum), Bonus(e, total, sum, u, j));
  }

  /** Every share is less than one unit away from the exact one. */
  lemma WithinOneUnit(e: seq<int>, total: nat, u: seq<int>, i: nat)
    requires Apportioned(e, total, u) && i < |e|
    ensures total * e[i] - Sum(e) < Sum(e) * u[i] < total * e[i] + Sum(e)
  {
    AboveAt(e, total, u, i);
    WholeShareExactOr(e, total, u, i);
  }

  lemma WholeShareExactOr(e: seq<int>, total: nat, u: seq<int>, i: nat)
    requires Apportioned(e, total, u) && i < |e|
    ensures Fraction(e[i], total, Sum(e)) == 0 ==> Sum(e) * u[i] == total * e[i]
  {
    if Fraction(e[i], total, Sum(e)) == 0 {
      WholeShareExact(e, total, u, i);
    }
  }

  lemma Scaled(sum: int, x: int, y: int)
    requires sum > 0 && sum * x < sum * y + sum
    ensures x <= y
  {
    if x > y {
      Spread(sum, y, x - y);
      AtLeast(sum, x - y);
    }
  }

  lemma AtLeast(sum: int, k: int)
    requires sum > 0 && k >= 1
    ensures sum * k >= sum
  {
  }

  /** A row whose exact share is no more than `cap` gets no more, and one whose exact share is no less gets no less. */
  lemma ShareBounds(e: seq<int>, total: nat, u: seq<int>, i: nat, cap: int)
    requires Apportioned(e, total, u) && i < |e|
    ensures total * e[i] <= Sum(e) * cap ==> u[i] <= cap
    ensures total * e[i] >= Sum(e) * cap ==> u[i] >= cap
  {
    WithinOneUnit(e, total, u, i);
    if total * e[i] <= Sum(e) * cap {
      Scaled(Sum(e), u[i], cap);
    }
    if total * e[i] >= Sum(e) * cap {
      Scaled(Sum(e), cap, u[i]);
    }
  }

  lemma MoreWhole(e: int, g: int, total: nat, sum: int)
    requires sum > 0 && e > g && total > 0
    ensures Whole(e, total, sum) >= Whole(g, total, sum)
    ensures Whole(e, total, sum) == Whole(g, total, sum) ==> Fraction(e, total, sum) > Fraction(g, total, sum)
  {
    var x, y := Whole(e, total, sum), Whole(g, total, sum);
    assert e * total == g * total + (e - g) * total;
    AtLeast(total, e - g);
    assert sum * y < sum * x + sum by {
      assert Fraction(e, total, sum) < sum && Fraction(g, total, sum) >= 0;
    }
    Scaled(sum, y, x);
  }

  /** More weight never gets less. */
  lemma Monotone(e: seq<int>, total: nat, u: seq<int>, i: nat, j: nat)
    requires Apportioned(e, total, u) && i < |e| && j < |e| && e[i] > e[j]
    ensures u[i] >= u[j]
  {
    if total == 0 {
      ShareBounds(e, total, u, i, 0);
      ShareBounds(e, total, u, j, 0);
    } else {
      MoreWhole(e[i], e[j], total, Sum(e));
      assert Bonus(e, total, Sum(e), u, i) >= 0 && Bonus(e, total, Sum(e), u, j) <= 1;
    }
  }

  lemma {:induction false} SumLess(u: seq<int>, v: seq<int>, i: nat)
    requires |u| == |v| && i < |u| && u[i] < v[i] && forall j :: 0 <= j < |u| ==> u[j] <= v[j]
    ensures Sum(u) < Sum(v)
  {
    var d := Zip(1, v, 1, u);
    SumZip(1, v, 1, u);
    SumNonNegative(d);
    assert d[i] > 0;
  }

  /** There is only one such split. */
  lemma ApportionedUnique(e: seq<int>, total: nat, u: seq<int>, v: seq<int>)
    requires Apportioned(e, total, u) && Apportioned(e, total, v)
    ensures u == v
  {
    if i :| 0 <= i < |u| && u[i] < v[i] {
      if j :| 0 <= j < |u| && u[j] > v[j] {
        Opposed(e, total, u, v, i, j);
      } else {
        SumLess(u, v, i);
      }
    } else if i :| 0 <= i < |u| && v[i] < u[i] {
      SumLess(v, u, i);
    }
  }

  lemma Opposed(e: seq<int>, total: nat, u: seq<int>, v: seq<int>, i: nat, j: nat)
    requires Apportioned(e, total, u) && Apportioned(e, total, v) && i < |e| && j < |e| && u[i] < v[i]
    ensures u[j] <= v[j]
  {
    var sum := Sum(e);
    assert 0 <= Bonus(e, total, sum, u, i) <= 1 && 0 <= Bonus(e, total, sum, u, j) <= 1;
    assert 0 <= Bonus(e, total, sum, v, i) <= 1 && 0 <= Bonus(e, total, sum, v, j) <= 1;
  }

  // ----- the order of the remainders -----

  /** The positions in a list, put in the order of their remainders. */
  function Insert(e: seq<int>, total: nat, sum: int, order: seq<nat>, i: nat): seq<nat>
    requires sum > 0 && i < |e| && forall a :: 0 <= a < |order| ==> order[a] < |e|
  {
    if order == [] then [i]
    else if Precedes(e, total, sum, i, order[0]) then [i] + order
    else [order[0]] + Insert(e, total, sum, order[1..], i)
  }

  ghost predicate Ordered(e: seq<int>, total: nat, sum: int, order: seq<nat>)
    requires sum > 0
  {
    (forall a :: 0 <= a < |order| ==> order[a] < |e|) &&
    forall a, b :: 0 <= a < b < |order| ==> Precedes(e, total, sum, order[a], order[b])
  }

  lemma {:induction false} InsertFacts(e: seq<int>, total: nat, sum: int, order: seq<nat>, i: nat)
    requires sum > 0 && i < |e| && i !in order && Ordered(e, total, sum, order)
    ensures var r := Insert(e, total, sum, order, i);
            Ordered(e, total, sum, r) && |r| == |order| + 1 && forall k :: k in r <==> k in order || k == i
  {
    if order != [] {
      var rest := order[1..];
      assert order == [order[0]] + rest;
      if Precedes(e, total, sum, i, order[0]) {
        ConsOrdered(e, total, sum, i, order);
      } else {
        InsertFacts(e, total, sum, rest, i);
        forall k | k in rest ensures Precedes(e, total, sum, order[0], k) {
          var a :| 0 <= a < |rest| && rest[a] == k;
          assert order[a + 1] == k;
        }
        assert Precedes(e, total, sum, order[0], i);
        ConsBefore(e, total, sum, order[0], Insert(e, total, sum, rest, i));
      }
    }
  }

  lemma ConsOrdered(e: seq<int>, total: nat, sum: int, i: nat, order: seq<nat>)
    requires sum > 0 && i < |e| && Ordered(e, total, sum, order) && order != [] && Precedes(e, total, sum, i, order[0])
    ensures Ordered(e, total, sum, [i] + order)
  {
    var r := [i] + order;
    forall a, b | 0 <= a < b < |r| ensures Precedes(e, total, sum, r[a], r[b]) {
      if a == 0 && b > 1 {
        assert Precedes(e, total, sum, order[0], order[b - 1]);
      } else if a > 0 {
        assert Precedes(e, total, sum, order[a - 1], order[b - 1]);
      }
    }
  }

  lemma ConsBefore(e: seq<int>, total: nat, sum: int, i: nat, order: seq<nat>)
    requires sum > 0 && i < |e| && Ordered(e, total, sum, order)
    requires forall k :: k in order ==> k < |e| && Precedes(e, total, sum, i, k)
    ensures Ordered(e, total, sum, [i] + order)
  {
    var r := [i] + order;
    forall a, b | 0 <= a < b < |r| ensures Precedes(e, total, sum, r[a], r[b]) {
      if a == 0 {
        assert order[b - 1] in order;
      } else {
        assert Precedes(e, total, sum, order[a - 1], order[b - 1]);
      }
    }
  }

  /** The first `n` positions in the order of their remainders. */
  function ByRemainder(e: seq<int>, total: nat, sum: int, n: nat): (r: seq<nat>)
    requires sum > 0 && n <= |e|
    ensures forall a :: 0 <= a < |r| ==> r[a] < |e|
    decreases n, 0
  {
    if n == 0 then [] else
      ByRemainderFacts(e, total, sum, n - 1);
      InsertFacts(e, total, sum, ByRemainder(e, total, sum, n - 1), n - 1);
      Insert(e, total, sum, ByRemainder(e, total, sum, n - 1), n - 1)
  }

  lemma {:induction false} ByRemainderFacts(e: seq<int>, total: nat, sum: int, n: nat)
    requires sum > 0 && n <= |e|
    ensures var r := ByRemainder(e, total, sum, n);
            Ordered(e, total, sum, r) && |r| == n && forall k :: k in r <==> 0 <= k < n
    decreases n, 1
  {
    if n > 0 {
      ByRemainderFacts(e, total, sum, n - 1);
      InsertFacts(e, total, sum, ByRemainder(e, total, sum, n - 1), n - 1);
    }
  }

  // ----- the allocator -----

  function Wholes(e: seq<int>, total: nat, sum: int): (r: seq<int>)
    requires sum > 0
    ensures |r| == |e| && forall i :: 0 <= i < |e| ==> r[i] == Whole(e[i], total, sum)
  {
    seq(|e|, i requires 0 <= i < |e| => Whole(e[i], total, sum))
  }

  function Fractions(e: seq<int>, total: nat, sum: int): (r: seq<int>)
    requires sum > 0
    ensures |r| == |e| && forall i :: 0 <= i < |e| ==> r[i] == Fraction(e[i], total, sum)
  {
    seq(|e|, i requires 0 <= i < |e| => Fraction(e[i], total, sum))
  }

  lemma {:induction false} SumFractions(e: seq<int>, total: nat, sum: int)
    requires sum > 0
    ensures total * Sum(e) == sum * Sum(Wholes(e, total, sum)) + Sum(Fractions(e, total, sum))
  {
    if e != [] {
      var n := |e| - 1;
      SumFractions(e[..n], total, sum);
      assert Wholes(e, total, sum)[..n] == Wholes(e[..n], total, sum);
      assert Fractions(e, total, sum)[..n] == Fractions(e[..n], total, sum);
      Spread(total, Sum(e[..n]), e[n]);
      Spread(sum, Sum(Wholes(e[..n], total, sum)), Whole(e[n], total, sum));
      assert e[n] * total == sum * Whole(e[n], total, sum) + Fraction(e[n], total, sum);
    }
  }

  /** What the whole units leave over is not negative and less than one unit for each row. */
  lemma LeftOver(e: seq<int>, total: nat, sum: int)
    requires sum == Sum(e) > 0 && e != []
    ensures 0 <= total - Sum(Wholes(e, total, sum)) < |e|
  {
    var f, w := Fractions(e, total, sum), Sum(Wholes(e, total, sum));
    SumFractions(e, total, sum);
    SumNonNegative(f);
    SumAtMost(f, sum - 1);
    LeftBetween(sum, total, w, Sum(f), |e|);
  }

  lemma LeftBetween(sum: int, total: int, w: int, f: int, n: nat)
    requires sum > 0 && n > 0 && total * sum == sum * w + f && 0 <= f <= (sum - 1) * n
    ensures 0 <= total - w < n
  {
    Spread(sum, w, total - w);
    assert sum * (total - w) == f;
    BetweenZeroAnd(sum, total - w, n);
  }

  lemma BetweenZeroAnd(sum: int, left: int, n: nat)
    requires sum > 0 && n > 0 && 0 <= sum * left <= (sum - 1) * n
    ensures 0 <= left < n
  {
    Scaled(sum, 0, left);
    Spread(n, sum - 1, 1);
    Spread(sum, left, 1);
    Scaled(sum, left + 1, n);
  }

  lemma {:induction false} SumAtMost(s: seq<int>, cap: int)
    requires forall i :: 0 <= i < |s| ==> s[i] <= cap
    ensures Sum(s) <= cap * |s|
  {
    if s != [] {
      SumAtMost(s[..|s| - 1], cap);
      Spread(cap, |s| - 1, 1);
    }
  }

  lemma BonusesInOrder(e: seq<int>, total: nat, order: seq<nat>, left: nat, u: seq<int>)
    requires e != [] && Sum(e) > 0 && Ordered(e, total, Sum(e), order) && left <= |order| && |u| == |e| &&
             Sum(u) == total
    requires forall k :: k in order <==> 0 <= k < |e|
    requires forall i :: 0 <= i < |e| ==> Bonus(e, total, Sum(e), u, i) == if i in order[..left] then 1 else 0
    ensures Apportioned(e, total, u)
  {
    forall i, j | 0 <= i < |e| && 0 <= j < |e| &&
                  Bonus(e, total, Sum(e), u, i) == 1 && Bonus(e, total, Sum(e), u, j) == 0
      ensures Precedes(e, total, Sum(e), i, j)
    {
      assert j in order;
      var a :| 0 <= a < left && order[..left][a] == i;
      var b :| 0 <= b < |order| && order[b] == j;
      InPrefix(order, left, b);
      assert a < b;
    }
  }

  lemma InPrefix(order: seq<nat>, left: nat, b: nat)
    requires left <= |order| && b < |order|
    ensures b < left ==> order[b] in order[..left]
  {
    if b < left {
      assert order[..left][b] == order[b];
    }
  }

  /** The loop that hands out the units left over. */
  method HandOut(e: seq<int>, total: nat) returns (u: seq<int>)
    requires e != [] && Sum(e) > 0
    ensures Apportioned(e, total, u)
  {
    var sum := Sum(e);
    var order := ByRemainder(e, total, sum, |e|);
    ByRemainderFacts(e, total, sum, |e|);
    u := Wholes(e, total, sum);
    var left := total - Sum(u);
    LeftOver(e, total, sum);
    var k := 0;
    while k < left && k < |order|
      invariant 0 <= k <= left && k <= |order| && |u| == |e| && Sum(u) == total - left + k
      invariant forall i :: 0 <= i < |e| ==> Bonus(e, total, sum, u, i) == if i in order[..k] then 1 else 0
    {
      NextInOrder(e, total, sum, order, k);
      SumUpdate(u, order[k], u[order[k]] + 1);
      u := u[order[k] := u[order[k]] + 1];
      k := k + 1;
    }
    BonusesInOrder(e, total, order, left, u);
  }

  lemma NextInOrder(e: seq<int>, total: nat, sum: int, order: seq<nat>, k: nat)
    requires sum > 0 && Ordered(e, total, sum, order) && k < |order|
    ensures order[k] !in order[..k] && order[..k + 1] == order[..k] + [order[k]]
  {
    forall a | 0 <= a < k ensures order[a] != order[k] {
      assert Precedes(e, total, sum, order[a], order[k]);
    }
  }

  function Scale(sign: int, u: seq<int>): (r: seq<int>)
    ensures |r| == |u| && forall i :: 0 <= i < |u| ==> r[i] == sign * u[i]
  {
    seq(|u|, i requires 0 <= i < |u| => sign * u[i])
  }

  lemma {:induction false} SumScale(sign: int, u: seq<int>)
    ensures Sum(Scale(sign, u)) == sign * Sum(u)
  {
    if u != [] {
      var n := |u| - 1;
      SumScale(sign, u[..n]);
      assert Scale(sign, u)[..n] == Scale(sign, u[..n]);
      Spread(sign, Sum(u[..n]), u[n]);
    }
  }

  lemma {:induction false} SumZeros(s: seq<int>)
    requires forall i :: 0 <= i < |s| ==> s[i] == 0
    ensures Sum(s) == 0
  {
    if s != [] {
      SumZeros(s[..|s| - 1]);
    }
  }

  /**
   * `allocateProportional`, with one unit as the unit: one share for each row, summing to the total exactly, and in
   * magnitude the largest-remainder split of it.
   */
  method AllocateProportional(weights: seq<int>, total: int) returns (shares: seq<int>)
    ensures |shares| == |weights| && (weights != [] ==> Sum(shares) == total)
    ensures total != 0 && weights != [] ==>
              exists u :: Apportioned(Effective(weights), Abs(total), u) &&
                          shares == Scale(if total < 0 then -1 else 1, u)
    ensures total == 0 ==> forall i :: 0 <= i < |shares| ==> shares[i] == 0
  {
    if weights == [] {
      return [];
    }
    if total == 0 {
      shares := seq(|weights|, _ => 0);
      SumZeros(shares);
      return;
    }
    EffectiveSum(weights);
    var u := HandOut(Effective(weights), Abs(total));
    var sign := if total < 0 then -1 else 1;
    SumScale(sign, u);
    shares := Scale(sign, u);
  }
}
