/**
 * The lists of takes of packages/core/src/utils/fifoCoverage.ts, and how
 * packages/core/src/utils/accountSettleAllocation.ts pairs those of a netting: whose credit paid whose debt, oldest
 * against oldest.
 */
module NettingPairs {
  import opened Text
  import opened Coverage

  // ----- the takes of `allocateFifo` -----

  datatype Take = Take(row: nat, amount: int)

  function Takes(rem: seq<int>, pool: seq<nat>, side: Side, budget: int): (r: seq<Take>)
    requires Bounded(pool, |rem|)
    ensures Bounded(RowsOf(r), |rem|) && forall a :: 0 <= a < |r| ==> r[a].amount > 0
  {
    if pool == [] || budget <= 0 then []
    else
      var take := Min(budget, Owing(side, rem[pool[0]]));
      if take <= 0 then Takes(rem, pool[1..], side, budget)
      else
        var rest := Takes(rem, pool[1..], side, budget - take);
        RowsOfCons(Take(pool[0], take), rest);
        [Take(pool[0], take)] + rest
  }

  function RowsOf(ts: seq<Take>): (r: seq<nat>)
    ensures |r| == |ts| && forall a :: 0 <= a < |ts| ==> r[a] == ts[a].row
  {
    seq(|ts|, a requires 0 <= a < |ts| => ts[a].row)
  }

  lemma RowsOfCons(t: Take, ts: seq<Take>)
    ensures RowsOf([t] + ts) == [t.row] + RowsOf(ts)
  {
  }

  lemma BoundedFrom(pool: seq<nat>, n: nat, a: nat)
    requires Bounded(pool, n) && a <= |pool|
    ensures Bounded(pool[a..], n) && (a < |pool| ==> pool[a..] == [pool[a]] + pool[a + 1..])
  {
  }

  /** One row of the walk. */
  lemma TakesStep(rem: seq<int>, i: nat, rest: seq<nat>, side: Side, remaining: int)
    requires i < |rem| && Bounded(rest, |rem|) && Bounded([i] + rest, |rem|) && remaining > 0
    ensures var take := Min(remaining, Owing(side, rem[i]));
            Takes(rem, [i] + rest, side, remaining) ==
            if take <= 0 then Takes(rem, rest, side, remaining)
            else [Take(i, take)] + Takes(rem, rest, side, remaining - take)
  {
    assert ([i] + rest)[1..] == rest;
  }

  /** What has been found of the walk's takes, and what the rest of it will find. */
  ghost predicate Walked(rem: seq<int>, pool: seq<nat>, side: Side, budget: int, a: nat, remaining: int,
                         takes: seq<Take>) {
    a <= |pool| && Bounded(pool, |rem|) && Bounded(pool[a..], |rem|) &&
    takes + Takes(rem, pool[a..], side, remaining) == Takes(rem, pool, side, budget)
  }

  lemma WalkedNext(rem: seq<int>, pool: seq<nat>, side: Side, budget: int, a: nat, remaining: int, takes: seq<Take>)
    requires a < |pool| && Walked(rem, pool, side, budget, a, remaining, takes) && remaining > 0
    ensures var take := Min(remaining, Owing(side, rem[pool[a]]));
            if take <= 0 then Walked(rem, pool, side, budget, a + 1, remaining, takes)
            else Walked(rem, pool, side, budget, a + 1, remaining - take, takes + [Take(pool[a], take)])
  {
    var take := Min(remaining, Owing(side, rem[pool[a]]));
    BoundedFrom(pool, |rem|, a);
    BoundedFrom(pool, |rem|, a + 1);
    TakesStep(rem, pool[a], pool[a + 1..], side, remaining);
    if take > 0 {
      Assoc(takes, [Take(pool[a], take)], Takes(rem, pool[a + 1..], side, remaining - take));
    }
  }

  lemma WalkedEnd(rem: seq<int>, pool: seq<nat>, side: Side, budget: int, a: nat, remaining: int, takes: seq<Take>)
    requires Walked(rem, pool, side, budget, a, remaining, takes) && (a == |pool| || remaining <= 0)
    ensures takes == Takes(rem, pool, side, budget)
  {
    assert Takes(rem, pool[a..], side, remaining) == [];
  }

  method AllocateFifo(rem: seq<int>, pool: seq<nat>, side: Side, budget: int) returns (takes: seq<Take>)
    requires Bounded(pool, |rem|)
    ensures takes == Takes(rem, pool, side, budget)
  {
    takes := [];
    var remaining := budget;
    if remaining <= 0 {
      return;
    }
    assert pool[0..] == pool;
    for a := 0 to |pool|
      invariant Walked(rem, pool, side, budget, a, remaining, takes)
    {
      if remaining <= 0 {
        WalkedEnd(rem, pool, side, budget, a, remaining, takes);
        return;
      }
      WalkedNext(rem, pool, side, budget, a, remaining, takes);
      var take := Min(remaining, Owing(side, rem[pool[a]]));
      if take <= 0 {
        continue;
      }
      takes := takes + [Take(pool[a], take)];
      remaining := remaining - take;
    }
    WalkedEnd(rem, pool, side, budget, |pool|, remaining, takes);
  }

  /** The amounts after the takes have been applied one by one. */
  function Applied(rem: seq<int>, ts: seq<Take>, side: Side): seq<int>
    requires Bounded(RowsOf(ts), |rem|)
    decreases |ts|
  {
    if ts == [] then rem
    else
      var i := RowsOf(ts)[0];
      assert RowsOf(ts[1..]) == RowsOf(ts)[1..];
      Applied(rem[i := Owing(side, Owing(side, rem[i]) - ts[0].amount)], ts[1..], side)
  }

  lemma {:induction false} TakesSame(rem: seq<int>, next: seq<int>, pool: seq<nat>, side: Side, budget: int)
    requires |rem| == |next| && Bounded(pool, |rem|) && forall a :: 0 <= a < |pool| ==> rem[pool[a]] == next[pool[a]]
    ensures Takes(rem, pool, side, budget) == Takes(next, pool, side, budget)
  {
    if pool != [] && budget > 0 {
      var take := Min(budget, Owing(side, rem[pool[0]]));
      TakesSame(rem, next, pool[1..], side, if take <= 0 then budget else budget - take);
    }
  }

  lemma AppliedCons(rem: seq<int>, t: Take, ts: seq<Take>, side: Side)
    requires t.row < |rem| && Bounded(RowsOf(ts), |rem|)
    ensures Bounded(RowsOf([t] + ts), |rem|)
    ensures Applied(rem, [t] + ts, side) ==
            Applied(rem[t.row := Owing(side, Owing(side, rem[t.row]) - t.amount)], ts, side)
  {
    RowsOfCons(t, ts);
    assert ([t] + ts)[1..] == ts;
  }

  lemma AppliedHead(rem: seq<int>, i: nat, rest: seq<nat>, side: Side, budget: int, take: int, next: seq<int>)
    requires i < |rem| && Bounded(rest, |rem|) && Bounded([i] + rest, |rem|) && budget > 0
    requires forall a :: 0 <= a < |rest| ==> rest[a] != i
    requires take == Min(budget, Max(0, Owing(side, rem[i]))) &&
             next == rem[i := Owing(side, Owing(side, rem[i]) - take)]
    ensures Applied(rem, Takes(rem, [i] + rest, side, budget), side) ==
            Applied(next, Takes(next, rest, side, budget - take), side)
  {
    TakesStep(rem, i, rest, side, budget);
    if take == 0 {
      assert next == rem;
    } else {
      TakesSame(rem, next, rest, side, budget - take);
      AppliedCons(rem, Take(i, take), Takes(rem, rest, side, budget - take), side);
    }
  }

  /** Applying the list of takes covers the queue: finding them first and recording them afterwards is the same walk. */
  lemma {:induction false} TakesCover(rem: seq<int>, pool: seq<nat>, side: Side, budget: int)
    requires Queue(pool, |rem|)
    ensures Applied(rem, Takes(rem, pool, side, budget), side) == Cover(rem, pool, side, budget)
    decreases |pool|
  {
    if pool != [] && budget > 0 {
      var i, rest := pool[0], pool[1..];
      QueueTail(pool, |rem|);
      var take := Min(budget, Max(0, Owing(side, rem[i])));
      var next := rem[i := Owing(side, Owing(side, rem[i]) - take)];
      CoverHead(rem, pool, side, budget, take, next);
      AppliedHead(rem, i, rest, side, budget, take, next);
      TakesCover(next, rest, side, budget - take);
    }
  }

  // ----- takes by member -----

  /** A run of units of one member. */
  datatype Piece = Piece(member: int, amount: int)

  predicate Proper(ps: seq<Piece>) {
    forall a :: 0 <= a < |ps| ==> ps[a].amount > 0
  }

  /** Where the piece at `k` begins when the pieces are laid end to end. */
  function Start(ps: seq<Piece>, k: nat): int
    requires k <= |ps|
  {
    if k == 0 then 0 else Start(ps, k - 1) + ps[k - 1].amount
  }

  function Total(ps: seq<Piece>): int {
    Start(ps, |ps|)
  }

  function Pieces(ts: seq<Take>, member: seq<int>): (ps: seq<Piece>)
    requires Bounded(RowsOf(ts), |member|)
    ensures |ps| == |ts| && forall a :: 0 <= a < |ts| ==> ps[a].amount == ts[a].amount
  {
    seq(|ts|, a requires 0 <= a < |ts| && RowsOf(ts)[a] < |member| => Piece(member[RowsOf(ts)[a]], ts[a].amount))
  }

  lemma {:induction false} StartCons(p: Piece, ps: seq<Piece>, k: nat)
    requires k <= |ps|
    ensures Start([p] + ps, k + 1) == p.amount + Start(ps, k)
  {
    if k > 0 {
      StartCons(p, ps, k - 1);
    }
  }

  function TakeSum(ts: seq<Take>): int {
    if ts == [] then 0 else ts[0].amount + TakeSum(ts[1..])
  }

  lemma TakeSumCons(t: Take, ts: seq<Take>)
    ensures TakeSum([t] + ts) == t.amount + TakeSum(ts)
  {
    assert ([t] + ts)[1..] == ts;
  }

  /** The takes of a queue add up to the smaller of the budget and what is open. */
  lemma {:induction false} TakesSum(rem: seq<int>, pool: seq<nat>, side: Side, budget: int)
    requires Bounded(pool, |rem|)
    ensures TakeSum(Takes(rem, pool, side, budget)) == Min(Max(0, budget), Open(rem, pool, side))
    decreases |pool|
  {
    if pool != [] && budget > 0 {
      var i, rest := pool[0], pool[1..];
      assert pool == [i] + rest;
      TakesStep(rem, i, rest, side, budget);
      var take := Min(budget, Owing(side, rem[i]));
      if take <= 0 {
        TakesSum(rem, rest, side, budget);
      } else {
        TakesSum(rem, rest, side, budget - take);
        TakeSumCons(Take(i, take), Takes(rem, rest, side, budget - take));
      }
    }
  }

  lemma {:induction false} PiecesTotal(ts: seq<Take>, member: seq<int>)
    requires Bounded(RowsOf(ts), |member|)
    ensures Total(Pieces(ts, member)) == TakeSum(ts)
  {
    if ts != [] {
      var p, rest := PiecesHead(ts, member);
      PiecesTotal(rest, member);
      StartCons(p, Pieces(rest, member), |rest|);
    }
  }

  lemma PiecesHead(ts: seq<Take>, member: seq<int>) returns (p: Piece, rest: seq<Take>)
    requires ts != [] && Bounded(RowsOf(ts), |member|)
    ensures rest == ts[1..] && p.amount == ts[0].amount && Bounded(RowsOf(rest), |member|)
    ensures Pieces(ts, member) == [p] + Pieces(rest, member)
  {
    rest := ts[1..];
    assert RowsOf(rest) == RowsOf(ts)[1..];
    p := Piece(member[RowsOf(ts)[0]], ts[0].amount);
  }

  lemma TakesTotal(rem: seq<int>, pool: seq<nat>, side: Side, budget: int, member: seq<int>)
    requires Bounded(pool, |rem|) && |member| == |rem|
    ensures var ps := Pieces(Takes(rem, pool, side, budget), member);
            Proper(ps) && Total(ps) == Min(Max(0, budget), Open(rem, pool, side))
  {
    TakesSum(rem, pool, side, budget);
    PiecesTotal(Takes(rem, pool, side, budget), member);
  }

  // ----- units -----

  /** The member whose unit stands at `x`. */
  function Owner(ps: seq<Piece>, x: int): int
    requires Proper(ps) && 0 <= x < Total(ps)
  {
    OwnerUpTo(ps, |ps|, x)
  }

  function OwnerUpTo(ps: seq<Piece>, k: nat, x: int): int
    requires Proper(ps) && k <= |ps| && 0 <= x < Start(ps, k)
  {
    if x >= Start(ps, k - 1) then ps[k - 1].member else OwnerUpTo(ps, k - 1, x)
  }

  lemma {:induction false} StartGrows(ps: seq<Piece>, j: nat, k: nat)
    requires Proper(ps) && j <= k <= |ps|
    ensures 0 <= Start(ps, j) <= Start(ps, k) && (j < k ==> Start(ps, j) + ps[j].amount <= Start(ps, k))
    decreases k
  {
    if j < k {
      StartGrows(ps, j, k - 1);
    } else if j > 0 {
      StartGrows(ps, j - 1, k - 1);
    }
  }

  lemma {:induction false} OwnerOf(ps: seq<Piece>, k: nat, j: nat, x: int)
    requires Proper(ps) && j < k <= |ps| && Start(ps, j) <= x < Start(ps, j) + ps[j].amount
    ensures 0 <= x < Start(ps, k) && OwnerUpTo(ps, k, x) == ps[j].member
    decreases k
  {
    StartGrows(ps, j, k);
    if j < k - 1 {
      StartGrows(ps, j, k - 1);
      OwnerOf(ps, k - 1, j, x);
    }
  }

  /** Of the first `n` units, those where the credit is of one member and the debt of another. */
  function Paired(debits: seq<Piece>, credits: seq<Piece>, n: nat, c: int, d: int): nat
    requires Proper(debits) && Proper(credits) && n <= Total(debits) && n <= Total(credits)
  {
    if n == 0 then 0
    else Paired(debits, credits, n - 1, c, d) + if Owner(credits, n - 1) == c && Owner(debits, n - 1) == d then 1 else 0
  }

  /** A stretch of units that belongs to one member on either side. */
  lemma {:induction false} PairedStretch(debits: seq<Piece>, credits: seq<Piece>, n: nat, m: nat, j: nat, k: nat,
                                         c: int, d: int)
    requires Proper(debits) && Proper(credits) && j < |debits| && k < |credits|
    requires Start(debits, j) <= n && n + m <= Start(debits, j) + debits[j].amount <= Total(debits)
    requires Start(credits, k) <= n && n + m <= Start(credits, k) + credits[k].amount <= Total(credits)
    ensures Paired(debits, credits, n + m, c, d) ==
            Paired(debits, credits, n, c, d) + if credits[k].member == c && debits[j].member == d then m else 0
  {
    if m > 0 {
      PairedStretch(debits, credits, n, m - 1, j, k, c, d);
      OwnerOf(debits, |debits|, j, n + m - 1);
      OwnerOf(credits, |credits|, k, n + m - 1);
    }
  }

  // ----- the pairing loop -----

  type Pairs = map<(int, int), int>

  function Amount(pairs: Pairs, c: int, d: int): int {
    if (c, d) in pairs then pairs[(c, d)] else 0
  }

  /** The pairs of different members hold, beyond what was there, the units they have in common among the first `n`. */
  ghost predicate PairedUp(before: Pairs, after: Pairs, debits: seq<Piece>, credits: seq<Piece>, n: nat)
    requires Proper(debits) && Proper(credits) && n <= Total(debits) && n <= Total(credits)
  {
    forall c, d :: Amount(after, c, d) == Amount(before, c, d) + if c != d then Paired(debits, credits, n, c, d) else 0
  }

  /** The unit the walk has come to, with what is left of the piece it stands in. */
  ghost predicate At(ps: seq<Piece>, k: nat, left: int, n: int) {
    k <= |ps| && (k < |ps| ==> 0 < left <= ps[k].amount && n == Start(ps, k) + ps[k].amount - left) &&
    (k == |ps| ==> n == Total(ps))
  }

  /** What is left of the piece at `k`, when there is one. */
  function First(ps: seq<Piece>, k: nat): int {
    if k < |ps| then ps[k].amount else 0
  }

  function AddPair(pairs: Pairs, c: int, d: int, m: int): Pairs {
    if m > 0 && c != d then pairs[(c, d) := Amount(pairs, c, d) + m] else pairs
  }

  lemma Advance(ps: seq<Piece>, k: nat, left: int, n: int, m: int)
    requires Proper(ps) && k < |ps| && At(ps, k, left, n) && 0 < m <= left
    ensures 0 <= n && n + m <= Start(ps, k) + ps[k].amount <= Total(ps) && Start(ps, k) <= n
    ensures if left - m <= 0 then At(ps, k + 1, First(ps, k + 1), n + m) else At(ps, k, left - m, n + m)
  {
    StartGrows(ps, k, |ps|);
    StartGrows(ps, k + 1, |ps|);
  }

  lemma PairStep(before: Pairs, pairs: Pairs, debits: seq<Piece>, credits: seq<Piece>, n: nat, m: nat, j: nat, k: nat)
    requires Proper(debits) && Proper(credits) && j < |debits| && k < |credits| && m > 0
    requires Start(debits, j) <= n && n + m <= Start(debits, j) + debits[j].amount <= Total(debits)
    requires Start(credits, k) <= n && n + m <= Start(credits, k) + credits[k].amount <= Total(credits)
    requires PairedUp(before, pairs, debits, credits, n)
    ensures PairedUp(before, AddPair(pairs, credits[k].member, debits[j].member, m), debits, credits, n + m)
  {
    forall c, d
      ensures Amount(AddPair(pairs, credits[k].member, debits[j].member, m), c, d) ==
              Amount(before, c, d) + if c != d then Paired(debits, credits, n + m, c, d) else 0
    {
      PairedStretch(debits, credits, n, m, j, k, c, d);
      assert Amount(pairs, c, d) == Amount(before, c, d) + if c != d then Paired(debits, credits, n, c, d) else 0;
    }
  }

  /**
   * The two-pointer loop of `net`: with as much debt as credit, each pair of different members gets exactly the units
   * they have in common when both lists are laid end to end.
   */
  method PairUp(debits: seq<Piece>, credits: seq<Piece>, before: Pairs) returns (pairs: Pairs)
    requires Proper(debits) && Proper(credits) && Total(debits) == Total(credits) >= 0
    ensures PairedUp(before, pairs, debits, credits, Total(debits))
  {
    pairs := before;
    var d, c := 0, 0;
    var dLeft, cLeft := First(debits, 0), First(credits, 0);
    ghost var n: nat := 0;
    while d < |debits| && c < |credits|
      invariant At(debits, d, dLeft, n) && At(credits, c, cLeft, n) && n <= Total(debits)
      invariant PairedUp(before, pairs, debits, credits, n)
      decreases Total(debits) - n
    {
      var m := Min(dLeft, cLeft);
      Advance(debits, d, dLeft, n, m);
      Advance(credits, c, cLeft, n, m);
      PairStep(before, pairs, debits, credits, n, m, d, c);
      pairs := AddPair(pairs, credits[c].member, debits[d].member, m);
      n := n + m;
      dLeft, cLeft := dLeft - m, cLeft - m;
      if dLeft <= 0 {
        d := d + 1;
        dLeft := First(debits, d);
      }
      if cLeft <= 0 {
        c := c + 1;
        cLeft := First(credits, c);
      }
    }
  }

  // ----- nothing is paired twice or left out -----

  /** Of the first `n` units, those of a member. */
  function Owned(ps: seq<Piece>, n: nat, member: int): nat
    requires Proper(ps) && n <= Total(ps)
  {
    if n == 0 then 0 else Owned(ps, n - 1, member) + if Owner(ps, n - 1) == member then 1 else 0
  }

  /** What was taken from the rows of a member. */
  function MemberTotal(ps: seq<Piece>, k: nat, member: int): int
    requires k <= |ps|
  {
    if k == 0 then 0 else MemberTotal(ps, k - 1, member) + if ps[k - 1].member == member then ps[k - 1].amount else 0
  }

  lemma {:induction false} OwnedStretch(ps: seq<Piece>, n: nat, m: nat, j: nat, member: int)
    requires Proper(ps) && j < |ps| && Start(ps, j) <= n && n + m <= Start(ps, j) + ps[j].amount <= Total(ps)
    ensures Owned(ps, n + m, member) == Owned(ps, n, member) + if ps[j].member == member then m else 0
  {
    if m > 0 {
      OwnedStretch(ps, n, m - 1, j, member);
      OwnerOf(ps, |ps|, j, n + m - 1);
    }
  }

  lemma {:induction false} OwnedIsTotal(ps: seq<Piece>, k: nat, member: int)
    requires Proper(ps) && k <= |ps|
    ensures 0 <= Start(ps, k) <= Total(ps) && Owned(ps, Start(ps, k), member) == MemberTotal(ps, k, member)
  {
    StartGrows(ps, k, |ps|);
    if k > 0 {
      OwnedIsTotal(ps, k - 1, member);
      OwnedStretch(ps, Start(ps, k - 1), ps[k - 1].amount, k - 1, member);
    }
  }

  /** What a member's credit paid of the debts of the listed members. */
  function PaidTo(debits: seq<Piece>, credits: seq<Piece>, n: nat, c: int, ds: seq<int>): int
    requires Proper(debits) && Proper(credits) && n <= Total(debits) && n <= Total(credits)
  {
    if ds == [] then 0
    else PaidTo(debits, credits, n, c, ds[..|ds| - 1]) + Paired(debits, credits, n, c, ds[|ds| - 1])
  }

  lemma {:induction false} PaidToStep(debits: seq<Piece>, credits: seq<Piece>, n: nat, c: int, ds: seq<int>)
    requires Proper(debits) && Proper(credits) && 0 < n <= Total(debits) && n <= Total(credits) && Distinct(ds)
    ensures PaidTo(debits, credits, n, c, ds) ==
            PaidTo(debits, credits, n - 1, c, ds) +
            if Owner(credits, n - 1) == c && Owner(debits, n - 1) in ds then 1 else 0
    decreases |ds|
  {
    if ds != [] {
      var init, last := ds[..|ds| - 1], ds[|ds| - 1];
      assert ds == init + [last] && last !in init;
      PaidToStep(debits, credits, n, c, init);
    }
  }

  lemma {:induction false} PaidToAll(debits: seq<Piece>, credits: seq<Piece>, n: nat, c: int, ds: seq<int>)
    requires Proper(debits) && Proper(credits) && n <= Total(debits) && n <= Total(credits) && Distinct(ds)
    requires forall j :: 0 <= j < |debits| ==> debits[j].member in ds
    ensures PaidTo(debits, credits, n, c, ds) == Owned(credits, n, c)
    decreases n
  {
    if n == 0 {
      PaidToNothing(debits, credits, c, ds);
    } else {
      PaidToAll(debits, credits, n - 1, c, ds);
      PaidToStep(debits, credits, n, c, ds);
      OwnerIsMember(debits, |debits|, n - 1);
    }
  }

  lemma {:induction false} PaidToNothing(debits: seq<Piece>, credits: seq<Piece>, c: int, ds: seq<int>)
    requires Proper(debits) && Proper(credits) && 0 <= Total(debits) && 0 <= Total(credits)
    ensures PaidTo(debits, credits, 0, c, ds) == 0
  {
    if ds != [] {
      PaidToNothing(debits, credits, c, ds[..|ds| - 1]);
    }
  }

  lemma {:induction false} OwnerIsMember(ps: seq<Piece>, k: nat, x: int)
    requires Proper(ps) && k <= |ps| && 0 <= x < Start(ps, k)
    ensures exists j :: 0 <= j < |ps| && ps[j].member == OwnerUpTo(ps, k, x)
  {
    if x < Start(ps, k - 1) {
      OwnerIsMember(ps, k - 1, x);
    }
  }

  /** Whatever a member's credit paid, over all the members whose debt was netted, is what was taken of its credit. */
  lemma CreditFullyPaired(debits: seq<Piece>, credits: seq<Piece>, c: int, ds: seq<int>)
    requires Proper(debits) && Proper(credits) && Total(debits) == Total(credits) >= 0 && Distinct(ds)
    requires forall j :: 0 <= j < |debits| ==> debits[j].member in ds
    ensures PaidTo(debits, credits, Total(debits), c, ds) == MemberTotal(credits, |credits|, c)
  {
    PaidToAll(debits, credits, Total(debits), c, ds);
    OwnedIsTotal(credits, |credits|, c);
  }

  lemma {:induction false} PairedSwaps(debits: seq<Piece>, credits: seq<Piece>, n: nat, c: int, d: int)
    requires Proper(debits) && Proper(credits) && n <= Total(debits) && n <= Total(credits)
    ensures Paired(debits, credits, n, c, d) == Paired(credits, debits, n, d, c)
  {
    if n > 0 {
      PairedSwaps(debits, credits, n - 1, c, d);
    }
  }

  /** The takes of a netting, by member, lie end to end over the same units on both sides: as many as were netted. */
  lemma NettingPieces(rem: seq<int>, debts: seq<nat>, credits: seq<nat>, cap: int, member: seq<int>)
    requires Queue(debts, |rem|) && Queue(credits, |rem|) && |member| == |rem| && cap >= 0
    ensures var m := Netting(rem, debts, credits, cap);
            var ds, cs := Pieces(Takes(rem, debts, Debts, m), member), Pieces(Takes(rem, credits, Credits, m), member);
            Proper(ds) && Proper(cs) && Total(ds) == Total(cs) == m
  {
    var m := Netting(rem, debts, credits, cap);
    TakesTotal(rem, debts, Debts, m, member);
    TakesTotal(rem, credits, Credits, m, member);
  }

  /** `net`, as far as the pairs go: the takes of both sides, paired. */
  method PairNetting(rem: seq<int>, debts: seq<nat>, credits: seq<nat>, cap: int, member: seq<int>, before: Pairs)
    returns (pairs: Pairs)
    requires Queue(debts, |rem|) && Queue(credits, |rem|) && |member| == |rem| && cap >= 0
    ensures var m := Netting(rem, debts, credits, cap);
            var ds, cs := Pieces(Takes(rem, debts, Debts, m), member), Pieces(Takes(rem, credits, Credits, m), member);
            Proper(ds) && Proper(cs) && Total(ds) == Total(cs) == m && PairedUp(before, pairs, ds, cs, m)
  {
    var m := Netting(rem, debts, credits, cap);
    NettingPieces(rem, debts, credits, cap, member);
    var debitTakes := AllocateFifo(rem, debts, Debts, m);
    var creditTakes := AllocateFifo(rem, credits, Credits, m);
    pairs := PairUp(Pieces(debitTakes, member), Pieces(creditTakes, member), before);
  }
}
