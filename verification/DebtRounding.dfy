/** README.md, debt repayment in LBP: the fractional dollar is settled by its rounded LBP price. Amounts are exact. */
module DebtRounding {

  function Ceil(x: real): int {
    -(-x).Floor
  }

  function Fraction(debt: real): real {
    debt - debt.Floor as real
  }

  /** An LBP amount rounded up to whole 5,000 LBP notes. */
  function RoundedUp(lbp: real): real {
    5000.0 * Ceil(lbp / 5000.0) as real
  }

  /** The LBP price the fractional part is displayed at. */
  function DisplayedLbp(debt: real, rate: real): real {
    RoundedUp(Fraction(debt) * rate)
  }

  predicate Snaps(debt: real, rate: real, paid: real) {
    paid > 0.0 && Distance(paid, DisplayedLbp(debt, rate)) < 1000.0
  }

  function Reduction(debt: real, rate: real, paid: real): real
    requires rate > 0.0
  {
    if paid <= 0.0 then 0.0 else if Snaps(debt, rate, paid) then Fraction(debt) else paid / rate
  }

  method RepayLbp(totalDebt: real, rate: real, paidLbp: real) returns (debtReductionUsd: real)
    requires rate > 0.0
    ensures debtReductionUsd == Reduction(totalDebt, rate, paidLbp)
  {
    debtReductionUsd := 0.0;
    var fractionalDebt := Fraction(totalDebt);
    if paidLbp > 0.0 {
      var rounded := DisplayedLbp(totalDebt, rate);
      var gap := Distance(paidLbp, rounded);
      if gap < 1000.0 {
        debtReductionUsd := debtReductionUsd + fractionalDebt;
      } else {
        debtReductionUsd := debtReductionUsd + paidLbp / rate;
      }
    }
  }

  /** `Math.abs(a - b)`. */
  function Distance(a: real, b: real): real {
    if a >= b then a - b else b - a
  }

  /** What the shop keeps of a payment beyond the debt it removes, in LBP. */
  function Gain(debt: real, rate: real, paid: real): real
    requires rate > 0.0
  {
    paid - rate * Reduction(debt, rate, paid)
  }

  lemma CeilBounds(x: real)
    ensures x <= Ceil(x) as real < x + 1.0
  {
  }

  /** A snapped payment leaves the whole dollars, at a gain above -1000 and below 6000 LBP; any other gains nothing. */
  lemma PaymentOutcome(debt: real, rate: real, paid: real)
    requires rate > 0.0 && paid > 0.0
    ensures Snaps(debt, rate, paid) ==>
              debt - Reduction(debt, rate, paid) == debt.Floor as real && -1000.0 < Gain(debt, rate, paid) < 6000.0
    ensures !Snaps(debt, rate, paid) ==> Gain(debt, rate, paid) == 0.0
  {
    var lbp := Fraction(debt) * rate;
    RoundedUpBounds(lbp);
    assert rate * Fraction(debt) == lbp;
    if !Snaps(debt, rate, paid) {
      assert rate * (paid / rate) == paid;
    }
  }

  lemma RoundedUpBounds(lbp: real)
    ensures lbp <= RoundedUp(lbp) < lbp + 5000.0
  {
    CeilBounds(lbp / 5000.0);
  }

  /** The least whole number of 5000 LBP notes that is worth the amount. */
  predicate RoundsUpTo(lbp: real, notes: int) {
    5000.0 * (notes - 1) as real < lbp <= 5000.0 * notes as real
  }

  lemma RoundedNotes(lbp: real, notes: int)
    requires RoundsUpTo(lbp, notes)
    ensures Ceil(lbp / 5000.0) == notes
  {
    CeilBounds(lbp / 5000.0);
  }

  /** A payment snaps exactly when it is less than 1000 LBP from the price of the fraction rounded up to whole notes. */
  lemma SnapsIff(debt: real, rate: real, paid: real, notes: int)
    requires RoundsUpTo((debt - debt.Floor as real) * rate, notes)
    ensures Snaps(debt, rate, paid) <==> paid > 0.0 && -1000.0 < paid - 5000.0 * notes as real < 1000.0
  {
    RoundedNotes(Fraction(debt) * rate, notes);
  }

  /** The worked example: 262.95 USD owed, at 89000 LBP for a dollar; 85000 LBP leave 262 USD and a gain of 450 LBP. */
  lemma WorkedExample()
    ensures Snaps(262.95, 89000.0, 85000.0) && 262.95 - Reduction(262.95, 89000.0, 85000.0) == 262.0
    ensures Gain(262.95, 89000.0, 85000.0) == 450.0
  {
    assert 262.95.Floor == 262;
    assert RoundsUpTo(0.95 * 89000.0, 17);
    SnapsIff(262.95, 89000.0, 85000.0, 17);
  }

  datatype Ledger = Ledger(debt: real, received: real, reduced: real, gained: real, snapped: nat)

  function Pay(l: Ledger, rate: real, paid: real): Ledger
    requires rate > 0.0
  {
    var r := Reduction(l.debt, rate, paid);
    Ledger(l.debt - r, l.received + paid, l.reduced + r, l.gained + Gain(l.debt, rate, paid),
           l.snapped + if Snaps(l.debt, rate, paid) then 1 else 0)
  }

  function PayAll(debt: real, rate: real, payments: seq<real>): Ledger
    requires rate > 0.0
  {
    if payments == [] then Ledger(debt, 0.0, 0.0, 0.0, 0)
    else Pay(PayAll(debt, rate, payments[..|payments| - 1]), rate, payments[|payments| - 1])
  }

  predicate Balanced(debt: real, rate: real, l: Ledger) {
    l.received == rate * l.reduced + l.gained && l.debt == debt - l.reduced &&
    -1000.0 * l.snapped as real <= l.gained <= 6000.0 * l.snapped as real
  }

  lemma PayConserves(debt: real, rate: real, l: Ledger, paid: real)
    requires rate > 0.0 && paid > 0.0 && Balanced(debt, rate, l)
    ensures Balanced(debt, rate, Pay(l, rate, paid))
  {
    var r, g := Reduction(l.debt, rate, paid), Gain(l.debt, rate, paid);
    PaymentOutcome(l.debt, rate, paid);
    Distribute(rate, l.reduced, r);
    assert paid == rate * r + g;
  }

  lemma Distribute(a: real, x: real, y: real)
    ensures a * (x + y) == a * x + a * y
  {
  }

  /**
   * Over every sequence of payments: the LBP received is the rate times the debt removed plus the shop's gain, the debt
   * is what was owed less what was removed, and the gain stays between -1000 and 6000 LBP for each snapped payment.
   */
  lemma {:induction false} Conservation(debt: real, rate: real, payments: seq<real>)
    requires rate > 0.0 && forall i :: 0 <= i < |payments| ==> payments[i] > 0.0
    ensures Balanced(debt, rate, PayAll(debt, rate, payments))
  {
    if payments != [] {
      var n := |payments| - 1;
      var l := PayAll(debt, rate, payments[..n]);
      Conservation(debt, rate, payments[..n]);
      PayConserves(debt, rate, l, payments[n]);
    }
  }
}
