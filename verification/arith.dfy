/** Facts about whole-fee division that the payment allocation relies on. */
module Arith {

  lemma MulNonneg(x: int, b: int)
    requires x >= 0 && b >= 0
    ensures x * b >= 0
  {
  }

  /** `q` is the quotient of `a` by `b` when `q * b <= a < (q + 1) * b`. */
  lemma DivUnique(a: int, b: int, q: int)
    requires b > 0 && q * b <= a < q * b + b
    ensures a / b == q
  {
    var d := a / b;
    assert d * b <= a < d * b + b;
    if d > q {
      MulNonneg(d - q - 1, b);
    } else if d < q {
      MulNonneg(q - d - 1, b);
    }
  }

  lemma DivNonneg(a: int, b: int)
    requires a >= 0 && b > 0
    ensures a / b >= 0
  {
  }

  /** Less than one fee is no whole fee. */
  lemma DivBelowOne(a: int, b: int)
    requires b > 0 && a < b
    ensures a / b <= 0
  {
    var q := a / b;
    assert q * b <= a;
    if q >= 1 {
      MulNonneg(q - 1, b);
    }
  }

  /** Paying one fee out of the remaining amount leaves one whole fee fewer. */
  lemma DivStep(a: int, b: int)
    requires b > 0 && a >= b
    ensures (a - b) / b == a / b - 1
  {
    var q := a / b;
    assert q * b <= a < q * b + b;
    assert (q - 1) * b == q * b - b;
    DivUnique(a - b, b, q - 1);
  }

  /** `k` whole fees fit in `a` exactly when `k <= a / b`. */
  lemma WholeFeesFit(a: int, b: int, k: nat)
    requires b > 0 && a >= 0 && k <= a / b
    ensures k * b <= a
  {
    var q := a / b;
    assert q * b <= a;
    MulNonneg(q - k, b);
    assert q * b - k * b == (q - k) * b;
  }

  /** How many whole fees `fee` can be paid one after another out of `amount`. */
  function WholeFees(amount: int, fee: int): nat
    requires fee > 0
    decreases amount
  {
    if amount < fee then 0 else 1 + WholeFees(amount - fee, fee)
  }

  /** Counting whole fees one by one is floor division. */
  lemma {:induction false} WholeFeesIsQuotient(amount: int, fee: int)
    requires fee > 0 && amount >= 0
    ensures WholeFees(amount, fee) == amount / fee
    decreases amount
  {
    if amount < fee {
      DivUnique(amount, fee, 0);
    } else {
      WholeFeesIsQuotient(amount - fee, fee);
      DivStep(amount, fee);
    }
  }

  /** Whole fees paid out of an amount leave exactly the remainder. */
  lemma QuotientTimesFee(a: int, b: int)
    requires b > 0
    ensures b * (a / b) == a - a % b
  {
  }

  /** At least one fee costs at least one fee. */
  lemma AtLeastOneFee(b: int, k: int)
    requires b > 0 && k >= 1
    ensures b <= b * k
  {
    MulNonneg(b, k - 1);
    assert b * k == b * (k - 1) + b;
  }
}
