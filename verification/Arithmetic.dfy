/** The few facts about multiples and rounded-up quotients that schedules and row offsets need. */
module Arithmetic {

  function Min(a: int, b: int): int {
    if a < b then a else b
  }

  function CeilDiv(a: int, b: int): int
    requires b > 0
  {
    (a + b - 1) / b
  }

  lemma MulMonotone(m: int, n: int, b: int)
    requires m <= n && b >= 0
    ensures m * b <= n * b
  {
    assert n * b == m * b + (n - m) * b;
    assert (n - m) * b >= 0;
  }

  lemma CeilDivMeaning(a: int, b: int, n: int)
    requires b > 0
    ensures n >= CeilDiv(a, b) <==> n * b >= a
  {
    var q := CeilDiv(a, b);
    assert q * b <= a + b - 1 < q * b + b;
    if n >= q {
      MulMonotone(q, n, b);
    } else {
      MulMonotone(n, q - 1, b);
      assert (q - 1) * b == q * b - b;
    }
  }

  /** The step added up k times: deadline k of a schedule, or the size of k rows. */
  function Multiple(step: int, k: nat): int {
    if k == 0 then 0 else Multiple(step, k - 1) + step
  }

  lemma {:induction false} MultipleIsProduct(step: int, k: nat)
    ensures Multiple(step, k) == k * step
  {
    if k > 0 {
      MultipleIsProduct(step, k - 1);
      assert k * step == (k - 1) * step + step;
    }
  }

  lemma {:induction false} MultipleMonotone(step: int, k: nat, n: nat)
    requires step >= 0 && k <= n
    ensures Multiple(step, k) <= Multiple(step, n)
  {
    if k < n {
      MultipleMonotone(step, k, n - 1);
    }
  }

  /** The rounded-up quotient counts the multiples, from none on, that lie below a bound. */
  lemma MultiplesBelow(step: int, bound: int, k: nat)
    requires step > 0
    ensures Multiple(step, k) < bound <==> k < CeilDiv(bound, step)
  {
    MultipleIsProduct(step, k);
    CeilDivMeaning(bound, step, k);
  }
}
