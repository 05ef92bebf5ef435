/** Unsigned division with the facts the proofs need about it. */
module Arith {
  function Quot(a: nat, b: nat): (q: nat)
    requires b > 0
    ensures q * b <= a < q * b + b
  {
    a / b
  }

  lemma {:induction false} MulMono(a: nat, b: nat, n: nat)
    requires a <= b
    ensures a * n <= b * n
    decreases b - a
  {
    if a < b {
      MulMono(a, b - 1, n);
      assert b * n == (b - 1) * n + n;
    }
  }

  /** `q` whole parts of size `b` fit into `a`. */
  lemma QuotAtLeast(a: nat, b: nat, q: nat)
    requires b > 0
    ensures q <= Quot(a, b) <==> q * b <= a
  {
    var p := Quot(a, b);
    if q <= p {
      MulMono(q, p, b);
    } else {
      MulMono(p + 1, q, b);
      assert (p + 1) * b == p * b + b;
    }
  }

  lemma QuotExact(a: nat, b: nat)
    requires b > 0
    ensures Quot(a, b) * b == a <==> a % b == 0
  {
    assert a == b * (a / b) + a % b;
  }

  lemma MulCompare(a: nat, b: nat, n: nat)
    requires n > 0
    ensures a <= b <==> a * n <= b * n
  {
    if a <= b {
      MulMono(a, b, n);
    } else {
      MulMono(b + 1, a, n);
      assert (b + 1) * n == b * n + n;
    }
  }

  /** Division is the only number with its defining property. */
  lemma QuotUnique(a: nat, b: nat, q: nat)
    requires b > 0 && q * b <= a < q * b + b
    ensures Quot(a, b) == q
  {
    var p := Quot(a, b);
    if p < q {
      MulMono(p + 1, q, b);
    } else if q < p {
      MulMono(q + 1, p, b);
    }
  }
}
