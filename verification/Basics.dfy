/** Small notions that several models share. */
module Basics {

  newtype byte = x: int | 0 <= x < 256

  datatype Option<+T> = None | Some(value: T)

  function Min(a: nat, b: nat): nat { if a < b then a else b }

  function CeilDiv(a: nat, b: nat): nat
    requires b > 0
  {
    (a + b - 1) / b
  }

  function Sum(ns: seq<nat>): nat
    decreases ns
  {
    if ns == [] then 0 else Sum(ns[..|ns| - 1]) + ns[|ns| - 1]
  }

  lemma {:induction false} SumSnoc(ns: seq<nat>, k: nat)
    requires k < |ns|
    ensures Sum(ns[..k + 1]) == Sum(ns[..k]) + ns[k]
  {
    assert ns[..k + 1][..k] == ns[..k];
  }

  lemma {:induction false} SumPrefix(ns: seq<nat>, j: nat, k: nat)
    requires j <= k <= |ns|
    ensures Sum(ns[..j]) <= Sum(ns[..k])
  {
    if j < k {
      SumPrefix(ns, j, k - 1);
      SumSnoc(ns, k - 1);
    }
  }

  lemma {:induction false} MulOrder(a: int, b: int, c: nat)
    ensures a <= b ==> a * c <= b * c
    ensures a < b && c > 0 ==> a * c < b * c
  {
    if c > 0 {
      MulOrder(a, b, c - 1);
      MulStep(a, c);
      MulStep(b, c);
    }
  }

  lemma MulStep(a: int, c: int)
    ensures a * c == a * (c - 1) + a
  {
  }

  lemma DivUnique(n: nat, m: nat, q: nat)
    requires m > 0 && q * m <= n < (q + 1) * m
    ensures n / m == q
  {
    var p, r := n / m, n % m;
    assert n == p * m + r;
    MulOrder(p + 1, q, m);
    MulOrder(q + 1, p, m);
  }
}
