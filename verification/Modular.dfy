// Minimum, quotients and remainders.
module Modular {

  function Min(a: int, b: int): int {
    if a < b then a else b
  }

  lemma {:induction false} MulMonotone(a: nat, b: nat, k: nat)
    ensures a <= b ==> a * k <= b * k
  {
    if a <= b {
      assert b * k == a * k + (b - a) * k;
    }
  }

  lemma {:induction false} DivModUnique(a: nat, k: nat, q: nat, r: nat)
    requires k > 0 && a == q * k + r && r < k
    ensures a / k == q && a % k == r
  {
    var d := a / k;
    assert a == d * k + a % k;
    MulMonotone(d + 1, q, k);
    MulMonotone(q + 1, d, k);
  }

  lemma {:induction false} NextMultiple(q: nat, k: nat)
    ensures (q + 1) * k == q * k + k
  {
  }

  lemma {:induction false} DivModPlus(n: nat, k: nat, x: nat)
    requires k > 0 && x <= k
    ensures n % k + x < k ==> (n + x) / k == n / k && (n + x) % k == n % k + x
    ensures n % k + x >= k ==> (n + x) / k == n / k + 1 && (n + x) % k == n % k + x - k
  {
    CarryOnce(n, k, x, n / k, n % k);
  }

  lemma {:induction false} CarryOnce(n: nat, k: nat, x: nat, q: nat, r: nat)
    requires k > 0 && x <= k && n == q * k + r && r < k
    ensures r + x < k ==> (n + x) / k == q && (n + x) % k == r + x
    ensures r + x >= k ==> (n + x) / k == q + 1 && (n + x) % k == r + x - k
  {
    if r + x < k {
      DivModUnique(n + x, k, q, r + x);
    } else {
      NextMultiple(q, k);
      DivModUnique(n + x, k, q + 1, r + x - k);
    }
  }

  lemma {:induction false} Distribute(p: nat, q: nat, m: nat)
    ensures (p + q) * m == p * m + q * m
  {
  }

  lemma {:induction false} ModShift(a: nat, c: nat, m: nat)
    requires m > 0
    ensures (a + c) % m == (a % m + c) % m
  {
    ShiftParts(a, c, m, a / m, a % m, (a % m + c) / m, (a % m + c) % m);
  }

  lemma {:induction false} ShiftParts(a: nat, c: nat, m: nat, q: nat, r: nat, q': nat, r': nat)
    requires m > 0 && a == q * m + r && r + c == q' * m + r' && r' < m
    ensures (a + c) % m == r'
  {
    Distribute(q, q', m);
    DivModUnique(a + c, m, q + q', r');
  }

  lemma {:induction false} ModAdd(a: nat, b: nat, c: nat, m: nat)
    requires m > 0 && a % m == b % m
    ensures (a + c) % m == (b + c) % m
  {
    ModShift(a, c, m);
    ModShift(b, c, m);
  }

  // Within less than one turn, equal remainders are the same position.
  lemma {:induction false} ModApart(s: nat, a: nat, b: nat, m: nat)
    requires m > 0 && a <= b < a + m && (s + a) % m == (s + b) % m
    ensures a == b
  {
    DivModPlus(s + a, m, b - a);
    assert (s + a) + (b - a) == s + b;
  }
}
