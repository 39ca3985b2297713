// Word size, products and quotients.
module Arith {
  const UINT32 := 0x1_0000_0000

  lemma MulGrows(x: int, y: int, p: nat)
    requires x <= y
    ensures x * p <= y * p
  {
  }

  lemma QuotientOf(n: nat, p: nat, q: nat, r: nat)
    requires p > 0 && r < p && n == q * p + r
    ensures n / p == q && n % p == r
  {
    assert n / p * p + n % p == n;
    if n / p < q { MulGrows(n / p + 1, q, p); }
    if q < n / p { MulGrows(q + 1, n / p, p); }
  }

  lemma OncePast(n: nat, p: nat)
    requires p > 0
    ensures (n + p) / p == n / p + 1 && (n + p) % p == n % p
  {
    assert n == n / p * p + n % p;
    QuotientOf(n + p, p, n / p + 1, n % p);
  }

  // m more make it past the next multiple of p exactly when they fill up the remainder.
  lemma NextMultiple(n: nat, m: nat, p: nat)
    requires p > 0
    ensures (n + m) / p > n / p <==> n % p + m >= p
  {
    var (k, q, r) := (n + m, n / p, n % p);
    var (q', r') := (k / p, k % p);
    assert n == q * p + r && k == q' * p + r';
    if q' > q { MulGrows(q + 1, q', p); } else { MulGrows(q', q, p); }
  }

  function Power2(k: nat): nat { if k == 0 then 1 else 2 * Power2(k - 1) }

  lemma SmallPowers()
    ensures Power2(1) == 2 && Power2(2) == 4 && Power2(3) == 8 && Power2(4) == 16 && Power2(5) == 32 && Power2(6) == 64
    ensures Power2(7) == 128 && Power2(8) == 256 && Power2(9) == 512 && Power2(10) == 1024 && Power2(12) == 4096
  {
    assert Power2(2) == 4 && Power2(4) == 16 && Power2(6) == 64 && Power2(8) == 256 && Power2(10) == 1024;
  }

  // The bitwise "or", bit by bit.
  function Or(a: nat, b: nat): nat {
    if a == 0 && b == 0 then 0 else 2 * Or(a / 2, b / 2) + (if a % 2 == 1 || b % 2 == 1 then 1 else 0)
  }

  lemma {:induction false} OrZero(a: nat)
    ensures Or(a, 0) == a
  {
    if a > 0 { OrZero(a / 2); }
  }

  // Setting bits below a multiple of a power of two adds them.
  lemma {:induction false} OrIsSum(q: nat, a: nat, b: nat, k: nat)
    requires a == q * Power2(k) && b < Power2(k)
    ensures Or(a, b) == a + b
    decreases k
  {
    if k == 0 {
      OrZero(a);
    } else {
      assert a == 2 * (q * Power2(k - 1));
      OrIsSum(q, a / 2, b / 2, k - 1);
    }
  }
}
