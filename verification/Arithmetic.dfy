/** Division and remainder by a variable. */
module Arithmetic {

  lemma {:induction false} MultipleIsFar(d: int, b: int)
    requires d != 0 && 0 < b
    ensures if d > 0 then b <= d * b else d * b <= -b
    decreases if d > 0 then d else -d
  {
    if d > 1 {
      MultipleIsFar(d - 1, b);
      assert d * b == (d - 1) * b + b;
    } else if d < -1 {
      MultipleIsFar(d + 1, b);
      assert d * b == (d + 1) * b - b;
    }
  }

  /** Quotient and remainder are unique. */
  lemma DivUnique(a: int, b: int, q: int, r: int)
    requires 0 <= r < b && a == q * b + r
    ensures a / b == q && a % b == r
  {
    var p := a / b;
    assert a == p * b + a % b;
    assert (p - q) * b == p * b - q * b;
    if p != q { MultipleIsFar(p - q, b); }
  }

  lemma DivStep(a: int, b: int)
    requires 0 < b
    ensures a / b == (a - b) / b + 1
  {
    var q, r := (a - b) / b, (a - b) % b;
    assert a - b == q * b + r;
    assert (q + 1) * b == q * b + b;
    DivUnique(a, b, q + 1, r);
  }

  lemma DivMod(k: nat, n: nat)
    requires 0 < n
    ensures k == k / n * n + k % n && 0 <= k % n < n && 0 <= k / n
  {
  }

  lemma MulMonotonic(a: nat, q: nat, b: nat)
    requires a <= q
    ensures a * b <= q * b
  {
  }

  lemma Gap(p: nat, q: nat, b: nat)
    requires p < q
    ensures p * b + b <= q * b
  {
    MulMonotonic(p + 1, q, b);
    assert (p + 1) * b == p * b + b;
  }

  lemma NextRemainder(i: nat, n: nat)
    requires 0 < n
    ensures (i + 1) % n == if i % n + 1 == n then 0 else i % n + 1
    ensures (i + 1) / n == if i % n + 1 == n then i / n + 1 else i / n
  {
    var q, r := i / n, i % n;
    DivMod(i, n);
    if r + 1 == n {
      assert (q + 1) * n == q * n + n;
      DivUnique(i + 1, n, q + 1, 0);
    } else {
      DivUnique(i + 1, n, q, r + 1);
    }
  }

  lemma RemainderStep(a: int, b: int)
    requires 0 < b
    ensures (a - b) % b == a % b
  {
    var q, r := a / b, a % b;
    assert (q - 1) * b == q * b - b;
    DivUnique(a - b, b, q - 1, r);
  }

  lemma SmallRemainder(a: nat, b: nat)
    requires a < b
    ensures a % b == a
  {
    DivUnique(a, b, 0, a);
  }
}
