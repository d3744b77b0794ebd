/** Octets, powers of two and the few arithmetic and sequence facts shared by the other modules. */
module Bytes {

  /** One octet, `uint8_t`. */
  type byte = x: int | 0 <= x < 256

  const UINT32_MAX: nat := 0xFFFF_FFFF

  /** `1 << k`. */
  function Pow2(k: nat): (r: nat)
    ensures r >= 1
  {
    if k == 0 then 1 else 2 * Pow2(k - 1)
  }

  lemma {:induction false} Pow2Add(a: nat, b: nat)
    ensures Pow2(a + b) == Pow2(a) * Pow2(b)
  {
    if a == 0 {
    } else {
      Pow2Add(a - 1, b);
      assert Pow2(a + b) == 2 * Pow2(a - 1 + b);
    }
  }

  lemma {:induction false} Pow2Monotone(a: nat, b: nat)
    requires a <= b
    ensures Pow2(a) <= Pow2(b)
    decreases b
  {
    if a < b {
      Pow2Monotone(a, b - 1);
    }
  }

  lemma Pow2Values()
    ensures Pow2(0) == 1 && Pow2(1) == 2 && Pow2(2) == 4 && Pow2(3) == 8 && Pow2(4) == 16
    ensures Pow2(5) == 32 && Pow2(6) == 64 && Pow2(7) == 128 && Pow2(8) == 256
  {
    assert Pow2(1) == 2 * Pow2(0);
    assert Pow2(2) == 2 * Pow2(1);
    assert Pow2(3) == 2 * Pow2(2);
    assert Pow2(4) == 2 * Pow2(3);
    assert Pow2(5) == 2 * Pow2(4);
    assert Pow2(6) == 2 * Pow2(5);
    assert Pow2(7) == 2 * Pow2(6);
    assert Pow2(8) == 2 * Pow2(7);
  }

  ghost predicate IsPow2(n: nat) {
    exists k: nat :: n == Pow2(k)
  }

  lemma Pow2Twice(n: nat)
    requires IsPow2(n)
    ensures IsPow2(2 * n)
  {
    var k: nat :| n == Pow2(k);
    assert 2 * n == Pow2(k + 1);
  }

  lemma DivDiv2(x: nat, p: nat)
    requires p >= 1
    ensures x / 2 / p == x / (2 * p)
    ensures x % (2 * p) == 2 * (x / 2 % p) + x % 2
  {
    var y := x / 2;
    var q, r := y / p, y % p;
    assert y == q * p + r && 0 <= r < p;
    var t := 2 * r + x % 2;
    assert x == 2 * y + x % 2 == q * (2 * p) + t && 0 <= t < 2 * p;
    DivUnique(x, 2 * p, q, t);
  }

  lemma SmallMultiple(k: int, d: int)
    requires d >= 1 && -d < k * d < d
    ensures k == 0
  {
    assert k >= 1 ==> k * d >= d;
    assert k <= -1 ==> k * d <= -d;
  }

  lemma MulMonotone(k: nat, a: nat, b: nat)
    requires a <= b
    ensures k * a <= k * b
  {
  }

  lemma DivAtMost(n: nat, d: nat, k: nat)
    requires d > 0 && n <= k * d
    ensures n / d <= k
  {
    if n / d > k {
      MulMonotone(d, k + 1, n / d);
    }
  }

  lemma DivUnique(x: nat, d: nat, q: nat, r: nat)
    requires d >= 1 && x == q * d + r && r < d
    ensures x / d == q && x % d == r
  {
    var q', r' := x / d, x % d;
    assert x == q' * d + r' && 0 <= r' < d;
    assert (q' - q) * d == q' * d - q * d == r - r';
    SmallMultiple(q' - q, d);
  }

  /** `x / d` and `x % d` of natural numbers. */
  function Quot(x: nat, d: nat): nat
    requires d > 0
  {
    x / d
  }

  function Rem(x: nat, d: nat): nat
    requires d > 0
  {
    x % d
  }

  lemma Decomposed(x: nat, d: nat)
    requires d > 0
    ensures x == (x / d) * d + x % d && 0 <= x % d < d && x / d >= 0
  {
  }

  /** `a & b`. */
  function BitAnd(a: nat, b: nat): (r: nat)
    ensures r <= a && r <= b
  {
    if a == 0 || b == 0 then 0 else 2 * BitAnd(a / 2, b / 2) + Min(a % 2, b % 2)
  }

  /** `x & (n - 1)` is the remainder if `n` is a power of two. */
  lemma BitAndMask(x: nat, n: nat)
    requires IsPow2(n)
    ensures n >= 1 && BitAnd(x, n - 1) == x % n
  {
    var k: nat :| n == Pow2(k);
    BitAndLow(x, k);
  }

  lemma {:induction false} BitAndLow(x: nat, k: nat)
    ensures BitAnd(x, Pow2(k) - 1) == x % Pow2(k)
    decreases k
  {
    if k > 0 {
      var p := Pow2(k - 1);
      BitAndOdd(x, p - 1);
      BitAndLow(x / 2, k - 1);
      DivDiv2(x, p);
    }
  }

  lemma BitAndOdd(x: nat, b: nat)
    ensures BitAnd(x, 2 * b + 1) == 2 * BitAnd(x / 2, b) + x % 2
  {
    assert (2 * b + 1) / 2 == b && (2 * b + 1) % 2 == 1;
  }

  lemma ConcatAssoc<T>(a: seq<T>, b: seq<T>, c: seq<T>)
    ensures (a + b) + c == a + (b + c)
  {
  }

  function Min(a: nat, b: nat): nat {
    if a < b then a else b
  }

  function Max(a: int, b: int): int {
    if a > b then a else b
  }
}
