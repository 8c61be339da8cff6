/** Facts about quotients and remainders that the solver does not find on its own. */
module Arith {

  lemma {:induction false} NoMultipleBetween(x: int, n: nat)
    requires n > 0
    ensures !(0 < x * n < n)
  {
    if x >= 1 {
      MulGe(x, n);
    } else {
      MulLe(x, n);
    }
  }

  lemma MulGe(x: int, n: nat)
    requires x >= 1
    ensures x * n >= n
  {
  }

  lemma MulLe(x: int, n: nat)
    requires x <= 0
    ensures x * n <= 0
  {
  }

  lemma MulAssoc(a: nat, b: nat, c: nat)
    ensures a * (b * c) == (a * b) * c
  {
  }

  lemma {:induction false} ModShift(r: nat, k: nat, num: nat)
    requires num > 0
    ensures (k * num + r) % num == r % num
  {
    if k > 0 {
      ModShift(r, k - 1, num);
      assert k * num + r == ((k - 1) * num + r) + num;
      ModPlus((k - 1) * num + r, num);
    }
  }

  lemma {:induction false} ModPlus(x: nat, num: nat)
    requires num > 0
    ensures (x + num) % num == x % num
  {
    var a, b := x / num, x % num;
    assert x + num == (a + 1) * num + b;
    ModUnique(x + num, a + 1, b, num);
  }

  lemma {:induction false} ModUnique(x: nat, a: nat, b: nat, num: nat)
    requires num > 0 && x == a * num + b && b < num
    ensures x % num == b
  {
    var q, r := x / num, x % num;
    assert x == q * num + r;
    assert (q - a) * num == b - r;
    NoMultipleBetween(q - a, num);
    assert (a - q) * num == r - b;
    NoMultipleBetween(a - q, num);
  }

  lemma {:induction false} DivUnique(x: nat, a: nat, b: nat, num: nat)
    requires num > 0 && x == a * num + b && b < num
    ensures x / num == a && x % num == b
  {
    ModUnique(x, a, b, num);
    var q := x / num;
    assert x == q * num + b;
    assert (q - a) * num == 0 && (a - q) * num == 0;
    if q > a {
      MulGe(q - a, num);
    } else if q < a {
      MulGe(a - q, num);
    }
  }

  /** Splitting off the lowest bit commutes with reducing modulo a multiple of two. */
  lemma {:induction false} ModHalf(v: nat, m: nat)
    requires m > 0
    ensures v % (2 * m) == v % 2 + 2 * (v / 2 % m)
  {
    var h := v / 2;
    var q, r := h / m, h % m;
    assert h == q * m + r;
    assert v == q * (2 * m) + (v % 2 + 2 * r);
    ModUnique(v, q, v % 2 + 2 * r, 2 * m);
  }
}
