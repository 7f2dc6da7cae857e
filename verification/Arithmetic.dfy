/** Division with remainder, without leaving products and remainders to the solver. */
module Arithmetic {

  lemma {:induction false} ProductsGrow(size: nat, p: int, q: int)
    requires p < q
    ensures size * p + size <= size * q
    decreases q - p
  {
    assert size * q == size * (q - 1) + size;
    if p + 1 < q {
      ProductsGrow(size, p, q - 1);
    }
  }

  /** Division with remainder is unique. */
  lemma Quotient(size: nat, q: int, r: nat)
    requires r < size
    ensures (size * q + r) / size == q && (size * q + r) % size == r
  {
    var x := size * q + r;
    assert x == size * (x / size) + x % size;
    if x / size < q {
      ProductsGrow(size, x / size, q);
    } else if q < x / size {
      ProductsGrow(size, q, x / size);
    }
  }

  lemma Divided(x: int, n: nat)
    requires n > 0
    ensures x == n * (x / n) + x % n && 0 <= x % n < n
  {
  }

  /** The remainder of a number that is less than twice the divisor. */
  lemma WrapsOnce(x: nat, n: nat)
    requires n > 0 && x < 2 * n
    ensures x % n == if x < n then x else x - n
  {
    if x < n {
      Quotient(n, 0, x);
    } else {
      Quotient(n, 1, x - n);
    }
  }

  /** Taking a remainder early does not change the later one. */
  lemma WrapsTwice(x: int, y: int, n: nat)
    requires n > 0
    ensures (x % n + y) % n == (x + y) % n
  {
    var p, q := x / n, (x + y) / n;
    assert x == n * p + x % n;
    assert x + y == n * q + (x + y) % n;
    assert n * (q - p) == n * q - n * p;
    Quotient(n, q - p, (x + y) % n);
  }
}
