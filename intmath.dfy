/** Integer facts the mesh arithmetic relies on: powers of two and Euclidean division. */
module IntMath {

  /** 2 raised to the k-th power. */
  function Pow2(k: nat): (r: nat)
    ensures r >= 1
  {
    if k == 0 then 1 else 2 * Pow2(k - 1)
  }

  /** Mathf.IsPowerOfTwo on a positive argument: n is 1, or an even number whose half is a power of two. */
  predicate IsPowerOfTwo(n: int)
  {
    n == 1 || (n > 1 && n % 2 == 0 && IsPowerOfTwo(n / 2))
  }

  /** The exponent of a power of two. */
  function Log2(n: int): (k: nat)
    requires IsPowerOfTwo(n)
    ensures Pow2(k) == n
  {
    if n == 1 then 0 else 1 + Log2(n / 2)
  }

  lemma {:induction false} Pow2IsPowerOfTwo(k: nat)
    ensures IsPowerOfTwo(Pow2(k))
  {
    if k > 0 {
      Pow2IsPowerOfTwo(k - 1);
      assert Pow2(k) / 2 == Pow2(k - 1);
    }
  }

  /** The recursive test agrees with the mathematical definition "n == 2^k for some k". */
  lemma PowerOfTwoIff(n: int)
    ensures IsPowerOfTwo(n) <==> exists k: nat :: Pow2(k) == n
  {
    if IsPowerOfTwo(n) {
      var k := Log2(n);
      assert Pow2(k) == n;
    } else {
      forall k: nat
        ensures Pow2(k) != n
      {
        Pow2IsPowerOfTwo(k);
      }
    }
  }

  lemma {:induction false} Pow2Add(a: nat, b: nat)
    ensures Pow2(a + b) == Pow2(a) * Pow2(b)
  {
    if a > 0 {
      Pow2Add(a - 1, b);
      assert Pow2(a + b) == 2 * Pow2(a - 1 + b);
    }
  }

  lemma {:induction false} Pow2Monotone(a: nat, b: nat)
    requires a <= b
    ensures Pow2(a) <= Pow2(b)
  {
    if a < b {
      Pow2Monotone(a, b - 1);
    }
  }

  /** Euclidean division undoes q * d + r when the remainder r lies in [0, d). */
  lemma DivMod(q: int, d: int, r: int)
    requires d > 0 && 0 <= r < d
    ensures (q * d + r) / d == q
    ensures (q * d + r) % d == r
  {
    var n := q * d + r;
    var q', r' := n / d, n % d;
    assert n == q' * d + r';
    assert (q - q') * d == r' - r;
    if q > q' {
      MulMonotone(1, q - q', d);
    } else if q < q' {
      MulMonotone(1, q' - q, d);
    }
  }

  lemma Pow2Div(a: nat, b: nat)
    requires b <= a
    ensures Pow2(a) / Pow2(b) == Pow2(a - b)
    ensures Pow2(a) % Pow2(b) == 0
  {
    Pow2Add(a - b, b);
    DivMod(Pow2(a - b), Pow2(b), 0);
  }

  lemma MulMonotone(a: int, b: int, c: int)
    requires a <= b && c >= 0
    ensures a * c <= b * c
  {
    assert b * c - a * c == (b - a) * c;
  }

  lemma MulSucc(a: int, b: int)
    ensures (a - 1) * b + b == a * b
    ensures b * a == a * b
  {
  }

  /** c steps of size step fit into span exactly when c does not exceed span / step. */
  lemma StepCount(span: int, step: int, c: int)
    requires span >= 0 && step > 0 && c >= 0
    ensures c * step <= span <==> c <= span / step
  {
    var q := span / step;
    assert span == q * step + span % step;
    if c <= q {
      MulMonotone(c, q, step);
    } else {
      MulMonotone(q + 1, c, step);
    }
  }
}
