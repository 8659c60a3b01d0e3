/** Powers of two, for block sizes and bit widths, and the division they take part in. */
module Powers {
  function Pow2(n: nat): (power: nat)
    ensures power > 0
  {
    if n == 0 then 1 else 2 * Pow2(n - 1)
  }

  lemma MulLe(a: int, b: int, c: nat)
    requires a <= b
    ensures a * c <= b * c
  {
  }

  lemma MulAdd(a: int, b: int, c: int)
    ensures (a + b) * c == a * c + b * c
  {
  }

  lemma MulAssoc(a: int, b: int, c: int)
    ensures (a * b) * c == a * (b * c)
  {
  }

  /** A quotient and remainder that fit are the quotient and the remainder. */
  lemma DivModUnique(n: nat, size: nat, q: nat, r: nat)
    requires size > 0 && r < size && n == q * size + r
    ensures n / size == q && n % size == r
  {
    var q' := n / size;
    assert n == q' * size + n % size;
    if q' < q {
      MulLe(q' + 1, q, size);
      MulAdd(q', 1, size);
    } else if q' > q {
      MulLe(q + 1, q', size);
      MulAdd(q, 1, size);
    }
  }
}
