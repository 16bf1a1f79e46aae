/** Rounding up, as batch and chunk counts do. */
module Arithmetic {

  function Min(a: int, b: int): int {
    if a < b then a else b
  }

  /** The number of quanta of `size` needed for `n` items. */
  function CeilDiv(n: nat, size: nat): nat
    requires size > 0
  {
    if n == 0 then 0 else if n <= size then 1 else 1 + CeilDiv(n - size, size)
  }

  lemma {:induction false} CeilDivBounds(n: nat, size: nat)
    requires size > 0
    ensures var q := CeilDiv(n, size); n <= q * size && (q > 0 ==> (q - 1) * size < n)
  {
    if n > size {
      CeilDivBounds(n - size, size);
    }
  }

  /** Taking one quantum away takes one from the count. */
  lemma CeilDivStep(n: nat, size: nat)
    requires size > 0
    ensures CeilDiv(if n < size then 0 else n - size, size) == if n == 0 then 0 else CeilDiv(n, size) - 1
  {
  }

  lemma {:induction false} CeilDivMonotone(a: nat, b: nat, size: nat)
    requires size > 0 && a <= b
    ensures CeilDiv(a, size) <= CeilDiv(b, size)
  {
    if a > size {
      CeilDivMonotone(a - size, b - size, size);
    }
  }
}
