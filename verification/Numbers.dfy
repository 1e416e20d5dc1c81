/** Integers as the services use them: the largest safe integer, rounding up, and products. */
module Numbers {

  const MAX_SAFE_INTEGER: int := 9007199254740991

  function Nat(v: int): nat { if v < 0 then 0 else v }

  function CeilDiv(a: int, b: int): int
    requires 0 < b
  {
    (a + b - 1) / b
  }

  lemma CeilCovers(a: int, b: int)
    requires 0 < b
    ensures (CeilDiv(a, b) - 1) * b < a <= CeilDiv(a, b) * b
  {
    var q := (a + b - 1) / b;
    assert q * b <= a + b - 1 < q * b + b;
    assert (q - 1) * b == q * b - b;
  }

  lemma Multiples(unit: int, a: int, b: int)
    requires 0 < unit
    ensures a <= b ==> a * unit <= b * unit
  {
    if a <= b {
      assert (b - a) * unit >= 0;
    }
  }
}
