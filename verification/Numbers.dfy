/** The integer arithmetic that the models share. */
module Numbers {
  type Positive = n: int | n >= 1 witness 1

  function Min(a: nat, b: nat): (r: nat)
    ensures r <= a && r <= b && (r == a || r == b)
  {
    if a < b then a else b
  }

  function Max(a: int, b: int): (r: int)
    ensures r >= a && r >= b && (r == a || r == b)
  {
    if a < b then b else a
  }

  function Magnitude(n: int): nat {
    if n < 0 then -n else n
  }

  /** m * 2^k, as `m << k`. */
  function Shift(m: int, k: nat): int {
    if k == 0 then m else 2 * Shift(m, k - 1)
  }

  lemma {:induction false} ShiftIsZero(m: int, k: nat)
    ensures Shift(m, k) == 0 <==> m == 0
  {
    if k > 0 {
      ShiftIsZero(m, k - 1);
    }
  }
}
