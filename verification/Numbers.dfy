/** The smaller and the larger of two integers, and division with its remainder. */
module Numbers {

  function Max(a: int, b: int): (m: int)
    ensures m >= a && m >= b && (m == a || m == b)
  {
    if a >= b then a else b
  }

  function Min(a: int, b: int): (m: int)
    ensures m <= a && m <= b && (m == a || m == b)
  {
    if a <= b then a else b
  }

  lemma Divide(n: nat, d: nat, quotient: nat, remainder: nat)
    requires 0 < d && n == d * quotient + remainder && remainder < d
    ensures n / d == quotient && n % d == remainder
  {
    var difference := n / d - quotient;
    assert d * difference == remainder - n % d;
    assert difference >= 1 ==> d * difference >= d;
    assert difference <= -1 ==> d * difference + d <= 0;
  }
}
