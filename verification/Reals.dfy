/** The exact reals that stand for the program's floating-point numbers. */
module Reals {
  function Abs(x: real): real { if x < 0.0 then -x else x }
  function Max(x: real, y: real): real { if x < y then y else x }
  function Min(x: real, y: real): real { if y < x then y else x }

  /** A change in per cent; a division by zero gives an infinity with its sign. */
  datatype Percent = Finite(pct: real) | Infinite(rising: bool)

  /** A product, by name, so that only the lemmas about it multiply. */
  function Times(x: real, y: real): real { x * y }

  lemma TimesOne(x: real)
    ensures Times(x, 1.0) == x
  {
  }

  lemma TimesReassociate(a: real, b: real, x: real)
    ensures Times(a, Times(b, x)) == Times(Times(a, b), x) == Times(Times(a, x), b)
  {
  }

  lemma TimesMinus(x: real, y: real, n: real)
    ensures Times(x - y, n) == Times(x, n) - Times(y, n)
  {
  }

  lemma TimesPositive(x: real, n: real)
    requires x > 0.0 && n > 0.0
    ensures Times(x, n) > 0.0
  {
  }

  /** A positive factor keeps the order. */
  lemma TimesOrder(x: real, y: real, n: real)
    requires n > 0.0
    ensures x < y <==> Times(x, n) < Times(y, n)
    ensures x == y ==> Times(x, n) == Times(y, n)
  {
    hide Times;
    TimesMinus(x, y, n);
    TimesMinus(y, x, n);
    if x < y {
      TimesPositive(y - x, n);
    } else if y < x {
      TimesPositive(x - y, n);
    }
  }
}
