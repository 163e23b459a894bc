/**
 * The game's only source of randomness is `Math.floor(Math.random() * n)`. A value of
 * `Math.random()` is a fraction in [0, 1); it is passed in as a Roll, so every random choice
 * becomes an argument and the rules stay deterministic.
 */
module Chance {

  /** A draw of `Math.random()`: the fraction num / den, which lies in [0, 1). */
  datatype Roll = Roll(num: nat, den: nat)

  predicate ValidRoll(r: Roll)
  {
    r.num < r.den
  }

  predicate ValidRolls(rs: seq<Roll>)
  {
    forall k :: 0 <= k < |rs| ==> ValidRoll(rs[k])
  }

  /** `Math.floor(Math.random() * n)`: an index into a list of length n. */
  function Pick(r: Roll, n: nat): (i: nat)
    requires ValidRoll(r)
    ensures n > 0 ==> i < n
    ensures n == 0 ==> i == 0
  {
    ScaledFloorBelow(r.num, r.den, n);
    r.num * n / r.den
  }

  /** Scaling a fraction below one by n and rounding down gives an index below n. */
  lemma ScaledFloorBelow(num: nat, den: nat, n: nat)
    requires num < den
    ensures n > 0 ==> num * n / den < n
    ensures n == 0 ==> num * n / den == 0
  {
    if n > 0 {
      var q, r := num * n / den, num * n % den;
      assert den * q + r == num * n;
      MulMono(num + 1, den, n);
      assert (num + 1) * n == num * n + n;
      if q >= n {
        MulMono(n, q, den);
        assert false;
      }
    } else {
      assert num * n == 0;
    }
  }

  lemma MulMono(a: nat, b: nat, c: nat)
    requires a <= b
    ensures a * c <= b * c
  {
  }
}
