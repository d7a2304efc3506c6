/**
 * Python's `int()` applied to a float: conversion to an integer that
 * truncates toward zero.  It is not the floor (`int(-2.5)` is -2, not -3)
 * and not rounding to the nearest integer (`int(1.75)` is 1, not 2).
 */
module PyInt {

  /** True when `n` is `r` with its fractional part dropped, i.e. moved toward zero. */
  predicate TruncatesTo(r: real, n: int) {
    if 0.0 <= r then 0 <= n && n as real <= r < n as real + 1.0
    else n <= 0 && n as real - 1.0 < r <= n as real
  }

  /** The value of Python's `int(r)` for a finite float `r`. */
  function Trunc(r: real): (n: int) {
    if 0.0 <= r then r.Floor else -((-r).Floor)
  }

  /** `Trunc` drops the fractional part, so it is always less than one away from its argument. */
  lemma TruncSpec(r: real)
    ensures TruncatesTo(r, Trunc(r))
    ensures -1.0 < r - Trunc(r) as real < 1.0
  {
  }

  /** The characterisation in `TruncatesTo` has exactly one solution, so `Trunc` is the only such conversion. */
  lemma TruncUnique(r: real, n: int)
    requires TruncatesTo(r, n)
    ensures n == Trunc(r)
  {
    TruncSpec(r);
  }

  /** Converting a float that already holds a whole number gives that number back. */
  lemma TruncOfWhole(k: int)
    ensures Trunc(k as real) == k
  {
    TruncUnique(k as real, k);
  }

  /** Truncation is symmetric about zero: `int(-r) == -int(r)`, which flooring is not. */
  lemma TruncOdd(r: real)
    ensures Trunc(-r) == -Trunc(r)
  {
    TruncUnique(-r, -Trunc(r));
  }

  /** Truncation never moves a value away from zero. */
  lemma TruncMagnitude(r: real)
    ensures 0.0 <= r ==> 0.0 <= Trunc(r) as real <= r
    ensures r <= 0.0 ==> r <= Trunc(r) as real <= 0.0
  {
    TruncSpec(r);
  }

  /** Truncation is monotone: a larger float never converts to a smaller integer. */
  lemma TruncMonotone(r: real, s: real)
    requires r <= s
    ensures Trunc(r) <= Trunc(s)
  {
    TruncSpec(r);
    TruncSpec(s);
  }
}
