/** Bit fields of a word by arithmetic: a field of m values at the low end, the rest
    of the word above it. */
module Bits {

  function Above(m: nat, field: nat, rest: nat): nat {
    field + m * rest
  }

  /** What is above a field of m values. */
  function Rest(m: nat, w: nat): nat
    requires 0 < m
  {
    w / m
  }

  /** A field and what is above it can both be read back. */
  lemma Split(m: nat, field: nat, rest: nat)
    requires field < m
    ensures Above(m, field, rest) % m == field && Above(m, field, rest) / m == rest
  {
    var w := Above(m, field, rest);
    var q := w / m;
    assert w == m * q + w % m;
    if q < rest { NextMultiple(m, q, rest); }
    if rest < q { NextMultiple(m, rest, q); }
  }

  lemma NextMultiple(m: nat, x: nat, y: nat)
    requires x < y
    ensures m * x + m <= m * y
  {
    var d := y - x - 1;
    assert m * y == m * x + m + m * d;
  }

  /** Every word is a field and what is above it. */
  lemma Joined(m: nat, w: nat)
    requires 0 < m
    ensures Above(m, w % m, w / m) == w
  {
  }

  /** What is above decides first, then the field. */
  lemma AboveOrder(m: nat, f: nat, x: nat, g: nat, y: nat)
    requires f < m && g < m
    ensures Above(m, f, x) < Above(m, g, y) <==> x < y || (x == y && f < g)
  {
    if x < y { NextMultiple(m, x, y); }
    if y < x { NextMultiple(m, y, x); }
  }

  /** A word below p * m has a rest below p. */
  lemma AboveBound(m: nat, f: nat, x: nat, p: nat)
    requires f < m && x < p
    ensures Above(m, f, x) < p * m
  {
    NextMultiple(m, x, p);
  }

  function Pow2(n: nat): (r: nat)
    ensures r >= 1
  {
    if n == 0 then 1 else 2 * Pow2(n - 1)
  }

  lemma {:induction false} Pow2Sum(m: nat, n: nat)
    ensures Pow2(m) * Pow2(n) == Pow2(m + n)
  {
    if m > 0 {
      Pow2Sum(m - 1, n);
      assert Pow2(m) * Pow2(n) == 2 * (Pow2(m - 1) * Pow2(n));
    }
  }

  lemma {:induction false} Pow2Bound(n: nat)
    requires n <= 8
    ensures Pow2(n) <= 256
  {
    Pow2Sum(n, 8 - n);
    assert Pow2(8) == 256;
    NextMultiple(Pow2(n), 0, Pow2(8 - n));
  }
}
