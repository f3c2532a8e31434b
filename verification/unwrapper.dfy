/** Unwrapping of m-valued wire counters to unbounded ones. */
module Unwrapping {
  import opened Options

  function Forward(m: nat, a: nat, b: nat): int
    requires a < m && b < m
  { if b >= a then b - a else b - a + m }

  /** Shortest signed step from a to b; at exactly half the range, upward if b is the larger value. */
  function SignedDiff(m: nat, a: nat, b: nat): int
    requires a < m && b < m
  {
    var d := Forward(m, a, b);
    if 2 * d < m || (2 * d == m && b > a) then d else d - m
  }

  /** a is newer than b among m-valued counters. */
  predicate Ahead(m: nat, a: nat, b: nat)
    requires a < m && b < m
  {
    a != b && (2 * Forward(m, b, a) < m || (2 * Forward(m, b, a) == m && a > b))
  }

  datatype Unwrapper = Unwrapper(last: Option<nat>, unwrapped: int) {
    ghost predicate Valid(m: nat) {
      m > 0 && (last.Some? ==> last.value < m && unwrapped % m == last.value)
    }

    /** What x would unwrap to next. */
    function Peek(m: nat, x: nat): int
      requires x < m && (last.Some? ==> last.value < m)
    {
      if last.None? then x else unwrapped + SignedDiff(m, last.value, x)
    }

    function Moved(m: nat, x: nat): Unwrapper
      requires x < m && (last.Some? ==> last.value < m)
    {
      Unwrapper(Some(x), Peek(m, x))
    }
  }

  const FRESH := Unwrapper(None, 0)

  /** An unwrapped value is always the wire value modulo m. */
  lemma PeekResidue(u: Unwrapper, m: nat, x: nat)
    requires u.Valid(m) && x < m
    ensures u.Peek(m, x) % m == x && u.Moved(m, x).Valid(m)
  {
    if u.last.Some? {
      var q := u.unwrapped / m;
      assert u.unwrapped == q * m + u.last.value;
      var p := u.Peek(m, x);
      assert p - x == q * m || p - x == q * m + m || p - x == q * m - m;
      if p - x == q * m { Residue(p, q, m, x); }
      if p - x == q * m + m { Residue(p, q + 1, m, x); }
      if p - x == q * m - m { Residue(p, q - 1, m, x); }
    } else {
      Residue(x, 0, m, x);
    }
  }

  lemma Residue(p: int, q: int, m: nat, x: nat)
    requires m > 0 && x < m && p == q * m + x
    ensures p % m == x
  {
    var d := p / m - q;
    assert p == (p / m) * m + p % m;
    assert d * m == x - p % m;
    if d >= 1 { MulGrows(d, m); }
    if d <= -1 { MulGrows(-d, m); }
  }

  lemma MulGrows(d: int, m: nat)
    requires d >= 1
    ensures d * m >= m
  {
    assert d * m == m + (d - 1) * m;
  }
}
