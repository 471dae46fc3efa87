/** Remainders: uniqueness, windows of consecutive numbers, and how often a residue occurs in one. */
module ModArith {

  lemma DivModUnique(x: int, n: int, q: int, r: int)
    requires n > 0 && 0 <= r < n && x == q * n + r
    ensures x / n == q && x % n == r
  {
    var d := q - x / n;
    assert x == n * (x / n) + x % n;
    assert d * n == x % n - r;
    NonzeroMultiple(d, n);
  }

  lemma NonzeroMultiple(d: int, n: int)
    requires n > 0
    ensures d == 0 || d * n >= n || d * n <= -n
  {
    if d >= 1 {
      assert d * n >= n;
    } else if d <= -1 {
      assert d * n <= -n;
    }
  }

  lemma MulMonotone(d: int, k: int, n: int)
    requires 0 <= d && 0 <= k <= n
    ensures 0 <= d * k <= d * n
  {
    assert d * (n - k) >= 0;
  }

  lemma QuotientBounds(q: int, r: int, d: int)
    requires d > 0 && 0 <= r < d && d * q + r >= 0
    ensures 0 <= q <= d * q + r && q * d <= d * q + r
  {
    NonzeroMultiple(-q, d);
    if q > 0 {
      assert (d - 1) * q >= 0;
    }
  }

  /** Fewer than n apart and different: different residues. */
  lemma ModDistinct(x: int, y: int, n: int)
    requires n > 0 && x < y < x + n
    ensures x % n != y % n
  {
    var d := y / n - x / n;
    assert x == n * (x / n) + x % n && y == n * (y / n) + y % n;
    assert d * n == n * (y / n) - n * (x / n);
    NonzeroMultiple(d, n);
  }

  /** Fewer than n steps forward: either no wrap or exactly one. */
  lemma ModStep(x: int, d: int, n: int)
    requires 0 <= d < n
    ensures (x + d) % n == if x % n + d < n then x % n + d else x % n + d - n
  {
    var q := x / n;
    if x % n + d < n {
      DivModUnique(x + d, n, q, x % n + d);
    } else {
      DivModUnique(x + d, n, q + 1, x % n + d - n);
    }
  }

  lemma ModAddMultiple(x: int, n: int, q: int)
    requires n > 0
    ensures (x + q * n) % n == x % n && (x + q * n) / n == x / n + q
  {
    DivModUnique(x + q * n, n, x / n + q, x % n);
  }

  lemma ModSucc(x: int, n: int)
    requires n > 0
    ensures (x % n + 1) % n == (x + 1) % n
  {
    ModAddMultiple(x % n + 1, n, x / n);
    assert x + 1 == x % n + 1 + (x / n) * n;
  }

  predicate Leaves(a: int, p: int, n: int, j: int)
    requires n > 0
  {
    (a + p) % n == j
  }

  /** The p of [lo, hi) for which a + p leaves remainder j. */
  function Residues(a: int, lo: int, hi: int, n: int, j: int): set<int>
    requires n > 0
  {
    set p | lo <= p < hi && Leaves(a, p, n, j)
  }

  /** Among len consecutive numbers each residue occurs floor(len/n) or ceil(len/n) times. */
  lemma {:induction false} ResidueCount(a: int, len: nat, n: int, j: int)
    requires n > 0 && 0 <= j < n
    ensures len / n <= |Residues(a, 0, len, n, j)| <= (len + n - 1) / n
    decreases len
  {
    if len < n {
      ShortWindow(a, 0, len, n, j);
      DivModUnique(len, n, 0, len);
      if len > 0 {
        DivModUnique(len + n - 1, n, 1, len - 1);
      } else {
        DivModUnique(n - 1, n, 0, n - 1);
      }
    } else {
      ResidueCount(a, len - n, n, j);
      FullWindow(a, len - n, n, j);
      assert Residues(a, 0, len, n, j) == Residues(a, 0, len - n, n, j) + Residues(a, len - n, len, n, j);
      ModAddMultiple(len - n, n, 1);
      ModAddMultiple(len - 1, n, 1);
    }
  }

  lemma SameResidue(a: int, x: int, y: int, n: int, j: int)
    requires n > 0 && Leaves(a, x, n, j) && Leaves(a, y, n, j) && x - n < y < x + n
    ensures x == y
  {
    if x < y {
      ModDistinct(a + x, a + y, n);
    } else if y < x {
      ModDistinct(a + y, a + x, n);
    }
  }

  lemma ShortWindow(a: int, lo: int, hi: int, n: int, j: int)
    requires n > 0 && 0 <= j < n && lo <= hi <= lo + n
    ensures |Residues(a, lo, hi, n, j)| <= 1
    ensures lo == hi ==> |Residues(a, lo, hi, n, j)| == 0
  {
    var s := Residues(a, lo, hi, n, j);
    if s != {} {
      var x :| x in s;
      forall y | y in s
        ensures y == x
      {
        SameResidue(a, x, y, n, j);
      }
      assert s == {x};
    }
  }

  lemma FullWindow(a: int, lo: int, n: int, j: int)
    requires n > 0 && 0 <= j < n
    ensures |Residues(a, lo, lo + n, n, j)| == 1
  {
    ShortWindow(a, lo, lo + n, n, j);
    var d := j - a - lo;
    ModAddMultiple(j, n, -(d / n));
    assert a + (lo + d % n) == j + -(d / n) * n;
    DivModUnique(j, n, 0, j);
    assert lo + d % n in Residues(a, lo, lo + n, n, j);
  }
}
