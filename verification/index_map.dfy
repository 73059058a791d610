/**
  The target-index to source-position mapping used by both resampling scripts.

  For a source of N items and a target of M items, target index k sits at the
  continuous source position p = k*N/M.  Its lower neighbour is i = floor(p) and
  its interpolation weight is alpha = p - i.  An index whose lower neighbour has
  no right neighbour (i >= N-1) is clamped to the last source item; everything
  is computed exactly, without floating-point rounding.
*/
module IndexMap {

  /** The continuous source position p = k*N/M of target index k. */
  function Position(n: nat, m: nat, k: nat): real
    requires m > 0
  {
    (k * n) as real / m as real
  }

  /** Floor of an exact quotient is integer division. */
  lemma FloorIsDivision(a: nat, m: nat)
    requires m > 0
    ensures (a as real / m as real).Floor == a / m
  {
    var q, r := a / m, a % m;
    assert a == q * m + r;
    assert a as real == q as real * m as real + r as real;
    assert a as real / m as real == q as real + r as real / m as real;
    assert 0.0 <= r as real / m as real < 1.0;
  }

  /** The lower neighbour i = floor(p); it is never negative and equals (k*N) div M. */
  function SourceIndex(n: nat, m: nat, k: nat): (i: int)
    requires m > 0
    ensures 0 <= i
    ensures i == (k * n) / m
  {
    FloorIsDivision(k * n, m);
    Position(n, m, k).Floor
  }

  /** The interpolation weight alpha = p - i; it is the exact rational ((k*N) mod M) / M. */
  function Weight(n: nat, m: nat, k: nat): (alpha: real)
    requires m > 0
    ensures alpha == ((k * n) % m) as real / m as real
    ensures 0.0 <= alpha < 1.0
  {
    var a := k * n;
    assert a == (a / m) * m + a % m;
    assert a as real == (a / m) as real * m as real + (a % m) as real;
    Position(n, m, k) - SourceIndex(n, m, k) as real
  }

  /** What a target index takes from the source. */
  datatype Pick =
    | First                           // the first source item, unmodified
    | Last                            // the last source item, unmodified
    | Interpolate(lo: nat, alpha: real) // a blend of items lo and lo+1 with weight alpha on lo+1

  /**
    The boundary policy: a negative neighbour takes the first item, a neighbour
    at or past N-1 takes the last item whatever alpha is, and otherwise the pair
    (i, i+1) is blended.
  */
  function Select(n: nat, m: nat, k: nat): (s: Pick)
    requires m > 0
    ensures s != First
    ensures s == Last <==> (k * n) / m >= n - 1
    ensures s.Interpolate? ==> s.lo + 1 < n && s.lo as real <= Position(n, m, k) < s.lo as real + 1.0
    ensures s.Interpolate? ==> 0.0 <= s.alpha < 1.0 && s.lo as real + s.alpha == Position(n, m, k)
  {
    var i := SourceIndex(n, m, k);
    if i < 0 then First
    else if i >= n - 1 then Last
    else Interpolate(i, Weight(n, m, k))
  }

  /** Multiplying both sides by a natural keeps the order. */
  lemma MulLe(a: int, b: int, c: nat)
    requires a <= b
    ensures a * c <= b * c
  {
    assert b * c - a * c == (b - a) * c;
  }

  /** The quotient is the unique q with q*m <= a < q*m + m. */
  lemma DivUnique(a: int, m: nat, q: int)
    requires m > 0
    requires q * m <= a < q * m + m
    ensures a / m == q
  {
    var d, r := a / m, a % m;
    assert a == d * m + r && 0 <= r < m;
    if d > q {
      MulLe(q + 1, d, m);
    } else if d < q {
      MulLe(d + 1, q, m);
    }
  }

  /** Integer division by a positive number is monotone. */
  lemma DivMonotone(a1: nat, a2: nat, m: nat)
    requires m > 0 && a1 <= a2
    ensures a1 / m <= a2 / m
  {
    var q1, q2 := a1 / m, a2 / m;
    assert q1 * m <= a1 && a2 < q2 * m + m;
    if q1 > q2 {
      MulLe(q2 + 1, q1, m);
    }
  }

  /** The lower neighbour never decreases as the target index grows. */
  lemma SourceIndexMonotone(n: nat, m: nat, k1: nat, k2: nat)
    requires m > 0 && k1 <= k2
    ensures SourceIndex(n, m, k1) <= SourceIndex(n, m, k2)
  {
    MulLe(k1, k2, n);
    DivMonotone(k1 * n, k2 * n, m);
  }

  /** Exactly the target indices with k*N >= (N-1)*M are clamped to the last item. */
  lemma ClampRegion(n: nat, m: nat, k: nat)
    requires m > 0
    ensures Select(n, m, k) == Last <==> k * n >= (n - 1) * m
  {
    var a := k * n;
    var q, r := a / m, a % m;
    assert a == q * m + r && 0 <= r < m;
    assert Select(n, m, k) == Last <==> q >= n - 1;
    if q >= n - 1 {
      MulLe(n - 1, q, m);
      assert (n - 1) * m <= q * m <= a;
    } else {
      MulLe(q + 1, n - 1, m);
      assert a < (q + 1) * m <= (n - 1) * m by {
        assert (q + 1) * m == q * m + m;
      }
    }
  }

  /** Once a target index is clamped to the last item, every later one is too. */
  lemma ClampIsSuffix(n: nat, m: nat, k1: nat, k2: nat)
    requires m > 0 && k1 <= k2
    requires Select(n, m, k1) == Last
    ensures Select(n, m, k2) == Last
  {
    SourceIndexMonotone(n, m, k1, k2);
  }

  /** When M = N every target index maps onto its own source index with weight 0. */
  lemma SameCountIsIdentity(n: nat, k: nat)
    requires n > 0
    ensures SourceIndex(n, n, k) == k
    ensures Weight(n, n, k) == 0.0
    ensures k < n - 1 ==> Select(n, n, k) == Interpolate(k, 0.0)
    ensures k >= n - 1 ==> Select(n, n, k) == Last
  {
    DivUnique(k * n, n, k);
    assert (k * n) % n == 0 by {
      assert k * n == ((k * n) / n) * n + (k * n) % n;
    }
  }

  /**
    Two poses resampled to three: k=0 sits on pose 0 with weight 0 but is still
    interpolated (0 < N-1), k=1 blends poses 0 and 1 at 2/3, k=2 is clamped.
  */
  lemma TwoToThree()
    ensures Select(2, 3, 0) == Interpolate(0, 0.0)
    ensures Select(2, 3, 1) == Interpolate(0, 2.0 / 3.0)
    ensures Select(2, 3, 2) == Last
  {
  }

  /** Ten frames resampled to five: k=2 lands exactly on source position 4. */
  lemma TenToFive()
    ensures Select(10, 5, 2) == Interpolate(4, 0.0)
    ensures Select(10, 5, 4) == Interpolate(8, 0.0)
  {
  }
}
