/**
  Python sequence primitives the source relies on: indexing that counts
  from the end for negative indices, slicing that clamps its bounds, and
  `sum`.  The size bookkeeping of the schema framework feeds possibly
  negative numbers into these, so their exact semantics matter.
 */
module PySeq {
  import opened Wrappers

  /** Python's `sum(xs)`. */
  function Sum(xs: seq<int>): int {
    if |xs| == 0 then 0 else Sum(xs[..|xs| - 1]) + xs[|xs| - 1]
  }

  /** Python's `s[i]`; `None` stands for the `IndexError` it raises. */
  function PyIndex<T>(s: seq<T>, i: int): Option<T> {
    if 0 <= i < |s| then Some(s[i])
    else if -|s| <= i < 0 then Some(s[|s| + i])
    else None
  }

  /** How Python normalises one bound of a slice of a sequence of length `n`. */
  function ClampBound(b: int, n: nat): (r: nat)
    ensures r <= n
    ensures 0 <= b <= n ==> r == b
  {
    if b < 0 then (if b + n < 0 then 0 else b + n)
    else if b > n then n
    else b
  }

  /** Python's `s[i:j]`. */
  function PySlice<T>(s: seq<T>, i: int, j: int): seq<T> {
    var a := ClampBound(i, |s|);
    var b := ClampBound(j, |s|);
    if a < b then s[a..b] else []
  }

  lemma PySliceInRange<T>(s: seq<T>, i: int, j: int)
    requires 0 <= i <= j <= |s|
    ensures PySlice(s, i, j) == s[i..j]
  {
  }

  lemma {:induction false} SumAppend(a: seq<int>, b: seq<int>)
    ensures Sum(a + b) == Sum(a) + Sum(b)
    decreases |b|
  {
    if |b| == 0 {
      assert a + b == a;
    } else {
      var b' := b[..|b| - 1];
      assert (a + b)[..|a + b| - 1] == a + b';
      SumAppend(a, b');
    }
  }

  lemma SumPrefixStep(xs: seq<int>, i: nat)
    requires i < |xs|
    ensures Sum(xs[..i + 1]) == Sum(xs[..i]) + xs[i]
  {
    assert xs[..i + 1][..i] == xs[..i];
  }

  lemma {:induction false} SumNonNegative(xs: seq<int>)
    requires forall i :: 0 <= i < |xs| ==> xs[i] >= 0
    ensures Sum(xs) >= 0
    decreases |xs|
  {
    if |xs| > 0 {
      SumNonNegative(xs[..|xs| - 1]);
    }
  }

  /** A sequence of `n` copies of `x`: Python's `[x] * n`. */
  function Repeat(x: int, n: nat): (r: seq<int>)
    ensures |r| == n
    ensures forall i :: 0 <= i < n ==> r[i] == x
  {
    seq(n, _ => x)
  }

  lemma {:induction false} SumRepeat(x: int, n: nat)
    ensures Sum(Repeat(x, n)) == x * n
    decreases n
  {
    if n > 0 {
      assert Repeat(x, n)[..n - 1] == Repeat(x, n - 1);
      SumRepeat(x, n - 1);
    }
  }

  // ---------------------------------------------------------------------
  // Division by a positive divisor, where Python's floor division and
  // Dafny's Euclidean division agree

  lemma ExactDivision(q: int, d: int)
    requires d > 0
    ensures (q * d) % d == 0 && (q * d) / d == q
  {
    var t, r := (q * d) / d, (q * d) % d;
    assert (q - t) * d == r;
    if q - t >= 1 {
      MulAtLeast(q - t, d);
    } else if q - t <= -1 {
      MulAtLeast(t - q, d);
    }
  }

  lemma MulAtLeast(x: int, d: int)
    requires x >= 1 && d > 0
    ensures x * d >= d
  {
  }

  /** A remainder-free division gives back the dividend, and the quotient
      keeps the dividend's sign. */
  lemma ExactQuotient(a: int, d: int)
    requires d > 0 && a % d == 0
    ensures (a / d) * d == a
    ensures a >= 0 ==> a / d >= 0
  {
    var q := a / d;
    assert a == d * q + a % d;
    if a >= 0 && q < 0 {
      MulAtLeast(-q, d);
    }
  }
}
