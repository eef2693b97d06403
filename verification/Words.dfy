/** Combinatorics on words: periods, local periods, the order on suffixes, and the
    critical factorization theorem on which the Two-Way search rests.
    A word is a sequence of (already case-folded) bytes. */
module Words {

  // ---------------------------------------------------------------- periods

  /** x[i] == x[i + d] for every i in [lo, hi) for which both letters exist. */
  ghost predicate Repeats(x: seq<int>, lo: int, hi: int, d: int)
  {
    forall i, j {:trigger x[i], x[j]} :: 0 <= i && lo <= i < hi && j == i + d && 0 <= j < |x| && i < |x| ==> x[i] == x[j]
  }

  ghost predicate IsPeriod(x: seq<int>, p: int)
  {
    p >= 1 && Repeats(x, 0, |x|, p)
  }

  /** p is a period of the right half x[s..]. */
  ghost predicate IsRightPeriod(x: seq<int>, s: nat, p: int)
  {
    p >= 1 && Repeats(x, s, |x|, p)
  }

  ghost predicate IsLeastRightPeriod(x: seq<int>, s: nat, p: int)
  {
    IsRightPeriod(x, s, p) && forall q :: IsRightPeriod(x, s, q) ==> p <= q
  }

  /** r is the length of a repetition centred at s: some word of length r is a
      suffix of the left half (or ends with it) and a prefix of the right half
      (or starts with it). */
  ghost predicate IsLocalPeriod(x: seq<int>, s: nat, r: int)
  {
    r >= 1 && Repeats(x, s - r, s, r)
  }

  // ------------------------------------------------------ order on suffixes

  /** The alphabet order, or its reverse. */
  predicate Less(rev: bool, a: int, b: int)
  {
    if rev then b < a else a < b
  }

  /** The suffixes at a and b agree on their first d letters. */
  ghost predicate Agree(x: seq<int>, a: int, b: int, d: int)
  {
    0 <= a && 0 <= b && a + d <= |x| && b + d <= |x| &&
    forall i, j {:trigger x[i], x[j]} :: a <= i < a + d && j - b == i - a ==> x[i] == x[j]
  }

  /** d is the offset of the first difference between the suffixes at a and b,
      and there a has the smaller letter. */
  ghost predicate FirstDiff(x: seq<int>, rev: bool, a: int, b: int, d: int)
  {
    0 <= d && Agree(x, a, b, d) && a + d < |x| && b + d < |x| && Less(rev, x[a + d], x[b + d])
  }

  /** The suffix at a is lexicographically below the suffix at b: it has a
      smaller letter at the first difference, or it is a proper prefix. */
  ghost predicate Below(x: seq<int>, rev: bool, a: int, b: int)
  {
    || (exists d :: FirstDiff(x, rev, a, b, d))
    || (b < a && Agree(x, a, b, |x| - a))
  }

  ghost predicate IsMaxSuffix(x: seq<int>, rev: bool, s: int)
  {
    0 <= s < |x| && forall t :: 0 <= t < |x| && t != s ==> Below(x, rev, t, s)
  }

  lemma FirstDiffAsymmetric(x: seq<int>, rev: bool, a: int, b: int, d: int)
    requires FirstDiff(x, rev, a, b, d)
    ensures !Below(x, rev, b, a)
  {
    assert x[a + d] != x[b + d];
  }

  lemma FirstDiffTransitive(x: seq<int>, rev: bool, a: int, b: int, c: int, d: int, e: int)
    requires FirstDiff(x, rev, a, b, d) && FirstDiff(x, rev, b, c, e)
    ensures FirstDiff(x, rev, a, c, if d < e then d else e)
  {
    var m := if d < e then d else e;
    forall i, j | a <= i < a + m && j - c == i - a
      ensures x[i] == x[j]
    {
      assert x[i] == x[i - a + b] == x[j];
    }
    assert d < e ==> x[b + d] == x[c + d];
    assert e < d ==> x[a + e] == x[b + e];
  }

  lemma MaxSuffixUnique(x: seq<int>, rev: bool, s: int, t: int)
    requires IsMaxSuffix(x, rev, s) && IsMaxSuffix(x, rev, t)
    ensures s == t
  {
    if s < t {
      assert Below(x, rev, s, t);
      var d :| FirstDiff(x, rev, s, t, d);
      FirstDiffAsymmetric(x, rev, s, t, d);
    } else if t < s {
      MaxSuffixUnique(x, rev, t, s);
    }
  }

  // -------------------------------------- the critical factorization theorem

  /** Let s start the greatest suffix for one order and s' <= s the greatest
      suffix for the opposite order. Then every local period at s is a period of
      the whole word and is longer than the left half. */
  lemma LocalPeriodsArePeriods(x: seq<int>, rev: bool, s: int, s': int, r: int)
    requires IsMaxSuffix(x, rev, s) && IsMaxSuffix(x, !rev, s') && s' <= s
    requires IsLocalPeriod(x, s, r)
    ensures s < r && IsPeriod(x, r)
  {
    if r <= s {
      LocalPeriodLongerThanLeft(x, rev, s, r);
    }
    RightHalfFollows(x, rev, s, s', r);
  }

  lemma LocalPeriodLongerThanLeft(x: seq<int>, rev: bool, s: int, r: int)
    requires IsMaxSuffix(x, rev, s) && IsLocalPeriod(x, s, r)
    ensures s < r
  {
    if r <= s {
      var t := s - r;
      assert Below(x, rev, t, s);
      var d :| FirstDiff(x, rev, t, s, d);
      assert x[t + d] != x[s + d];
      assert d >= r;
      forall i, j | s <= i < s + d - r && j - (s + r) == i - s
        ensures x[i] == x[j]
      {
        assert x[i] == x[j];
      }
      assert FirstDiff(x, rev, s, s + r, d - r);
      FirstDiffAsymmetric(x, rev, s, s + r, d - r);
    }
  }

  lemma RightHalfFollows(x: seq<int>, rev: bool, s: int, s': int, r: int)
    requires IsMaxSuffix(x, rev, s) && IsMaxSuffix(x, !rev, s') && s' <= s
    requires IsLocalPeriod(x, s, r) && s < r
    ensures IsPeriod(x, r)
  {
    if s + r < |x| {
      var t := s + r;
      assert Below(x, rev, t, s);
      if exists d :: FirstDiff(x, rev, t, s, d) {
        var d :| FirstDiff(x, rev, t, s, d);
        var b := s' + r;
        var e := s - s' + d;
        forall i, j | s' <= i < s' + e && j - b == i - s'
          ensures x[i] == x[j]
        {
          assert x[i] == x[j];
        }
        assert x[s' + e] == x[s + d] && x[b + e] == x[t + d];
        assert FirstDiff(x, !rev, s', b, e);
        FirstDiffAsymmetric(x, !rev, s', b, e);
      }
      assert Agree(x, t, s, |x| - t);
    }
    forall i, j | 0 <= i < |x| && j == i + r && j < |x|
      ensures x[i] == x[j]
    {
      assert x[i] == x[j];
    }
  }

  /** A position is critical with respect to a word when every local period
      there is a global one longer than the left half. */
  ghost predicate IsCritical(x: seq<int>, s: nat)
  {
    s < |x| && forall r :: IsLocalPeriod(x, s, r) ==> s < r && IsPeriod(x, r)
  }

  // ----------------------------------------------------- periods at a critical position

  /** When the left half continues the period of the right half, that period is
      the global period of the word. */
  lemma PeriodicNeedle(x: seq<int>, s: nat, p: int)
    requires IsCritical(x, s) && IsLeastRightPeriod(x, s, p)
    requires Repeats(x, 0, s, p)
    ensures IsPeriod(x, p) && s < p
    ensures forall q :: IsPeriod(x, q) ==> p <= q
  {
    assert IsLocalPeriod(x, s, p);
    forall q | IsPeriod(x, q)
      ensures p <= q
    {
      assert IsRightPeriod(x, s, q);
    }
  }

  /** Otherwise every period of the word exceeds both halves. */
  lemma AperiodicNeedle(x: seq<int>, s: nat, p: int, q: int)
    requires IsCritical(x, s) && IsLeastRightPeriod(x, s, p)
    requires !Repeats(x, 0, s, p)
    requires IsPeriod(x, q)
    ensures q > s && q > |x| - s
    decreases q
  {
    assert IsLocalPeriod(x, s, q);
    if q <= |x| - s {
      assert IsRightPeriod(x, s, q);
      if q > p {
        var r := q - p;
        forall i, j | 0 <= i && s - r <= i < s && j == i + r && 0 <= j < |x| && i < |x|
          ensures x[i] == x[j]
        {
          assert x[i] == x[i + q] && x[j] == x[j + p];
        }
        assert IsLocalPeriod(x, s, r);
        AperiodicNeedle(x, s, p, r);
      }
    }
  }
}
