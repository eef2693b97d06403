/** The maximal-suffix passes and the critical factorization of src/str-two-way.h.
    The source keeps the index of the last byte of the left half, with SIZE_MAX for
    "none"; here that index is the integer maxSuffix, with -1 for "none". */
module MaximalSuffix {
  import opened Bytes
  import opened CaseFold
  import opened Words

  /** Within x[..m], the suffix at t is below the suffix at s by a differing letter. */
  ghost predicate BelowWithin(x: seq<int>, rev: bool, t: int, s: int, m: int)
  {
    exists d :: t + d < m && s + d < m && FirstDiff(x, rev, t, s, d)
  }

  ghost predicate AllBelow(x: seq<int>, rev: bool, lo: int, hi: int, s: int, m: int)
  {
    forall t :: lo <= t < hi ==> BelowWithin(x, rev, t, s, m)
  }

  /** x[s..m] has period p, and x[s..] is above the suffixes that start inside
      its first p letters. */
  ghost predicate Block(x: seq<int>, rev: bool, s: int, p: int, m: int)
  {
    && 0 <= s && 1 <= p && s + p <= m <= |x|
    && AllBelow(x, rev, s + 1, s + p, s, m)
    && Repeats(x, s, m - p, p)
  }

  /** What a pass knows once it has read x[..j + k]; the suffix under test starts at s. */
  ghost predicate PassInvariant(x: seq<int>, rev: bool, s: int, j: int, k: int, p: int, e: int)
  {
    && 0 <= s && 1 <= k <= p && 1 <= e && s + p <= j + 1 == s + e * p
    && Block(x, rev, s, p, j + k)
    && AllBelow(x, rev, 0, s, s, |x|)
  }

  /** The suffix at t has only repeated the beginning of x[s..] so far, and
      expects a letter no smaller than the one the period predicts. */
  ghost predicate Pending(x: seq<int>, rev: bool, s: int, p: int, m: int, t: int)
    requires 0 <= s && 1 <= p && s + p <= m <= |x| && s < t <= m
  {
    Agree(x, t, s, m - t) && !Less(rev, x[s + (m - t)], x[m - p])
  }

  /** A suffix starting inside x[s..m] is either below s already, or pending. */
  lemma {:induction false} Inside(x: seq<int>, rev: bool, s: int, m: int, p: int, t: int)
    requires Block(x, rev, s, p, m) && s < t <= m
    ensures BelowWithin(x, rev, t, s, m) || Pending(x, rev, s, p, m, t)
    decreases t
  {
    if t == s + p {
      assert Agree(x, t, s, m - t);
      assert x[s + (m - t)] == x[m - p];
    } else if t > s + p {
      Inside(x, rev, s, m, p, t - p);
      if BelowWithin(x, rev, t - p, s, m) {
        var d :| t - p + d < m && s + d < m && FirstDiff(x, rev, t - p, s, d);
        InsideBelow(x, rev, s, m, p, t, d);
      } else {
        InsidePending(x, rev, s, m, p, t);
      }
    }
  }

  lemma OnePeriodBack(x: seq<int>, s: int, m: int, p: int, t: int, d: int)
    requires 0 <= s && 1 <= p && s + p <= t && 0 <= d && t + d <= m <= |x|
    requires Repeats(x, s, m - p, p) && Agree(x, t - p, s, d)
    ensures Agree(x, t, s, d)
  {
    forall i, j | t <= i < t + d && j - s == i - t
      ensures x[i] == x[j]
    {
      assert x[i] == x[i - p] == x[j];
    }
  }

  lemma InsideBelow(x: seq<int>, rev: bool, s: int, m: int, p: int, t: int, d: int)
    requires Block(x, rev, s, p, m) && s + p < t <= m
    requires t - p + d < m && s + d < m && FirstDiff(x, rev, t - p, s, d)
    ensures BelowWithin(x, rev, t, s, m) || Pending(x, rev, s, p, m, t)
  {
    var c := if t + d < m then d else m - t;
    OnePeriodBack(x, s, m, p, t, c);
    if t + d < m {
      assert x[t + d] == x[t - p + d];
      assert FirstDiff(x, rev, t, s, d);
    } else if m - t < d {
      assert x[t - p + (m - t)] == x[s + (m - t)];
    }
  }

  lemma InsidePending(x: seq<int>, rev: bool, s: int, m: int, p: int, t: int)
    requires Block(x, rev, s, p, m) && s + p < t <= m
    requires Pending(x, rev, s, p, m, t - p)
    ensures Pending(x, rev, s, p, m, t)
  {
    OnePeriodBack(x, s, m, p, t, m - t);
    assert x[t - p + (m - t)] == x[s + (m - t)];
  }

  /** The byte that the pass compares against is the one the period predicts. */
  lemma {:induction false} PeriodPredicts(x: seq<int>, s: int, m: int, p: int, c: int, e: int)
    requires 0 <= s <= c && 1 <= p && 1 <= e && c + e * p == m <= |x|
    requires Repeats(x, s, m - p, p)
    ensures m - p >= 0 && c + (e - 1) * p == m - p && x[c] == x[m - p]
    decreases e
  {
    assert (e - 1) * p == e * p - p;
    if e > 1 {
      assert (e - 1) * p >= p by { assert (e - 1) * p == (e - 2) * p + p; assert (e - 2) * p >= 0; }
      PeriodPredictsStep(x, s, m, p, c, e);
    }
  }

  lemma {:induction false} PeriodPredictsStep(x: seq<int>, s: int, m: int, p: int, c: int, e: int)
    requires 0 <= s <= c && 1 <= p && 1 < e && c + (e - 1) * p == m - p && p <= (e - 1) * p && m <= |x|
    requires Repeats(x, s, m - p, p)
    ensures x[c] == x[m - p]
    decreases e, 0
  {
    assert Repeats(x, s, m - p - p, p);
    PeriodPredicts(x, s, m - p, p, c, e - 1);
    assert x[m - p - p] == x[m - p];
  }

  lemma PredictedByte(x: seq<int>, rev: bool, s: int, j: int, k: int, p: int, e: int)
    requires PassInvariant(x, rev, s, j, k, p, e)
    ensures x[s - 1 + k] == x[j + k - p]
  {
    PeriodPredicts(x, s, j + k, p, s - 1 + k, e);
  }

  lemma BlockGrows(x: seq<int>, rev: bool, s: int, p: int, m: int, m': int)
    requires Block(x, rev, s, p, m) && m' == m + 1 <= |x| && x[m] == x[m - p]
    ensures Block(x, rev, s, p, m')
  {
    forall t | s + 1 <= t < s + p
      ensures BelowWithin(x, rev, t, s, m')
    {
      assert BelowWithin(x, rev, t, s, m);
    }
  }

  /** Equal bytes: the period goes on. */
  lemma EqualStep(x: seq<int>, rev: bool, s: int, j: int, k: int, p: int, e: int)
    requires PassInvariant(x, rev, s, j, k, p, e) && j + k < |x| && x[j + k] == x[s - 1 + k]
    ensures if k != p then PassInvariant(x, rev, s, j, k + 1, p, e) else PassInvariant(x, rev, s, j + p, 1, p, e + 1)
  {
    PredictedByte(x, rev, s, j, k, p, e);
    BlockGrows(x, rev, s, p, j + k, j + k + 1);
    assert (e + 1) * p == e * p + p;
  }

  /** A smaller byte: everything read since s is one block without shorter period. */
  lemma SmallerStep(x: seq<int>, rev: bool, s: int, j: int, k: int, p: int, e: int)
    requires PassInvariant(x, rev, s, j, k, p, e) && j + k < |x| && Less(rev, x[j + k], x[s - 1 + k])
    ensures PassInvariant(x, rev, s, j + k, 1, j + k + 1 - s, 1)
  {
    PredictedByte(x, rev, s, j, k, p, e);
    SmallerEndsBlock(x, rev, s, p, j + k, j + k + 1);
  }

  lemma SmallerEndsBlock(x: seq<int>, rev: bool, s: int, p: int, m: int, m': int)
    requires Block(x, rev, s, p, m) && m' == m + 1 <= |x| && Less(rev, x[m], x[m - p])
    ensures Block(x, rev, s, m' - s, m')
  {
    forall t | s + 1 <= t < m'
      ensures BelowWithin(x, rev, t, s, m')
    {
      Inside(x, rev, s, m, p, t);
      if BelowWithin(x, rev, t, s, m) {
        var d :| t + d < m && s + d < m && FirstDiff(x, rev, t, s, d);
      } else {
        assert FirstDiff(x, rev, t, s, m - t);
      }
    }
  }

  /** A larger byte: the suffix at j + 1 beats the one at s. */
  lemma NewLeader(x: seq<int>, rev: bool, s: int, j: int, k: int, p: int, e: int)
    requires PassInvariant(x, rev, s, j, k, p, e) && j + k < |x| && Less(rev, x[s - 1 + k], x[j + k])
    ensures FirstDiff(x, rev, s, j + 1, k - 1)
  {
    forall i, i' | s <= i < s + k - 1 && i' - (j + 1) == i - s
      ensures x[i] == x[i']
    {
      LeaderAgrees(x, s, j + k, p, i, i', e);
    }
  }

  lemma LeaderAgrees(x: seq<int>, s: int, m: int, p: int, i: int, i': int, e: int)
    requires 0 <= s <= i && 1 <= p && 1 <= e && i + e * p == i' < m <= |x|
    requires Repeats(x, s, m - p, p)
    ensures i < i' && x[i] == x[i']
  {
    assert Repeats(x, s, i' - p, p);
    PeriodPredicts(x, s, i', p, i, e);
    assert (e - 1) * p >= 0;
    assert x[i' - p] == x[i'];
  }

  lemma BelowLeader(x: seq<int>, rev: bool, s: int, l: int, d: int, t: int)
    requires BelowWithin(x, rev, t, s, |x|) && FirstDiff(x, rev, s, l, d)
    ensures BelowWithin(x, rev, t, l, |x|)
  {
    var c :| t + c < |x| && s + c < |x| && FirstDiff(x, rev, t, s, c);
    FirstDiffTransitive(x, rev, t, s, l, c, d);
  }

  lemma Overtaken(x: seq<int>, rev: bool, s: int, p: int, m: int, l: int, t: int)
    requires Block(x, rev, s, p, m) && AllBelow(x, rev, 0, s, s, |x|)
    requires s < l <= m < |x| && FirstDiff(x, rev, s, l, m - l)
    requires 0 <= t < l
    ensures BelowWithin(x, rev, t, l, |x|)
  {
    if t < s {
      assert BelowWithin(x, rev, t, s, |x|);
      BelowLeader(x, rev, s, l, m - l, t);
    } else if t > s {
      OvertakenInside(x, rev, s, p, m, l, t);
    }
  }

  lemma OvertakenInside(x: seq<int>, rev: bool, s: int, p: int, m: int, l: int, t: int)
    requires Block(x, rev, s, p, m)
    requires s < t < l <= m < |x| && FirstDiff(x, rev, s, l, m - l)
    ensures BelowWithin(x, rev, t, l, |x|)
  {
    Inside(x, rev, s, m, p, t);
    if BelowWithin(x, rev, t, s, m) {
      BelowLeader(x, rev, s, l, m - l, t);
    } else {
      PendingOvertaken(x, rev, s, p, m, l, t);
    }
  }

  lemma PendingOvertaken(x: seq<int>, rev: bool, s: int, p: int, m: int, l: int, t: int)
    requires 0 <= s < t < l <= m < |x| && 1 <= p && s + p <= m
    requires Pending(x, rev, s, p, m, t)
    requires FirstDiff(x, rev, s, l, m - l)
    ensures FirstDiff(x, rev, t, l, m - l)
  {
    forall i, j | t <= i < t + (m - l) && j - l == i - t
      ensures x[i] == x[j]
    {
      assert x[i] == x[i - t + s] == x[j];
    }
    assert x[t + (m - l)] == x[s + (m - l)];
  }

  lemma LargerStep(x: seq<int>, rev: bool, s: int, j: int, k: int, p: int, e: int)
    requires PassInvariant(x, rev, s, j, k, p, e) && j + k < |x| && Less(rev, x[s - 1 + k], x[j + k])
    ensures PassInvariant(x, rev, j + 1, j + 1, 1, 1, 1)
  {
    NewLeader(x, rev, s, j, k, p, e);
    var m, l := j + k, j + 1;
    forall t | 0 <= t < l
      ensures BelowWithin(x, rev, t, l, |x|)
    {
      Overtaken(x, rev, s, p, m, l, t);
    }
  }

  /** When the whole word has been read, s starts its greatest suffix and p is
      that suffix's least period. */
  lemma PassResult(x: seq<int>, rev: bool, s: int, j: int, k: int, p: int, e: int)
    requires PassInvariant(x, rev, s, j, k, p, e) && j + k == |x|
    ensures IsMaxSuffix(x, rev, s) && IsLeastRightPeriod(x, s, p)
  {
    forall t | 0 <= t < |x| && t != s
      ensures Below(x, rev, t, s)
    {
      if t > s {
        Inside(x, rev, s, |x|, p, t);
        assert BelowWithin(x, rev, t, s, |x|) || Agree(x, t, s, |x| - t);
      } else {
        assert BelowWithin(x, rev, t, s, |x|);
      }
    }
    forall q | 1 <= q < p
      ensures !IsRightPeriod(x, s, q)
    {
      var t := s + q;
      assert BelowWithin(x, rev, t, s, |x|);
      var d :| t + d < |x| && s + d < |x| && FirstDiff(x, rev, t, s, d);
      assert x[t + d] != x[s + d];
    }
  }

  /** One pass: the start of the greatest suffix of the folded needle under the
      alphabet order (or the reverse order), and that suffix's least period.
      maxSuffix + j + k grows with every iteration, which bounds their number. */
  method MaxSuffixPass(needle: seq<byte>, rev: bool) returns (maxSuffix: int, p: nat, ghost iterations: nat)
    requires |needle| > 0
    ensures -1 <= maxSuffix < |needle| - 1
    ensures IsMaxSuffix(Fold(needle), rev, maxSuffix + 1)
    ensures IsLeastRightPeriod(Fold(needle), maxSuffix + 1, p)
    ensures 1 <= p <= |needle| - (maxSuffix + 1)
    ensures iterations < 2 * |needle|
  {
    ghost var x := Fold(needle);
    maxSuffix := -1;
    var j, k := 0, 1;
    p := 1;
    iterations := 0;
    ghost var e := 1;
    while j + k < |needle|
      invariant PassInvariant(x, rev, maxSuffix + 1, j, k, p, e)
      invariant iterations <= maxSuffix + j + k && maxSuffix < j
      decreases 2 * |needle| - (maxSuffix + j + k)
    {
      var a, b := Lower(needle[j + k]), Lower(needle[maxSuffix + k]);
      iterations := iterations + 1;
      if Less(rev, a, b) {
        SmallerStep(x, rev, maxSuffix + 1, j, k, p, e);
        j := j + k;
        k := 1;
        p := j - maxSuffix;
        e := 1;
      } else if a == b {
        EqualStep(x, rev, maxSuffix + 1, j, k, p, e);
        if k != p {
          k := k + 1;
        } else {
          j := j + p;
          k := 1;
          e := e + 1;
        }
      } else {
        LargerStep(x, rev, maxSuffix + 1, j, k, p, e);
        maxSuffix, j := j, j + 1;
        k, p := 1, 1;
        e := 1;
      }
    }
    PassResult(x, rev, maxSuffix + 1, j, k, p, e);
  }
}
