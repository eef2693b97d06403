/** strcasestr of src/strcasestr.c, the version compiled for speed. */
module Strcasestr {
  import opened Bytes
  import opened CaseFold
  import opened Words
  import opened Search
  import opened LongSearch
  import opened TwoWayShort
  import opened TwoWayLong

  const LONG_NEEDLE_THRESHOLD := 32

  /** An offset into s + 1, seen from s. */
  function OneLater(r: Position): Position
  {
    match r
    case NotFound => NotFound
    case Found(at) => Found(at + 1)
  }

  /** What strcasestr computes for a long needle: the prefix test, then the search in s + 1. */
  function StrcasestrLong(x: seq<int>, y: seq<int>, f: Plan, rule: ResetRule): Position
    requires Fits(x, f)
  {
    if |y| < |x| then NotFound
    else if y[..|x|] == x then Found(0)
    else OneLater(LongRun(x, y[1..], f, rule, 0, 0))
  }

  lemma TailOccurrence(x: seq<int>, y: seq<int>, k: int)
    requires |y| > 0 && k >= 0
    ensures OccursAt(x, y[1..], k) <==> OccursAt(x, y, k + 1)
  {
    if OccursAt(x, y[1..], k) {
      forall i, j | 0 <= i < |x| && j == k + 1 + i && j < |y|
        ensures x[i] == y[j]
      {
        assert y[1..][j - 1] == y[j];
      }
    }
  }

  lemma PrefixIsOccurrence(x: seq<int>, y: seq<int>)
    requires |x| <= |y|
    ensures y[..|x|] == x <==> OccursAt(x, y, 0)
  {
    if OccursAt(x, y, 0) {
      assert forall i :: 0 <= i < |x| ==> y[..|x|][i] == x[i];
    }
  }

  /** A search of y[1..] answers for y when the needle is not a prefix of y. */
  lemma SearchFromSecond(x: seq<int>, y: seq<int>, r: Position)
    requires 0 < |y| && !OccursAt(x, y, 0)
    ensures IsFirstOccurrence(x, y[1..], r) <==> IsFirstOccurrence(x, y, OneLater(r))
  {
    forall k | 0 <= k
      ensures OccursAt(x, y[1..], k) <==> OccursAt(x, y, k + 1)
    {
      TailOccurrence(x, y, k);
    }
    assert forall t :: 1 <= t ==> (OccursAt(x, y, t) <==> OccursAt(x, y[1..], t - 1));
  }

  /** What a search answers, said of the strings themselves: find is, up to the case of
      ASCII letters, at an offset of s. */
  predicate FoundAt(find: seq<byte>, s: seq<byte>, at: nat)
  {
    at + |find| <= |s| && SameText(s[at..at + |find|], find)
  }

  ghost predicate IsFirstIn(find: seq<byte>, s: seq<byte>, r: Position)
  {
    match r
    case NotFound => forall at: nat :: !FoundAt(find, s, at)
    case Found(k) => k >= 0 && FoundAt(find, s, k) && forall at: nat :: at < k ==> !FoundAt(find, s, at)
  }

  lemma OccurrenceIsFound(find: seq<byte>, s: seq<byte>, at: nat)
    ensures OccursAt(Fold(find), Fold(s), at) <==> FoundAt(find, s, at)
  {
    if at + |find| <= |s| {
      var w := s[at..at + |find|];
      FoldIsSameText(w, find);
      if OccursAt(Fold(find), Fold(s), at) {
        assert forall i :: 0 <= i < |find| ==> Fold(find)[i] == Fold(s)[at + i];
        assert Fold(w) == Fold(find);
      }
      if Fold(w) == Fold(find) {
        assert forall i :: 0 <= i < |find| ==> Fold(w)[i] == Fold(s)[at + i];
      }
    }
  }

  /** The first occurrence in the folded string is the first place where the needle is found. */
  lemma FirstOccurrenceMeans(find: seq<byte>, s: seq<byte>, r: Position)
    ensures IsFirstOccurrence(Fold(find), Fold(s), r) <==> IsFirstIn(find, s, r)
  {
    hide OccursAt, FoundAt;
    forall at: nat
      ensures OccursAt(Fold(find), Fold(s), at) <==> FoundAt(find, s, at)
    {
      OccurrenceIsFound(find, s, at);
    }
    FoundIsShort(find, s);
  }

  lemma FoundIsShort(find: seq<byte>, s: seq<byte>)
    ensures forall at: nat :: FoundAt(find, s, at) ==> at <= |s|
  {
  }

  lemma TooShort(x: seq<int>, y: seq<int>)
    requires |y| < |x|
    ensures IsFirstOccurrence(x, y, NotFound)
  {
  }

  lemma AtStart(x: seq<int>, y: seq<int>)
    requires OccursAt(x, y, 0)
    ensures IsFirstOccurrence(x, y, Found(0))
  {
  }

  lemma PrefixStep(x: seq<int>, y: seq<int>, i: nat)
    requires i < |x| && i < |y|
    ensures y[..i + 1] == x[..i + 1] <==> y[..i] == x[..i] && y[i] == x[i]
  {
    assert y[..i + 1] == y[..i] + [y[i]] && x[..i + 1] == x[..i] + [x[i]];
    if y[..i + 1] == x[..i + 1] {
      assert y[..i + 1][..i] == y[..i] && x[..i + 1][..i] == x[..i];
      assert y[..i + 1][i] == y[i] && x[..i + 1][i] == x[i];
    }
  }

  lemma TextTail(s: seq<byte>)
    requires IsCString(s) && |s| > 1
    ensures IsCString(s[1..]) && FoldedText(s[1..]) == FoldedText(s)[1..]
  {
    assert Text(s[1..]) == Text(s)[1..];
  }

  /** strcasestr: the first occurrence of find in s up to case, the start of s for an
      empty find. The buffers are C strings, so that every index used is at most the
      index of the string's NUL. For needles of at least 32 bytes the code as written
      (InsideGuard) is right exactly under the condition of StrcasestrAsWrittenIff. work
      counts all iterations and comparisons, of AVAILABLE and the factorization too: the
      search is linear, as written and as intended. */
  method StrCaseStr(s: seq<byte>, find: seq<byte>, rule: ResetRule) returns (r: Position, ghost work: nat)
    requires IsCString(s) && IsCString(find)
    ensures || |find| - 1 < LONG_NEEDLE_THRESHOLD
            || rule.EveryShift?
            || (forall f :: IsLongPlan(FoldedText(find), f) ==> !MemoryCanGoStale(FoldedText(find), f))
            ==> IsFirstIn(Text(find), Text(s), r)
    ensures LONG_NEEDLE_THRESHOLD <= |find| - 1
            ==> forall f :: IsLongPlan(FoldedText(find), f) && SafePlan(FoldedText(find), f)
                            ==> r == StrcasestrLong(FoldedText(find), FoldedText(s), f, rule)
    ensures work <= 3 * |s| + 7 * |find| + 256
  {
    hide IsFirstIn, FoundAt, SameText, MemoryCanGoStale, IsLongPlan, LongRun, IsFirstOccurrence;
    ghost var x, y := FoldedText(find), FoldedText(s);
    var i, ok := 0, true;
    work := 0;
    while s[i] != 0 && find[i] != 0
      invariant 0 <= i < |s| && i < |find| && work == i
      invariant ok <==> y[..i] == x[..i]
      decreases |s| - i
    {
      PrefixStep(x, y, i);
      ok := ok && Lower(s[i]) == Lower(find[i]);
      i, work := i + 1, work + 1;
    }
    if find[i] != 0 {
      TooShort(x, y);
      FirstOccurrenceMeans(Text(find), Text(s), NotFound);
      return NotFound, work;
    }
    assert i == |x| && x[..i] == x;
    PrefixIsOccurrence(x, y);
    if ok {
      AtStart(x, y);
      FirstOccurrenceMeans(Text(find), Text(s), Found(0));
      return Found(0), work;
    }
    var haystack := s[1..];
    TextTail(s);
    if i < LONG_NEEDLE_THRESHOLD {
      var p, a, b, c := TwoWayShortNeedle(haystack, i - 1, find);
      r, work := OneLater(p), work + a + b + c;
      SearchFromSecond(x, y, p);
    } else {
      var p, g, a, b, c := TwoWayLongNeedle(haystack, i - 1, find, rule);
      r, work := OneLater(p), work + a + b + c;
      SearchFromSecond(x, y, p);
      forall f | IsLongPlan(x, f) && SafePlan(x, f)
        ensures r == StrcasestrLong(x, y, f, rule)
      {
        LongPlanUnique(x, f, g);
      }
    }
    FirstOccurrenceMeans(Text(find), Text(s), r);
  }

  /** For a long needle, strcasestr as written is right on every string exactly when
      the needle's memory cannot go stale. */
  lemma StrcasestrAsWrittenIff(x: seq<int>, f: Plan)
    requires SafePlan(x, f) && IsText(x)
    ensures (forall y :: IsText(y) ==> IsFirstOccurrence(x, y, StrcasestrLong(x, y, f, InsideGuard)))
            <==> !MemoryCanGoStale(x, f)
  {
    if MemoryCanGoStale(x, f) {
      var c :| IsCanonical(c) && c !in x;
      StaleString(x, f, c);
    } else {
      forall y | IsText(y)
        ensures IsFirstOccurrence(x, y, StrcasestrLong(x, y, f, InsideGuard))
      {
        if |x| <= |y| {
          PrefixIsOccurrence(x, y);
          if y[..|x|] != x {
            AsWrittenCorrectIff(x, f);
            assert IsText(y[1..]);
            SearchFromSecond(x, y, LongRun(x, y[1..], f, InsideGuard, 0, 0));
          }
        }
      }
    }
  }

  lemma StaleString(x: seq<int>, f: Plan, c: int)
    requires SafePlan(x, f) && IsText(x) && f.suffix > 0 && f.keep > 0 && IsCanonical(c) && c !in x
    ensures var y := [c] + StaleHaystack(x, f.shift, c);
            IsText(y) && !IsFirstOccurrence(x, y, StrcasestrLong(x, y, f, InsideGuard))
  {
    var t := StaleHaystack(x, f.shift, c);
    assert StaleNeedle(x, f, c);
    StaleMatch(x, f, c);
    StaleTail(x, t, f, c);
  }

  lemma StaleTail(x: seq<int>, t: seq<int>, f: Plan, c: int)
    requires Fits(x, f) && |x| <= |t| && c !in x
    requires !IsFirstOccurrence(x, t, LongRun(x, t, f, InsideGuard, 0, 0))
    ensures !IsFirstOccurrence(x, [c] + t, StrcasestrLong(x, [c] + t, f, InsideGuard))
  {
    var y := [c] + t;
    assert y[1..] == t && y[0] != x[0];
    PrefixIsOccurrence(x, y);
    assert y[..|x|][0] == y[0];
    SearchFromSecond(x, y, LongRun(x, t, f, InsideGuard, 0, 0));
  }

  /** A concrete failure of the code as written: "abab...ab" (32 bytes) is reported in
      a string where it does not occur. */
  lemma AlternatingNeedleFails()
    ensures var x := seq(32, i => if i % 2 == 0 then 'a' as int else 'b' as int);
            var f := Plan(1, 2, 30);
            var y := ['c' as int] + StaleHaystack(x, 2, 'c' as int);
            && IsLongPlan(x, f) && SafePlan(x, f) && IsText(y)
            && !IsFirstOccurrence(x, y, StrcasestrLong(x, y, f, InsideGuard))
  {
    var x := seq(32, i => if i % 2 == 0 then 'a' as int else 'b' as int);
    var f := Plan(1, 2, 30);
    AlternatingFactorization(x);
    assert IsFactorization(x, f.suffix, 2) && f == LongPlan(x, f.suffix, 2);
    LongPlanIsSafe(x, f);
    StaleString(x, f, 'c' as int);
  }

  lemma AlternatingFactorization(x: seq<int>)
    requires |x| == 32 && forall i :: 0 <= i < 32 ==> x[i] == if i % 2 == 0 then 'a' as int else 'b' as int
    ensures IsFactorization(x, 1, 2) && Repeats(x, 0, 1, 2)
  {
    forall t | 0 <= t < 32 && t != 1
      ensures Below(x, false, t, 1)
    {
      assert if t % 2 == 0 then FirstDiff(x, false, t, 1, 0) else Agree(x, t, 1, 32 - t);
    }
    forall t | 0 <= t < 32 && t != 0
      ensures Below(x, true, t, 0)
    {
      assert if t % 2 == 1 then FirstDiff(x, true, t, 0, 0) else Agree(x, t, 0, 32 - t);
    }
    assert IsMaxSuffix(x, false, 1) && IsMaxSuffix(x, true, 0);
    assert IsRightPeriod(x, 1, 2);
    assert x[1] != x[2];
  }
}
