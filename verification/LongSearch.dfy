/** The search that two_way_long_needle performs, as a function of the folded
    needle x and haystack y: when it finds the first occurrence, and when it does not.

    In the source the memory of a periodic needle is cleared only in one of the two
    cases of a shift-table move (src/str-two-way.h:330-342). ResetRule keeps both
    readings: InsideGuard is the code as written, EveryShift the reset that the
    meaning of `memory` calls for. */
module LongSearch {
  import opened Words
  import opened Search

  datatype ResetRule = InsideGuard | EveryShift

  /** The distance from the last occurrence of c to the end of x; |x| if c is absent. */
  function Distance(x: seq<int>, c: int): (d: nat)
    ensures d <= |x|
  {
    if |x| == 0 || x[|x| - 1] == c then 0 else 1 + Distance(x[..|x| - 1], c)
  }

  lemma {:induction false} DistanceIsLast(x: seq<int>, c: int)
    ensures c in x <==> Distance(x, c) < |x|
    ensures c in x ==> x[|x| - 1 - Distance(x, c)] == c
    ensures forall i :: |x| - Distance(x, c) <= i < |x| ==> x[i] != c
  {
    if |x| > 0 && x[|x| - 1] != c {
      DistanceIsLast(x[..|x| - 1], c);
      assert forall i :: 0 <= i < |x| - 1 ==> x[i] == x[..|x| - 1][i];
    }
  }

  /** The needle as the search sees it: shift is the move after a left-half
      mismatch, keep the memory it leaves (0 when the halves are distinct). */
  datatype Plan = Plan(suffix: nat, shift: nat, keep: nat)

  predicate Fits(x: seq<int>, f: Plan)
  {
    f.suffix < |x| && f.suffix <= f.shift && 1 <= f.shift && f.keep < |x|
  }

  datatype Step = Done | Next(j: nat, memory: nat)

  /** One iteration of the loop at window j. */
  function LongStep(x: seq<int>, y: seq<int>, f: Plan, rule: ResetRule, j: nat, memory: nat): (o: Step)
    requires Fits(x, f) && j + |x| <= |y| && (memory == 0 || memory == f.keep)
    ensures o.Next? ==> o.j > j && (o.memory == 0 || o.memory == f.keep)
  {
    var d := Distance(x, y[j + |x| - 1]);
    if d > 0 then
      if memory > 0 && d < f.shift then Next(j + f.keep, 0)
      else Next(j + d, if rule.EveryShift? then 0 else memory)
    else
      match Compare(x, y, j, memory, f.suffix, f.shift, |x| - 1)
      case Match => Done
      case Shift(step, rightMatched) => Next(j + step, if rightMatched then f.keep else 0)
  }

  function LongRun(x: seq<int>, y: seq<int>, f: Plan, rule: ResetRule, j: nat, memory: nat): Position
    requires Fits(x, f) && (memory == 0 || memory == f.keep)
    decreases |y| - j
  {
    if |y| < j + |x| then NotFound
    else match LongStep(x, y, f, rule, j, memory)
      case Done => Found(j)
      case Next(j', memory') => LongRun(x, y, f, rule, j', memory')
  }

  /** A memory is kept only in a needle with period shift, and covers all but one
      period; without memory, a shift passes the whole right half. */
  ghost predicate KeepsPeriod(x: seq<int>, f: Plan)
  {
    if f.keep > 0 then IsPeriod(x, f.shift) && f.keep == |x| - f.shift else |x| <= f.shift + f.suffix
  }

  /** The plan is safe for x: no occurrence closer than shift can follow a left-half
      mismatch, and what is remembered is known to match. */
  ghost predicate SafePlan(x: seq<int>, f: Plan)
  {
    Fits(x, f) && SafeShift(x, f.suffix, f.shift) && KeepsPeriod(x, f)
  }

  // ------------------------------------------------------------- shift-table moves

  lemma TableMove(x: seq<int>, y: seq<int>, j: nat)
    requires |x| > 0 && j + |x| <= |y| && NoOccurrence(x, y, 0, j)
    ensures NoOccurrence(x, y, 0, j + Distance(x, y[j + |x| - 1]))
  {
    var c := y[j + |x| - 1];
    DistanceIsLast(x, c);
    forall t | j <= t < j + Distance(x, c)
      ensures !OccursAt(x, y, t)
    {
      var i := j + |x| - 1 - t;
      assert 0 <= i < |x| ==> x[i] != c && y[t + i] == c;
    }
  }

  /** With a live memory and a last byte that occurs within the last period, the
      window can move past everything remembered: an occurrence in between would
      make the remembered prefix overlap itself and force the last byte to match. */
  lemma MemoryMove(x: seq<int>, y: seq<int>, j: nat, p: nat)
    requires IsPeriod(x, p) && p < |x| && j + |x| <= |y|
    requires Window(x, y, j, |x| - p) && y[j + |x| - 1] != x[|x| - 1]
    ensures NoOccurrence(x, y, 0, j + |x| - p)
  {
    var n, keep := |x|, |x| - p;
    assert x[keep - 1] == x[n - 1];
    forall t | j <= t < j + keep
      ensures !OccursAt(x, y, t)
    {
      var d := t - j;
      assert x[keep - 1 - d] == x[n - 1 - d];
      assert x[keep - 1] == y[j + keep - 1] && j + keep - 1 == t + (keep - 1 - d);
      assert j + n - 1 == t + (n - 1 - d);
    }
  }

  lemma StepSound(x: seq<int>, y: seq<int>, f: Plan, rule: ResetRule, j: nat, memory: nat, o: Step)
    requires SafePlan(x, f) && Window(x, y, j, memory) && j + |x| <= |y|
    requires memory == 0 || memory == f.keep
    requires o == LongStep(x, y, f, rule, j, memory)
    requires rule.EveryShift? || memory == 0 || y[j + |x| - 1] in x
    ensures o.Done? ==> IsFirstOccurrence(x, y, Found(j))
    ensures o.Next? ==> Window(x, y, o.j, o.memory)
  {
    var c := y[j + |x| - 1];
    var d := Distance(x, c);
    DistanceIsLast(x, c);
    if d > 0 {
      TableMove(x, y, j);
      if memory > 0 {
        if d < f.shift {
          MemoryMove(x, y, j, f.shift);
        } else {
          LastOccurrenceWithinPeriod(x, f.shift, c);
        }
      }
    } else {
      var n := |x| - 1;
      assert MatchOn(x, y, j, n, |x|);
      var r := Compare(x, y, j, memory, f.suffix, f.shift, n);
      if f.keep > 0 {
        CompareKeepsMemory(x, y, j, memory, f.suffix, f.shift, n, r);
      } else {
        CompareFindsOrShifts(x, y, j, memory, f.suffix, f.shift, n, r);
      }
    }
  }

  /** A letter of a word with period p occurs among its last p letters. */
  lemma {:induction false} LateOccurrence(x: seq<int>, p: nat, i: nat) returns (j: nat)
    requires IsPeriod(x, p) && p <= |x| && i < |x|
    ensures |x| - p <= j < |x| && x[j] == x[i]
    decreases |x| - i
  {
    if i < |x| - p {
      assert x[i] == x[i + p];
      j := LateOccurrence(x, p, i + p);
    } else {
      j := i;
    }
  }

  lemma LastOccurrenceWithinPeriod(x: seq<int>, p: nat, c: int)
    requires IsPeriod(x, p) && p <= |x|
    ensures c in x ==> Distance(x, c) < p
  {
    DistanceIsLast(x, c);
    if c in x {
      var j := LateOccurrence(x, p, |x| - 1 - Distance(x, c));
    }
  }

  /** The search is right under the intended reset rule; as written it is right when
      no memory can outlive a shift-table move. */
  lemma {:induction false} LongRunCorrect(x: seq<int>, y: seq<int>, f: Plan, rule: ResetRule, j: nat, memory: nat)
    requires SafePlan(x, f) && Window(x, y, j, memory)
    requires memory == 0 || (memory == f.keep && f.suffix > 0)
    requires rule.EveryShift? || f.suffix == 0 || f.keep == 0 || (forall c :: c in y ==> c in x)
    ensures IsFirstOccurrence(x, y, LongRun(x, y, f, rule, j, memory))
    decreases |y| - j
  {
    if j + |x| <= |y| {
      var o := LongStep(x, y, f, rule, j, memory);
      StepSound(x, y, f, rule, j, memory, o);
      if o.Next? {
        if f.suffix == 0 {
          MemoryNeedsLeftHalf(x, y, f, rule, j);
        }
        LongRunCorrect(x, y, f, rule, o.j, o.memory);
      }
    }
  }

  lemma MemoryNeedsLeftHalf(x: seq<int>, y: seq<int>, f: Plan, rule: ResetRule, j: nat)
    requires Fits(x, f) && j + |x| <= |y| && f.suffix == 0
    ensures LongStep(x, y, f, rule, j, 0).Next? ==> LongStep(x, y, f, rule, j, 0).memory == 0
  {
  }

  // ------------------------------------------------------------- the code as written

  /** The folded bytes that can occur in a C string. */
  predicate IsCanonical(c: int)
  {
    1 <= c < 256 && !('A' as int <= c <= 'Z' as int)
  }

  predicate IsText(y: seq<int>)
  {
    forall k :: 0 <= k < |y| ==> IsCanonical(y[k])
  }

  /** The guard of the failing branch, for some haystack: a memory can be live
      (a left half, and a period shorter than the needle) when a byte absent from
      the needle moves the window by the whole needle. */
  ghost predicate MemoryCanGoStale(x: seq<int>, f: Plan)
  {
    f.suffix > 0 && f.keep > 0 && exists c :: IsCanonical(c) && c !in x
  }

  /** A haystack on which the stale memory makes the search report a position where
      the needle does not occur: a window that differs in its first letter only, an
      absent byte, and a window of which only the last period matches. */
  function StaleHaystack(x: seq<int>, p: nat, c: int): (y: seq<int>)
    requires p <= |x|
    ensures |y| == 2 * |x| + p
  {
    seq(2 * |x| + p, k requires 0 <= k < 2 * |x| + p =>
      if k == 0 then c
      else if k < |x| then x[k]
      else if k < 2 * |x| then c
      else x[k - |x| - p])
  }

  /** The needles of the failing family, and an absent byte. */
  predicate StaleNeedle(x: seq<int>, f: Plan, c: int)
  {
    Fits(x, f) && 0 < f.suffix && f.keep > 0 && f.keep == |x| - f.shift && c !in x
  }

  /** A window that differs in its first letter only: the shift is the period. */
  lemma FirstLetterDiffers(x: seq<int>, y: seq<int>, f: Plan)
    requires Fits(x, f) && 0 < f.suffix && |x| <= |y| && y[0] != x[0]
    requires forall k :: 1 <= k < |x| ==> x[k] == y[k]
    ensures LongStep(x, y, f, InsideGuard, 0, 0) == Next(f.shift, f.keep)
  {
    var n := |x| - 1;
    assert ScanRight(x, y, 0, f.suffix, n) == n by {
      ScanRightComplete(x, y, 0, f.suffix, n);
    }
    assert ScanLeft(x, y, 0, f.suffix - 1, 0) >= 0 by {
      ScanLeftStops(x, y, 0, f.suffix - 1, 0);
    }
    assert x[n] == y[n];
  }

  /** A window that ends in an absent byte: the memory survives the move. */
  lemma AbsentLastByte(x: seq<int>, y: seq<int>, f: Plan, j: nat)
    requires Fits(x, f) && f.shift <= |x| && j + |x| <= |y| && y[j + |x| - 1] !in x
    ensures LongStep(x, y, f, InsideGuard, j, f.keep) == Next(j + |x|, f.keep)
  {
    DistanceIsLast(x, y[j + |x| - 1]);
  }

  /** A window that matches after the memory is reported as a match. */
  lemma OnlyAfterMemory(x: seq<int>, y: seq<int>, f: Plan, j: nat)
    requires Fits(x, f) && j + |x| <= |y|
    requires forall k :: f.keep <= k < |x| ==> x[k] == y[j + k]
    ensures LongStep(x, y, f, InsideGuard, j, f.keep) == Done
  {
    assert ScanRight(x, y, j, Max(f.suffix, f.keep), |x| - 1) == |x| - 1 by {
      ScanRightComplete(x, y, j, Max(f.suffix, f.keep), |x| - 1);
    }
    assert ScanLeft(x, y, j, f.suffix - 1, f.keep) < f.keep by {
      ScanLeftComplete(x, y, j, f.suffix - 1, f.keep);
    }
    assert x[|x| - 1] == y[j + |x| - 1];
  }

  lemma ThreeWindows(x: seq<int>, y: seq<int>, f: Plan)
    requires Fits(x, f) && 0 < f.suffix && f.shift <= |x| && |y| == 2 * |x| + f.shift
    requires y[0] != x[0] && y[f.shift + |x| - 1] !in x
    requires forall k :: 1 <= k < |x| ==> x[k] == y[k]
    requires forall k :: f.keep <= k < |x| ==> x[k] == y[f.shift + |x| + k]
    ensures LongRun(x, y, f, InsideGuard, 0, 0) == Found(f.shift + |x|)
  {
    var j, j' := f.shift, f.shift + |x|;
    assert LongRun(x, y, f, InsideGuard, j', f.keep) == Found(j') by {
      OnlyAfterMemory(x, y, f, j');
    }
    assert LongRun(x, y, f, InsideGuard, j, f.keep) == Found(j') by {
      AbsentLastByte(x, y, f, j);
    }
    FirstLetterDiffers(x, y, f);
  }

  lemma StaleMatch(x: seq<int>, f: Plan, c: int)
    requires StaleNeedle(x, f, c)
    ensures var y := StaleHaystack(x, f.shift, c);
            && LongRun(x, y, f, InsideGuard, 0, 0) == Found(|x| + f.shift)
            && !OccursAt(x, y, |x| + f.shift)
  {
    var y := StaleHaystack(x, f.shift, c);
    assert y[|x| + f.shift] == c != x[0];
    ThreeWindows(x, y, f);
  }

  /** The code as written finds the first occurrence in every haystack exactly for
      the needles whose memory cannot go stale. */
  lemma AsWrittenCorrectIff(x: seq<int>, f: Plan)
    requires SafePlan(x, f) && IsText(x)
    ensures (forall y :: IsText(y) ==> IsFirstOccurrence(x, y, LongRun(x, y, f, InsideGuard, 0, 0)))
            <==> !MemoryCanGoStale(x, f)
  {
    if MemoryCanGoStale(x, f) {
      var c :| IsCanonical(c) && c !in x;
      assert StaleNeedle(x, f, c);
      StaleMatch(x, f, c);
      assert IsText(StaleHaystack(x, f.shift, c));
    } else {
      forall y | IsText(y)
        ensures IsFirstOccurrence(x, y, LongRun(x, y, f, InsideGuard, 0, 0))
      {
        assert f.suffix > 0 && f.keep > 0 ==> forall k :: 0 <= k < |y| ==> y[k] in x;
        LongRunCorrect(x, y, f, InsideGuard, 0, 0);
      }
    }
  }
}
