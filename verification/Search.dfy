/** What a search must return, and why each shift of the Two-Way search skips no
    occurrence. x is the folded needle, y the folded haystack. */
module Search {
  import opened Words

  datatype Position = NotFound | Found(at: nat)

  /** The window of y at j agrees with x at the indices in [lo, hi). */
  ghost predicate MatchOn(x: seq<int>, y: seq<int>, j: int, lo: int, hi: int)
  {
    0 <= j && forall i, k {:trigger x[i], y[k]} :: 0 <= i && lo <= i < hi && i < |x| && k == j + i && k < |y| ==> x[i] == y[k]
  }

  ghost predicate OccursAt(x: seq<int>, y: seq<int>, j: int)
  {
    0 <= j && j + |x| <= |y| && MatchOn(x, y, j, 0, |x|)
  }

  ghost predicate NoOccurrence(x: seq<int>, y: seq<int>, lo: int, hi: int)
  {
    forall t :: lo <= t < hi ==> !OccursAt(x, y, t)
  }

  ghost predicate IsFirstOccurrence(x: seq<int>, y: seq<int>, r: Position)
  {
    match r
    case NotFound => NoOccurrence(x, y, 0, |y| + 1)
    case Found(at) => OccursAt(x, y, at) && NoOccurrence(x, y, 0, at)
  }

  lemma FirstOccurrenceUnique(x: seq<int>, y: seq<int>, r: Position, r': Position)
    requires IsFirstOccurrence(x, y, r) && IsFirstOccurrence(x, y, r')
    ensures r == r'
  {
  }

  /** An occurrence overlapping a window whose right half matches is one period away. */
  lemma OverlapIsPeriod(x: seq<int>, y: seq<int>, s: nat, i: int, j: int, t: int)
    requires IsCritical(x, s) && s <= i <= |x|
    requires 0 <= j < t && j + |x| <= |y| && (t - j <= i - s || i == |x|)
    requires MatchOn(x, y, j, s, i)
    ensures OccursAt(x, y, t) ==> IsPeriod(x, t - j) && s < t - j
  {
    if OccursAt(x, y, t) {
      var r := t - j;
      forall a, b | 0 <= a && s - r <= a < s && b == a + r && 0 <= b < |x| && a < |x|
        ensures x[a] == x[b]
      {
        assert x[b] == y[j + b] == x[a];
      }
      assert IsLocalPeriod(x, s, r);
    }
  }

  /** A mismatch at i in the right half rules out the next i - s positions too. */
  lemma RightMismatch(x: seq<int>, y: seq<int>, s: nat, i: int, j: int)
    requires IsCritical(x, s) && s <= i < |x|
    requires 0 <= j && j + |x| <= |y|
    requires MatchOn(x, y, j, s, i) && x[i] != y[j + i]
    ensures NoOccurrence(x, y, j, j + i - s + 1)
  {
    forall t | j <= t < j + i - s + 1
      ensures !OccursAt(x, y, t)
    {
      if t > j {
        OverlapIsPeriod(x, y, s, i, j, t);
        if IsPeriod(x, t - j) {
          assert x[i - (t - j)] == x[i] != y[j + i];
        }
      }
    }
  }

  /** A mismatch at i in the left half, after the right half matched, rules out
      every shift below the least period. */
  lemma LeftMismatch(x: seq<int>, y: seq<int>, s: nat, i: int, j: int, p: int)
    requires IsCritical(x, s) && 0 <= i < s
    requires 0 <= j && j + |x| <= |y|
    requires MatchOn(x, y, j, s, |x|) && x[i] != y[j + i]
    requires forall q :: IsPeriod(x, q) ==> p <= q
    ensures NoOccurrence(x, y, j, j + p)
  {
    forall t | j <= t < j + p
      ensures !OccursAt(x, y, t)
    {
      if t > j {
        OverlapIsPeriod(x, y, s, |x|, j, t);
      }
    }
  }

  /** After a left-half mismatch and a shift by the period, everything but the
      last period of the new window is known to match. */
  lemma MemoryAfterPeriod(x: seq<int>, y: seq<int>, s: nat, j: int, p: int)
    requires IsPeriod(x, p) && s <= p <= |x| && 0 <= j && j + |x| <= |y|
    requires MatchOn(x, y, j, s, |x|)
    ensures MatchOn(x, y, j + p, 0, |x| - p)
  {
    forall i, k | 0 <= i < |x| - p && k == j + p + i && k < |y|
      ensures x[i] == y[k]
    {
      assert x[i] == x[i + p] == y[k];
    }
  }

  /** Comparing x with the window at j, left to right from i, up to hi. */
  function ScanRight(x: seq<int>, y: seq<int>, j: nat, i: nat, hi: nat): (r: nat)
    requires i <= hi <= |x| && j + |x| <= |y|
    ensures i <= r <= hi
    decreases hi - i
  {
    if i < hi && x[i] == y[j + i] then ScanRight(x, y, j, i + 1, hi) else i
  }

  /** Comparing x with the window at j, right to left from i, down to lo. */
  function ScanLeft(x: seq<int>, y: seq<int>, j: nat, i: int, lo: nat): (r: int)
    requires -1 <= i < |x| && j + |x| <= |y|
    ensures -1 <= r <= i
    decreases i + 1
  {
    if lo < i + 1 && x[i] == y[j + i] then ScanLeft(x, y, j, i - 1, lo) else i
  }

  lemma {:induction false} ScanRightStops(x: seq<int>, y: seq<int>, j: nat, i: nat, hi: nat)
    requires i <= hi <= |x| && j + |x| <= |y|
    ensures var r := ScanRight(x, y, j, i, hi);
            MatchOn(x, y, j, i, r) && (r < hi ==> x[r] != y[j + r])
    decreases hi - i
  {
    if i < hi && x[i] == y[j + i] {
      ScanRightStops(x, y, j, i + 1, hi);
    }
  }

  lemma {:induction false} ScanLeftStops(x: seq<int>, y: seq<int>, j: nat, i: int, lo: nat)
    requires -1 <= i < |x| && j + |x| <= |y|
    ensures var r := ScanLeft(x, y, j, i, lo);
            MatchOn(x, y, j, r + 1, i + 1) && (if r < lo then r == i || r == lo - 1 else x[r] != y[j + r])
    decreases i + 1
  {
    if lo < i + 1 && x[i] == y[j + i] {
      ScanLeftStops(x, y, j, i - 1, lo);
    }
  }

  lemma {:induction false} ScanRightComplete(x: seq<int>, y: seq<int>, j: nat, i: nat, hi: nat)
    requires i <= hi <= |x| && j + |x| <= |y|
    requires forall k :: i <= k < hi ==> x[k] == y[j + k]
    ensures ScanRight(x, y, j, i, hi) == hi
    decreases hi - i
  {
    if i < hi {
      ScanRightComplete(x, y, j, i + 1, hi);
    }
  }

  lemma {:induction false} ScanLeftComplete(x: seq<int>, y: seq<int>, j: nat, i: int, lo: nat)
    requires -1 <= i < |x| && j + |x| <= |y|
    requires forall k :: lo <= k <= i ==> x[k] == y[j + k]
    ensures ScanLeft(x, y, j, i, lo) < lo
    decreases i + 1
  {
    if lo < i + 1 {
      ScanLeftComplete(x, y, j, i - 1, lo);
    }
  }

  // ------------------------------------------------- one round of a search

  /** No occurrence starts before j, and the first `memory` letters of the window
      at j are known to match. */
  ghost predicate Window(x: seq<int>, y: seq<int>, j: int, memory: nat)
  {
    0 <= j && (memory > 0 ==> j + memory <= |y|) && MatchOn(x, y, j, 0, memory) && NoOccurrence(x, y, 0, j)
  }

  /** What comparing one window tells: a full match, or a safe shift; rightMatched
      says that the right half matched, so that the mismatch was in the left half. */
  datatype Outcome = Match | Shift(step: nat, rightMatched: bool)

  /** The right half is scanned first, from the end of the memory and up to hi (what
      lies beyond hi is known to match), then the left half down to the memory. */
  function Compare(x: seq<int>, y: seq<int>, j: nat, memory: nat, s: nat, period: nat, hi: nat): (o: Outcome)
    requires s < |x| && s <= hi && memory <= hi <= |x| && j + |x| <= |y| && period >= 1
    ensures o.Shift? ==> if o.rightMatched then o.step == period else 1 <= o.step <= hi - s
  {
    var i := ScanRight(x, y, j, Max(s, memory), hi);
    if i < hi then Shift(i - s + 1, false)
    else if ScanLeft(x, y, j, s - 1, memory) < memory then Match
    else Shift(period, true)
  }

  /** The facts about the factored needle that make the shifts safe: s is critical
      and no period is shorter than the shift taken after a left-half mismatch. */
  ghost predicate SafeShift(x: seq<int>, s: nat, period: nat)
  {
    IsCritical(x, s) && period >= 1 && forall q :: IsPeriod(x, q) ==> period <= q
  }

  lemma CompareFindsOrShifts(x: seq<int>, y: seq<int>, j: nat, memory: nat, s: nat, period: nat, hi: nat, o: Outcome)
    requires SafeShift(x, s, period) && Window(x, y, j, memory) && j + |x| <= |y|
    requires s <= hi && memory <= hi <= |x| && MatchOn(x, y, j, hi, |x|)
    requires o == Compare(x, y, j, memory, s, period, hi)
    ensures o.Match? ==> IsFirstOccurrence(x, y, Found(j))
    ensures o.Shift? ==> o.step >= 1 && Window(x, y, j + o.step, 0)
    ensures o.Shift? && o.rightMatched ==> MatchOn(x, y, j, s, |x|)
  {
    var i := ScanRight(x, y, j, Max(s, memory), hi);
    ScanRightStops(x, y, j, Max(s, memory), hi);
    if i < hi {
      RightMismatch(x, y, s, i, j);
    } else {
      assert MatchOn(x, y, j, s, |x|);
      var l := ScanLeft(x, y, j, s - 1, memory);
      ScanLeftStops(x, y, j, s - 1, memory);
      if l < memory {
        assert MatchOn(x, y, j, 0, |x|);
      } else {
        LeftMismatch(x, y, s, l, j, period);
      }
    }
  }

  /** In a periodic needle the window after a round has a live memory: everything
      but the last period is known to match when the right half did. */
  lemma CompareKeepsMemory(x: seq<int>, y: seq<int>, j: nat, memory: nat, s: nat, period: nat, hi: nat, o: Outcome)
    requires SafeShift(x, s, period) && IsPeriod(x, period) && s <= period <= |x|
    requires Window(x, y, j, memory) && j + |x| <= |y|
    requires s <= hi && memory <= hi <= |x| && MatchOn(x, y, j, hi, |x|)
    requires o == Compare(x, y, j, memory, s, period, hi)
    ensures o.Match? ==> IsFirstOccurrence(x, y, Found(j))
    ensures o.Shift? ==> o.step >= 1 && Window(x, y, j + o.step, if o.rightMatched then |x| - period else 0)
  {
    CompareFindsOrShifts(x, y, j, memory, s, period, hi, o);
    if o.Shift? && o.rightMatched {
      MemoryAfterPeriod(x, y, s, j, period);
    }
  }

  function Max(a: nat, b: nat): nat
  {
    if a < b then b else a
  }
}
