/** The factorization and the short-needle search of src/str-two-way.h, with the
    AVAILABLE macro of src/strcasestr.c. Needle and haystack are C strings;
    comparisons go through the case fold, as CANON_ELEMENT does. The source's
    SIZE_MAX, standing for "before the first index", is -1. */
module TwoWayShort {
  import opened Bytes
  import opened CaseFold
  import opened Words
  import opened MaximalSuffix
  import opened Search

  /** The factorization that the two passes determine. */
  ghost predicate IsFactorization(x: seq<int>, suffix: nat, period: int)
  {
    && (exists s, s' :: IsMaxSuffix(x, false, s) && IsMaxSuffix(x, true, s') && suffix == if s' < s then s else s')
    && IsLeastRightPeriod(x, suffix, period)
  }

  lemma FactorizationIsCritical(x: seq<int>, suffix: nat, period: int)
    requires IsFactorization(x, suffix, period)
    ensures IsCritical(x, suffix)
    ensures forall r :: IsLocalPeriod(x, suffix, r) <==> IsPeriod(x, r)
    ensures forall r :: IsPeriod(x, r) ==> suffix < r
  {
    var s, s' :| IsMaxSuffix(x, false, s) && IsMaxSuffix(x, true, s') && suffix == if s' < s then s else s';
    forall r | IsLocalPeriod(x, suffix, r)
      ensures suffix < r && IsPeriod(x, r)
    {
      if s' < s {
        LocalPeriodsArePeriods(x, false, s, s', r);
      } else {
        LocalPeriodsArePeriods(x, true, s', s, r);
      }
    }
    forall r | IsPeriod(x, r)
      ensures IsLocalPeriod(x, suffix, r)
    {
    }
  }

  lemma FactorizationUnique(x: seq<int>, suffix: nat, period: int, suffix': nat, period': int)
    requires IsFactorization(x, suffix, period) && IsFactorization(x, suffix', period')
    ensures suffix == suffix' && period == period'
  {
    forall rev, s, t | IsMaxSuffix(x, rev, s) && IsMaxSuffix(x, rev, t)
      ensures s == t
    {
      MaxSuffixUnique(x, rev, s, t);
    }
  }

  /** critical_factorization: the returned index is a critical position, where the
      local periods are exactly the global periods of the needle and all of them
      exceed the left half; period is the least period of the right half. */
  method CriticalFactorization(needle: seq<byte>) returns (suffix: nat, period: nat, ghost steps: nat)
    requires |needle| > 0
    ensures suffix < |needle| && 1 <= period <= |needle| - suffix
    ensures IsFactorization(Fold(needle), suffix, period)
    ensures forall r :: IsLocalPeriod(Fold(needle), suffix, r) <==> IsPeriod(Fold(needle), r)
    ensures forall r :: IsPeriod(Fold(needle), r) ==> suffix < r
    ensures steps < 4 * |needle|
  {
    ghost var x := Fold(needle);
    var maxSuffix, p, n := MaxSuffixPass(needle, false);
    period := p;
    var maxSuffixRev, q, m := MaxSuffixPass(needle, true);
    steps := n + m;
    assert IsMaxSuffix(x, false, maxSuffix + 1) && IsMaxSuffix(x, true, maxSuffixRev + 1);
    if maxSuffixRev + 1 < maxSuffix + 1 {
      suffix := maxSuffix + 1;
    } else {
      period := q;
      suffix := maxSuffixRev + 1;
    }
    FactorizationIsCritical(x, suffix, period);
  }

  /** AVAILABLE: whether needleLen bytes remain at h + j, looking only at bytes not
      yet known to be part of the haystack and never past its NUL. The known
      length is extended exactly when the answer is yes. scanned counts the bytes looked at. */
  method Available(h: seq<byte>, haystackLen: nat, j: nat, needleLen: nat) returns (ok: bool, known: nat, ghost scanned: nat)
    requires IsCString(h) && needleLen > 0
    requires haystackLen <= |h| - 1 && haystackLen <= j + needleLen
    ensures ok <==> j + needleLen <= |h| - 1
    ensures known == if ok then j + needleLen else haystackLen
    ensures haystackLen <= known <= |h| - 1
    ensures scanned == (if ok then known else |h|) - haystackLen
  {
    var i := haystackLen;
    scanned := 0;
    while i < j + needleLen
      invariant haystackLen <= i <= j + needleLen && i <= |h| - 1 && scanned == i - haystackLen
    {
      scanned := scanned + 1;
      if h[i] == 0 {
        return false, haystackLen, scanned;
      }
      i := i + 1;
    }
    return true, j + needleLen, scanned;
  }

  /** The left-to-right comparison loop. */
  method MatchRight(needle: seq<byte>, h: seq<byte>, j: nat, from: nat, to: nat) returns (i: nat, ghost comparisons: nat)
    requires IsCString(h) && j + |needle| <= |h| - 1
    requires from <= to <= |needle|
    ensures i == ScanRight(Fold(needle), FoldedText(h), j, from, to)
    ensures comparisons == i - from + if i < to then 1 else 0
  {
    i := from;
    comparisons := 0;
    while i < to
      invariant from <= i <= to && comparisons == i - from
      invariant ScanRight(Fold(needle), FoldedText(h), j, from, to) == ScanRight(Fold(needle), FoldedText(h), j, i, to)
    {
      comparisons := comparisons + 1;
      if Lower(needle[i]) != Lower(h[i + j]) {
        return;
      }
      i := i + 1;
    }
  }

  /** The right-to-left comparison loop. */
  method MatchLeft(needle: seq<byte>, h: seq<byte>, j: nat, from: int, memory: nat) returns (i: int, ghost comparisons: nat)
    requires IsCString(h) && j + |needle| <= |h| - 1
    requires -1 <= from < |needle|
    ensures i == ScanLeft(Fold(needle), FoldedText(h), j, from, memory)
    ensures comparisons == from - i + if memory < i + 1 then 1 else 0
  {
    i := from;
    comparisons := 0;
    while memory < i + 1
      invariant -1 <= i <= from && comparisons == from - i
      invariant ScanLeft(Fold(needle), FoldedText(h), j, from, memory) == ScanLeft(Fold(needle), FoldedText(h), j, i, memory)
    {
      comparisons := comparisons + 1;
      if Lower(needle[i]) != Lower(h[i + j]) {
        return;
      }
      i := i - 1;
    }
  }

  lemma RepeatsAsSlices(x: seq<int>, s: nat, p: nat)
    requires p + s <= |x|
    ensures Repeats(x, 0, s, p) <==> x[0..s] == x[p..p + s]
  {
    if x[0..s] == x[p..p + s] {
      forall i, j | 0 <= i < s && j == i + p
        ensures x[i] == x[j]
      {
        assert x[0..s][i] == x[p..p + s][i];
      }
    }
  }

  /** The test that decides between the two searches: does the left half continue
      the period of the right half? */
  method LeftHalfContinues(find: seq<byte>, suffix: nat, period: nat) returns (periodic: bool, ghost comparisons: nat)
    requires IsCString(find) && suffix < |find| - 1 && 1 <= period <= |find| - 1 - suffix
    ensures periodic <==> Repeats(FoldedText(find), 0, suffix, period)
    ensures comparisons <= suffix
  {
    var c;
    c, comparisons := Strncasecmp(find, 0, find, period, suffix);
    periodic := c == 0;
    ghost var x := FoldedText(find);
    assert Head(find, 0, suffix) == x[0..suffix] && Head(find, period, suffix) == x[period..period + suffix];
    RepeatsAsSlices(x, suffix, period);
  }

  /** Comparisons made on one window. */
  predicate RoundBudget(suffix: nat, memory: nat, hi: nat, o: Outcome, right: nat, left: nat)
  {
    if o.Shift? && !o.rightMatched then right + Max(suffix, memory) <= suffix + o.step && left == 0
    else right + Max(suffix, memory) <= hi && left <= suffix
  }

  /** The comparisons so far: each loop visits every haystack position at most once. */
  predicate WithinBudget(n: nat, size: nat, suffix: nat, j: nat, memory: nat, right: nat, left: nat)
  {
    && right + suffix <= j + Max(suffix, memory) && left <= j
    && (n <= size ==> right + suffix <= size && left <= size - n + suffix)
  }

  lemma BudgetAfterRound(n: nat, size: nat, suffix: nat, period: nat, j: nat, memory: nat, right: nat, left: nat,
                         hi: nat, o: Outcome, a: nat, b: nat)
    requires WithinBudget(n, size, suffix, j, memory, right, left) && RoundBudget(suffix, memory, hi, o, a, b)
    requires j + n <= size && suffix <= hi <= n && suffix <= period
    requires o.Shift? ==> if o.rightMatched then o.step == period else o.step + suffix <= n
    ensures o.Match? ==> right + a + left + b <= 2 * size - n
    ensures o.Shift? && !o.rightMatched ==> WithinBudget(n, size, suffix, j + o.step, 0, right + a, left + b)
    ensures o.Shift? && o.rightMatched && period <= n ==> WithinBudget(n, size, suffix, j + period, n - period, right + a, left + b)
    ensures o.Shift? && o.rightMatched && n <= period + suffix ==> WithinBudget(n, size, suffix, j + period, 0, right + a, left + b)
  {
  }

  /** One window: the two comparison loops in the order the searches run them.
      The counts bound the comparisons of each loop. */
  method CompareWindow(needle: seq<byte>, h: seq<byte>, j: nat, memory: nat, suffix: nat, period: nat, hi: nat)
    returns (o: Outcome, ghost right: nat, ghost left: nat)
    requires IsCString(h) && j + |needle| <= |h| - 1
    requires suffix < |needle| && suffix <= hi && memory <= hi <= |needle| && period >= 1
    ensures o == Compare(Fold(needle), FoldedText(h), j, memory, suffix, period, hi)
    ensures RoundBudget(suffix, memory, hi, o, right, left)
  {
    left := 0;
    var i;
    i, right := MatchRight(needle, h, j, Max(suffix, memory), hi);
    if hi <= i {
      i, left := MatchLeft(needle, h, j, suffix - 1, memory);
      if i + 1 < memory + 1 {
        o := Match;
      } else {
        o := Shift(period, true);
      }
    } else {
      o := Shift(i - suffix + 1, false);
    }
  }

  /** two_way_short_needle, needle periodic. */
  method ShortPeriodic(h: seq<byte>, haystackLen: nat, needle: seq<byte>, suffix: nat, period: nat)
    returns (r: Position, ghost comparisons: nat, ghost scans: nat)
    requires IsCString(h) && haystackLen <= |h| - 1 && haystackLen <= |needle|
    requires suffix < |needle| && suffix <= period <= |needle|
    requires SafeShift(Fold(needle), suffix, period) && IsPeriod(Fold(needle), period)
    ensures IsFirstOccurrence(Fold(needle), FoldedText(h), r)
    ensures if |h| - 1 >= |needle| then comparisons <= 2 * (|h| - 1) - |needle| else comparisons == 0
    ensures scans <= |h| - haystackLen
  {
    ghost var x, y := Fold(needle), FoldedText(h);
    var memory: nat, j: nat := 0, 0;
    ghost var right: nat, left: nat := 0, 0;
    var ok: bool, known: nat, n0 := Available(h, haystackLen, 0, |needle|);
    scans := n0;
    while ok
      invariant memory == 0 || memory == |needle| - period
      invariant Window(x, y, j, memory)
      invariant ok <==> j + |needle| <= |y|
      invariant known <= |y| && known <= j + |needle| && scans == (if ok then known else |h|) - haystackLen
      invariant |y| < |needle| ==> right == left == 0
      invariant WithinBudget(|needle|, |y|, suffix, j, memory, right, left)
      decreases |y| - j
    {
      var o, n, m := CompareWindow(needle, h, j, memory, suffix, period, |needle|);
      CompareKeepsMemory(x, y, j, memory, suffix, period, |needle|, o);
      BudgetAfterRound(|needle|, |y|, suffix, period, j, memory, right, left, |needle|, o, n, m);
      right, left := right + n, left + m;
      if o.Match? {
        return Found(j), right + left, scans;
      }
      j := j + o.step;
      memory := if o.rightMatched then |needle| - period else 0;
      ghost var more;
      ok, known, more := Available(h, known, j, |needle|);
      scans := scans + more;
    }
    return NotFound, right + left, scans;
  }

  /** two_way_short_needle, halves distinct: every mismatch is a maximal shift. */
  method ShortAperiodic(h: seq<byte>, haystackLen: nat, needle: seq<byte>, suffix: nat)
    returns (r: Position, ghost comparisons: nat, ghost scans: nat)
    requires IsCString(h) && haystackLen <= |h| - 1 && haystackLen <= |needle|
    requires suffix < |needle| && SafeShift(Fold(needle), suffix, Max(suffix, |needle| - suffix) + 1)
    ensures IsFirstOccurrence(Fold(needle), FoldedText(h), r)
    ensures if |h| - 1 >= |needle| then comparisons <= 2 * (|h| - 1) - |needle| else comparisons == 0
    ensures scans <= |h| - haystackLen
  {
    ghost var x, y := Fold(needle), FoldedText(h);
    var period := Max(suffix, |needle| - suffix) + 1;
    var j: nat := 0;
    ghost var right: nat, left: nat := 0, 0;
    var ok: bool, known: nat, n0 := Available(h, haystackLen, 0, |needle|);
    scans := n0;
    while ok
      invariant Window(x, y, j, 0)
      invariant ok <==> j + |needle| <= |y|
      invariant known <= |y| && known <= j + |needle| && scans == (if ok then known else |h|) - haystackLen
      invariant |y| < |needle| ==> right == left == 0
      invariant WithinBudget(|needle|, |y|, suffix, j, 0, right, left)
      decreases ok, |y| - j
    {
      var o, n, m := CompareWindow(needle, h, j, 0, suffix, period, |needle|);
      CompareFindsOrShifts(x, y, j, 0, suffix, period, |needle|, o);
      BudgetAfterRound(|needle|, |y|, suffix, period, j, 0, right, left, |needle|, o, n, m);
      right, left := right + n, left + m;
      if o.Match? {
        return Found(j), right + left, scans;
      }
      j := j + o.step;
      ghost var more;
      ok, known, more := Available(h, known, j, |needle|);
      scans := scans + more;
    }
    return NotFound, right + left, scans;
  }

  /** What the test between the two searches establishes: with the shift each
      search takes after a left-half mismatch, no occurrence is passed over. */
  lemma ShiftsAreSafe(x: seq<int>, suffix: nat, period: int)
    requires IsFactorization(x, suffix, period)
    ensures SafeShift(x, suffix, if Repeats(x, 0, suffix, period) then period else Max(suffix, |x| - suffix) + 1)
    ensures Repeats(x, 0, suffix, period) ==> IsPeriod(x, period) && suffix < period
  {
    FactorizationIsCritical(x, suffix, period);
    if Repeats(x, 0, suffix, period) {
      PeriodicNeedle(x, suffix, period);
    } else {
      forall q | IsPeriod(x, q)
        ensures Max(suffix, |x| - suffix) + 1 <= q
      {
        AperiodicNeedle(x, suffix, period, q);
      }
    }
  }

  /** two_way_short_needle: the first occurrence of the folded needle in the folded
      haystack, after at most 2 * H - N comparisons of haystack bytes and less than 5 * N
      of the needle with itself; AVAILABLE looks at each byte not known before once. */
  method TwoWayShortNeedle(h: seq<byte>, haystackLen: nat, find: seq<byte>)
    returns (r: Position, ghost steps: nat, ghost comparisons: nat, ghost scans: nat)
    requires IsCString(h) && IsCString(find) && |find| > 1
    requires haystackLen <= |h| - 1 && haystackLen <= |find| - 1
    ensures IsFirstOccurrence(FoldedText(find), FoldedText(h), r)
    ensures steps < 5 * (|find| - 1) && scans <= |h| - haystackLen
    ensures if |h| >= |find| then comparisons <= 2 * (|h| - 1) - (|find| - 1) else comparisons == 0
  {
    var needle := Text(find);
    var suffix, period, n := CriticalFactorization(needle);
    ShiftsAreSafe(Fold(needle), suffix, period);
    var periodic, m := LeftHalfContinues(find, suffix, period);
    steps := n + m;
    if periodic {
      r, comparisons, scans := ShortPeriodic(h, haystackLen, needle, suffix, period);
    } else {
      r, comparisons, scans := ShortAperiodic(h, haystackLen, needle, suffix);
    }
  }
}
