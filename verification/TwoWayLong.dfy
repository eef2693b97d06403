/** two_way_long_needle of src/str-two-way.h: the search with a bad-byte table. */
module TwoWayLong {
  import opened Bytes
  import opened CaseFold
  import opened Words
  import opened Search
  import opened LongSearch
  import opened TwoWayShort

  /** The shift table: for each byte, the distance from its last occurrence in the
      folded needle to the needle's end, or the needle's length. */
  method BuildShiftTable(needle: seq<byte>) returns (table: array<nat>, ghost steps: nat)
    ensures fresh(table) && table.Length == 256
    ensures forall c :: 0 <= c < 256 ==> table[c] == Distance(Fold(needle), c)
    ensures steps == 256 + |needle|
  {
    table, steps := new nat[256], 0;
    var i := 0;
    while i < 256
      invariant 0 <= i <= 256 && steps == i
      invariant forall c :: 0 <= c < i ==> table[c] == |needle|
    {
      table[i] := |needle|;
      i, steps := i + 1, steps + 1;
    }
    ghost var x := Fold(needle);
    i := 0;
    while i < |needle|
      invariant 0 <= i <= |needle| && steps == 256 + i
      invariant forall c :: 0 <= c < 256 ==> table[c] == Distance(x[..i], c) + (|needle| - i)
    {
      assert x[..i + 1][..i] == x[..i];
      table[Lower(needle[i])] := |needle| - i - 1;
      i, steps := i + 1, steps + 1;
    }
    assert x[..|needle|] == x;
  }

  lemma BudgetAfterMove(x: seq<int>, f: Plan, size: nat, c: int, j: nat, memory: nat, right: nat, left: nat)
    requires Fits(x, f) && KeepsPeriod(x, f) && (memory == 0 || memory == f.keep) && j + |x| <= size
    requires WithinBudget(|x|, size, f.suffix, j, memory, right, left)
    requires Distance(x, c) > 0
    ensures memory > 0 ==> WithinBudget(|x|, size, f.suffix, j + memory, 0, right, left)
    ensures memory == 0 || Distance(x, c) >= f.shift
            ==> WithinBudget(|x|, size, f.suffix, j + Distance(x, c), 0, right, left)
  {
    if memory > 0 {
      LastOccurrenceWithinPeriod(x, f.shift, c);
      DistanceIsLast(x, c);
    }
  }

  /** The counts of one window: none for a table move. */
  ghost predicate StepBudget(x: seq<int>, y: seq<int>, f: Plan, j: nat, memory: nat, right: nat, left: nat)
    requires Fits(x, f) && j + |x| <= |y| && memory < |x|
  {
    if Distance(x, y[j + |x| - 1]) > 0 then right == left == 0
    else RoundBudget(f.suffix, memory, |x| - 1, Compare(x, y, j, memory, f.suffix, f.shift, |x| - 1), right, left)
  }

  /** One window: the table test on its last byte, then the comparisons. */
  method LongRound(needle: seq<byte>, h: seq<byte>, f: Plan, table: array<nat>, rule: ResetRule, j: nat, memory: nat)
    returns (o: Step, ghost right: nat, ghost left: nat)
    requires IsCString(h) && j + |needle| <= |h| - 1
    requires Fits(Fold(needle), f) && (memory == 0 || memory == f.keep)
    requires table.Length == 256 && forall c :: 0 <= c < 256 ==> table[c] == Distance(Fold(needle), c)
    ensures o == LongStep(Fold(needle), FoldedText(h), f, rule, j, memory)
    ensures StepBudget(Fold(needle), FoldedText(h), f, j, memory, right, left)
  {
    hide Compare, RoundBudget, Distance;
    var shift := table[Lower(h[j + |needle| - 1])];
    if 0 < shift {
      if memory != 0 && shift < f.shift {
        return Next(j + f.keep, 0), 0, 0;
      }
      return Next(j + shift, if rule.EveryShift? then 0 else memory), 0, 0;
    }
    var c;
    c, right, left := CompareWindow(needle, h, j, memory, f.suffix, f.shift, |needle| - 1);
    match c
    case Match => o := Done;
    case Shift(step, rightMatched) => o := Next(j + step, if rightMatched then f.keep else 0);
  }

  lemma BudgetAfterStep(x: seq<int>, y: seq<int>, f: Plan, rule: ResetRule, j: nat, memory: nat, o: Step,
                        right: nat, left: nat, a: nat, b: nat)
    requires Fits(x, f) && KeepsPeriod(x, f) && (memory == 0 || memory == f.keep) && j + |x| <= |y|
    requires o == LongStep(x, y, f, rule, j, memory)
    requires WithinBudget(|x|, |y|, f.suffix, j, memory, right, left) && StepBudget(x, y, f, j, memory, a, b)
    ensures o.Done? ==> right + a + left + b <= 2 * |y| - |x|
    ensures o.Next? ==> WithinBudget(|x|, |y|, f.suffix, o.j, o.memory, right + a, left + b)
  {
    var c := y[j + |x| - 1];
    if Distance(x, c) == 0 {
      var r := Compare(x, y, j, memory, f.suffix, f.shift, |x| - 1);
      BudgetAfterRound(|x|, |y|, f.suffix, f.shift, j, memory, right, left, |x| - 1, r, a, b);
    } else {
      BudgetAfterMove(x, f, |y|, c, j, memory, right, left);
    }
  }

  /** One window, with the comparisons made so far by each of the two loops. */
  method CountedRound(needle: seq<byte>, h: seq<byte>, f: Plan, table: array<nat>, rule: ResetRule, j: nat, memory: nat,
                      ghost right: nat, ghost left: nat)
    returns (o: Step, ghost right': nat, ghost left': nat)
    requires IsCString(h) && j + |needle| <= |h| - 1
    requires Fits(Fold(needle), f) && KeepsPeriod(Fold(needle), f) && (memory == 0 || memory == f.keep)
    requires table.Length == 256 && forall c :: 0 <= c < 256 ==> table[c] == Distance(Fold(needle), c)
    requires WithinBudget(|needle|, |h| - 1, f.suffix, j, memory, right, left)
    ensures o == LongStep(Fold(needle), FoldedText(h), f, rule, j, memory)
    ensures o.Done? ==> right' + left' <= 2 * (|h| - 1) - |needle|
    ensures o.Next? ==> WithinBudget(|needle|, |h| - 1, f.suffix, o.j, o.memory, right', left')
  {
    ghost var a, b;
    o, a, b := LongRound(needle, h, f, table, rule, j, memory);
    BudgetAfterStep(Fold(needle), FoldedText(h), f, rule, j, memory, o, right, left, a, b);
    right', left' := right + a, left + b;
  }

  /** The loops of both branches of the source: for a needle without small period the
      plan keeps no memory, and then the tests on `memory` never succeed. */
  method LongLoop(h: seq<byte>, haystackLen: nat, needle: seq<byte>, f: Plan, table: array<nat>, rule: ResetRule)
    returns (r: Position, ghost comparisons: nat, ghost scans: nat)
    requires IsCString(h) && haystackLen <= |h| - 1 && haystackLen <= |needle|
    requires Fits(Fold(needle), f) && KeepsPeriod(Fold(needle), f)
    requires table.Length == 256 && forall c :: 0 <= c < 256 ==> table[c] == Distance(Fold(needle), c)
    ensures r == LongRun(Fold(needle), FoldedText(h), f, rule, 0, 0)
    ensures if |h| - 1 >= |needle| then comparisons <= 2 * (|h| - 1) - |needle| else comparisons == 0
    ensures scans <= |h| - haystackLen
  {
    ghost var x, y := Fold(needle), FoldedText(h);
    ghost var goal := LongRun(x, y, f, rule, 0, 0);
    var memory: nat, j: nat := 0, 0;
    ghost var right: nat, left: nat := 0, 0;
    var ok: bool, known: nat, n0 := Available(h, haystackLen, 0, |needle|);
    scans := n0;
    while ok
      invariant memory == 0 || memory == f.keep
      invariant goal == LongRun(x, y, f, rule, j, memory)
      invariant ok <==> j + |needle| <= |y|
      invariant known <= |y| && known <= j + |needle| && scans == (if ok then known else |h|) - haystackLen
      invariant |y| < |needle| ==> right == left == 0
      invariant WithinBudget(|needle|, |y|, f.suffix, j, memory, right, left)
      decreases |y| + |needle| - j
    {
      var o;
      o, right, left := CountedRound(needle, h, f, table, rule, j, memory, right, left);
      if o.Done? {
        return Found(j), right + left, scans;
      }
      j, memory := o.j, o.memory;
      ghost var more;
      ok, known, more := Available(h, known, j, |needle|);
      scans := scans + more;
    }
    return NotFound, right + left, scans;
  }

  /** The plan that two_way_long_needle settles on. */
  ghost predicate IsLongPlan(x: seq<int>, f: Plan)
  {
    exists period :: IsFactorization(x, f.suffix, period) && 1 <= period <= |x| - f.suffix && f == LongPlan(x, f.suffix, period)
  }

  ghost function LongPlan(x: seq<int>, suffix: nat, period: int): Plan
    requires 1 <= period <= |x| - suffix
  {
    if Repeats(x, 0, suffix, period) then Plan(suffix, period, |x| - period)
    else Plan(suffix, Max(suffix, |x| - suffix) + 1, 0)
  }

  lemma LongPlanIsSafe(x: seq<int>, f: Plan)
    requires IsLongPlan(x, f)
    ensures SafePlan(x, f)
  {
    var period :| IsFactorization(x, f.suffix, period) && 1 <= period <= |x| - f.suffix && f == LongPlan(x, f.suffix, period);
    ShiftsAreSafe(x, f.suffix, period);
  }

  lemma LongPlanUnique(x: seq<int>, f: Plan, f': Plan)
    requires IsLongPlan(x, f) && IsLongPlan(x, f')
    ensures f == f'
  {
    var p :| IsFactorization(x, f.suffix, p) && 1 <= p <= |x| - f.suffix && f == LongPlan(x, f.suffix, p);
    var q :| IsFactorization(x, f'.suffix, q) && 1 <= q <= |x| - f'.suffix && f' == LongPlan(x, f'.suffix, q);
    FactorizationUnique(x, f.suffix, p, f'.suffix, q);
  }

  /** two_way_long_needle, with either reading of the memory reset. */
  method TwoWayLongNeedle(h: seq<byte>, haystackLen: nat, find: seq<byte>, rule: ResetRule)
    returns (r: Position, ghost f: Plan, ghost steps: nat, ghost comparisons: nat, ghost scans: nat)
    requires IsCString(h) && IsCString(find) && |find| > 1
    requires haystackLen <= |h| - 1 && haystackLen <= |find| - 1
    ensures IsLongPlan(FoldedText(find), f) && SafePlan(FoldedText(find), f)
    ensures r == LongRun(FoldedText(find), FoldedText(h), f, rule, 0, 0)
    ensures rule.EveryShift? || !MemoryCanGoStale(FoldedText(find), f)
            ==> IsFirstOccurrence(FoldedText(find), FoldedText(h), r)
    ensures steps < 6 * (|find| - 1) + 256 && scans <= |h| - haystackLen
    ensures if |h| >= |find| then comparisons <= 2 * (|h| - 1) - (|find| - 1) else comparisons == 0
  {
    var needle := Text(find);
    ghost var x, y := Fold(needle), FoldedText(h);
    var suffix, period, n := CriticalFactorization(needle);
    var table, l := BuildShiftTable(needle);
    var periodic, m := LeftHalfContinues(find, suffix, period);
    steps := n + l + m;
    var plan := if periodic then Plan(suffix, period, |needle| - period)
                else Plan(suffix, Max(suffix, |needle| - suffix) + 1, 0);
    f := plan;
    LongPlanIsSafe(x, f);
    r, comparisons, scans := LongLoop(h, haystackLen, needle, plan, table, rule);
    if rule.EveryShift? || !MemoryCanGoStale(x, f) {
      LongNeedleCorrect(find, h, f, rule);
    }
  }

  lemma LongNeedleCorrect(find: seq<byte>, h: seq<byte>, f: Plan, rule: ResetRule)
    requires IsCString(h) && IsCString(find)
    requires SafePlan(FoldedText(find), f) && (rule.EveryShift? || !MemoryCanGoStale(FoldedText(find), f))
    ensures IsFirstOccurrence(FoldedText(find), FoldedText(h), LongRun(FoldedText(find), FoldedText(h), f, rule, 0, 0))
  {
    FoldedTextIsText(h);
    FoldedTextIsText(find);
    if rule.EveryShift? {
      LongRunCorrect(FoldedText(find), FoldedText(h), f, rule, 0, 0);
    } else {
      AsWrittenCorrectIff(FoldedText(find), f);
    }
  }

  lemma FoldedTextIsText(b: seq<byte>)
    requires IsCString(b)
    ensures IsText(FoldedText(b))
  {
  }
}
