/** Where the queue of cloned fixups ends. A clone keeps the `next` pointer of the fixup it
    was copied from (src/omf/omfmunge.c:546), so the queue is well formed only if its last
    clone comes from the last fixup of the record. */
module OmfQueue {
  import opened Basics
  import opened Bytes
  import opened OmfBlocks
  import opened OmfClones
  import opened OmfWork

  /** The last fixup of a list that points into [lo, lo + n). */
  function LastHit(fx: seq<Fixup>, lo: nat, n: nat): Option<Fixup>
  {
    if fx == [] then None
    else
      var rest := LastHit(fx[1..], lo, n);
      if rest.Some? then rest else if lo <= fx[0].offset < lo + n then Some(fx[0]) else None
  }

  /** The last queued fixup among those of the last leaf that has any. */
  function LastSource(b: Block, ws: nat, fx: seq<Fixup>): Option<Fixup>
  {
    match b
    case Leaf(_, _, data) => LastHit(fx, DataStart(b, ws), |data|)
    case Node(_, _, kids) => LastSourceAll(kids, ws, fx)
  }

  function LastSourceAll(bs: seq<Block>, ws: nat, fx: seq<Fixup>): Option<Fixup>
  {
    if bs == [] then None
    else
      var rest := LastSourceAll(bs[1..], ws, fx);
      if rest.Some? then rest else LastSource(bs[0], ws, fx)
  }

  predicate EndsWith(clones: seq<Fixup>, source: Option<Fixup>)
  {
    if source.None? then clones == [] else clones != [] && clones[|clones| - 1].id == source.value.id
  }

  lemma EndsConcat(a: seq<Fixup>, s: Option<Fixup>, b: seq<Fixup>, t: Option<Fixup>)
    requires EndsWith(a, s) && EndsWith(b, t)
    ensures EndsWith(a + b, if t.Some? then t else s)
  {
    assert b == [] ==> a + b == a;
  }

  lemma {:induction false} LeafEnds(fx: seq<Fixup>, lo: nat, n: nat, off: nat)
    ensures EndsWith(LeafClones(fx, lo, n, off), LastHit(fx, lo, n))
  {
    if fx != [] {
      LeafEnds(fx[1..], lo, n, off);
      var hit := lo <= fx[0].offset < lo + n;
      EndsConcat(if hit then [fx[0].(offset := off + (fx[0].offset - lo))] else [], if hit then Some(fx[0]) else None,
                 LeafClones(fx[1..], lo, n, off), LastHit(fx[1..], lo, n));
    }
  }

  lemma {:induction false} CloneEnds(b: Block, ws: nat, fx: seq<Fixup>, off: nat)
    requires Positive(b)
    ensures EndsWith(Clones(b, ws, fx, off), LastSource(b, ws, fx))
    decreases b, 2, 0
  {
    RepeatedEnds(b, ws, fx, off, b.repeat);
  }

  lemma {:induction false} RepeatedEnds(b: Block, ws: nat, fx: seq<Fixup>, off: nat, n: nat)
    requires Positive(b)
    ensures n > 0 ==> EndsWith(RepeatedClones(b, ws, fx, off, n), LastSource(b, ws, fx))
    decreases b, 1, n
  {
    if n > 0 {
      var s := LastSource(b, ws, fx);
      BodyEnds(b, ws, fx, off);
      RepeatedEnds(b, ws, fx, off + |Body(b)|, n - 1);
      var rest := RepeatedClones(b, ws, fx, off + |Body(b)|, n - 1);
      EndsConcat(BodyClones(b, ws, fx, off), s, rest, if n > 1 then s else None);
    }
  }

  lemma {:induction false} BodyEnds(b: Block, ws: nat, fx: seq<Fixup>, off: nat)
    requires Positive(b)
    ensures EndsWith(BodyClones(b, ws, fx, off), LastSource(b, ws, fx))
    decreases b, 0, 0
  {
    match b
    case Leaf(_, _, data) => LeafEnds(fx, DataStart(b, ws), |data|, off);
    case Node(_, _, kids) => AllEnd(kids, ws, fx, off);
  }

  lemma {:induction false} AllEnd(bs: seq<Block>, ws: nat, fx: seq<Fixup>, off: nat)
    requires AllPositive(bs)
    ensures EndsWith(AllClones(bs, ws, fx, off), LastSourceAll(bs, ws, fx))
    decreases bs, 0, 0
  {
    if bs != [] {
      var next := off + |Denote(bs[0])|;
      CloneEnds(bs[0], ws, fx, off);
      AllEnd(bs[1..], ws, fx, next);
      EndsConcat(Clones(bs[0], ws, fx, off), LastSource(bs[0], ws, fx),
                 AllClones(bs[1..], ws, fx, next), LastSourceAll(bs[1..], ws, fx));
    }
  }

  /** An expansion without a header hit leaves a well-formed queue exactly when the last
      leaf that has fixups has the last queued fixup of the record, or none has any. */
  lemma CloneQueueEndsIff(bs: seq<Block>, ws: nat, fx: seq<Fixup>)
    requires AllPositive(bs) && !AnyHitsHeader(bs, ws, fx)
    ensures var s := LastSourceAll(bs, ws, fx);
            CloneQueueEnds(fx, AllEmitted(bs, ws, fx, 0)) <==> s.None? || s.value.id + 1 == |fx|
  {
    NoHitAll(bs, ws, fx, 0);
    AllEnd(bs, ws, fx, 0);
  }

  /** So that is when an expansion leaves the queue, given that it fits, hits no header and
      all clones resolve. */
  lemma ExpandUndefinedIff(t: Tables, st: State)
    requires Inv(st) && st.lidata.Some?
    requires var s := st.secs[st.work.value - 1]; s.cur + |DenoteAll(PendingBlocks(st).value)| <= |s.contents|
    requires var p, bs := st.lidata.value, PendingBlocks(st).value;
             && !AnyHitsHeader(bs, p.ws, p.fixups)
             && EmitFixups(t, AfterWriting(st), AllEmitted(bs, p.ws, p.fixups, 0)).0.Okay?
    ensures var p := st.lidata.value;
            var s := LastSourceAll(PendingBlocks(st).value, p.ws, p.fixups);
            && (ExpandPrev(t, st).0.Undefined? <==> s.Some? && s.value.id + 1 != |p.fixups|)
            && (ExpandPrev(t, st).0.Okay? <==> s.None? || s.value.id + 1 == |p.fixups|)
  {
    hide DenoteAll, AnyHitsHeader, AllEmitted, LastSourceAll, AfterWriting, EmitFixups, CloneQueueEnds;
    var p := st.lidata.value;
    CloneQueueEndsIff(PendingBlocks(st).value, p.ws, p.fixups);
  }

  // ------------------------------------------------- fixups in the wrong order

  /** Two leaves of one byte, and fixups into the second and the first. */
  const TWO_LEAVES: seq<byte> := [1, 0, 0, 0, 1, 65, 1, 0, 0, 0, 1, 66]
  const FIRST := Leaf(1, 0, [65])
  const SECOND := Leaf(1, 6, [66])

  function Into(id: nat, offset: nat): Fixup
  {
    Fixup(id, false, true, 1, offset, FRAME_SEG, 1, 0, 1, 0)
  }

  const REVERSED := [Into(0, 11), Into(1, 5)]

  function Reversed(): State
  {
    State([SecState(100, TWO_LEAVES, 0)], Some(1), Some(Pending(12, 2, REVERSED)), false, None, [])
  }

  predicate AllInto(fx: seq<Fixup>)
  {
    forall k :: 0 <= k < |fx| ==> fx[k] == Into(fx[k].id, fx[k].offset)
  }

  lemma LeafParses(at: nat, c: byte)
    requires at + 6 <= |TWO_LEAVES| && TWO_LEAVES[at..at + 6] == [1, 0, 0, 0, 1, c]
    ensures ParseBlock(TWO_LEAVES, at, 2) == Some(Parsed(Leaf(1, at, [c]), at + 6))
  {
    var b := TWO_LEAVES;
    assert b[at] == b[at..at + 6][0] && b[at + 1] == b[at..at + 6][1] && b[at + 2] == b[at..at + 6][2];
    assert b[at + 3] == b[at..at + 6][3] && b[at + 4] == b[at..at + 6][4] && b[at + 5] == b[at..at + 6][5];
    assert b[at + 5..at + 6] == [c];
  }

  lemma TwoLeavesParse()
    ensures ParseRecord(TWO_LEAVES, 0, 2) == Some([FIRST, SECOND]) && AllPositive([FIRST, SECOND])
  {
    LeafParses(0, 65);
    LeafParses(6, 66);
    assert [SECOND] + [] == [SECOND] && [FIRST] + [SECOND] == [FIRST, SECOND];
    RecordCons(TWO_LEAVES, 6, SECOND, 12, []);
    RecordCons(TWO_LEAVES, 0, FIRST, 6, [SECOND]);
    assert [FIRST, SECOND][1..] == [SECOND] && [SECOND][1..] == [];
  }

  lemma RecordCons(b: seq<byte>, pos: nat, first: Block, end: nat, rest: seq<Block>)
    requires pos < end <= |b| && ParseBlock(b, pos, 2) == Some(Parsed(first, end))
    requires if end == |b| then rest == [] else ParseRecord(b, end, 2) == Some(rest)
    ensures ParseRecord(b, pos, 2) == Some([first] + rest)
  {
    hide ParseBlock;
  }

  lemma TwoLeavesMean()
    ensures !AnyHitsHeader([FIRST, SECOND], 2, REVERSED) && |DenoteAll([FIRST, SECOND])| == 2
    ensures LastSourceAll([FIRST, SECOND], 2, REVERSED) == Some(Into(0, 11))
  {
    assert [FIRST, SECOND][1..] == [SECOND] && [SECOND][1..] == [];
    assert REVERSED[1..] == [Into(1, 5)] && [Into(1, 5)][1..] == [];
    assert REVERSED[0].offset == 11 && REVERSED[1].offset == 5;
    assert !HitsHeader(FIRST, 2, REVERSED) && !HitsHeader(SECOND, 2, REVERSED);
    assert !AnyHitsHeader([SECOND], 2, REVERSED);
    assert Denote(FIRST) == [65] + Times([65], 0) && Denote(SECOND) == [66] + Times([66], 0);
    assert DenoteAll([SECOND]) == Denote(SECOND) + [];
    assert LastHit([Into(1, 5)], 11, 1) == None;
    assert LastSourceAll([SECOND], 2, REVERSED) == Some(Into(0, 11));
  }

  /** Every clone resolves like the fixup it comes from, whatever its offset. */
  lemma {:induction false} AllResolve(t: Tables, st: State, fx: seq<Fixup>)
    requires t.segs > 0 && st.work == Some(1) && WorkInRange(st)
    requires AllInto(fx)
    ensures EmitFixups(t, st, fx).0.Okay?
    decreases |fx|
  {
    if fx != [] {
      var r := Resolve(t, fx[0], st.work, st.secs[0].cur);
      AllResolve(t, st.(relocs := st.relocs + [r.value]), fx[1..]);
    }
  }

  lemma {:induction false} LeafClonesInto(fx: seq<Fixup>, lo: nat, n: nat, off: nat)
    requires AllInto(fx)
    ensures AllInto(LeafClones(fx, lo, n, off))
    decreases |fx|
  {
    if fx != [] {
      var hit := lo <= fx[0].offset < lo + n;
      var head := if hit then [Into(fx[0].id, off + (fx[0].offset - lo))] else [];
      LeafClonesInto(fx[1..], lo, n, off);
      assert LeafClones(fx, lo, n, off) == head + LeafClones(fx[1..], lo, n, off);
    }
  }

  lemma ReversedClones()
    ensures AllInto(AllEmitted([FIRST, SECOND], 2, REVERSED, 0))
  {
    hide AnyHitsHeader, LastSourceAll, LeafClones;
    TwoLeavesMean();
    NoHitAll([FIRST, SECOND], 2, REVERSED, 0);
    LeafClonesInto(REVERSED, 5, 1, 0);
    LeafClonesInto(REVERSED, 11, 1, 1);
    assert [FIRST, SECOND][1..] == [SECOND] && [SECOND][1..] == [];
    assert Denote(FIRST) == [65] + Times([65], 0);
    assert Clones(FIRST, 2, REVERSED, 0) == LeafClones(REVERSED, 5, 1, 0) + RepeatedClones(FIRST, 2, REVERSED, 1, 0);
    assert Clones(SECOND, 2, REVERSED, 1) == LeafClones(REVERSED, 11, 1, 1) + RepeatedClones(SECOND, 2, REVERSED, 2, 0);
    assert AllClones([SECOND], 2, REVERSED, 1) == Clones(SECOND, 2, REVERSED, 1) + AllClones([], 2, REVERSED, 2);
  }

  /** With the fixups of two leaves in the wrong order the queue of clones does not end:
      its last clone goes on to the fixup that followed its source. */
  lemma ReversedFixupsFail(t: Tables)
    requires t.segs > 0
    ensures Inv(Reversed()) && ExpandPrev(t, Reversed()).0.Undefined?
  {
    hide ParseRecord, AllPositive, AnyHitsHeader, DenoteAll, LastSourceAll, AllEmitted, EmitFixups, ExpandPrev, EmittedAll;
    TwoLeavesParse();
    TwoLeavesMean();
    ReversedClones();
    var st := Reversed();
    assert Raw(st) == TWO_LEAVES;
    EmitsNoMoreAll([FIRST, SECOND], 2, REVERSED);
    AllResolve(t, AfterWriting(st), AllEmitted([FIRST, SECOND], 2, REVERSED, 0));
    ExpandUndefinedIff(t, st);
  }

  // ---------------------------------------------------- fixups in ascending order

  predicate Ascending(fx: seq<Fixup>)
  {
    forall j, k :: 0 <= j < k < |fx| ==> fx[j].offset <= fx[k].offset
  }

  lemma {:induction false} LastHitIs(fx: seq<Fixup>, lo: nat, n: nat)
    ensures LastHit(fx, lo, n).Some? ==> LastHit(fx, lo, n).value in fx && lo <= LastHit(fx, lo, n).value.offset < lo + n
    ensures forall k :: 0 <= k < |fx| && lo <= fx[k].offset < lo + n ==>
              LastHit(fx, lo, n).Some? && exists l :: k <= l < |fx| && fx[l] == LastHit(fx, lo, n).value
  {
    if fx != [] {
      LastHitIs(fx[1..], lo, n);
      forall k | 0 <= k < |fx| && lo <= fx[k].offset < lo + n
        ensures LastHit(fx, lo, n).Some? && exists l :: k <= l < |fx| && fx[l] == LastHit(fx, lo, n).value
      {
        if k > 0 {
          assert fx[1..][k - 1] == fx[k];
          var l :| k - 1 <= l < |fx[1..]| && fx[1..][l] == LastHit(fx[1..], lo, n).value;
          assert fx[l + 1] == LastHit(fx, lo, n).value;
        } else if LastHit(fx[1..], lo, n).Some? {
          var f := LastHit(fx[1..], lo, n).value;
          var l :| 0 <= l < |fx[1..]| && fx[1..][l] == f;
          assert fx[l + 1] == f;
        } else {
          assert fx[0] == LastHit(fx, lo, n).value;
        }
      }
    }
  }

  /** s is a fixup that points into [lo, hi), queued no earlier than number k. */
  ghost predicate LaterIn(fx: seq<Fixup>, s: Option<Fixup>, lo: nat, hi: nat, k: nat)
  {
    s.Some? && s.value in fx && lo <= s.value.offset < hi && k <= s.value.id
  }

  ghost predicate InsideOf(fx: seq<Fixup>, s: Option<Fixup>, lo: nat, hi: nat)
  {
    s.Some? ==> s.value in fx && lo <= s.value.offset < hi
  }

  lemma {:induction false} SourceInside(rec: seq<byte>, pos: nat, ws: nat, fx: seq<Fixup>)
    requires IsWordSize(ws) && pos <= |rec| && ParseBlock(rec, pos, ws).Some?
    ensures var p := ParseBlock(rec, pos, ws).value; InsideOf(fx, LastSource(p.block, ws, fx), pos, p.end)
    decreases |rec| - pos, 0
  {
    var p := ParseBlock(rec, pos, ws).value;
    match p.block
    case Leaf(_, _, data) => LastHitIs(fx, DataStart(p.block, ws), |data|);
    case Node(_, _, kids) => SourcesInside(rec, pos + ws + 2, Word16(rec, pos + ws), ws, fx);
  }

  lemma {:induction false} SourcesInside(rec: seq<byte>, pos: nat, count: nat, ws: nat, fx: seq<Fixup>)
    requires IsWordSize(ws) && pos <= |rec| && ParseBlocks(rec, pos, count, ws).Some?
    ensures var p := ParseBlocks(rec, pos, count, ws).value; InsideOf(fx, LastSourceAll(p.blocks, ws, fx), pos, p.end)
    decreases |rec| - pos, count + 1
  {
    if count > 0 {
      var first := ParseBlock(rec, pos, ws).value;
      SourceInside(rec, pos, ws, fx);
      SourcesInside(rec, first.end, count - 1, ws, fx);
      var rest := ParseBlocks(rec, first.end, count - 1, ws).value.blocks;
      assert ([first.block] + rest)[1..] == rest;
    }
  }

  /** A fixup inside a block that hits no header is not queued behind the block's source. */
  lemma {:induction false} SourceIsLast(rec: seq<byte>, pos: nat, ws: nat, fx: seq<Fixup>, k: nat)
    requires IsWordSize(ws) && pos <= |rec| && ParseBlock(rec, pos, ws).Some?
    requires Queued(fx) && Ascending(fx) && k < |fx|
    requires var p := ParseBlock(rec, pos, ws).value; pos <= fx[k].offset < p.end && !HitsHeader(p.block, ws, fx)
    ensures var p := ParseBlock(rec, pos, ws).value; LaterIn(fx, LastSource(p.block, ws, fx), pos, p.end, k)
    decreases |rec| - pos, 0
  {
    var p := ParseBlock(rec, pos, ws).value;
    assert !(pos <= fx[k].offset <= pos + ws + 2);
    match p.block
    case Leaf(_, _, data) =>
      LastHitIs(fx, DataStart(p.block, ws), |data|);
    case Node(_, _, kids) =>
      SourcesAreLast(rec, pos + ws + 2, Word16(rec, pos + ws), ws, fx, k);
  }

  lemma {:induction false} SourcesAreLast(rec: seq<byte>, pos: nat, count: nat, ws: nat, fx: seq<Fixup>, k: nat)
    requires IsWordSize(ws) && pos <= |rec| && ParseBlocks(rec, pos, count, ws).Some?
    requires Queued(fx) && Ascending(fx) && k < |fx|
    requires var p := ParseBlocks(rec, pos, count, ws).value; pos <= fx[k].offset < p.end && !AnyHitsHeader(p.blocks, ws, fx)
    ensures var p := ParseBlocks(rec, pos, count, ws).value; LaterIn(fx, LastSourceAll(p.blocks, ws, fx), pos, p.end, k)
    decreases |rec| - pos, count + 1
  {
    if count > 0 {
      var first := ParseBlock(rec, pos, ws).value;
      var rest := ParseBlocks(rec, first.end, count - 1, ws).value;
      assert ([first.block] + rest.blocks)[1..] == rest.blocks;
      SourcesInside(rec, first.end, count - 1, ws, fx);
      if fx[k].offset < first.end {
        SourceIsLast(rec, pos, ws, fx, k);
        LaterOffsetLaterId(fx, LastSourceAll(rest.blocks, ws, fx), k);
      } else {
        SourcesAreLast(rec, first.end, count - 1, ws, fx, k);
      }
    }
  }

  lemma LaterOffsetLaterId(fx: seq<Fixup>, s: Option<Fixup>, k: nat)
    requires Queued(fx) && Ascending(fx) && k < |fx|
    ensures s.Some? && s.value in fx && fx[k].offset < s.value.offset ==> k <= s.value.id
  {
  }

  lemma {:induction false} RecordSource(rec: seq<byte>, pos: nat, ws: nat, fx: seq<Fixup>, k: nat)
    requires IsWordSize(ws) && pos <= |rec| && ParseRecord(rec, pos, ws).Some?
    requires Queued(fx) && Ascending(fx) && k < |fx| && pos <= fx[k].offset < |rec|
    requires !AnyHitsHeader(ParseRecord(rec, pos, ws).value, ws, fx)
    ensures LaterIn(fx, LastSourceAll(ParseRecord(rec, pos, ws).value, ws, fx), pos, |rec|, k)
    decreases |rec| - pos
  {
    var first := ParseBlock(rec, pos, ws).value;
    var rest := ParseRecord(rec, first.end, ws).value;
    assert ([first.block] + rest)[1..] == rest;
    RecordInside(rec, first.end, ws, fx);
    if fx[k].offset < first.end {
      SourceIsLast(rec, pos, ws, fx, k);
      LaterOffsetLaterId(fx, LastSourceAll(rest, ws, fx), k);
    } else {
      RecordSource(rec, first.end, ws, fx, k);
    }
  }

  lemma {:induction false} RecordInside(rec: seq<byte>, pos: nat, ws: nat, fx: seq<Fixup>)
    requires IsWordSize(ws) && pos <= |rec| && ParseRecord(rec, pos, ws).Some?
    ensures InsideOf(fx, LastSourceAll(ParseRecord(rec, pos, ws).value, ws, fx), pos, |rec|)
    decreases |rec| - pos
  {
    if pos < |rec| {
      var first := ParseBlock(rec, pos, ws).value;
      SourceInside(rec, pos, ws, fx);
      RecordInside(rec, first.end, ws, fx);
      var rest := ParseRecord(rec, first.end, ws).value;
      assert ([first.block] + rest)[1..] == rest;
    }
  }

  /** Fixups given in ascending order, the last one inside the record, are safe. */
  lemma {:induction false} AscendingQueueEnds(rec: seq<byte>, ws: nat, fx: seq<Fixup>)
    requires IsWordSize(ws) && ParseRecord(rec, 0, ws).Some? && AllPositive(ParseRecord(rec, 0, ws).value)
    requires !AnyHitsHeader(ParseRecord(rec, 0, ws).value, ws, fx)
    requires Queued(fx) && Ascending(fx) && (fx != [] ==> fx[|fx| - 1].offset < |rec|)
    ensures CloneQueueEnds(fx, AllEmitted(ParseRecord(rec, 0, ws).value, ws, fx, 0))
  {
    var bs := ParseRecord(rec, 0, ws).value;
    CloneQueueEndsIff(bs, ws, fx);
    RecordInside(rec, 0, ws, fx);
    if fx != [] {
      RecordSource(rec, 0, ws, fx, |fx| - 1);
    }
  }
}
