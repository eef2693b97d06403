/** When records are accepted: the room a segment grants, exactly which data records find
    it, and which queues of backpatches can be applied. */
module OmfAccept {
  import opened Basics
  import opened Bytes
  import opened OmfBlocks
  import opened OmfClones
  import opened OmfWork
  import opened OmfOverlay

  /** The segment exists, and end does not lie behind its declared size. */
  predicate Inside(secs: seq<SecState>, seg: nat, end: nat)
  {
    1 <= seg <= |secs| && end <= secs[seg - 1].size
  }

  /** How much is allocated once a record that ends at end is stored. */
  function Allocated(before: nat, end: nat): nat
  {
    if end <= before then before else end - end % STD_CODE_SIZE + STD_CODE_SIZE
  }

  /** Room is granted exactly up to the declared size, in whole blocks. */
  lemma RoomGranted(s: SecState, end: nat)
    ensures CheckSegmentLength(s, end).Some? <==> end <= s.size
    ensures end <= s.size ==> |CheckSegmentLength(s, end).value.contents| == Allocated(|s.contents|, end) >= end
  {
    assert end / STD_CODE_SIZE * STD_CODE_SIZE + end % STD_CODE_SIZE == end;
  }

  // ------------------------------------------------- sizes never change

  ghost predicate SameSizes(a: seq<SecState>, b: seq<SecState>)
  {
    |a| == |b| && forall k {:trigger a[k]} {:trigger b[k]} :: 0 <= k < |a| ==>
      a[k].size == b[k].size && |a[k].contents| <= |b[k].contents|
  }

  lemma ExpandKeepsSizes(t: Tables, st: State)
    requires Inv(st) && st.lidata.Some?
    ensures var e := ExpandPrev(t, st).1; SameSizes(st.secs, e.secs) && SameSizes(e.secs, st.secs)
  {
    hide EmittedAll, AllEmitted, AnyHitsHeader, DenoteAll, ParseRecord, AllPositive;
    var p, s, blocks := st.lidata.value, st.secs[st.work.value - 1], PendingBlocks(st).value;
    if s.cur + |DenoteAll(blocks)| <= |s.contents| {
      EmitKeeps(t, AfterWriting(st), AllEmitted(blocks, p.ws, p.fixups, 0));
    }
  }

  lemma FinishKeepsSizes(t: Tables, st: State)
    requires Inv(st)
    ensures var f := FinishPrevWork(t, st).1; SameSizes(st.secs, f.secs) && SameSizes(f.secs, st.secs)
  {
    hide ExpandPrev, ApplyAll;
    ExpandKeepsQueue(t, st);
    var e := if st.lidata.Some? then ExpandPrev(t, st) else (Okay, st);
    if st.lidata.Some? {
      ExpandKeepsSizes(t, st);
    }
    if st.addBakpat && !e.0.Undefined? {
      ApplyKeeps(e.1, st.bakpat.value);
    }
  }

  // ----------------------------------------------------------- data records

  /** An LEDATA record is refused exactly if it does not lie in its segment, the sum of
      offset and length having 32 bits. */
  lemma LedataAccepted(t: Tables, st: State, seg: nat, offset: nat, data: seq<byte>)
    requires Inv(st) && FinishPrevWork(t, st).0.Okay?
    ensures var r, end := Step(t, st, LEDATA(seg, offset, data)).0, offset + |data|;
            && (r.Error? <==> !Inside(st.secs, seg, end % TWO_TO_32))
            && (end < TWO_TO_32 ==> (r.Okay? <==> Inside(st.secs, seg, end)))
  {
    hide FinishPrevWork, CheckSegmentLength;
    FinishKeepsSizes(t, st);
    var f := FinishPrevWork(t, st).1;
    StoreAccepted(f, seg, offset, |data|, data);
  }

  lemma StoreAccepted(st: State, seg: nat, offset: nat, length: nat, data: seq<byte>)
    ensures var r, end := StoreRecord(st, seg, offset, length, data).0, (offset + length) % TWO_TO_32;
            && (r.Error? <==> !Inside(st.secs, seg, end))
            && (r.Okay? <==> Inside(st.secs, seg, end) && offset + |data| <= Allocated(|st.secs[seg - 1].contents|, end))
  {
    if 1 <= seg <= |st.secs| {
      hide CheckSegmentLength;
      RoomGranted(st.secs[seg - 1], (offset + length) % TWO_TO_32);
    }
  }

  /** A record that parses without an empty part is sized, as long as its expansion. */
  lemma {:induction false} RecordIsSized(b: seq<byte>, pos: nat, ws: nat)
    requires IsWordSize(ws) && pos <= |b| && ParseRecord(b, pos, ws).Some? && AllPositive(ParseRecord(b, pos, ws).value)
    requires |DenoteAll(ParseRecord(b, pos, ws).value)| < TWO_TO_32
    ensures SizeRecord(b, pos, ws) == Some(|DenoteAll(ParseRecord(b, pos, ws).value)|)
    decreases |b| - pos
  {
    if pos < |b| {
      var p := ParseBlock(b, pos, ws).value;
      var rest := ParseRecord(b, p.end, ws).value;
      assert ([p.block] + rest)[0] == p.block && ([p.block] + rest)[1..] == rest;
      ParsedIsWellFormed(b, pos, ws);
      assert DenoteAll([p.block] + rest) == Denote(p.block) + DenoteAll(rest);
      SizingIsExact(p.block);
      RecordIsSized(b, p.end, ws);
    }
  }

  /** A LIDATA record is well made: it parses to its end, and no part of it is empty. */
  predicate WellMade(raw: seq<byte>, ws: nat)
    requires IsWordSize(ws)
  {
    ParseRecord(raw, 0, ws).Some? && AllPositive(ParseRecord(raw, 0, ws).value)
  }

  /** It is refused exactly if it is not well made, or its expansion does not lie in its
      segment; and staged exactly if it is not refused and the record itself finds room. */
  lemma LidataAccepted(t: Tables, st: State, ws: nat, seg: nat, offset: nat, raw: seq<byte>)
    requires Inv(st) && IsWordSize(ws) && FinishPrevWork(t, st).0.Okay? && offset + |Expansion(raw, ws)| < TWO_TO_32
    ensures var r, end := Step(t, st, LIDATA(ws, seg, offset, raw)).0, offset + |Expansion(raw, ws)|;
            && (r.Error? <==> !(WellMade(raw, ws) && Inside(st.secs, seg, end)))
            && (r.Okay? <==> WellMade(raw, ws) && Inside(st.secs, seg, end)
                             && offset + |raw| <= Allocated(|st.secs[seg - 1].contents|, end))
            && (WellMade(raw, ws) && Inside(st.secs, seg, end) && |raw| <= |Expansion(raw, ws)| ==> r.Okay?)
  {
    hide FinishPrevWork, CheckSegmentLength, ParseRecord, AllPositive, DenoteAll, SizeRecord, StoreRecord;
    FinishKeepsSizes(t, st);
    var f := FinishPrevWork(t, st).1;
    if SizeRecord(raw, 0, ws).Some? {
      SizedRecord(raw, 0, ws);
      StoreAccepted(f, seg, offset, SizeRecord(raw, 0, ws).value, raw);
    } else if WellMade(raw, ws) {
      RecordIsSized(raw, 0, ws);
    }
  }

  // ------------------------------------------------------------ backpatches

  /** Every word to be patched lies in the bytes that are allocated. */
  ghost predicate AllInside(secs: seq<SecState>, q: seq<Bkfix>)
  {
    forall k :: 0 <= k < |q| ==> 1 <= q[k].seg <= |secs| && q[k].offset + q[k].width.Size() <= |secs[q[k].seg - 1].contents|
  }

  /** Exactly then the queue of backpatches is applied to its end. */
  lemma {:induction false} QueueAccepted(st: State, q: seq<Bkfix>)
    ensures ApplyAll(st, q).0.Okay? <==> AllInside(st.secs, q)
    decreases |q|
  {
    hide PatchContents, AllInside;
    if q == [] {
      NothingInside(st.secs);
    } else {
      var b := q[0];
      FirstInside(st.secs, q);
      if 1 <= b.seg <= |st.secs| && b.offset + b.width.Size() <= |st.secs[b.seg - 1].contents| {
        var s := st.secs[b.seg - 1];
        var st' := WithSec(st, b.seg, s.(contents := PatchContents(s.contents, b.offset, b.width, b.disp)));
        QueueAccepted(st', q[1..]);
        RestInside(st.secs, st'.secs, q);
      }
    }
  }

  lemma NothingInside(secs: seq<SecState>)
    ensures AllInside(secs, [])
  {
  }

  lemma FirstInside(secs: seq<SecState>, q: seq<Bkfix>)
    requires q != []
    ensures AllInside(secs, q) ==> 1 <= q[0].seg <= |secs| && q[0].offset + q[0].width.Size() <= |secs[q[0].seg - 1].contents|
  {
  }

  lemma RestInside(secs: seq<SecState>, secs': seq<SecState>, q: seq<Bkfix>)
    requires q != [] && |secs| == |secs'| && forall k :: 0 <= k < |secs| ==> |secs[k].contents| == |secs'[k].contents|
    requires 1 <= q[0].seg <= |secs| && q[0].offset + q[0].width.Size() <= |secs[q[0].seg - 1].contents|
    ensures AllInside(secs, q) <==> AllInside(secs', q[1..])
  {
    if AllInside(secs', q[1..]) {
      forall k | 0 <= k < |q|
        ensures 1 <= q[k].seg <= |secs| && q[k].offset + q[k].width.Size() <= |secs[q[k].seg - 1].contents|
      {
        assert k > 0 ==> q[k] == q[1..][k - 1];
      }
    }
  }

  /** A BAKPAT record is queued for location types 0, 1, 2 and 9, which patch one, two and
      four bytes, and refused for all others. */
  lemma BakpatAccepted(st: State, loctype: nat, location: nat, seg: nat, disp: int)
    requires Inv(st)
    ensures var r := AddBakpat(st, loctype, location, seg, disp);
            && (r.0.Okay? <==> loctype in {0, 1, 2, 9}) && (r.0.Error? <==> loctype !in {0, 1, 2, 9})
            && r.1.addBakpat && r.1.bakpat.Some?
            && (r.0.Okay? ==>
                  var q := r.1.bakpat.value;
                  && q != [] && q[..|q| - 1] == (if st.bakpat.Some? then st.bakpat.value else [])
                  && var b := q[|q| - 1];
                     && b.seg == seg && b.offset == location && b.disp == disp
                     && (b.width.Size() == 1 <==> loctype == 0) && (b.width.Size() == 2 <==> loctype == 1))
  {
  }

  // ------------------------------------------------------------------- runs

  /** A data record that stays in its segment, judged by the record and the segments alone. */
  ghost predicate StaysInside(secs: seq<SecState>, ev: Event)
    requires ValidEvent(ev)
  {
    match ev
    case LEDATA(seg, offset, data) => offset + |data| < TWO_TO_32 && Inside(secs, seg, offset + |data|)
    case LIDATA(ws, seg, offset, raw) =>
      WellMade(raw, ws) && offset + |Expansion(raw, ws)| < TWO_TO_32 && Inside(secs, seg, offset + |Expansion(raw, ws)|)
    case FIXUPP(_) => true
    case BAKPAT(_, _, _, _) => true
    case MODEND => true
  }

  lemma StepKeepsSizes(t: Tables, st: State, ev: Event)
    requires Inv(st) && ValidEvent(ev)
    ensures var r := Step(t, st, ev); |r.1.secs| == |st.secs| && forall k :: 0 <= k < |st.secs| ==> r.1.secs[k].size == st.secs[k].size
  {
    hide FinishPrevWork, CheckSegmentLength, SizeRecord, EmitFixups;
    FinishKeepsSizes(t, st);
    if ev.FIXUPP? {
      EmitKeeps(t, st, [ev.f]);
    }
    if ev.LEDATA? || ev.LIDATA? {
      var f := FinishPrevWork(t, st).1;
      StoreKeepsSizes(f, ev.seg, ev.offset, if ev.LEDATA? then |ev.data| else if SizeRecord(ev.data, 0, ev.ws).Some? then SizeRecord(ev.data, 0, ev.ws).value else 0, ev.data);
    }
  }

  lemma StoreKeepsSizes(st: State, seg: nat, offset: nat, length: nat, data: seq<byte>)
    ensures var r := StoreRecord(st, seg, offset, length, data).1;
            |r.secs| == |st.secs| && forall k :: 0 <= k < |st.secs| ==> r.secs[k].size == st.secs[k].size
  {
  }

  lemma InsideBySize(a: seq<SecState>, b: seq<SecState>, ev: Event)
    requires ValidEvent(ev) && |a| == |b| && forall k :: 0 <= k < |a| ==> a[k].size == b[k].size
    ensures StaysInside(a, ev) <==> StaysInside(b, ev)
  {
    hide WellMade, Expansion;
  }

  /** No step refuses a data record after its pending work has succeeded. */
  ghost predicate NoneRefused(t: Tables, st: State, evs: seq<Event>)
    requires Inv(st) && forall k :: 0 <= k < |evs| ==> ValidEvent(evs[k])
    decreases |evs|
  {
    evs == [] ||
    (StepKeepsInv(t, st, evs[0]);
     var r := Step(t, st, evs[0]);
     && ((evs[0].LEDATA? || evs[0].LIDATA?) && FinishPrevWork(t, st).0.Okay? ==> !r.0.Error?)
     && (r.0.Okay? ==> NoneRefused(t, r.1, evs[1..])))
  }

  /** A module whose data records stay inside their segments has none of them refused. */
  lemma {:induction false} InsideIsNeverRefused(t: Tables, st: State, evs: seq<Event>)
    requires Inv(st) && forall k :: 0 <= k < |evs| ==> ValidEvent(evs[k]) && StaysInside(st.secs, evs[k])
    ensures NoneRefused(t, st, evs)
    decreases |evs|
  {
    if evs != [] {
      hide Step, FinishPrevWork, StaysInside;
      var ev := evs[0];
      StepKeepsInv(t, st, ev);
      if FinishPrevWork(t, st).0.Okay? {
        InsideIsAccepted(t, st, ev);
      }
      if Step(t, st, ev).0.Okay? {
        StepKeepsSizes(t, st, ev);
        forall k | 0 <= k < |evs[1..]|
          ensures ValidEvent(evs[1..][k]) && StaysInside(Step(t, st, ev).1.secs, evs[1..][k])
        {
          InsideBySize(st.secs, Step(t, st, ev).1.secs, evs[1..][k]);
        }
        InsideIsNeverRefused(t, Step(t, st, ev).1, evs[1..]);
      }
    }
  }

  lemma InsideIsAccepted(t: Tables, st: State, ev: Event)
    requires Inv(st) && ValidEvent(ev) && StaysInside(st.secs, ev) && FinishPrevWork(t, st).0.Okay?
    ensures ev.LEDATA? || ev.LIDATA? ==> !Step(t, st, ev).0.Error?
  {
    hide Step, FinishPrevWork, WellMade, Expansion;
    match ev
    case LEDATA(seg, offset, data) => LedataAccepted(t, st, seg, offset, data);
    case LIDATA(ws, seg, offset, raw) => LidataAccepted(t, st, ws, seg, offset, raw);
    case FIXUPP(_) =>
    case BAKPAT(_, _, _, _) =>
    case MODEND =>
  }
}
