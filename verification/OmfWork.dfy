/** The pending-work machine of src/omf/omfmunge.c as a function on states: data
    records are stored at once, LIDATA expansion and backpatches are put off until the
    next data record or the end of the module. */
module OmfWork {
  import opened Basics
  import opened Bytes
  import opened OmfBlocks
  import opened OmfClones

  const STD_CODE_SIZE := 4096

  /** Undefined: the source reads or writes outside the objects it owns. */
  datatype OrlReturn = Okay | Error | Undefined

  // ------------------------------------------------------------ fixup resolution

  datatype Sym = SegmentSym(seg: nat) | GroupSym(grp: nat) | ExternalSym(ext: nat)

  /** What fixups are resolved against: the number of segments and groups, and which
      external names have an undefined or common symbol. */
  datatype Tables = Tables(segs: nat, grps: nat, exts: seq<bool>)

  datatype RelocType = Abs8 | Rel8 | Abs16 | Rel16 | SegmentBase | Abs16Seg | Rel16Seg | AbsHi8 | RelHi8
                     | Abs32 | Rel32 | Abs32Seg | Rel32Seg

  datatype Reloc = Reloc(kind: RelocType, section: nat, offset: nat, addend: int, symbol: Option<Sym>, frame: Option<Sym>)

  const FRAME_SEG := 0
  const FRAME_GRP := 1
  const FRAME_ABS := 3
  const FRAME_LOC := 4
  const FRAME_TARG := 5

  function RelocTypeOf(location: nat, mode: bool): Option<RelocType>
  {
    if location == 0 then Some(if mode then Abs8 else Rel8)
    else if location == 1 then Some(if mode then Abs16 else Rel16)
    else if location == 2 then Some(SegmentBase)
    else if location == 3 then Some(if mode then Abs16Seg else Rel16Seg)
    else if location == 4 then Some(if mode then AbsHi8 else RelHi8)
    else if location == 5 || location == 9 || location == 13 then Some(if mode then Abs32 else Rel32)
    else if location == 6 || location == 11 then Some(if mode then Abs32Seg else Rel32Seg)
    else None
  }

  /** findSegment, findGroup and findExtDefSym: None when the index names nothing. */
  function FindSym(t: Tables, kind: nat, idx: nat): Option<Sym>
    requires kind < 3
  {
    if kind == FRAME_SEG then if 1 <= idx <= t.segs then Some(SegmentSym(idx)) else None
    else if kind == FRAME_GRP then if 1 <= idx <= t.grps then Some(GroupSym(idx)) else None
    else if 1 <= idx <= |t.exts| && t.exts[idx - 1] then Some(ExternalSym(idx)) else None
  }

  /** The target methods come in pairs, with and without displacement. */
  function TargetKind(tmethod: nat): nat
  {
    tmethod % 4
  }

  /** OmfAddFixupp outside LIDATA: None is ORL_ERROR. workSeg is the segment of the
      current data record and cur its offset. */
  function Resolve(t: Tables, f: Fixup, workSeg: Option<nat>, cur: nat): Option<Reloc>
  {
    var kind := RelocTypeOf(f.location, f.mode);
    if kind.None? || workSeg.None? || f.tmethod >= 8 then None
    else
      var fmethod := if f.fmethod == FRAME_LOC then FRAME_SEG else f.fmethod;
      var fidx := if f.fmethod == FRAME_LOC then workSeg.value else f.fidx;
      var target := TargetKind(f.tmethod);
      var symbol := if target < 3 then FindSym(t, target, f.tidx) else None;
      var frame := if fmethod < 3 then FindSym(t, fmethod, fidx) else if fmethod == FRAME_TARG then symbol else None;
      if (target < 3 && symbol.None?) || (fmethod < 3 && frame.None?) then None
      else Some(Reloc(kind.value, workSeg.value, f.offset + cur, f.disp, symbol, frame))
  }

  // -------------------------------------------------------------------- state

  /** Segment number k (from 1) is secs[k - 1]; contents is what has been allocated. */
  datatype SecState = SecState(size: nat, contents: seq<byte>, cur: nat)

  /** A LIDATA record waiting for its fixups; its bytes are staged in the section. */
  datatype Pending = Pending(len: nat, ws: nat, fixups: seq<Fixup>)

  datatype Bkfix = Bkfix(width: Width, seg: nat, offset: nat, disp: int)

  /** lidata is Some while ADD_LIDATA is set; bakpat is the queue, None for a null pointer. */
  datatype State = State(secs: seq<SecState>, work: Option<nat>, lidata: Option<Pending>,
                         addBakpat: bool, bakpat: Option<seq<Bkfix>>, relocs: seq<Reloc>)

  function Raw(st: State): seq<byte>
    requires st.lidata.Some? && WorkInRange(st)
    requires var s := st.secs[st.work.value - 1]; s.cur + st.lidata.value.len <= |s.contents|
  {
    var s := st.secs[st.work.value - 1];
    s.contents[s.cur..s.cur + st.lidata.value.len]
  }

  predicate WorkInRange(st: State)
  {
    st.work.Some? && 1 <= st.work.value <= |st.secs|
  }

  function PendingBlocks(st: State): Option<seq<Block>>
    requires st.lidata.Some? && WorkInRange(st) && IsWordSize(st.lidata.value.ws)
    requires var s := st.secs[st.work.value - 1]; s.cur + st.lidata.value.len <= |s.contents|
  {
    ParseRecord(Raw(st), 0, st.lidata.value.ws)
  }

  /** ids number the queue of fixups. */
  predicate Queued(fx: seq<Fixup>)
  {
    forall k :: 0 <= k < |fx| ==> fx[k].id == k
  }

  /** What every step keeps. */
  predicate Inv(st: State)
  {
    && (st.work.Some? ==> WorkInRange(st))
    && (st.addBakpat <==> st.bakpat.Some?)
    && (st.lidata.Some? ==>
          && WorkInRange(st) && IsWordSize(st.lidata.value.ws) && Queued(st.lidata.value.fixups)
          && (var s := st.secs[st.work.value - 1]; s.cur + st.lidata.value.len <= |s.contents|)
          && PendingBlocks(st).Some? && AllPositive(PendingBlocks(st).value))
  }

  // --------------------------------------------------------------- expansion

  function WithSec(st: State, seg: nat, s: SecState): State
    requires 1 <= seg <= |st.secs|
  {
    st.(secs := st.secs[seg - 1 := s])
  }

  /** Queueing the clones as ordinary fixups; it stops at the first that fails. */
  function EmitFixups(t: Tables, st: State, fx: seq<Fixup>): (OrlReturn, State)
    requires st.work.Some? ==> WorkInRange(st)
    decreases |fx|
  {
    if fx == [] then (Okay, st)
    else
      var cur := if st.work.Some? then st.secs[st.work.value - 1].cur else 0;
      var r := Resolve(t, fx[0], st.work, cur);
      if r.None? then (Error, st)
      else EmitFixups(t, st.(relocs := st.relocs + [r.value]), fx[1..])
  }

  /** The last clone still carries the `next` pointer of the fixup it was copied from:
      the queue ends there only if that fixup was the last of the record. */
  predicate CloneQueueEnds(fx: seq<Fixup>, clones: seq<Fixup>)
  {
    clones == [] || clones[|clones| - 1].id + 1 == |fx|
  }

  /** The section after the bytes of an expansion are written; the write offset stays
      behind them only when the expansion was abandoned. */
  function AfterWriting(st: State): State
    requires Inv(st) && st.lidata.Some?
    requires var s := st.secs[st.work.value - 1]; s.cur + |DenoteAll(PendingBlocks(st).value)| <= |s.contents|
  {
    var p, s, blocks := st.lidata.value, st.secs[st.work.value - 1], PendingBlocks(st).value;
    var d := EmittedAll(blocks, p.ws, p.fixups);
    EmitsNoMoreAll(blocks, p.ws, p.fixups);
    var cur := if AnyHitsHeader(blocks, p.ws, p.fixups) then s.cur + |d| else s.cur;
    WithSec(st.(lidata := None), st.work.value, s.(contents := Overlay(s.contents, s.cur, d), cur := cur))
  }

  lemma AfterWritingIs(st: State, blocks: seq<Block>, cur: nat)
    requires Inv(st) && st.lidata.Some? && PendingBlocks(st) == Some(blocks)
    requires var s := st.secs[st.work.value - 1]; s.cur + |DenoteAll(blocks)| <= |s.contents|
    requires var p, s := st.lidata.value, st.secs[st.work.value - 1];
             cur == if AnyHitsHeader(blocks, p.ws, p.fixups) then s.cur + |EmittedAll(blocks, p.ws, p.fixups)| else s.cur
    ensures var p, s := st.lidata.value, st.secs[st.work.value - 1];
            && s.cur + |EmittedAll(blocks, p.ws, p.fixups)| <= |s.contents|
            && AfterWriting(st) == WithSec(st.(lidata := None), st.work.value,
                                           SecState(s.size, Overlay(s.contents, s.cur, EmittedAll(blocks, p.ws, p.fixups)), cur))
  {
    EmitsNoMoreAll(blocks, st.lidata.value.ws, st.lidata.value.fixups);
  }

  /** expandPrevLIData, ADD_LIDATA being cleared. A fixup at a header abandons the
      expansion: the write offset is not restored and no clone becomes a relocation. */
  function ExpandPrev(t: Tables, st: State): (r: (OrlReturn, State))
    requires Inv(st) && st.lidata.Some?
  {
    var p, s, blocks := st.lidata.value, st.secs[st.work.value - 1], PendingBlocks(st).value;
    if s.cur + |DenoteAll(blocks)| > |s.contents| then (Undefined, st.(lidata := None))
    else if AnyHitsHeader(blocks, p.ws, p.fixups) then (Error, AfterWriting(st))
    else
      var clones := AllEmitted(blocks, p.ws, p.fixups, 0);
      var r := EmitFixups(t, AfterWriting(st), clones);
      if r.0.Okay? && !CloneQueueEnds(p.fixups, clones) then (Undefined, r.1) else r
  }

  // -------------------------------------------------------------- backpatches

  /** The relocation types a backpatch can have. */
  datatype Width = W8 | W16 | W32
  {
    function Size(): nat
    {
      match this
      case W8 => 1
      case W16 => 2
      case W32 => 4
    }
  }

  /** Adding to a little-endian word, modulo its width. */
  function Patched(w: seq<byte>, width: Width, disp: int): (r: seq<byte>)
    requires |w| == width.Size()
    ensures |r| == |w|
  {
    match width
    case W8 => [(w[0] + disp) % TWO_TO_8]
    case W16 => Put16((Word16(w, 0) + disp) % TWO_TO_16)
    case W32 => Put32((Word32(w, 0) + disp) % TWO_TO_32)
  }

  function PatchContents(c: seq<byte>, at: nat, width: Width, disp: int): (r: seq<byte>)
    requires at + width.Size() <= |c|
    ensures |r| == |c|
  {
    Overlay(c, at, Patched(c[at..at + width.Size()], width, disp))
  }

  function ApplyAll(st: State, q: seq<Bkfix>): (OrlReturn, State)
    decreases |q|
  {
    if q == [] then (Okay, st)
    else
      var b := q[0];
      if !(1 <= b.seg <= |st.secs|) then (Error, st)
      else
        var s := st.secs[b.seg - 1];
        if b.offset + b.width.Size() > |s.contents| then (Undefined, st)
        else
          ApplyAll(WithSec(st, b.seg, s.(contents := PatchContents(s.contents, b.offset, b.width, b.disp))), q[1..])
  }

  /** applyBakpats: the queue is gone afterwards whatever happened. */
  function ApplyBakpats(st: State): (OrlReturn, State)
    requires st.bakpat.Some?
  {
    var r := ApplyAll(st, st.bakpat.value);
    (r.0, r.1.(addBakpat := false, bakpat := None))
  }

  /** finishPrevWork. The result of the backpatches replaces that of the expansion. */
  function FinishPrevWork(t: Tables, st: State): (OrlReturn, State)
    requires Inv(st)
  {
    ExpandKeepsQueue(t, st);
    var e := if st.lidata.Some? then ExpandPrev(t, st) else (Okay, st);
    if st.addBakpat && !e.0.Undefined? then ApplyBakpats(e.1) else e
  }

  lemma {:induction false} EmitKeeps(t: Tables, st: State, fx: seq<Fixup>)
    requires st.work.Some? ==> WorkInRange(st)
    ensures var s := EmitFixups(t, st, fx).1; s == st.(relocs := s.relocs)
    decreases |fx|
  {
    if fx != [] {
      var cur := if st.work.Some? then st.secs[st.work.value - 1].cur else 0;
      var r := Resolve(t, fx[0], st.work, cur);
      if r.Some? {
        EmitKeeps(t, st.(relocs := st.relocs + [r.value]), fx[1..]);
      }
    }
  }

  lemma ExpandKeepsQueue(t: Tables, st: State)
    requires Inv(st)
    ensures st.lidata.Some? ==>
              var s := ExpandPrev(t, st).1;
              s.bakpat == st.bakpat && s.addBakpat == st.addBakpat && s.lidata == None && s.work == st.work && |s.secs| == |st.secs|
  {
    if st.lidata.Some? {
      var p, s, blocks := st.lidata.value, st.secs[st.work.value - 1], PendingBlocks(st).value;
      if s.cur + |DenoteAll(blocks)| <= |s.contents| && !AnyHitsHeader(blocks, p.ws, p.fixups) {
        EmitKeeps(t, AfterWriting(st), AllEmitted(blocks, p.ws, p.fixups, 0));
      }
    }
  }

  /** Once the pending work is finished nothing is pending. */
  predicate Settled(st: State)
  {
    st.lidata == None && !st.addBakpat && st.bakpat == None
  }

  /** The same sections but for the bytes they hold. */
  ghost predicate SameShape(a: seq<SecState>, b: seq<SecState>)
  {
    |a| == |b| && forall k {:trigger a[k]} {:trigger b[k]} :: 0 <= k < |a| ==>
      a[k].size == b[k].size && a[k].cur == b[k].cur && |a[k].contents| == |b[k].contents|
  }

  lemma {:induction false} ApplyKeeps(st: State, q: seq<Bkfix>)
    ensures var s := ApplyAll(st, q).1; s == st.(secs := s.secs) && SameShape(st.secs, s.secs)
    decreases |q|
  {
    if q != [] && 1 <= q[0].seg <= |st.secs| {
      var b := q[0];
      var s := st.secs[b.seg - 1];
      if b.offset + b.width.Size() <= |s.contents| {
        var st' := WithSec(st, b.seg, s.(contents := PatchContents(s.contents, b.offset, b.width, b.disp)));
        assert SameShape(st.secs, st'.secs);
        ApplyKeeps(st', q[1..]);
      }
    }
  }

  lemma FinishSettles(t: Tables, st: State)
    requires Inv(st)
    ensures var r := FinishPrevWork(t, st);
            |r.1.secs| == |st.secs| && (r.0.Undefined? || (Inv(r.1) && Settled(r.1)))
  {
    ExpandKeepsQueue(t, st);
    var e := if st.lidata.Some? then ExpandPrev(t, st) else (Okay, st);
    if st.addBakpat && !e.0.Undefined? {
      ApplyKeeps(e.1, st.bakpat.value);
    }
  }

  // ------------------------------------------------------------- the records

  /** checkSegmentLength: None past the declared size; otherwise the allocation grows,
      with zeros, to a whole number of STD_CODE_SIZE blocks that exceeds max. */
  function CheckSegmentLength(s: SecState, max: nat): (r: Option<SecState>)
    ensures r.Some? ==> max <= |r.value.contents| && s.contents <= r.value.contents && r.value.cur == s.cur && r.value.size == s.size
    ensures r.Some? ==> forall i :: |s.contents| <= i < |r.value.contents| ==> r.value.contents[i] == 0
  {
    if max > s.size then None
    else if max > |s.contents| then
      Some(s.(contents := s.contents + Zeros((max / STD_CODE_SIZE + 1) * STD_CODE_SIZE - |s.contents|)))
    else Some(s)
  }

  /** The sum of the sizes of a record's blocks, None if some block is refused. (The
      source's sum is a 32-bit one; StoreRecord cuts it where it is used.) */
  function SizeRecord(b: seq<byte>, pos: nat, ws: nat): Option<nat>
    requires IsWordSize(ws) && pos <= |b|
    decreases |b| - pos
  {
    if pos == |b| then Some(0)
    else
      var p := ParseBlock(b, pos, ws);
      if p.None? || SizedLength(p.value.block) == 0 then None
      else
        var rest := SizeRecord(b, p.value.end, ws);
        if rest.None? then None else Some(SizedLength(p.value.block) + rest.value)
  }

  /** Making room for a record and copying its bytes to the section. */
  function StoreRecord(st: State, seg: nat, offset: nat, length: nat, data: seq<byte>): (r: (OrlReturn, State))
  {
    if !(1 <= seg <= |st.secs|) then (Error, st)
    else
      var s := CheckSegmentLength(st.secs[seg - 1], (offset + length) % TWO_TO_32);
      if s.None? then (Error, st)
      else if offset + |data| > |s.value.contents| then (Undefined, st)
      else
        (Okay, WithSec(st, seg, s.value.(contents := Overlay(s.value.contents, offset, data), cur := offset)).(work := Some(seg)))
  }

  /** OmfAddLEData. */
  function AddLEData(t: Tables, st: State, seg: nat, offset: nat, data: seq<byte>): (OrlReturn, State)
    requires Inv(st)
  {
    var f := FinishPrevWork(t, st);
    if !f.0.Okay? then f else StoreRecord(f.1, seg, offset, |data|, data)
  }

  /** OmfAddLIData: the raw record is staged where its expansion will go. */
  function AddLIData(t: Tables, st: State, ws: nat, seg: nat, offset: nat, raw: seq<byte>): (OrlReturn, State)
    requires Inv(st) && IsWordSize(ws)
  {
    var f := FinishPrevWork(t, st);
    if !f.0.Okay? then f
    else
      var size := SizeRecord(raw, 0, ws);
      if size.None? then (Error, f.1)
      else
        var r := StoreRecord(f.1, seg, offset, size.value, raw);
        if r.0.Okay? then (Okay, r.1.(lidata := Some(Pending(|raw|, ws, [])))) else r
  }

  /** OmfAddFixupp: queued while a LIDATA record is pending, resolved otherwise. */
  function AddFixupp(t: Tables, st: State, f: Fixup): (OrlReturn, State)
    requires Inv(st)
  {
    if st.lidata.Some? then
      var p := st.lidata.value;
      var g := if f.fmethod == FRAME_LOC then f.(fmethod := FRAME_SEG, fidx := st.work.value) else f;
      (Okay, st.(lidata := Some(p.(fixups := p.fixups + [g.(id := |p.fixups|)]))))
    else
      EmitFixups(t, st, [f])
  }

  /** The width a BAKPAT location type patches; None is refused. */
  function BakpatWidth(loctype: nat): Option<Width>
  {
    if loctype == 0 then Some(W8)
    else if loctype == 1 then Some(W16)
    else if loctype == 2 || loctype == 9 then Some(W32)
    else None
  }

  /** OmfAddBakpat. */
  function AddBakpat(st: State, loctype: nat, location: nat, seg: nat, disp: int): (OrlReturn, State)
    requires Inv(st)
  {
    var q := if st.bakpat.Some? then st.bakpat.value else [];
    var ready := st.(addBakpat := true, bakpat := Some(q));
    var width := BakpatWidth(loctype);
    if width.None? then (Error, ready)
    else (Okay, ready.(bakpat := Some(q + [Bkfix(width.value, seg, location, disp)])))
  }

  datatype Event =
    | LEDATA(seg: nat, offset: nat, data: seq<byte>)
    | LIDATA(ws: nat, seg: nat, offset: nat, data: seq<byte>)
    | FIXUPP(f: Fixup)
    | BAKPAT(loctype: nat, location: nat, seg: nat, disp: int)
    | MODEND

  predicate ValidEvent(ev: Event)
  {
    ev.LIDATA? ==> IsWordSize(ev.ws)
  }

  function Step(t: Tables, st: State, ev: Event): (OrlReturn, State)
    requires Inv(st) && ValidEvent(ev)
  {
    match ev
    case LEDATA(seg, offset, data) => AddLEData(t, st, seg, offset, data)
    case LIDATA(ws, seg, offset, data) => AddLIData(t, st, ws, seg, offset, data)
    case FIXUPP(f) => AddFixupp(t, st, f)
    case BAKPAT(loctype, location, seg, disp) => AddBakpat(st, loctype, location, seg, disp)
    case MODEND => FinishPrevWork(t, st)
  }

  // ------------------------------------------------------- what every step keeps

  lemma {:induction false} SizedIsPositive(b: Block)
    requires WellFormed(b) && SizedLength(b) > 0
    ensures Positive(b)
    decreases b, 1
  {
    match b
    case Leaf(repeat, _, data) => assert repeat == 0 || |data| == 0 ==> repeat * |data| == 0;
    case Node(repeat, _, kids) =>
      assert repeat == 0 ==> repeat * SizedTotal(kids) == 0;
      AllSizedIsPositive(kids);
  }

  lemma {:induction false} AllSizedIsPositive(bs: seq<Block>)
    requires AllWellFormed(bs) && AllSized(bs)
    ensures AllPositive(bs)
    decreases bs, 0
  {
    if bs != [] {
      SizedIsPositive(bs[0]);
      AllSizedIsPositive(bs[1..]);
    }
  }

  /** A record that sizing accepts parses, has no empty part, and below 2^32 its size
      is the length of its expansion. */
  lemma {:induction false} SizedRecord(b: seq<byte>, pos: nat, ws: nat)
    requires IsWordSize(ws) && pos <= |b| && SizeRecord(b, pos, ws).Some?
    ensures ParseRecord(b, pos, ws).Some? && AllPositive(ParseRecord(b, pos, ws).value)
    ensures AllWellFormed(ParseRecord(b, pos, ws).value)
    ensures var n := |DenoteAll(ParseRecord(b, pos, ws).value)|; n < TWO_TO_32 ==> SizeRecord(b, pos, ws).value == n
    decreases |b| - pos
  {
    if pos < |b| {
      var p := ParseBlock(b, pos, ws).value;
      ParsedIsWellFormed(b, pos, ws);
      SizedIsPositive(p.block);
      SizedRecord(b, p.end, ws);
      var rest := ParseRecord(b, p.end, ws).value;
      assert ParseRecord(b, pos, ws) == Some([p.block] + rest);
      SizedPlus(p.block, rest);
    }
  }

  lemma SizedPlus(b: Block, bs: seq<Block>)
    requires WellFormed(b) && Positive(b) && AllWellFormed(bs) && AllPositive(bs)
    ensures AllWellFormed([b] + bs) && AllPositive([b] + bs)
    ensures |DenoteAll([b] + bs)| == |Denote(b)| + |DenoteAll(bs)|
    ensures |Denote(b)| < TWO_TO_32 ==> SizedLength(b) == |Denote(b)|
  {
    assert ([b] + bs)[0] == b && ([b] + bs)[1..] == bs;
    if |Denote(b)| < TWO_TO_32 {
      SizingIsExact(b);
    }
  }

  /** The record just stored: the current segment holds its bytes at its offset. */
  ghost predicate Stored(st: State, seg: nat, offset: nat, data: seq<byte>)
  {
    && st.work == Some(seg) && WorkInRange(st)
    && (var s := st.secs[seg - 1];
        s.cur == offset && offset + |data| <= |s.contents| && s.contents[offset..offset + |data|] == data)
  }

  lemma StoreKeepsInv(st: State, seg: nat, offset: nat, length: nat, data: seq<byte>)
    requires Inv(st) && Settled(st)
    ensures var r := StoreRecord(st, seg, offset, length, data);
            r.0.Okay? ==> Inv(r.1) && Settled(r.1) && Stored(r.1, seg, offset, data)
    ensures var r := StoreRecord(st, seg, offset, length, data); r.0.Okay? || r.1 == st
  {
  }

  lemma AddLEDataKeepsInv(t: Tables, st: State, seg: nat, offset: nat, data: seq<byte>)
    requires Inv(st)
    ensures var r := AddLEData(t, st, seg, offset, data); r.0.Undefined? || (Inv(r.1) && Settled(r.1))
  {
    FinishSettles(t, st);
    var f := FinishPrevWork(t, st);
    if f.0.Okay? {
      StoreKeepsInv(f.1, seg, offset, |data|, data);
    }
  }

  lemma AddLIDataKeepsInv(t: Tables, st: State, ws: nat, seg: nat, offset: nat, data: seq<byte>)
    requires Inv(st) && IsWordSize(ws)
    ensures var r := AddLIData(t, st, ws, seg, offset, data); r.0.Undefined? || Inv(r.1)
  {
    FinishSettles(t, st);
    var f := FinishPrevWork(t, st);
    var size := SizeRecord(data, 0, ws);
    if f.0.Okay? && size.Some? {
      SizedRecord(data, 0, ws);
      StoreKeepsInv(f.1, seg, offset, size.value, data);
      var r := StoreRecord(f.1, seg, offset, size.value, data);
      if r.0.Okay? {
        StagedInv(r.1, ws, seg, offset, data);
      }
    }
  }

  lemma StagedInv(st: State, ws: nat, seg: nat, offset: nat, data: seq<byte>)
    requires Inv(st) && Settled(st) && Stored(st, seg, offset, data) && IsWordSize(ws)
    requires ParseRecord(data, 0, ws).Some? && AllPositive(ParseRecord(data, 0, ws).value)
    ensures Inv(st.(lidata := Some(Pending(|data|, ws, []))))
  {
    assert Raw(st.(lidata := Some(Pending(|data|, ws, [])))) == data;
  }

  lemma AddFixuppKeepsInv(t: Tables, st: State, f: Fixup)
    requires Inv(st)
    ensures Inv(AddFixupp(t, st, f).1)
  {
    if st.lidata.None? {
      EmitKeeps(t, st, [f]);
    }
  }

  lemma AddBakpatKeepsInv(st: State, loctype: nat, location: nat, seg: nat, disp: int)
    requires Inv(st)
    ensures Inv(AddBakpat(st, loctype, location, seg, disp).1)
  {
  }

  /** Every step but an undefined one keeps the invariant; in particular ADD_BAKPAT is
      set exactly while there is a queue of backpatches. */
  lemma StepKeepsInv(t: Tables, st: State, ev: Event)
    requires Inv(st) && ValidEvent(ev)
    ensures Step(t, st, ev).0.Undefined? || Inv(Step(t, st, ev).1)
  {
    match ev
    case LEDATA(seg, offset, data) => AddLEDataKeepsInv(t, st, seg, offset, data);
    case LIDATA(ws, seg, offset, data) => AddLIDataKeepsInv(t, st, ws, seg, offset, data);
    case FIXUPP(f) => AddFixuppKeepsInv(t, st, f);
    case BAKPAT(loctype, location, seg, disp) => AddBakpatKeepsInv(st, loctype, location, seg, disp);
    case MODEND => FinishSettles(t, st);
  }
}
