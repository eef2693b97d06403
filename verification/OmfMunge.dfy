/** The record handlers of src/omf/omfmunge.c as methods on the file handle; each is
    proved against the corresponding function of OmfWork. */
module OmfMunge {
  import opened Basics
  import opened Bytes
  import opened OmfBlocks
  import opened OmfClones
  import opened OmfLidata
  import opened OmfWork

  function StateOf(s: Section): SecState
    reads s
  {
    SecState(s.size, s.contents, s.curOffset)
  }

  function StatesOf(ss: seq<Section>): (r: seq<SecState>)
    reads ss
    ensures |r| == |ss| && forall k :: 0 <= k < |ss| ==> r[k] == StateOf(ss[k])
  {
    seq(|ss|, k requires 0 <= k < |ss| reads ss => StateOf(ss[k]))
  }

  /** A running sum and what is still to be added. */
  function SizedSoFar(total: nat, rest: Option<nat>): Option<nat>
  {
    if rest.None? then None else Some(total + rest.value)
  }

  lemma SizeStep(b: seq<byte>, pos: nat, ws: nat, total: nat)
    requires IsWordSize(ws) && pos < |b|
    ensures SizedSoFar(total, SizeRecord(b, pos, ws))
            == var p := ParseBlock(b, pos, ws);
               if p.None? || SizedLength(p.value.block) == 0 then None
               else SizedSoFar(total + SizedLength(p.value.block), SizeRecord(b, p.value.end, ws))
  {
  }

  lemma StatesUpdated(ss: seq<Section>, before: seq<SecState>, sh: Section)
    requires |before| == |ss| && 1 <= sh.segId <= |ss| && ss[sh.segId - 1] == sh
    requires forall k :: 0 <= k < |ss| && ss[k] != sh ==> StateOf(ss[k]) == before[k]
    requires forall k :: 0 <= k < |ss| ==> ss[k].segId == k + 1
    ensures StatesOf(ss) == before[sh.segId - 1 := StateOf(sh)]
  {
  }

  lemma ApplyNothing(st: State)
    ensures ApplyAll(st, []) == (Okay, st)
  {
  }

  class OmfFile {
    const tables: Tables
    const easyOmf: bool
    const segs: seq<Section>
    var workSec: Section?
    var addLidata: bool
    var lidata: Lidata?
    var addBakpat: bool
    var bakpat: Option<seq<Bkfix>>
    var relocs: seq<Reloc>

    /** The segments are numbered from 1, and a pending record is untouched. */
    ghost predicate Valid()
      reads this, segs, lidata
    {
      && SegsNumbered()
      && (addLidata ==> lidata != null && workSec != null && lidata.used == 0 && lidata.offset == 0 && lidata.newFixups == [])
      && Inv(Abs())
    }

    /** What the segment table alone guarantees. */
    ghost predicate SegsNumbered()
      reads this, segs
    {
      (forall k :: 0 <= k < |segs| ==> segs[k].segId == k + 1) && (workSec != null ==> workSec in segs)
    }

    function Abs(): State
      reads this, segs, lidata
    {
      State(StatesOf(segs),
            if workSec == null then None else Some(workSec.segId),
            if addLidata && lidata != null then Some(Pending(lidata.size, lidata.ws, lidata.fixups)) else None,
            addBakpat, bakpat, relocs)
    }

    constructor (tables: Tables, easyOmf: bool, segs: seq<Section>)
      requires forall k :: 0 <= k < |segs| ==> segs[k].segId == k + 1
      ensures Valid() && Abs() == State(StatesOf(segs), None, None, false, None, [])
      ensures this.segs == segs
    {
      this.tables, this.easyOmf, this.segs := tables, easyOmf, segs;
      workSec, addLidata, lidata := null, false, null;
      addBakpat, bakpat, relocs := false, None, [];
    }

    /** OmfAddFixupp while no LIDATA record is pending. */
    method AddReloc(f: Fixup) returns (r: OrlReturn)
      requires !addLidata && SegsNumbered()
      modifies this`relocs
      ensures (r, Abs()) == EmitFixups(tables, old(Abs()), [f])
    {
      var cur := if workSec == null then 0 else workSec.curOffset;
      var reloc := Resolve(tables, f, if workSec == null then None else Some(workSec.segId), cur);
      if reloc.None? {
        return Error;
      }
      relocs := relocs + [reloc.value];
      r := Okay;
    }

    /** Storing bytes and write offset of one segment. */
    method SetSection(sh: Section, contents: seq<byte>, cur: nat)
      requires sh in segs && forall k :: 0 <= k < |segs| ==> segs[k].segId == k + 1
      modifies sh`contents, sh`curOffset
      ensures sh.contents == contents && sh.curOffset == cur
      ensures Abs() == WithSec(old(Abs()), sh.segId, SecState(sh.size, contents, cur))
    {
      sh.contents := contents;
      sh.curOffset := cur;
      assert segs[sh.segId - 1] == sh;
    }

    /** The first half of expandPrevLIData: the bytes and the queue of clones. */
    method WritePending(blocks: seq<Block>) returns (ok: bool)
      requires Valid() && addLidata && PendingBlocks(Abs()) == Some(blocks)
      requires workSec.curOffset + |DenoteAll(blocks)| <= |workSec.contents|
      modifies this`addLidata, workSec, lidata`size, lidata`used, lidata`offset, lidata`newFixups
      ensures !addLidata && Abs() == AfterWriting(old(Abs()))
      ensures ok <==> !AnyHitsHeader(blocks, lidata.ws, lidata.fixups)
      ensures ok ==> lidata.newFixups == AllEmitted(blocks, lidata.ws, lidata.fixups, 0)
                     && workSec.curOffset == old(workSec.curOffset)
    {
      hide EmittedAll, AllEmitted, AnyHitsHeader, DenoteAll, ParseRecord, AllPositive;
      ghost var st := Abs();
      var sh, p := workSec, lidata;
      var offset := sh.curOffset;
      var buffer := sh.contents[offset..offset + p.size];
      assert segs[sh.segId - 1] == sh;
      addLidata := false;
      ok := WriteRecord(p, sh, buffer, blocks);
      if ok {
        sh.curOffset := offset;
      }
      AfterAllOfNothing(blocks, p.ws, p.fixups);
      AfterWritingIs(st, blocks, sh.curOffset);
      StatesUpdated(segs, st.secs, sh);
    }

    /** expandPrevLIData, which finishPrevWork calls after clearing ADD_LIDATA. The
        source has no test for room: without it the writes leave the allocation. */
    method ExpandPrevLIData() returns (r: OrlReturn)
      requires Valid() && addLidata
      modifies this`addLidata, this`relocs, segs, lidata
      ensures r == ExpandPrev(tables, old(Abs())).0
      ensures !r.Undefined? ==> Abs() == ExpandPrev(tables, old(Abs())).1 && !addLidata
      ensures r.Okay? ==> workSec.curOffset == old(workSec.curOffset)
    {
      var blocks := PendingBlocks(Abs()).value;
      if workSec.curOffset + |DenoteAll(blocks)| > |workSec.contents| {
        return Undefined;
      }
      var ok := WritePending(blocks);
      if !ok {
        return Error;
      }
      var fixups, clones := lidata.fixups, lidata.newFixups;
      lidata.fixups := [];
      r := EmitClones(lidata);
      if r.Okay? && !CloneQueueEnds(fixups, clones) {
        return Undefined;
      }
    }

    /** The loop that turns the queue of clones into relocations. */
    method EmitClones(p: Lidata) returns (r: OrlReturn)
      requires !addLidata && SegsNumbered()
      modifies this`relocs, p`newFixups
      ensures (r, Abs()) == EmitFixups(tables, old(Abs()), old(p.newFixups))
    {
      ghost var goal := EmitFixups(tables, Abs(), p.newFixups);
      r := Okay;
      while p.newFixups != []
        invariant r.Okay?
        invariant goal == EmitFixups(tables, Abs(), p.newFixups)
        decreases |p.newFixups|
      {
        r := AddReloc(p.newFixups[0]);
        if !r.Okay? {
          return;
        }
        p.newFixups := p.newFixups[1..];
      }
    }

    /** One backpatch. The source trusts the location: a word outside the allocated
        bytes is Undefined. */
    method ApplyOne(b: Bkfix, ghost q: seq<Bkfix>) returns (r: OrlReturn)
      requires SegsNumbered() && q != [] && q[0] == b
      modifies segs
      ensures if r.Okay? then ApplyAll(old(Abs()), q) == ApplyAll(Abs(), q[1..])
              else Abs() == old(Abs()) && ApplyAll(Abs(), q) == (r, Abs())
    {
      hide Patched;
      if !(1 <= b.seg <= |segs|) {
        return Error;
      }
      var sh := segs[b.seg - 1];
      if b.offset + b.width.Size() > |sh.contents| {
        return Undefined;
      }
      SetSection(sh, PatchContents(sh.contents, b.offset, b.width, b.disp), sh.curOffset);
      r := Okay;
    }

    /** applyBakpats, after ADD_BAKPAT is cleared. */
    method ApplyBakpats() returns (r: OrlReturn)
      requires SegsNumbered() && bakpat.Some?
      modifies this`addBakpat, this`bakpat, segs
      ensures (r, Abs()) == OmfWork.ApplyBakpats(old(Abs()))
    {
      hide PatchContents, ApplyAll;
      ghost var goal := ApplyAll(Abs(), bakpat.value);
      var q := bakpat.value;
      r := Okay;
      while q != []
        invariant r.Okay? && goal == ApplyAll(Abs(), q)
        invariant addBakpat == old(addBakpat) && bakpat == old(bakpat)
        decreases |q|
      {
        r := ApplyOne(q[0], q);
        if !r.Okay? {
          break;
        }
        q := q[1..];
      }
      ApplyNothing(Abs());
      addBakpat, bakpat := false, None;
    }

    /** finishPrevWork. */
    method FinishPrevWork() returns (r: OrlReturn)
      requires Valid()
      modifies this`addLidata, this`relocs, this`addBakpat, this`bakpat, segs, lidata
      ensures r == OmfWork.FinishPrevWork(tables, old(Abs())).0
      ensures !r.Undefined? ==> Valid() && !addLidata && Abs() == OmfWork.FinishPrevWork(tables, old(Abs())).1
    {
      ExpandKeepsQueue(tables, Abs());
      FinishSettles(tables, Abs());
      r := Okay;
      if addLidata {
        r := ExpandPrevLIData();
        if r.Undefined? {
          return;
        }
      }
      if addBakpat {
        r := ApplyBakpats();
      }
    }

    /** checkSegmentLength and the copy into the section. */
    method StoreRecord(seg: nat, offset: nat, length: nat, data: seq<byte>) returns (r: OrlReturn)
      requires Valid() && !addLidata
      modifies this`workSec, segs
      ensures r == OmfWork.StoreRecord(old(Abs()), seg, offset, length, data).0
      ensures !r.Undefined? ==> Valid() && Abs() == OmfWork.StoreRecord(old(Abs()), seg, offset, length, data).1
      ensures r.Okay? ==> workSec != null
    {
      hide CheckSegmentLength;
      if !(1 <= seg <= |segs|) {
        return Error;
      }
      var sh := segs[seg - 1];
      var s := CheckSegmentLength(StateOf(sh), (offset + length) % TWO_TO_32);
      if s.None? {
        return Error;
      }
      if offset + |data| > |s.value.contents| {
        return Undefined;
      }
      SetSection(sh, Overlay(s.value.contents, offset, data), offset);
      workSec := sh;
      r := Okay;
    }

    method AddLEData(seg: nat, offset: nat, data: seq<byte>) returns (r: OrlReturn)
      requires Valid()
      modifies this, segs, lidata
      ensures r == OmfWork.AddLEData(tables, old(Abs()), seg, offset, data).0
      ensures !r.Undefined? ==> Valid() && Abs() == OmfWork.AddLEData(tables, old(Abs()), seg, offset, data).1
    {
      r := FinishPrevWork();
      if r.Okay? {
        r := StoreRecord(seg, offset, |data|, data);
      }
    }

    /** The sizing loop of OmfAddLIData: None when calcLIDataLength refuses a block. */
    method SizeBlocks(raw: seq<byte>, ws: nat) returns (size: Option<nat>)
      requires IsWordSize(ws)
      ensures size == SizeRecord(raw, 0, ws)
    {
      hide ParseBlock, SizedLength;
      var pos: nat, total: nat := 0, 0;
      while pos < |raw|
        invariant 0 <= pos <= |raw|
        invariant SizeRecord(raw, 0, ws) == SizedSoFar(total, SizeRecord(raw, pos, ws))
        decreases |raw| - pos
      {
        SizeStep(raw, pos, ws, total);
        var n, end := CalcLIDataLength(raw, pos, ws);
        if n == 0 {
          return None;
        }
        total := total + n;
        pos := end;
      }
      size := Some(total);
    }

    method AddLIData(is32: bool, seg: nat, offset: nat, raw: seq<byte>) returns (r: OrlReturn)
      requires Valid()
      modifies this, segs, lidata
      ensures var ws := if easyOmf || !is32 then 2 else 4;
              && r == OmfWork.AddLIData(tables, old(Abs()), ws, seg, offset, raw).0
              && (!r.Undefined? ==> Valid() && Abs() == OmfWork.AddLIData(tables, old(Abs()), ws, seg, offset, raw).1)
    {
      hide OmfWork.FinishPrevWork, OmfWork.StoreRecord, SizeRecord, ParseRecord, AllPositive, DenoteAll;
      var ws := if easyOmf || !is32 then 2 else 4;
      FinishSettles(tables, Abs());
      r := FinishPrevWork();
      if !r.Okay? {
        return;
      }
      var size := SizeBlocks(raw, ws);
      if size.None? {
        return Error;
      }
      SizedRecord(raw, 0, ws);
      r := StageRecord(ws, seg, offset, size.value, raw);
    }

    /** The raw record is copied where its expansion will go, and waits for its fixups. */
    method StageRecord(ws: nat, seg: nat, offset: nat, size: nat, raw: seq<byte>) returns (r: OrlReturn)
      requires Valid() && !addLidata && IsWordSize(ws) && ParseRecord(raw, 0, ws).Some?
      requires AllPositive(ParseRecord(raw, 0, ws).value) && Settled(Abs())
      modifies this, segs, lidata
      ensures var s := OmfWork.StoreRecord(old(Abs()), seg, offset, size, raw);
              && r == s.0
              && (!r.Undefined? ==> Valid() && Abs() == if r.Okay? then s.1.(lidata := Some(Pending(|raw|, ws, []))) else s.1)
    {
      StoreKeepsInv(Abs(), seg, offset, size, raw);
      r := StoreRecord(seg, offset, size, raw);
      if r.Okay? {
        StagedInv(Abs(), ws, seg, offset, raw);
        AwaitFixups(ws, |raw|);
      }
    }

    /** Setting ADD_LIDATA. */
    method AwaitFixups(ws: nat, size: nat)
      requires SegsNumbered() && workSec != null && Inv(Abs().(lidata := Some(Pending(size, ws, []))))
      modifies this`addLidata, this`lidata
      ensures Valid() && Abs() == old(Abs()).(lidata := Some(Pending(size, ws, [])))
    {
      lidata := new Lidata(size, ws);
      addLidata := true;
    }

    method AddFixupp(f: Fixup) returns (r: OrlReturn)
      requires Valid()
      modifies this`relocs, lidata
      ensures Valid() && (r, Abs()) == OmfWork.AddFixupp(tables, old(Abs()), f)
    {
      AddFixuppKeepsInv(tables, Abs(), f);
      if addLidata {
        var g := if f.fmethod == FRAME_LOC then f.(fmethod := FRAME_SEG, fidx := workSec.segId) else f;
        lidata.fixups := lidata.fixups + [g.(id := |lidata.fixups|)];
        r := Okay;
      } else {
        r := AddReloc(f);
      }
    }

    /** A first backpatch sets ADD_BAKPAT and starts the queue. */
    method OpenQueue()
      requires Valid()
      modifies this`addBakpat, this`bakpat
      ensures bakpat == if old(bakpat).Some? then old(bakpat) else Some([])
      ensures addBakpat && Valid() && Abs() == old(Abs()).(addBakpat := true, bakpat := bakpat)
    {
      if bakpat.None? {
        bakpat, addBakpat := Some([]), true;
      }
    }

    method AddBakpat(loctype: nat, location: nat, seg: nat, disp: int) returns (r: OrlReturn)
      requires Valid()
      modifies this`addBakpat, this`bakpat
      ensures Valid() && (r, Abs()) == OmfWork.AddBakpat(old(Abs()), loctype, location, seg, disp)
    {
      AddBakpatKeepsInv(Abs(), loctype, location, seg, disp);
      OpenQueue();
      var width := BakpatWidth(loctype);
      if width.None? {
        return Error;
      }
      bakpat := Some(bakpat.value + [Bkfix(width.value, seg, location, disp)]);
      r := Okay;
    }

    method ModEnd() returns (r: OrlReturn)
      requires Valid()
      modifies this, segs, lidata
      ensures r == OmfWork.FinishPrevWork(tables, old(Abs())).0
      ensures !r.Undefined? ==> Valid() && Settled(Abs()) && Abs() == OmfWork.FinishPrevWork(tables, old(Abs())).1
    {
      FinishSettles(tables, Abs());
      r := FinishPrevWork();
    }
  }
}
