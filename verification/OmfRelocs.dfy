/** What relocation a fixup becomes, and the relocations that whole runs leave: one for each
    fixup of a data record and for each clone of an expanded one, at its place. */
module OmfRelocs {
  import opened Basics
  import opened Bytes
  import opened OmfBlocks
  import opened OmfClones
  import opened OmfWork
  import opened OmfOverlay
  import opened OmfHistory

  // --------------------------------------------------------- one relocation

  /** What a location type says is to be relocated. */
  datatype Part = LowByte | HighByte | Offset16 | Base | Pointer16 | Offset32 | Pointer32

  predicate Locates(location: nat, part: Part)
  {
    match part
    case LowByte => location == 0
    case Offset16 => location == 1
    case Base => location == 2
    case Pointer16 => location == 3
    case HighByte => location == 4
    case Offset32 => location == 5 || location == 9 || location == 13
    case Pointer32 => location == 6 || location == 11
  }

  function PartOf(kind: RelocType): Part
  {
    match kind
    case Abs8 => LowByte
    case Rel8 => LowByte
    case AbsHi8 => HighByte
    case RelHi8 => HighByte
    case Abs16 => Offset16
    case Rel16 => Offset16
    case SegmentBase => Base
    case Abs16Seg => Pointer16
    case Rel16Seg => Pointer16
    case Abs32 => Offset32
    case Rel32 => Offset32
    case Abs32Seg => Pointer32
    case Rel32Seg => Pointer32
  }

  predicate SelfRelative(kind: RelocType)
  {
    kind in {Rel8, RelHi8, Rel16, Rel16Seg, Rel32, Rel32Seg}
  }

  /** The symbol of a segment, group or external (kind 0, 1, 2) by its index. */
  predicate Names(t: Tables, kind: nat, idx: nat, s: Option<Sym>)
  {
    match s
    case None => false
    case Some(SegmentSym(i)) => kind == 0 && i == idx && 1 <= i <= t.segs
    case Some(GroupSym(i)) => kind == 1 && i == idx && 1 <= i <= t.grps
    case Some(ExternalSym(i)) => kind == 2 && i == idx && 1 <= i <= |t.exts| && t.exts[i - 1]
  }

  /** Target methods 4 to 7 are 0 to 3 without a displacement; 3 is an absolute frame. */
  predicate IsTarget(t: Tables, tmethod: nat, tidx: nat, symbol: Option<Sym>)
  {
    if tmethod == 3 || tmethod == 7 then symbol == None
    else tmethod < 7 && Names(t, if tmethod < 3 then tmethod else tmethod - 4, tidx, symbol)
  }

  predicate IsFrame(t: Tables, fmethod: nat, fidx: nat, seg: nat, symbol: Option<Sym>, frame: Option<Sym>)
  {
    if fmethod < 3 then Names(t, fmethod, fidx, frame)
    else if fmethod == 4 then Names(t, 0, seg, frame)
    else if fmethod == 5 then frame == symbol
    else frame == None
  }

  /** The relocation that a fixup means in a data record for segment seg at offset base. */
  predicate IsRelocOf(t: Tables, r: Reloc, f: Fixup, seg: nat, base: nat)
  {
    && r.section == seg && r.offset == base + f.offset && r.addend == f.disp
    && Locates(f.location, PartOf(r.kind)) && (f.location != 2 ==> (SelfRelative(r.kind) <==> !f.mode))
    && IsTarget(t, f.tmethod, f.tidx, r.symbol) && IsFrame(t, f.fmethod, f.fidx, seg, r.symbol, r.frame)
  }

  /** A fixup resolves to this relocation and no other. */
  lemma ResolveIff(t: Tables, f: Fixup, seg: nat, base: nat, r: Reloc)
    ensures Resolve(t, f, Some(seg), base) == Some(r) <==> IsRelocOf(t, r, f, seg, base)
  {
  }

  /** An index that names something. */
  predicate Known(t: Tables, kind: nat, idx: nat)
  {
    1 <= idx && if kind == 0 then idx <= t.segs else if kind == 1 then idx <= t.grps else idx <= |t.exts| && t.exts[idx - 1]
  }

  predicate Resolvable(t: Tables, f: Fixup, seg: nat)
  {
    && f.location in {0, 1, 2, 3, 4, 5, 6, 9, 11, 13}
    && (f.tmethod in {3, 7} || (f.tmethod < 7 && Known(t, if f.tmethod < 3 then f.tmethod else f.tmethod - 4, f.tidx)))
    && (f.fmethod < 3 ==> Known(t, f.fmethod, f.fidx)) && (f.fmethod == 4 ==> Known(t, 0, seg))
  }

  /** It resolves exactly if location and methods are known and the indices name something. */
  lemma ResolvesIff(t: Tables, f: Fixup, seg: nat, base: nat)
    ensures Resolve(t, f, Some(seg), base).Some? <==> Resolvable(t, f, seg)
  {
  }

  // ---------------------------------------------------------------- two steps

  /** A fixup behind an LEDATA record adds exactly the relocation it means at the record's
      offset, or is refused exactly if it does not resolve. */
  lemma FixupAfterData(t: Tables, st: State, seg: nat, offset: nat, data: seq<byte>, f: Fixup)
    requires Inv(st) && Step(t, st, LEDATA(seg, offset, data)).0.Okay?
    ensures var a := Step(t, st, LEDATA(seg, offset, data)).1;
            && Inv(a)
            && var r := Step(t, a, FIXUPP(f));
               && (r.0.Okay? <==> Resolvable(t, f, seg)) && (r.0.Error? <==> !Resolvable(t, f, seg))
               && (r.0.Okay? ==>
                     && r.1.secs == a.secs && |r.1.relocs| == |a.relocs| + 1 && r.1.relocs[..|a.relocs|] == a.relocs
                     && IsRelocOf(t, r.1.relocs[|a.relocs|], f, seg, offset))
  {
    StepKeepsInv(t, st, LEDATA(seg, offset, data));
    var a := Step(t, st, LEDATA(seg, offset, data)).1;
    FinishSettles(t, st);
    assert a.lidata == None && a.work == Some(seg) && a.secs[seg - 1].cur == offset;
    hide Step, Resolve, IsRelocOf, Resolvable, FinishPrevWork, Inv;
    OneFixup(t, a, seg, offset, f);
  }

  lemma OneFixup(t: Tables, st: State, seg: nat, base: nat, f: Fixup)
    requires Inv(st) && st.lidata == None && st.work == Some(seg) && st.secs[seg - 1].cur == base
    ensures var r := Step(t, st, FIXUPP(f));
            && (r.0.Okay? <==> Resolvable(t, f, seg)) && (r.0.Error? <==> !Resolvable(t, f, seg))
            && (r.0.Okay? ==> exists x: Reloc :: r.1 == st.(relocs := st.relocs + [x]) && IsRelocOf(t, x, f, seg, base))
  {
    hide Resolve, IsRelocOf, Resolvable;
    ResolvesIff(t, f, seg, base);
    var x := Resolve(t, f, Some(seg), base);
    if x.Some? {
      ResolveIff(t, f, seg, base, x.value);
      assert [f][1..] == [];
      assert EmitFixups(t, st.(relocs := st.relocs + [x.value]), []) == (Okay, st.(relocs := st.relocs + [x.value]));
      assert Step(t, st, FIXUPP(f)).1 == st.(relocs := st.relocs + [x.value]);
    }
  }

  // -------------------------------------------------------------------- runs

  /** A fixup at its place: its offset counts from base in segment seg. */
  datatype Placed = Placed(f: Fixup, seg: nat, base: nat)

  ghost predicate Match(t: Tables, rs: seq<Reloc>, ps: seq<Placed>)
  {
    |rs| == |ps| && forall i :: 0 <= i < |rs| ==> IsRelocOf(t, rs[i], ps[i].f, ps[i].seg, ps[i].base)
  }

  lemma MatchConcat(t: Tables, rs: seq<Reloc>, ps: seq<Placed>, rs': seq<Reloc>, ps': seq<Placed>)
    requires Match(t, rs, ps) && Match(t, rs', ps')
    ensures Match(t, rs + rs', ps + ps')
  {
    hide IsRelocOf;
  }

  /** The data record that fixups belong to; a repeated one collects them. */
  datatype Current =
    | NoData
    | Plain(seg: nat, base: nat)
    | Repeated(seg: nat, base: nat, ws: nat, blocks: seq<Block>, fixups: seq<Fixup>)

  /** The fixups of a list before the first that does not resolve. */
  function UpToFailure(t: Tables, fx: seq<Fixup>, seg: nat): seq<Fixup>
  {
    if fx == [] || !Resolvable(t, fx[0], seg) then [] else [fx[0]] + UpToFailure(t, fx[1..], seg)
  }

  function PlaceAll(fx: seq<Fixup>, seg: nat, base: nat): (ps: seq<Placed>)
    ensures |ps| == |fx| && forall i :: 0 <= i < |fx| ==> ps[i] == Placed(fx[i], seg, base)
  {
    seq(|fx|, i requires 0 <= i < |fx| => Placed(fx[i], seg, base))
  }

  /** The clones of a repeated record, each at its place in the expansion, which starts at
      the record's offset; none if a fixup points at a header. */
  function ClonesPlaced(t: Tables, c: Current): seq<Placed>
  {
    if !c.Repeated? || AnyHitsHeader(c.blocks, c.ws, c.fixups) then []
    else PlaceAll(UpToFailure(t, AllClones(c.blocks, c.ws, c.fixups, 0), c.seg), c.seg, c.base)
  }

  /** What a record adds to the relocations. */
  function Adds(t: Tables, c: Current, ev: Event): seq<Placed>
  {
    match ev
    case FIXUPP(f) => if c.Plain? then [Placed(f, c.seg, c.base)] else []
    case BAKPAT(_, _, _, _) => []
    case LEDATA(_, _, _) => ClonesPlaced(t, c)
    case LIDATA(_, _, _, _) => ClonesPlaced(t, c)
    case MODEND => ClonesPlaced(t, c)
  }

  function Next(c: Current, ev: Event): Current
    requires ValidEvent(ev)
  {
    match ev
    case LEDATA(seg, offset, _) => Plain(seg, offset)
    case LIDATA(ws, seg, offset, raw) =>
      var bs := ParseRecord(raw, 0, ws);
      Repeated(seg, offset, ws, if bs.Some? then bs.value else [], [])
    case FIXUPP(f) => if c.Repeated? then c.(fixups := c.fixups + [Numbered(f, c.seg, |c.fixups|)]) else c
    case BAKPAT(_, _, _, _) => c
    case MODEND => AfterSettling(c)
  }

  /** An abandoned expansion leaves the write offset behind what it wrote. */
  function AfterSettling(c: Current): Current
  {
    if !c.Repeated? then c
    else Plain(c.seg, c.base + if AnyHitsHeader(c.blocks, c.ws, c.fixups) then |EmittedAll(c.blocks, c.ws, c.fixups)| else 0)
  }

  function AllPlaced(t: Tables, evs: seq<Event>, c: Current): seq<Placed>
    requires forall k :: 0 <= k < |evs| ==> ValidEvent(evs[k])
  {
    if evs == [] then [] else Adds(t, c, evs[0]) + AllPlaced(t, evs[1..], Next(c, evs[0]))
  }

  ghost predicate IsCurrent(st: State, c: Current)
    requires Inv(st)
  {
    match c
    case NoData => st.work == None && st.lidata == None
    case Plain(seg, base) => st.work == Some(seg) && st.lidata == None && st.secs[seg - 1].cur == base
    case Repeated(seg, base, ws, blocks, fixups) =>
      && st.work == Some(seg) && st.secs[seg - 1].cur == base && st.lidata.Some?
      && st.lidata.value.ws == ws && st.lidata.value.fixups == fixups && PendingBlocks(st) == Some(blocks)
  }

  lemma {:induction false} EmitPlaced(t: Tables, st: State, fx: seq<Fixup>, seg: nat, base: nat) returns (rs: seq<Reloc>)
    requires st.work == Some(seg) && WorkInRange(st) && st.secs[seg - 1].cur == base
    ensures EmitFixups(t, st, fx).1 == st.(relocs := st.relocs + rs)
    ensures Match(t, rs, PlaceAll(UpToFailure(t, fx, seg), seg, base))
    decreases |fx|
  {
    hide Resolve, IsRelocOf, Resolvable;
    rs := [];
    if fx == [] {
      assert st.relocs + [] == st.relocs;
    } else {
      ResolvesIff(t, fx[0], seg, base);
      var x := Resolve(t, fx[0], Some(seg), base);
      if x.Some? {
        ResolveIff(t, fx[0], seg, base, x.value);
        var more := EmitPlaced(t, st.(relocs := st.relocs + [x.value]), fx[1..], seg, base);
        rs := [x.value] + more;
        assert st.relocs + [x.value] + more == st.relocs + rs;
      } else {
        assert st.relocs + [] == st.relocs;
      }
    }
  }

  lemma ExpandPlaced(t: Tables, st: State, c: Current, done: seq<Placed>)
    requires Inv(st) && c.Repeated? && IsCurrent(st, c) && Match(t, st.relocs, done) && !ExpandPrev(t, st).0.Undefined?
    ensures var e := ExpandPrev(t, st).1;
            && Match(t, e.relocs, done + ClonesPlaced(t, c)) && e.work == Some(c.seg) && |e.secs| == |st.secs|
            && e.secs[c.seg - 1].cur == AfterSettling(c).base
  {
    hide EmittedAll, AllEmitted, AnyHitsHeader, DenoteAll, ParseRecord, AllPositive, IsRelocOf, UpToFailure, EmitFixups, CloneQueueEnds;
    var p := st.lidata.value;
    EmitsNoMoreAll(c.blocks, p.ws, p.fixups);
    if AnyHitsHeader(c.blocks, p.ws, p.fixups) {
      assert done + [] == done;
    } else {
      NoHitAll(c.blocks, p.ws, p.fixups, 0);
      var w := AfterWriting(st);
      var rs := EmitPlaced(t, w, AllEmitted(c.blocks, p.ws, p.fixups, 0), c.seg, c.base);
      MatchConcat(t, st.relocs, done, rs, ClonesPlaced(t, c));
    }
  }

  lemma FinishPlaced(t: Tables, st: State, c: Current, done: seq<Placed>)
    requires Inv(st) && IsCurrent(st, c) && Match(t, st.relocs, done) && FinishPrevWork(t, st).0.Okay?
    ensures var f := FinishPrevWork(t, st).1;
            Inv(f) && Match(t, f.relocs, done + ClonesPlaced(t, c)) && IsCurrent(f, AfterSettling(c))
  {
    hide ExpandPrev, ApplyAll, EmittedAll, AnyHitsHeader, ParseRecord, AllPositive, DenoteAll, UpToFailure, IsRelocOf;
    FinishSettles(t, st);
    ExpandKeepsQueue(t, st);
    var e := if st.lidata.Some? then ExpandPrev(t, st) else (Okay, st);
    if c.Repeated? {
      ExpandPlaced(t, st, c, done);
    } else {
      assert done + [] == done;
    }
    if st.addBakpat {
      ApplyKeeps(e.1, st.bakpat.value);
    }
  }

  lemma StepPlaced(t: Tables, st: State, ev: Event, c: Current, done: seq<Placed>)
    requires Inv(st) && ValidEvent(ev) && IsCurrent(st, c) && Match(t, st.relocs, done) && Step(t, st, ev).0.Okay?
    ensures var st' := Step(t, st, ev).1;
            Inv(st') && Match(t, st'.relocs, done + Adds(t, c, ev)) && IsCurrent(st', Next(c, ev))
  {
    StepKeepsInv(t, st, ev);
    if Flushes(ev) {
      FlushSucceeds(t, st, ev);
      FinishPlaced(t, st, c, done);
      FinishSettles(t, st);
      StorePlaced(t, st, ev, c);
    } else if ev.FIXUPP? {
      FixupPlaced(t, st, ev.f, c, done);
    } else {
      assert done + [] == done;
      AddBakpatKeepsInv(st, ev.loctype, ev.location, ev.seg, ev.disp);
    }
  }

  lemma StorePlaced(t: Tables, st: State, ev: Event, c: Current)
    requires Inv(st) && ValidEvent(ev) && Flushes(ev) && Step(t, st, ev).0.Okay? && Inv(Step(t, st, ev).1)
    requires var f := FinishPrevWork(t, st).1;
             FinishPrevWork(t, st).0.Okay? && Inv(f) && Settled(f) && IsCurrent(f, AfterSettling(c))
    ensures Step(t, st, ev).1.relocs == FinishPrevWork(t, st).1.relocs && IsCurrent(Step(t, st, ev).1, Next(c, ev))
  {
    hide FinishPrevWork, CheckSegmentLength, StoreRecord, SizeRecord, ParseRecord, AllPositive;
    var f := FinishPrevWork(t, st).1;
    match ev
    case LEDATA(seg, offset, data) => StoreIsCurrent(f, seg, offset, |data|, data);
    case LIDATA(ws, seg, offset, raw) =>
      StoreIsCurrent(f, seg, offset, SizeRecord(raw, 0, ws).value, raw);
      assert Raw(Step(t, st, ev).1) == raw;
    case MODEND =>
  }

  lemma StoreIsCurrent(st: State, seg: nat, offset: nat, length: nat, data: seq<byte>)
    requires Inv(st) && Settled(st)
    ensures var r := StoreRecord(st, seg, offset, length, data);
            r.0.Okay? ==> Inv(r.1) && r.1.relocs == st.relocs && IsCurrent(r.1, Plain(seg, offset)) && Stored(r.1, seg, offset, data)
  {
    StoreKeepsInv(st, seg, offset, length, data);
  }

  lemma FixupPlaced(t: Tables, st: State, f: Fixup, c: Current, done: seq<Placed>)
    requires Inv(st) && IsCurrent(st, c) && Match(t, st.relocs, done) && Step(t, st, FIXUPP(f)).0.Okay?
    requires Inv(Step(t, st, FIXUPP(f)).1)
    ensures var st' := Step(t, st, FIXUPP(f)).1;
            Match(t, st'.relocs, done + Adds(t, c, FIXUPP(f))) && IsCurrent(st', Next(c, FIXUPP(f)))
  {
    hide IsRelocOf, Resolvable, Resolve;
    match c
    case NoData =>
      assert EmitFixups(t, st, [f]).0.Error? by { NoRecord(t, st, f); }
    case Plain(seg, base) =>
      OneFixup(t, st, seg, base, f);
      var st' := Step(t, st, FIXUPP(f)).1;
      assert st'.relocs[..|st.relocs|] == st.relocs;
    case Repeated(_, _, _, _, _) =>
      assert done + [] == done;
      assert Raw(Step(t, st, FIXUPP(f)).1) == Raw(st);
  }

  lemma NoRecord(t: Tables, st: State, f: Fixup)
    requires st.work == None
    ensures EmitFixups(t, st, [f]).0.Error?
  {
  }

  /** Over every successful run: the relocations are exactly those that its fixups mean, in
      the order in which their data records are settled, and each at its place. */
  lemma {:induction false} RunPlaced(t: Tables, st: State, evs: seq<Event>, c: Current, done: seq<Placed>)
    requires Inv(st) && forall k :: 0 <= k < |evs| ==> ValidEvent(evs[k])
    requires IsCurrent(st, c) && Match(t, st.relocs, done) && Run(t, st, evs).Some?
    ensures Match(t, Run(t, st, evs).value.relocs, done + AllPlaced(t, evs, c))
    decreases |evs|
  {
    if evs == [] {
      assert done + [] == done;
    } else {
      hide Step, Match, IsCurrent, Adds, Next;
      StepKeepsInv(t, st, evs[0]);
      StepPlaced(t, st, evs[0], c, done);
      RunPlaced(t, Step(t, st, evs[0]).1, evs[1..], Next(c, evs[0]), done + Adds(t, c, evs[0]));
      Regroup(done, Adds(t, c, evs[0]), AllPlaced(t, evs[1..], Next(c, evs[0])));
    }
  }

  lemma ModuleRelocs(t: Tables, st: State, evs: seq<Event>)
    requires Initial(st) && (forall k :: 0 <= k < |evs| ==> ValidEvent(evs[k])) && Run(t, st, evs).Some?
    ensures Match(t, Run(t, st, evs).value.relocs, AllPlaced(t, evs, NoData))
  {
    RunPlaced(t, st, evs, NoData, []);
    assert [] + AllPlaced(t, evs, NoData) == AllPlaced(t, evs, NoData);
  }
}
