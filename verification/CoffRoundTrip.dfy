/** Loading what was built: an image made by any sequence of the Add* calls is read back
    with the same sections, contents and names. */
module CoffRoundTrip {
  import opened Basics
  import opened Bytes
  import opened CoffFormat
  import opened CoffNames
  import opened CoffLib
  import opened CoffImage
  import opened CoffLoad

  // ------------------------------------------------------------ what is built

  lemma {:induction false} CountSnoc(es: seq<Entry>, e: Entry)
    ensures SlotCount(es + [e]) == SlotCount(es) + Slots(e)
    ensures ValidEntries(es) && ValidEntry(e) ==> ValidEntries(es + [e])
  {
    if es == [] {
      assert [e][1..] == [];
    } else {
      assert (es + [e])[0] == es[0] && (es + [e])[1..] == es[1..] + [e];
      CountSnoc(es[1..], e);
    }
  }

  predicate Counted(lib: Lib)
  {
    ValidEntries(lib.entries) && lib.numSymbols == SlotCount(lib.entries)
  }

  lemma ApplyCounts(lib: Lib, op: Op)
    requires ValidLib(lib) && ValidOp(op) && Apply(lib, op).Some? && Counted(lib)
    ensures Counted(Apply(lib, op).value)
  {
    var es := Apply(lib, op).value.entries;
    if !op.AddSection? {
      CountSnoc(lib.entries, es[|es| - 1]);
    }
  }

  lemma {:induction false} BuildCounts(ops: seq<Op>)
    requires ValidOps(ops) && Build(ops).Some?
    ensures Counted(Build(ops).value)
  {
    if ops != [] {
      BuildCounts(ops[..|ops| - 1]);
      ApplyCounts(Build(ops[..|ops| - 1]).value, ops[|ops| - 1]);
    }
  }

  // ------------------------------------------------------------ what is loaded

  /** A library, its bodies, and nothing beyond 32 bits or left out of the file. */
  ghost predicate Complete(lib: Lib, bodies: seq<Body>)
  {
    && ValidLib(lib) && Counted(lib) && Fit(lib.sections, bodies)
    && SymTable(lib) + SYMBOL_SIZE * lib.numSymbols + |lib.strings| + 4 < TWO_TO_32
    && 0 < |lib.strings| <= MAX_STRTAB_SIZE - 4
    && forall k :: 0 <= k < |lib.sections| ==> !Uninitialised(lib.sections[k].flags)
  }

  /** Where the symbols end, and the string table starts. */
  function StringsAt(lib: Lib): nat
  {
    SymTable(lib) + SYMBOL_SIZE * lib.numSymbols
  }

  lemma HeadersStandAlone(b: seq<byte>, h: FileHeader, ps: seq<SectionHeader>)
    requires forall k :: 0 <= k < |ps| ==> |ps[k].name| == NAME_LEN
    requires h.optSize == 0 && h.numSections == |ps| && Stands(b, FILE_HEADER_SIZE, HeaderBytes(ps))
    ensures InitialSize(h) <= |b| && Headers(b, h) == ps
  {
    hide PutSectionHeader, GetSectionHeader, HeaderBytes;
    forall k | 0 <= k < |ps|
      ensures Headers(b, h)[k] == ps[k]
    {
      HeadersStand(b, FILE_HEADER_SIZE, ps, k);
      SectionHeaderRoundTrip(b, FILE_HEADER_SIZE + SECTION_HEADER_SIZE * k, ps[k]);
    }
  }

  lemma HeadersRead(lib: Lib, bodies: seq<Body>, cpu: u16, time: u32)
    requires Complete(lib, bodies)
    ensures var b := Image(lib, bodies, cpu, time);
            && |b| == StringsAt(lib) + |lib.strings| + 4 && FILE_HEADER_SIZE <= Start(lib) <= SymTable(lib)
            && GetFileHeader(b, 0) == HeaderOf(lib, cpu, time) && InitialSize(GetFileHeader(b, 0)) == Start(lib)
            && Headers(b, GetFileHeader(b, 0)) == Placed(lib.sections, Start(lib))
            && (KnownMachine(cpu) ==> IsObject(GetFileHeader(b, 0)))
  {
    hide Image, Placed, HeaderBytes, Headers, GetFileHeader, PutFileHeader, Stands;
    ImageParts(lib, bodies, cpu, time);
    FileHeaderRoundTrip(Image(lib, bodies, cpu, time), 0, HeaderOf(lib, cpu, time));
    EndOfGrows(lib.sections, Start(lib));
    HeadersStandAlone(Image(lib, bodies, cpu, time), HeaderOf(lib, cpu, time), Placed(lib.sections, Start(lib)));
  }

  lemma {:induction false} BufferEndBounded(hs: seq<Handle>, end: nat)
    requires forall k :: 0 <= k < |hs| ==> Reach(hs[k]) <= end
    ensures BufferEnd(hs) <= end
    ensures hs != [] && Reach(hs[|hs| - 1]) == end ==> BufferEnd(hs) == end
  {
    if hs != [] {
      BufferEndBounded(hs[..|hs| - 1], end);
    }
  }

  /** Pointers of the placed headers stay below the symbol table. */
  predicate Below(hs: seq<SectionHeader>, end: nat)
  {
    forall k :: 0 <= k < |hs| ==>
      hs[k].rawPtr + hs[k].size <= end && hs[k].relocPtr + RELOC_SIZE * hs[k].numRelocs <= end
  }

  lemma {:induction false} RelocHandlesBelow(hs: seq<SectionHeader>, end: nat)
    requires Below(hs, end) && end < TWO_TO_32
    ensures forall k :: 0 <= k < |RelocHandles(hs)| ==> Reach(RelocHandles(hs)[k]) <= end
  {
    if hs != [] {
      RelocHandlesBelow(hs[..|hs| - 1], end);
    }
  }

  lemma NormalHandlesBelow(hs: seq<SectionHeader>, end: nat)
    requires Below(hs, end) && end < TWO_TO_32 && forall k :: 0 <= k < |hs| ==> |hs[k].name| == NAME_LEN
    ensures forall k :: 0 <= k < |hs| ==> Reach(NormalHandles(hs)[k]) <= end
  {
    hide CStringAt, Uninitialised;
  }

  lemma TableReach(h: FileHeader)
    requires h.symTable > 0 && h.symTable + SYMBOL_SIZE * h.numSymbols < TWO_TO_32
    ensures forall k :: 0 <= k < 2 ==> Reach(TableHandles(h)[k]) == h.symTable + SYMBOL_SIZE * h.numSymbols
    ensures TableHandles(h)[1].offset == h.symTable + SYMBOL_SIZE * h.numSymbols
  {
  }

  lemma PlacedBelow(lib: Lib, bodies: seq<Body>, cpu: u16, time: u32)
    requires Complete(lib, bodies)
    ensures Below(Placed(lib.sections, Start(lib)), SymTable(lib))
  {
    ImageParts(lib, bodies, cpu, time);
    forall k | 0 <= k < |lib.sections|
      ensures var p := Placed(lib.sections, Start(lib))[k];
              p.rawPtr + p.size <= SymTable(lib) && p.relocPtr + RELOC_SIZE * p.numRelocs <= SymTable(lib)
    {
      BodiesStand(Image(lib, bodies, cpu, time), Start(lib), lib.sections, bodies, k);
    }
  }

  /** The buffer ends where the string table starts. */
  lemma EndOfHandles(h: FileHeader, ps: seq<SectionHeader>)
    requires forall k :: 0 <= k < |ps| ==> |ps[k].name| == NAME_LEN && !Uninitialised(ps[k].flags)
    requires h.symTable > 0 && Below(ps, h.symTable) && h.symTable + SYMBOL_SIZE * h.numSymbols < TWO_TO_32
    ensures BufferEnd(NormalHandles(ps) + RelocHandles(ps) + TableHandles(h)) == h.symTable + SYMBOL_SIZE * h.numSymbols
    ensures TableHandles(h)[1].offset == h.symTable + SYMBOL_SIZE * h.numSymbols
  {
    var end := h.symTable + SYMBOL_SIZE * h.numSymbols;
    RelocHandlesBelow(ps, h.symTable);
    NormalHandlesBelow(ps, h.symTable);
    TableReach(h);
    hide RelocHandles, NormalHandles, BufferEnd, TableHandles, Reach, Below, CStringAt, Uninitialised;
    BufferEndBounded(NormalHandles(ps) + RelocHandles(ps) + TableHandles(h), end);
  }

  lemma EndRead(lib: Lib, bodies: seq<Body>, cpu: u16, time: u32)
    requires Complete(lib, bodies)
    ensures var h, ps := HeaderOf(lib, cpu, time), Placed(lib.sections, Start(lib));
            && h.symTable == SymTable(lib) > 0 && (forall k :: 0 <= k < |ps| ==> |ps[k].name| == NAME_LEN)
            && BufferEnd(NormalHandles(ps) + RelocHandles(ps) + TableHandles(h)) == StringsAt(lib)
            && TableHandles(h)[1].offset == StringsAt(lib)
  {
    hide BufferEnd, Fit, Below;
    EndOfGrows(lib.sections, Start(lib));
    PlacedBelow(lib, bodies, cpu, time);
    EndOfHandles(HeaderOf(lib, cpu, time), Placed(lib.sections, Start(lib)));
  }

  // ------------------------------------------------------------- the round trip

  lemma {:induction false} NamedIs(hs: seq<Handle>, table: seq<byte>, names: seq<seq<byte>>)
    requires |names| == |hs| && forall k :: 0 <= k < |hs| ==> NameFrom(hs[k].name, table) == Some(names[k])
    ensures var r := Named(hs, table);
            r.Some? && |r.value| == |hs| && forall k :: 0 <= k < |hs| ==> r.value[k] == hs[k].(name := names[k])
  {
    if hs != [] {
      NamedIs(hs[..|hs| - 1], table, names[..|hs| - 1]);
    }
  }

  function AuxOf(e: Entry): Option<SecDef>
  {
    if e.aux.Some? && |e.aux.value| == SYMBOL_SIZE then Some(GetSecDef(e.aux.value, 0)) else None
  }

  /** The symbols of an image: their slots, their names, and what else they say. */
  function SymHandles(es: seq<Entry>, names: seq<seq<byte>>, i: nat): seq<SymHandle>
    requires |names| == |es|
  {
    if es == [] then [] else [SymHandle(i, Some(names[0]), AttrOf(es[0].symbol), AuxOf(es[0]))] + SymHandles(es[1..], names[1..], i + Slots(es[0]))
  }

  predicate AllRead(es: seq<Entry>, table: seq<byte>, names: seq<seq<byte>>)
    requires |names| == |es|
  {
    es == [] || (|es[0].symbol.name| == NAME_LEN && ReadSymbolName(es[0].symbol.name, table) == Some(names[0])
                 && AllRead(es[1..], table, names[1..]))
  }

  lemma {:induction false} AllReadIf(es: seq<Entry>, table: seq<byte>, names: seq<seq<byte>>)
    requires |names| == |es|
    requires forall k :: 0 <= k < |es| ==> |es[k].symbol.name| == NAME_LEN && ReadSymbolName(es[k].symbol.name, table) == Some(names[k])
    ensures AllRead(es, table, names)
  {
    if es != [] {
      hide ReadSymbolName;
      AllReadIf(es[1..], table, names[1..]);
    }
  }

  lemma EntryRead(b: seq<byte>, at: nat, e: Entry)
    requires ValidEntry(e) && Stands(b, at, EntryBytes(e))
    ensures at + SYMBOL_SIZE <= |b| && GetSymbol(b, at) == e.symbol && e.symbol.numAux + 1 == Slots(e)
    ensures if e.aux.None? then AuxOf(e) == None
            else at + 2 * SYMBOL_SIZE <= |b| && AuxOf(e) == Some(GetSecDef(b, at + SYMBOL_SIZE))
  {
    hide PutSymbol, GetSymbol, GetSecDef;
    StandsApart(b, at, PutSymbol(e.symbol), if e.aux.Some? then e.aux.value else []);
    if e.aux.Some? {
      SecDefStands(b, at + SYMBOL_SIZE, e.aux.value);
    }
    SymbolRoundTrip(b, at, e.symbol);
  }

  lemma ReadStep(b: seq<byte>, at: nat, i: nat, n: nat, table: seq<byte>, e: Entry)
    requires at + SYMBOL_SIZE * n <= |b| && i + Slots(e) <= n && e.symbol.numAux + 1 == Slots(e)
    requires GetSymbol(b, at + SYMBOL_SIZE * i) == e.symbol
    requires AuxOf(e) == if e.aux.None? then None else Some(GetSecDef(b, at + SYMBOL_SIZE * (i + 1)))
    ensures |e.symbol.name| == NAME_LEN
    ensures ReadSymbols(b, at, i, n, table)
            == [SymHandle(i, ReadSymbolName(e.symbol.name, table), AttrOf(e.symbol), AuxOf(e))] + ReadSymbols(b, at, i + Slots(e), n, table)
  {
    hide ReadSymbolName, GetSymbol, GetSecDef, AuxOf;
  }

  lemma {:induction false} SymbolsRead(b: seq<byte>, at: nat, pos: nat, es: seq<Entry>, i: nat, n: nat, table: seq<byte>, names: seq<seq<byte>>)
    requires ValidEntries(es) && i + SlotCount(es) == n && at + SYMBOL_SIZE * n <= |b|
    requires pos == at + SYMBOL_SIZE * i && Stands(b, pos, SymbolBytes(es))
    requires |names| == |es| && AllRead(es, table, names)
    ensures ReadSymbols(b, at, i, n, table) == SymHandles(es, names, i)
    decreases |es|
  {
    hide ReadSymbolName, EntryBytes, GetSymbol, Stands, ReadSymbols, ValidEntry, Slots, SymHandles;
    SlotStep(es, names, i);
    if es == [] {
      ReadNothing(b, at, i, n, table);
    } else {
      var e, next := es[0], i + Slots(es[0]);
      StandsApart(b, pos, EntryBytes(e), SymbolBytes(es[1..]));
      EntryRead(b, pos, e);
      ReadStep(b, at, i, n, table, e);
      SymbolsRead(b, at, pos + |EntryBytes(e)|, es[1..], next, n, table, names[1..]);
    }
  }

  lemma SlotStep(es: seq<Entry>, names: seq<seq<byte>>, i: nat)
    requires |names| == |es|
    ensures SymHandles(es, names, i)
            == if es == [] then [] else [SymHandle(i, Some(names[0]), AttrOf(es[0].symbol), AuxOf(es[0]))] + SymHandles(es[1..], names[1..], i + Slots(es[0]))
  {
  }

  lemma ReadNothing(b: seq<byte>, at: nat, i: nat, n: nat, table: seq<byte>)
    requires at + SYMBOL_SIZE * n <= |b| && i >= n
    ensures ReadSymbols(b, at, i, n, table) == []
  {
  }

  /** A loaded section is the one that was built: same name and size, and its contents are
      the bytes that were appended for it. */
  ghost predicate SectionLoaded(b: seq<byte>, s: Handle, name: seq<byte>, data: seq<byte>)
  {
    && s.kind == Normal && s.name == name && s.size == |data|
    && (data != [] ==> s.contents.Some? && Stands(b, s.contents.value, data))
  }

  ghost predicate Names(lib: Lib, sections: seq<seq<byte>>, symbols: seq<seq<byte>>)
  {
    && ValidLib(lib) && |lib.strings| + 4 < TWO_TO_32 && |sections| == |lib.sections| && |symbols| == |lib.entries|
    && (forall k :: 0 <= k < |sections| ==> ReadSectionName(lib.sections[k].name, Table(lib.strings)) == Some(sections[k]))
    && (forall k :: 0 <= k < |symbols| ==> ReadSymbolName(lib.entries[k].symbol.name, Table(lib.strings)) == Some(symbols[k]))
  }

  /** The loader's own part of the image. */
  lemma TableRead(lib: Lib, bodies: seq<Body>, cpu: u16, time: u32)
    requires Complete(lib, bodies)
    ensures var b, end := Image(lib, bodies, cpu, time), StringsAt(lib);
            && |b| == end + |lib.strings| + 4 && StringSize(b, HeaderOf(lib, cpu, time), end) == |lib.strings|
            && b[end..end + |lib.strings| + 4] == Table(lib.strings)
  {
    hide Image, Placed, Fit, HeaderBytes, BodyBytes, SymbolBytes, Stands;
    ImageParts(lib, bodies, cpu, time);
    EndOfGrows(lib.sections, Start(lib));
    TableStands(Image(lib, bodies, cpu, time), HeaderOf(lib, cpu, time), StringsAt(lib), lib.strings);
  }

  lemma TableStands(b: seq<byte>, h: FileHeader, end: nat, strings: seq<byte>)
    requires 0 < |strings| <= MAX_STRTAB_SIZE - 4 && h.symTable != 0 && Stands(b, end, Table(strings))
    ensures StringSize(b, h, end) == |strings| && b[end..end + |strings| + 4] == Table(strings)
  {
    StandsApart(b, end, Put32(|strings| + 4), strings);
    Word32OfPut32(b, end, |strings| + 4);
  }

  lemma NormalName(s: SectionHeader, table: seq<byte>)
    requires |s.name| == NAME_LEN
    ensures NameFrom(NormalHandle(s).name, table) == ReadSectionName(s.name, table)
  {
  }

  /** One handle after the other. */
  lemma NameAt(ps: seq<SectionHeader>, rest: seq<Handle>, table: seq<byte>, names: seq<seq<byte>>, k: nat)
    requires forall i :: 0 <= i < |ps| ==> |ps[i].name| == NAME_LEN
    requires |names| == |ps| && forall i :: 0 <= i < |ps| ==> ReadSectionName(ps[i].name, table) == Some(names[i])
    requires forall i :: 0 <= i < |rest| ==> NameFrom(rest[i].name, table) == Some(rest[i].name)
    requires k < |ps| + |rest|
    ensures NameFrom((AllFilled(NormalHandles(ps)) + rest)[k].name, table)
            == Some(if k < |ps| then names[k] else rest[k - |ps|].name)
  {
    hide NameFrom, CStringAt, Uninitialised, Filled, NormalHandle, ReadSectionName;
    if k < |ps| {
      NormalName(ps[k], table);
    }
  }

  /** The handles of an image, from its headers. */
  lemma HandlesNamed(ps: seq<SectionHeader>, rest: seq<Handle>, table: seq<byte>, names: seq<seq<byte>>)
    requires forall k :: 0 <= k < |ps| ==> |ps[k].name| == NAME_LEN
    requires |names| == |ps| && forall k :: 0 <= k < |ps| ==> ReadSectionName(ps[k].name, table) == Some(names[k])
    requires forall k :: 0 <= k < |rest| ==> NameFrom(rest[k].name, table) == Some(rest[k].name)
    ensures var r := Named(AllFilled(NormalHandles(ps)) + rest, table);
            && r.Some? && |r.value| == |ps| + |rest|
            && (forall k :: 0 <= k < |ps| ==> r.value[k] == Filled(NormalHandle(ps[k])).(name := names[k]))
            && forall k :: 0 <= k < |rest| ==> r.value[|ps| + k] == rest[k]
  {
    hide NameFrom, CStringAt, Uninitialised, Named, Filled, NormalHandle, ReadSectionName;
    var hs := AllFilled(NormalHandles(ps)) + rest;
    var all := seq(|hs|, k requires 0 <= k < |hs| => if k < |ps| then names[k] else rest[k - |ps|].name);
    forall k | 0 <= k < |hs|
      ensures NameFrom(hs[k].name, table) == Some(all[k])
    {
      NameAt(ps, rest, table, names, k);
    }
    NamedIs(hs, table, all);
  }

  /** The second half of loading, given what the first half found. */
  lemma FinishLoads(b: seq<byte>, h: FileHeader, ps: seq<SectionHeader>, end: nat, strings: seq<byte>, names: seq<seq<byte>>)
    requires forall k :: 0 <= k < |ps| ==> |ps[k].name| == NAME_LEN
    requires 0 < |strings| && |strings| + 4 < TWO_TO_32 && 0 < end && |b| == end + |strings| + 4
    requires b[end..end + |strings| + 4] == Table(strings) && TableHandles(h)[1].offset == end
    requires |names| == |ps| && forall k :: 0 <= k < |ps| ==> ReadSectionName(ps[k].name, Table(strings)) == Some(names[k])
    ensures var r := Finish(b, h, NormalHandles(ps) + RelocHandles(ps) + TableHandles(h), |strings|);
            && r.Some? && r.value.header == h && r.value.table == Table(strings) && |r.value.handles| >= |ps| + 2
            && forall k :: 0 <= k < |ps| ==> r.value.handles[k] == Filled(NormalHandle(ps[k])).(name := names[k])
  {
    hide Table, ReadSectionName, Named, NormalHandle, Filled;
    var strtab := WithSize(TableHandles(h)[1], |strings|);
    assert TableOf(b, strtab) == Table(strings);
    var rest := AllFilled(RelocHandles(ps) + [TableHandles(h)[0]]) + [strtab];
    SplitHandles(ps, h, strtab);
    RestNames(ps, h, strtab, Table(strings));
    HandlesNamed(ps, rest, Table(strings), names);
  }

  lemma SplitHandles(ps: seq<SectionHeader>, h: FileHeader, strtab: Handle)
    requires forall k :: 0 <= k < |ps| ==> |ps[k].name| == NAME_LEN
    ensures var hs := NormalHandles(ps) + RelocHandles(ps) + TableHandles(h);
            && hs[|hs| - 1] == TableHandles(h)[1]
            && AllFilled(hs[..|hs| - 1]) + [strtab]
               == AllFilled(NormalHandles(ps)) + (AllFilled(RelocHandles(ps) + [TableHandles(h)[0]]) + [strtab])
  {
    hide NormalHandles, RelocHandles, Filled;
    var n, r, t := NormalHandles(ps), RelocHandles(ps), TableHandles(h);
    assert (n + r + t)[..|n + r + t| - 1] == n + (r + [t[0]]);
  }

  lemma RestNames(ps: seq<SectionHeader>, h: FileHeader, strtab: Handle, table: seq<byte>)
    requires strtab.name == STRTAB_NAME
    ensures var rest := AllFilled(RelocHandles(ps) + [TableHandles(h)[0]]) + [strtab];
            forall k :: 0 <= k < |rest| ==> NameFrom(rest[k].name, table) == Some(rest[k].name)
  {
    RelocNames(ps);
    hide RelocHandles, Filled;
    var rest := AllFilled(RelocHandles(ps) + [TableHandles(h)[0]]) + [strtab];
    forall k | 0 <= k < |rest|
      ensures rest[k].name == REL_NAME || rest[k].name == SYMTAB_NAME || rest[k].name == STRTAB_NAME
    {
      assert k < |RelocHandles(ps)| ==> rest[k].name == RelocHandles(ps)[k].name;
    }
  }

  lemma {:induction false} RelocNames(ps: seq<SectionHeader>)
    ensures forall k :: 0 <= k < |RelocHandles(ps)| ==> RelocHandles(ps)[k].name == REL_NAME
  {
    if ps != [] {
      RelocNames(ps[..|ps| - 1]);
    }
  }

  /** The round trip: the loader accepts the image of any complete library for a known machine, and finds the
      sections with their names, sizes and contents. */
  lemma ImageLoads(lib: Lib, bodies: seq<Body>, cpu: u16, time: u32, sections: seq<seq<byte>>, symbols: seq<seq<byte>>)
    requires Complete(lib, bodies) && Names(lib, sections, symbols) && KnownMachine(cpu)
    ensures var b := Image(lib, bodies, cpu, time);
            && Load(b).Some?
            && (var l := Load(b).value;
                && l.header == HeaderOf(lib, cpu, time) && l.table == Table(lib.strings)
                && |l.handles| >= |bodies| + 2
                && forall k :: 0 <= k < |bodies| ==> SectionLoaded(b, l.handles[k], sections[k], bodies[k].data))
  {
    hide IsObject, KnownMachine, Image, Placed, Headers, GetFileHeader, HeaderOf, StringSize, Named, BufferEnd, Stands, Table, Finish,
         NormalHandles, RelocHandles, TableHandles, ReadSectionName, ReadSymbolName;
    var b, end := Image(lib, bodies, cpu, time), StringsAt(lib);
    var ps := Placed(lib.sections, Start(lib));
    HeadersRead(lib, bodies, cpu, time);
    EndRead(lib, bodies, cpu, time);
    TableRead(lib, bodies, cpu, time);
    FinishLoads(b, HeaderOf(lib, cpu, time), ps, end, lib.strings, sections);
    forall k | 0 <= k < |bodies|
      ensures SectionLoaded(b, Load(b).value.handles[k], sections[k], bodies[k].data)
    {
      ContentsRead(lib, bodies, cpu, time, k);
    }
  }

  lemma ContentsRead(lib: Lib, bodies: seq<Body>, cpu: u16, time: u32, k: nat)
    requires Complete(lib, bodies) && k < |bodies|
    ensures var b, p := Image(lib, bodies, cpu, time), Placed(lib.sections, Start(lib))[k];
            && 0 < p.rawPtr && p.size == |bodies[k].data| && |p.name| == NAME_LEN && Stands(b, p.rawPtr, bodies[k].data)
  {
    hide Image, Stands, BodyBytes, SymbolBytes, HeaderBytes, PutFileHeader;
    ImageParts(lib, bodies, cpu, time);
    BodiesStand(Image(lib, bodies, cpu, time), Start(lib), lib.sections, bodies, k);
  }

  /** The relocations of every section stand where its header says. */
  lemma ImageRelocs(lib: Lib, bodies: seq<Body>, cpu: u16, time: u32, k: nat)
    requires Complete(lib, bodies) && k < |bodies|
    ensures var b := Image(lib, bodies, cpu, time);
            && InitialSize(HeaderOf(lib, cpu, time)) <= |b|
            && var p := Headers(b, HeaderOf(lib, cpu, time))[k];
               && p.flags == lib.sections[k].flags && p.numRelocs == |bodies[k].relocs|
               && p.relocPtr + RELOC_SIZE * p.numRelocs <= |b|
               && ReadRelocs(b, p.relocPtr, p.numRelocs) == bodies[k].relocs
  {
    hide Image, Stands, BodyBytes, SymbolBytes, HeaderBytes, PutFileHeader, ReadRelocs, GetFileHeader, Headers;
    ImageParts(lib, bodies, cpu, time);
    HeadersRead(lib, bodies, cpu, time);
    var b := Image(lib, bodies, cpu, time);
    BodiesStand(b, Start(lib), lib.sections, bodies, k);
    RelocsRead(b, Placed(lib.sections, Start(lib))[k].relocPtr, bodies[k].relocs);
  }

  /** And every symbol's name at its slot, auxiliary records being skipped. */
  lemma ImageSymbols(lib: Lib, bodies: seq<Body>, cpu: u16, time: u32, sections: seq<seq<byte>>, symbols: seq<seq<byte>>)
    requires Complete(lib, bodies) && Names(lib, sections, symbols)
    ensures var b, n := Image(lib, bodies, cpu, time), NumSymbols(HeaderOf(lib, cpu, time));
            && HeaderOf(lib, cpu, time).symTable == SymTable(lib) && SymTable(lib) + SYMBOL_SIZE * n <= |b|
            && ReadSymbols(b, SymTable(lib), 0, n, Table(lib.strings)) == SymHandles(lib.entries, symbols, 0)
  {
    hide Image, Stands, BodyBytes, SymbolBytes, HeaderBytes, PutFileHeader, Table, ReadSymbolName, ReadSectionName, Placed;
    ImageParts(lib, bodies, cpu, time);
    EndOfGrows(lib.sections, Start(lib));
    AllReadIf(lib.entries, Table(lib.strings), symbols);
    SymbolsRead(Image(lib, bodies, cpu, time), SymTable(lib), SymTable(lib), lib.entries, 0, lib.numSymbols, Table(lib.strings), symbols);
  }
}
