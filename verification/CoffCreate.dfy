/** CoffCreateImport as a whole, and the import round trip: what the loader recovers from
    the object it synthesises. */
module CoffCreate {
  import opened Basics
  import opened Bytes
  import opened CoffFormat
  import opened CoffNames
  import opened CoffLib
  import opened CoffImage
  import opened CoffLoad
  import opened CoffRoundTrip
  import opened CoffImport
  import opened CoffSynthesis

  /** What is appended for each section; relocations name their symbols by slot. */
  function ProcessorBodies(im: Import, text: u32, imp: u32, toc: u32): seq<Body>
  {
    if im.processor == MACHINE_ALPHA then
      [Body(ALPHA_TEXT, [Reloc(0, imp, ALPHA_REFHI), Reloc(0, text, ALPHA_PAIR), Reloc(4, imp, ALPHA_REFLO)])]
    else if im.processor == MACHINE_POWERPC then
      [Body(PPC_TEXT, [Reloc(0, imp, PPC_TOCREL14_TOCDEFN)]),
       Body(PPC_PDATA, [Reloc(0, text, PPC_ADDR32), Reloc(4, text, PPC_ADDR32), Reloc(0x10, text, PPC_ADDR32),
                        Reloc(0x8041_0004, text, PPC_SECTION)]),
       Body(Zeros(8), [Reloc(0, text, PPC_ADDR32), Reloc(4, toc, PPC_ADDR32)])]
    else
      [Body(X86_TEXT, [Reloc(2, imp, I386_DIR32)])]
  }

  function NameReloc(p: u16): u16
  {
    if p == MACHINE_ALPHA then ALPHA_REFLONGNB else if p == MACHINE_POWERPC then PPC_ADDR32NB else I386_DIR32NB
  }

  function DataBodies(im: Import, idata6: u32): seq<Body>
  {
    var relocs := if ByName(im) then [Reloc(0, idata6, NameReloc(im.processor))] else [];
    [Body(Thunk(im), relocs), Body(Thunk(im), relocs)] + if ByName(im) then [Body(HintName(im), [])] else []
  }

  /** With the slots that ImportSymbols lists. */
  function ImportBodies(im: Import): seq<Body>
  {
    var s := ProcessorSlots(im);
    ProcessorBodies(im, 2, s + 2, s + if ByName(im) then 7 else 5) + DataBodies(im, s + 5)
  }

  /** A relocation by the name of its symbol. */
  datatype Ref = Ref(offset: u32, target: seq<byte>, kind: u16)

  /** What each section refers to. */
  function ProcessorRefs(im: Import): seq<seq<Ref>>
  {
    var imp, text := IMP + im.name, DOTS + im.name;
    if im.processor == MACHINE_ALPHA then [[Ref(0, imp, ALPHA_REFHI), Ref(0, im.name, ALPHA_PAIR), Ref(4, imp, ALPHA_REFLO)]]
    else if im.processor == MACHINE_POWERPC then
      [[Ref(0, imp, PPC_TOCREL14_TOCDEFN)],
       [Ref(0, text, PPC_ADDR32), Ref(4, text, PPC_ADDR32), Ref(0x10, text, PPC_ADDR32), Ref(0x8041_0004, text, PPC_SECTION)],
       [Ref(0, text, PPC_ADDR32), Ref(4, TOC, PPC_ADDR32)]]
    else [[Ref(2, imp, I386_DIR32)]]
  }

  function ImportRefs(im: Import): seq<seq<Ref>>
  {
    var hint := Ref(0, IDATA6, if im.processor == MACHINE_I386 then I386_DIR32NB
                               else if im.processor == MACHINE_ALPHA then ALPHA_REFLONGNB else PPC_ADDR32NB);
    ProcessorRefs(im) + if ByName(im) then [[hint], [hint], []] else [[], []]
  }

  predicate RefersTo(r: Reloc, ref: Ref, symbols: seq<SymHandle>)
  {
    r.offset == ref.offset && r.kind == ref.kind
    && exists i :: 0 <= i < |symbols| && symbols[i].slot == r.symbol && symbols[i].name == Some(ref.target)
  }

  predicate AllRefer(rs: seq<Reloc>, refs: seq<Ref>, symbols: seq<SymHandle>)
  {
    |rs| == |refs| && forall j :: 0 <= j < |rs| ==> RefersTo(rs[j], refs[j], symbols)
  }

  /** The symbol that has a slot. */
  lemma SlotsOfTargets(im: Import)
    requires Supported(im.processor)
    ensures var h, s, p := ImportSymbols(im), ProcessorSlots(im), |ProcessorSymbols(im)|;
            && p < |h| - 2 && h[1].slot == 2 && h[1].name == Some(if im.processor == MACHINE_POWERPC then DOTS + im.name else im.name)
            && h[p + 1].slot == s + 2 && h[p + 1].name == Some(IMP + im.name)
            && (ByName(im) ==> h[p + 3].slot == s + 5 && h[p + 3].name == Some(IDATA6))
            && (im.processor == MACHINE_POWERPC ==>
                  h[|h| - 2].slot == s + (if ByName(im) then 7 else 5) && h[|h| - 2].name == Some(TOC))
  {
  }

  /** Every relocation names the slot of the symbol that it should refer to. */
  lemma RelocsRefer(im: Import)
    requires Supported(im.processor)
    ensures |ImportRefs(im)| == |ImportBodies(im)|
    ensures forall k :: 0 <= k < |ImportRefs(im)| ==> AllRefer(ImportBodies(im)[k].relocs, ImportRefs(im)[k], ImportSymbols(im))
  {
    SlotsOfTargets(im);
    hide ImportSymbols, ProcessorSymbols, HintName, Thunk;
  }

  lemma BodiesFit(im: Import, hs: seq<SectionHeader>)
    requires Declared(hs, ImportSections(im)) && Supported(im.processor) && |HintName(im)| < TWO_TO_32
    ensures Fit(hs, ImportBodies(im))
  {
    hide HintName, Uninitialised;
    var specs, bodies := ImportSections(im), ImportBodies(im);
    assert |specs| == |bodies|;
    forall k | 0 <= k < |specs|
      ensures bodies[k].data == specs[k].data && |bodies[k].relocs| == specs[k].relocs
    {
    }
  }

  // ---------------------------------------------------------- sizes and names

  lemma {:induction false} SymHandlesAt(es: seq<Entry>, names: seq<seq<byte>>, i: nat, k: nat)
    requires |names| == |es|
    ensures |SymHandles(es, names, i)| == |es| && (k < |es| ==> SymHandles(es, names, i)[k].name == Some(names[k]))
    decreases |es|
  {
    if es != [] {
      SymHandlesAt(es[1..], names[1..], i + Slots(es[0]), if k > 0 then k - 1 else 0);
    }
  }

  lemma LongNameStored(lib: Lib, sections: seq<seq<byte>>, symbols: seq<seq<byte>>, k: nat)
    requires NamesHold(lib, sections, symbols) && k < |symbols|
    ensures |symbols[k]| > NAME_LEN ==> |symbols[k]| < |lib.strings|
  {
    hide SymbolField;
    assert SymbolHolds(lib.strings, lib.entries[k].symbol.name, symbols[k]);
  }

  lemma {:induction false} EndOfBounded(hs: seq<SectionHeader>, at: nat, m: nat)
    requires forall k :: 0 <= k < |hs| ==> Room(hs[k]) <= m
    ensures EndOf(hs, at) <= at + |hs| * m
    decreases |hs|
  {
    if hs != [] {
      EndOfBounded(hs[1..], at + Room(hs[0]), m);
      assert |hs| * m == m + |hs[1..]| * m;
    }
  }

  /** The import name is no longer than the name it comes from. */
  lemma ImportNameLength(im: Import)
    ensures |HintName(im)| <= |im.name| + 4
  {
  }

  const ROOM_LIMIT := 0x40_0000

  lemma TracksLengths(lib: Lib, a: Added)
    requires Tracks(lib, a)
    ensures |a.symbols| == |lib.entries| && |a.sections| == |lib.sections|
  {
  }

  /** What the library knows about its strings once everything is added. */
  lemma StringsBounded(lib: Lib, a: Added, im: Import)
    requires Tracks(lib, a) && a.handles == ImportSymbols(im) && lib.room <= ROOM_LIMIT
    ensures 0 < |lib.strings| <= ROOM_LIMIT && |im.name| < ROOM_LIMIT
  {
    hide SymHandles, NamesHold, ImportSymbols, ProcessorSymbols, Counted;
    TracksLengths(lib, a);
    var n, k := |a.handles| - 1, |ProcessorSymbols(im)| + 1;
    TwoSymbols(im);
    SymHandlesAt(lib.entries, a.symbols, 0, n);
    LongNameStored(lib, a.sections, a.symbols, n);
    SymHandlesAt(lib.entries, a.symbols, 0, k);
    LongNameStored(lib, a.sections, a.symbols, k);
  }

  lemma TwoSymbols(im: Import)
    ensures var s, k := ImportSymbols(im), |ProcessorSymbols(im)| + 1;
            k < |s| && s[k].name == Some(IMP + im.name) && s[|s| - 1].name == Some(DESCRIPTOR + im.dll)
  {
  }

  lemma SpecsAreSmall(im: Import)
    requires |im.name| < ROOM_LIMIT
    ensures |ImportSections(im)| <= 6
    ensures forall k :: 0 <= k < |ImportSections(im)| ==>
              |ImportSections(im)[k].data| + RELOC_SIZE * ImportSections(im)[k].relocs <= ROOM_LIMIT + 60
  {
    ImportNameLength(im);
  }

  lemma ImportIsComplete(lib: Lib, a: Added, im: Import)
    requires Tracks(lib, a) && a.handles == ImportSymbols(im) && lib.room <= ROOM_LIMIT
    requires Declared(lib.sections, ImportSections(im)) && Supported(im.processor)
    ensures Complete(lib, ImportBodies(im))
  {
    hide NamesHold, SymHandles, ImportSymbols, ImportBodies, HintName, Uninitialised;
    StringsBounded(lib, a, im);
    ImportNameLength(im);
    SpecsAreSmall(im);
    BodiesFit(im, lib.sections);
    hide ImportSections;
    EndOfBounded(lib.sections, Start(lib), ROOM_LIMIT + 60);
  }

  /** The symbol names as the loader reads them. */
  function AsRead(strings: seq<byte>, names: seq<seq<byte>>): (r: seq<seq<byte>>)
    requires |strings| + 4 < TWO_TO_32
    ensures |r| == |names| && forall k :: 0 <= k < |names| ==> r[k] == SymbolAsRead(strings, names[k])
  {
    seq(|names|, k requires 0 <= k < |names| => SymbolAsRead(strings, names[k]))
  }

  /** The section names of an import object all read back, the symbol names unless empty. */
  lemma ImportNamesRead(lib: Lib, a: Added, im: Import)
    requires Tracks(lib, a) && a.sections == NamesOf(ImportSections(im))
    ensures |lib.strings| + 4 < TWO_TO_32 && Names(lib, a.sections, AsRead(lib.strings, a.symbols))
  {
    hide SymHandles, Counted, ReadSectionName, ReadSymbolName, Table, HintName, Thunk, SymbolAsRead;
    HeldNamesRead(lib, a.sections, a.symbols, |a.sections| + |a.symbols|);
    forall k | 0 <= k < |a.sections|
      ensures ReadSectionName(lib.sections[k].name, Table(lib.strings)) == Some(a.sections[k])
    {
      DotNames(im, k);
      HeldNamesRead(lib, a.sections, a.symbols, k);
    }
    forall k | 0 <= k < |a.symbols|
      ensures ReadSymbolName(lib.entries[k].symbol.name, Table(lib.strings)) == Some(SymbolAsRead(lib.strings, a.symbols[k]))
    {
      HeldNamesRead(lib, a.sections, a.symbols, k);
    }
  }

  /** The symbols read are those meant exactly if no name is empty, or an empty one comes back. */
  lemma ImportSymbolsRead(lib: Lib, a: Added, im: Import)
    requires Tracks(lib, a) && a.handles == ImportSymbols(im) && |lib.strings| + 4 < TWO_TO_32
    ensures SymHandles(lib.entries, AsRead(lib.strings, a.symbols), 0) == ImportSymbols(im)
            <==> im.name != [] || (|lib.strings| + 4) % TWO_TO_8 == 0
  {
    hide SymHandles, Counted, NamesHold, SymbolAsRead;
    var names := AsRead(lib.strings, a.symbols);
    TracksLengths(lib, a);
    forall k | 0 <= k < |a.symbols|
      ensures names[k] == a.symbols[k] <==> a.symbols[k] != [] || (|lib.strings| + 4) % TWO_TO_8 == 0
      ensures im.name != [] ==> a.symbols[k] != []
    {
      EmptySymbolNameIff(lib.strings, a.symbols[k]);
      SymHandlesAt(lib.entries, a.symbols, 0, k);
      if im.name != [] {
        FullNames(im, k);
      }
    }
    if im.name != [] || (|lib.strings| + 4) % TWO_TO_8 == 0 {
      assert names == a.symbols;
    } else {
      var k := |ProcessorSymbols(im)| - 1;
      EmptyName(im);
      SymHandlesAt(lib.entries, a.symbols, 0, k);
      SymHandlesAt(lib.entries, names, 0, k);
    }
  }

  /** The exported name is the last of the processor's symbols. */
  lemma EmptyName(im: Import)
    requires im.name == []
    ensures var k := |ProcessorSymbols(im)| - 1; 0 <= k < |ImportSymbols(im)| && ImportSymbols(im)[k].name == Some([])
  {
  }

  lemma DotNames(im: Import, k: nat)
    requires k < |ImportSections(im)|
    ensures ImportSections(im)[k].name != [] && ImportSections(im)[k].name[0] == 46
  {
    hide HintName, Thunk;
  }

  lemma FullNames(im: Import, k: nat)
    requires im.name != [] && k < |ImportSymbols(im)|
    ensures ImportSymbols(im)[k].name.Some? && ImportSymbols(im)[k].name.value != []
  {
  }

  // ------------------------------------------------------------------ the whole

  function TotalLength(names: seq<seq<byte>>): nat
  {
    if names == [] then 0 else |names[0]| + 1 + TotalLength(names[1..])
  }

  /** Names that together with their NULs stay below the first capacity always fit. */
  lemma {:induction false} ShortNamesFit(c: Capacity, names: seq<seq<byte>>)
    requires c.used + TotalLength(names) < c.room <= TWO_TO_32 / 2
    ensures var r := TakeAll(Some(c), names);
            r.Some? && r.value.room == c.room && r.value.used <= c.used + TotalLength(names)
    decreases |names|
  {
    if names != [] {
      ShortNamesFit(Take(c, names[0]).value, names[1..]);
    }
  }

  /** So an object is created for every name and library of at most 200 bytes. */
  lemma UsualNamesFit(im: Import)
    requires |im.name| <= 200 && |im.dll| <= 200
    ensures NamesFit(im)
  {
    var first, second := ProcessorNames(im), TableNames(im);
    TotalOfTwo(DOTS + im.name, im.name);
    TotalOfTwo(IMP + im.name, DESCRIPTOR + im.dll);
    hide Take, TakeAll, TotalLength;
    ShortNamesFit(Capacity(0, INITIAL_ROOM), first);
    ShortNamesFit(TakeAll(Some(Capacity(0, INITIAL_ROOM)), first).value, second);
  }

  lemma TotalOfTwo(a: seq<byte>, b: seq<byte>)
    ensures TotalLength([b]) == |b| + 1 && TotalLength([a, b]) == |a| + |b| + 2
  {
    assert [a, b][1..] == [b] && [b][1..] == [];
  }

  /** Error: a machine that is not supported. Overflow: a name leaves the string buffer. */
  datatype Outcome = Created(image: seq<byte>) | Error | Overflow

  /** A section's flags and relocations are those it should have. */
  ghost predicate Relocated(b: seq<byte>, s: SectionHeader, flags: u32, refs: seq<Ref>, symbols: seq<SymHandle>)
  {
    && s.flags == flags && s.relocPtr + RELOC_SIZE * s.numRelocs <= |b|
    && AllRefer(ReadRelocs(b, s.relocPtr, s.numRelocs), refs, symbols)
  }

  /** What the loader makes of an object is what the import stands for. */
  ghost predicate Recovered(im: Import, b: seq<byte>)
  {
    && Load(b).Some?
    && (var l := Load(b).value;
        && l.header.cpu == im.processor && l.header.time == im.time
        && |l.handles| >= |ImportSections(im)|
        && (forall k :: 0 <= k < |ImportSections(im)| ==>
              SectionLoaded(b, l.handles[k], ImportSections(im)[k].name, ImportSections(im)[k].data))
        && InitialSize(l.header) <= |b| && |Headers(b, l.header)| == |ImportSections(im)| == |ImportRefs(im)|
        && (forall k :: 0 <= k < |ImportSections(im)| ==>
              Relocated(b, Headers(b, l.header)[k], ImportSections(im)[k].flags, ImportRefs(im)[k], ImportSymbols(im)))
        && l.header.symTable + SYMBOL_SIZE * NumSymbols(l.header) <= |b|
        && ReadSymbols(b, l.header.symTable, 0, NumSymbols(l.header), l.table) == ImportSymbols(im))
  }

  /** The size of the string table has a zero low byte, the exported name being empty: then
      only the descriptor's name, 20 bytes and the library's, is in it. */
  predicate EmptyNameReadsBack(im: Import)
  {
    (|im.dll| + 25) % TWO_TO_8 == 0
  }

  /** What is recovered is what the import stands for, exactly if its exported name is not
      empty or happens to be read back. */
  lemma ImportRecovered(lib: Lib, a: Added, im: Import)
    requires Tracks(lib, a) && a.handles == ImportSymbols(im) && a.sections == NamesOf(ImportSections(im))
    requires lib.room <= ROOM_LIMIT && Declared(lib.sections, ImportSections(im)) && Supported(im.processor)
    requires im.name == [] ==> |lib.strings| == |im.dll| + 21
    ensures Recovered(im, Image(lib, ImportBodies(im), im.processor, im.time)) <==> im.name != [] || EmptyNameReadsBack(im)
  {
    hide SymHandles, NamesHold, ReadSectionName, ReadSymbolName, Table, HintName, Thunk, ImportSymbols, Load, Image, ReadSymbols;
    ImportIsComplete(lib, a, im);
    ImportNamesRead(lib, a, im);
    var bodies, names := ImportBodies(im), AsRead(lib.strings, a.symbols);
    ImageLoads(lib, bodies, im.processor, im.time, a.sections, names);
    ImageSymbols(lib, bodies, im.processor, im.time, a.sections, names);
    ImportSymbolsRead(lib, a, im);
    ImportData(im);
    ImportRelocated(lib, im);
  }

  /** The sections of the object refer to what they should. */
  lemma ImportRelocated(lib: Lib, im: Import)
    requires Complete(lib, ImportBodies(im)) && Declared(lib.sections, ImportSections(im)) && Supported(im.processor)
    ensures var b, h := Image(lib, ImportBodies(im), im.processor, im.time), HeaderOf(lib, im.processor, im.time);
            && InitialSize(h) <= |b| && |Headers(b, h)| == |ImportSections(im)| == |ImportRefs(im)|
            && forall k :: 0 <= k < |ImportSections(im)| ==>
                 Relocated(b, Headers(b, h)[k], ImportSections(im)[k].flags, ImportRefs(im)[k], ImportSymbols(im))
  {
    hide AllRefer, ReadRelocs, Headers, Image, ImportSymbols, HintName, Thunk;
    var b, h := Image(lib, ImportBodies(im), im.processor, im.time), HeaderOf(lib, im.processor, im.time);
    RelocsRefer(im);
    ImageRelocs(lib, ImportBodies(im), im.processor, im.time, 0);
    hide ImportBodies, ImportRefs, ImportSections;
    forall k | 0 <= k < |ImportSections(im)|
      ensures Relocated(b, Headers(b, h)[k], ImportSections(im)[k].flags, ImportRefs(im)[k], ImportSymbols(im))
    {
      ImageRelocs(lib, ImportBodies(im), im.processor, im.time, k);
    }
  }

  lemma ImportData(im: Import)
    requires Supported(im.processor)
    ensures |ImportBodies(im)| == |ImportSections(im)|
    ensures forall k :: 0 <= k < |ImportBodies(im)| ==> ImportBodies(im)[k].data == ImportSections(im)[k].data
  {
    hide HintName, Thunk;
  }

  /** The data and relocations of all sections, in order. */
  method AppendBodies(f: CoffLibFile, im: Import, text: u32, imp: u32, idata6: u32, toc: u32)
    requires Supported(im.processor)
    modifies f`implib
    ensures f.implib == old(f.implib) + BodyBytes(ProcessorBodies(im, text, imp, toc) + DataBodies(im, idata6))
  {
    hide OneBody, BodyBytes;
    var bodies := ProcessorBodies(im, text, imp, toc) + DataBodies(im, idata6);
    ghost var base := f.implib;
    NoBodies();
    assert base + [] == base;
    var i := 0;
    while i < |bodies|
      invariant 0 <= i <= |bodies| && f.implib == base + BodyBytes(bodies[..i])
    {
      BodyBytesSnoc(bodies[..i], bodies[i]);
      assert bodies[..i] + [bodies[i]] == bodies[..i + 1];
      f.AddSectionBody(bodies[i]);
      i := i + 1;
    }
    assert bodies[..i] == bodies;
  }

  lemma NoBodies()
    ensures BodyBytes([]) == []
  {
  }

  /** Everything behind the declarations: headers, sections, symbols and strings. */
  method WriteImage(f: CoffLibFile, im: Import, text: u32, imp: u32, idata6: u32, toc: u32)
    requires f.Valid() && f.implib == [] && Supported(im.processor)
    modifies f
    ensures old(ValidLib(f.Contents()) && ValidEntries(f.symbols))
    ensures f.implib == Image(old(f.Contents()), ProcessorBodies(im, text, imp, toc) + DataBodies(im, idata6), im.processor, im.time)
  {
    hide SymHandles, NamesHold, Placed, HeaderBytes, BodyBytes, SymbolBytes, PutFileHeader, Table, SlotCount, ProcessorBodies, DataBodies;
    ghost var lib := f.Contents();
    f.CreateCoffFileHeader(im.processor, im.time);
    f.AddDataImpLib(HeaderBytes(f.sections));
    AppendBodies(f, im, text, imp, idata6, toc);
    f.AddDataImpLib(SymbolBytes(f.symbols));
    f.AddDataImpLib(Table(f.stringTable));
    Grouped(PutFileHeader(HeaderOf(lib, im.processor, im.time)), HeaderBytes(f.sections),
            BodyBytes(ProcessorBodies(im, text, imp, toc) + DataBodies(im, idata6)), SymbolBytes(f.symbols), Table(f.stringTable));
  }

  lemma Grouped(a: seq<byte>, b: seq<byte>, c: seq<byte>, d: seq<byte>, e: seq<byte>)
    ensures [] + a + b + c + d + e == a + (b + (c + (d + e)))
  {
  }

  lemma {:induction false} TakeAllDoubles(c: Capacity, names: seq<seq<byte>>)
    ensures TakeAll(Some(c), names).Some? ==> TakeAll(Some(c), names).value.room <= Doubled(c.room, |names|)
    decreases |names|
  {
    if names != [] {
      hide Take;
      var r := Take(c, names[0]);
      if r.Some? {
        TakeAllDoubles(r.value, names[1..]);
        DoubledGrows(r.value.room, 2 * c.room, |names| - 1);
      }
    }
  }

  function Doubled(n: nat, k: nat): nat
    decreases k
  {
    if k == 0 then n else Doubled(2 * n, k - 1)
  }

  lemma {:induction false} DoubledGrows(a: nat, b: nat, k: nat)
    requires a <= b
    ensures Doubled(a, k) <= Doubled(b, k)
    decreases k
  {
    if k > 0 {
      DoubledGrows(2 * a, 2 * b, k - 1);
    }
  }

  /** CoffCreateImport. For every supported processor, by ordinal or by name, an object is
      created exactly when the names fit; the loader recovers its sections with their
      contents, and its symbols, exactly if the exported name is not empty or happens to be
      read back. */
  method CoffCreateImport(im: Import, junk: seq<seq<byte>>) returns (r: Outcome)
    requires ValidImport(im) && Spare(junk)
    ensures r.Error? <==> !Supported(im.processor)
    ensures r.Created? <==> Supported(im.processor) && NamesFit(im)
    ensures r.Created? ==> (Recovered(im, r.image) <==> im.name != [] || EmptyNameReadsBack(im))
  {
    hide Recovered, Built, TakeAll;
    if !Supported(im.processor) {
      return Error;
    }
    var dllSymbol := GetImportName(im.name, im.kind);
    var f := new CoffLibFile();
    NothingBuilt(f);
    var ok, text, imp, idata6, toc;
    if im.processor == MACHINE_POWERPC {
      ok, text := AddPowerPC(f, im, junk);
    } else {
      ok, text := AddTextOnly(f, im, junk);
    }
    if !ok {
      TakeNone(TableNames(im));
      return Overflow;
    }
    ghost var c := CapacityOf(f);
    ok, imp, idata6, toc := AddImportTables(f, im, dllSymbol, junk);
    if !ok {
      return Overflow;
    }
    RoomLimit(im, c, CapacityOf(f));
    ghost var lib, a := f.Contents(), f.added;
    UnfoldBuilt(f, ImportSections(im), ImportSymbols(im));
    WriteImage(f, im, text, imp, idata6, toc);
    SameBodies(im, imp, idata6, toc);
    ImportRecovered(lib, a, im);
    r := Created(f.implib);
  }

  lemma NothingBuilt(f: CoffLibFile)
    requires f.Valid() && f.Contents() == EMPTY && f.added == Added([], [], [])
    ensures Built(f, [], []) && f.numSymbols == 0 && CapacityOf(f) == Capacity(0, INITIAL_ROOM)
  {
  }

  lemma TakeNone(names: seq<seq<byte>>)
    ensures TakeAll(None, names) == None
  {
  }

  lemma UnfoldBuilt(f: CoffLibFile, specs: seq<Spec>, symbols: seq<SymHandle>)
    requires Built(f, specs, symbols)
    ensures f.Valid() && Declared(f.sections, specs) && f.added.sections == NamesOf(specs) && f.added.handles == symbols
  {
  }

  lemma RoomLimit(im: Import, c: Capacity, d: Capacity)
    requires TakeAll(Some(Capacity(0, INITIAL_ROOM)), ProcessorNames(im)) == Some(c)
    requires TakeAll(Some(c), TableNames(im)) == Some(d)
    ensures d.room <= ROOM_LIMIT && (im.name == [] ==> d.used == |im.dll| + 21)
  {
    if im.name == [] {
      OnlyDescriptor(im, c, d);
    }
    TakeAllDoubles(Capacity(0, INITIAL_ROOM), ProcessorNames(im));
    TakeAllDoubles(c, TableNames(im));
    DoubledGrows(c.room, Doubled(INITIAL_ROOM, 2), 2);
  }

  /** With an empty exported name no other name is long. */
  lemma OnlyDescriptor(im: Import, c: Capacity, d: Capacity)
    requires im.name == [] && TakeAll(Some(Capacity(0, INITIAL_ROOM)), ProcessorNames(im)) == Some(c)
    requires TakeAll(Some(c), TableNames(im)) == Some(d)
    ensures d.used == |im.dll| + 21
  {
    var start := Capacity(0, INITIAL_ROOM);
    assert DOTS + im.name == DOTS && IMP + im.name == IMP;
    TakeTwo(start, DOTS, []);
    TakeOne(start, []);
    assert ProcessorNames(im) == if im.processor == MACHINE_POWERPC then [DOTS, []] else [[]];
    TakeTwo(c, IMP, DESCRIPTOR + im.dll);
  }

  lemma TakeOne(c: Capacity, a: seq<byte>)
    ensures TakeAll(Some(c), [a]) == Take(c, a)
  {
    assert [a][1..] == [];
  }

  lemma SameBodies(im: Import, imp: u32, idata6: u32, toc: u32)
    requires imp == ProcessorSlots(im) + 2 && idata6 == (if ByName(im) then ProcessorSlots(im) + 5 else 0)
    requires toc == if im.processor == MACHINE_POWERPC then ProcessorSlots(im) + (if ByName(im) then 7 else 5) else 0
    ensures ProcessorBodies(im, 2, imp, toc) + DataBodies(im, idata6) == ImportBodies(im)
  {
    hide HintName, Thunk;
  }
}
