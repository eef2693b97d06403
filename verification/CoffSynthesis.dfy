/** CoffCreateImport: the object that stands for one entry of an import library, for every
    supported processor, by ordinal and by name; and what the loader finds in it. */
module CoffSynthesis {
  import opened Basics
  import opened Bytes
  import opened CoffFormat
  import opened CoffNames
  import opened CoffLib
  import opened CoffLoad
  import opened CoffImport

  const MACHINE_I386: u16 := 0x14c
  const MACHINE_ALPHA: u16 := 0x184
  const MACHINE_POWERPC: u16 := 0x1f0

  // import types
  const BY_ORDINAL := 0
  const BY_NAME_NO_PREFIX := 2
  const BY_NAME_UNDECORATED := 3

  // section flags
  const COMDAT := 0x1000
  const CODE := 0x20
  const DATA := 0x40
  const EXECUTE := 0x2000_0000
  const READ := 0x4000_0000
  const WRITE := 0x8000_0000
  const ALIGN1 := 0x10_0000
  const ALIGN2 := 0x20_0000
  const ALIGN4 := 0x30_0000
  const ALIGN8 := 0x40_0000
  const ALIGN16 := 0x50_0000
  const TEXT_FLAGS := COMDAT + CODE + READ + EXECUTE
  const DATA_FLAGS := COMDAT + DATA + READ + WRITE

  const SELECT_NODUPLICATES: byte := 1
  const CLASS_EXTERNAL: byte := 2
  const TYPE_FUNCTION: u16 := 0x20

  // relocation types
  const ALPHA_REFHI: u16 := 0xa
  const ALPHA_REFLO: u16 := 0xb
  const ALPHA_PAIR: u16 := 0xc
  const ALPHA_REFLONGNB: u16 := 0x10
  const PPC_ADDR32: u16 := 2
  const PPC_TOCREL14_TOCDEFN: u16 := 0x809
  const PPC_ADDR32NB: u16 := 0xa
  const PPC_SECTION: u16 := 0xc
  const I386_DIR32: u16 := 6
  const I386_DIR32NB: u16 := 7

  // names: .text .pdata .reldata .idata$5 .idata$4 .idata$6 .toc __imp_ __IMPORT_DESCRIPTOR_
  const TEXT: seq<byte> := [46, 116, 101, 120, 116]
  const PDATA: seq<byte> := [46, 112, 100, 97, 116, 97]
  const RELDATA: seq<byte> := [46, 114, 101, 108, 100, 97, 116, 97]
  const IDATA5: seq<byte> := [46, 105, 100, 97, 116, 97, 36, 53]
  const IDATA4: seq<byte> := [46, 105, 100, 97, 116, 97, 36, 52]
  const IDATA6: seq<byte> := [46, 105, 100, 97, 116, 97, 36, 54]
  const TOC: seq<byte> := [46, 116, 111, 99]
  const DOTS: seq<byte> := [46, 46]
  const IMP: seq<byte> := [95, 95, 105, 109, 112, 95]
  const DESCRIPTOR: seq<byte> := [95, 95, 73, 77, 80, 79, 82, 84, 95, 68, 69, 83, 67, 82, 73, 80, 84, 79, 82, 95]

  // code and data
  const ALPHA_TEXT: seq<byte> := [0x00, 0x00, 0x7F, 0x27, 0x00, 0x00, 0x7B, 0xA3, 0x00, 0x00, 0xFB, 0x6B]
  const PPC_TEXT: seq<byte> := [0x00, 0x00, 0x62, 0x81, 0x00, 0x00, 0x8B, 0x81, 0x04, 0x00, 0x41, 0x90,
                                0xA6, 0x03, 0x89, 0x7D, 0x04, 0x00, 0x4B, 0x80, 0x20, 0x04, 0x80, 0x4E]
  const PPC_PDATA: seq<byte> := [0x00, 0x00, 0x00, 0x00, 0x18, 0x00, 0x00, 0x00, 0x00, 0x00,
                                 0x00, 0x00, 0x03, 0x00, 0x00, 0x00, 0x0D, 0x00, 0x00, 0x00]
  const X86_TEXT: seq<byte> := [0xFF, 0x25, 0x00, 0x00, 0x00, 0x00]

  /** What the short import record says. */
  datatype Import = Import(kind: nat, processor: u16, dll: seq<byte>, name: seq<byte>, ordinal: u16, time: u32)

  predicate ValidImport(im: Import)
  {
    NoNul(im.dll) && NoNul(im.name)
  }

  // ------------------------------------------------------------- import names

  predicate IsDigit(c: byte)
  {
    48 <= c <= 57
  }

  /** The name without a suffix of "@" and digits. */
  function WithoutSuffix(s: seq<byte>, end: nat): (r: seq<byte>)
    requires end <= |s|
    ensures r <= s
  {
    if end == 0 then s
    else if IsDigit(s[end - 1]) then WithoutSuffix(s, end - 1)
    else if s[end - 1] == 64 then s[..end - 1]
    else s
  }

  /** An "@" with nothing but digits behind it. */
  predicate StartsSuffix(s: seq<byte>, e: nat)
  {
    e < |s| && s[e] == 64 && forall i :: e < i < |s| ==> IsDigit(s[i])
  }

  /** What is cut is the last "@", if there is one, together with the digits behind it, and
      only if there is nothing else behind it. */
  lemma SuffixIsCut(s: seq<byte>)
    ensures forall e: nat :: StartsSuffix(s, e) ==> WithoutSuffix(s, |s|) == s[..e]
    ensures (forall e: nat :: !StartsSuffix(s, e)) ==> WithoutSuffix(s, |s|) == s
  {
    SuffixScan(s, |s|);
  }

  lemma {:induction false} SuffixScan(s: seq<byte>, end: nat)
    requires end <= |s| && forall i :: end <= i < |s| ==> IsDigit(s[i])
    ensures forall e: nat :: StartsSuffix(s, e) ==> WithoutSuffix(s, end) == s[..e]
    ensures (forall e: nat :: !StartsSuffix(s, e)) ==> WithoutSuffix(s, end) == s
    decreases end
  {
    if end > 0 {
      if IsDigit(s[end - 1]) {
        SuffixScan(s, end - 1);
      } else {
        assert s[end - 1] == 64 ==> StartsSuffix(s, end - 1);
        assert forall e: nat :: StartsSuffix(s, e) ==> e == end - 1;
      }
    }
  }

  function WithoutPrefix(s: seq<byte>): seq<byte>
  {
    if s != [] && (s[0] == 64 || s[0] == 95) then s[1..] else s
  }

  function ImportName(s: seq<byte>, kind: nat): seq<byte>
  {
    if kind == BY_NAME_UNDECORATED then WithoutPrefix(WithoutSuffix(s, |s|))
    else if kind == BY_NAME_NO_PREFIX then WithoutPrefix(s)
    else s
  }

  /** The import name, as a part of the exported name: for undecorated names (3) it ends where
      the suffix starts, and for those and names without prefix (2) it starts behind a leading
      "@" or "_"; for all other types it is the exported name. */
  ghost predicate IsImportName(name: seq<byte>, kind: nat, s: seq<byte>)
  {
    exists p: nat, e: nat :: p <= e <= |name| && name[p..e] == s && StartsName(name, kind, p, e) && EndsName(name, kind, e)
  }

  predicate StartsName(name: seq<byte>, kind: nat, p: nat, e: nat)
    requires e <= |name|
  {
    if kind in {2, 3} && e > 0 && name[0] in {'@' as int, '_' as int} then p == 1 else p == 0
  }

  ghost predicate EndsName(name: seq<byte>, kind: nat, e: nat)
  {
    if kind == 3 then StartsSuffix(name, e) || (e == |name| && forall i: nat :: !StartsSuffix(name, i)) else e == |name|
  }

  lemma ImportNameIs(name: seq<byte>, kind: nat)
    ensures IsImportName(name, kind, ImportName(name, kind))
  {
    SuffixIsCut(name);
    var e := |name|;
    if kind == 3 && exists i: nat :: StartsSuffix(name, i) {
      var i: nat :| StartsSuffix(name, i);
      e := i;
    }
    var p := if kind in {2, 3} && e > 0 && name[0] in {'@' as int, '_' as int} then 1 else 0;
    assert name[..e][p..] == name[p..e] && name[0..|name|] == name;
    assert EndsName(name, kind, e) && StartsName(name, kind, p, e);
    assert name[p..e] == ImportName(name, kind);
  }

  /** getImportName. */
  method GetImportName(src: seq<byte>, kind: nat) returns (r: seq<byte>)
    ensures r == ImportName(src, kind)
  {
    r := src;
    if src != [] {
      if kind == BY_NAME_UNDECORATED {
        var end := |src|;
        while end != 0
          invariant 0 <= end <= |src| && WithoutSuffix(src, |src|) == WithoutSuffix(src, end)
        {
          end := end - 1;
          if !IsDigit(src[end]) {
            if src[end] == 64 {
              r := src[..end];
            }
            break;
          }
        }
        assert r == WithoutSuffix(src, |src|);
      }
      if (kind == BY_NAME_UNDECORATED || kind == BY_NAME_NO_PREFIX) && r != [] && (r[0] == 64 || r[0] == 95) {
        r := r[1..];
      }
    }
  }

  // ----------------------------------------------------- what the object contains

  /** A section: its name, its bytes, how many relocations it has, and its flags. */
  datatype Spec = Spec(name: seq<byte>, data: seq<byte>, relocs: nat, flags: u32)

  predicate ByName(im: Import)
  {
    im.kind != BY_ORDINAL
  }

  predicate Supported(p: u16)
  {
    p == MACHINE_ALPHA || p == MACHINE_POWERPC || p == MACHINE_I386
  }

  function ProcessorSections(p: u16): seq<Spec>
  {
    if p == MACHINE_ALPHA then [Spec(TEXT, ALPHA_TEXT, 3, ALIGN16 + TEXT_FLAGS)]
    else if p == MACHINE_POWERPC then
      [Spec(TEXT, PPC_TEXT, 1, ALIGN4 + TEXT_FLAGS), Spec(PDATA, PPC_PDATA, 4, ALIGN1 + COMDAT + DATA + READ),
       Spec(RELDATA, Zeros(8), 2, ALIGN8 + DATA_FLAGS)]
    else [Spec(TEXT, X86_TEXT, 1, ALIGN2 + TEXT_FLAGS)]
  }

  /** An entry of the import tables: the ordinal with the top bit set, or zero. */
  function Thunk(im: Import): (b: seq<byte>)
    ensures |b| == 4
  {
    if ByName(im) then Zeros(4) else Put16(im.ordinal) + Put16(0x8000)
  }

  /** The hint and the name, padded to an even length. */
  function HintName(im: Import): seq<byte>
  {
    var n := ImportName(im.name, im.kind);
    Put16(im.ordinal) + n + [0] + if |n| % 2 == 0 then [0] else []
  }

  function DataSections(im: Import): seq<Spec>
  {
    var relocs := if ByName(im) then 1 else 0;
    [Spec(IDATA5, Thunk(im), relocs, ALIGN4 + DATA_FLAGS), Spec(IDATA4, Thunk(im), relocs, ALIGN4 + DATA_FLAGS)]
    + if ByName(im) then [Spec(IDATA6, HintName(im), 0, ALIGN2 + DATA_FLAGS)] else []
  }

  function ImportSections(im: Import): seq<Spec>
  {
    ProcessorSections(im.processor) + DataSections(im)
  }

  /** A section symbol, and an external one that is defined in a section (0: in none). */
  function OfSection(slot: nat, spec: Spec, section: u16, selection: byte): SymHandle
    requires spec.relocs < TWO_TO_16
  {
    SymHandle(slot, Some(spec.name), SectionAttr(section), Some(Definition(|spec.data| % TWO_TO_32, spec.relocs, section, selection)))
  }

  function External(slot: nat, name: seq<byte>, section: u16, kind: u16): SymHandle
  {
    SymHandle(slot, Some(name), Attr(0, section, kind, CLASS_EXTERNAL, 0), None)
  }

  /** The symbols, each with its slot in the symbol table. */
  function ProcessorSymbols(im: Import): seq<SymHandle>
  {
    var specs := ProcessorSections(im.processor);
    if im.processor == MACHINE_POWERPC then
      [OfSection(0, specs[0], 1, SELECT_NODUPLICATES), External(2, DOTS + im.name, 1, TYPE_FUNCTION),
       OfSection(3, specs[1], 2, SELECT_ASSOCIATIVE)]
      + if ByName(im) then [OfSection(5, specs[2], 3, SELECT_NODUPLICATES), External(7, im.name, 3, 0)] else [External(5, im.name, 3, 0)]
    else [OfSection(0, specs[0], 1, SELECT_NODUPLICATES), External(2, im.name, 1, TYPE_FUNCTION)]
  }

  /** How many sections come before the import tables. */
  function ProcessorCount(p: u16): nat
  {
    if p == MACHINE_POWERPC then 3 else 1
  }

  function ProcessorSlots(im: Import): nat
  {
    if im.processor != MACHINE_POWERPC then 3 else if ByName(im) then 8 else 6
  }

  /** The first from slot s on, behind n sections. */
  function ThunkSymbols(im: Import, s: nat, n: nat): seq<SymHandle>
    requires n <= 3
  {
    var specs := DataSections(im);
    [OfSection(s, specs[0], n + 1, SELECT_NODUPLICATES), External(s + 2, IMP + im.name, n + 1, 0),
     OfSection(s + 3, specs[1], n + 2, SELECT_ASSOCIATIVE)]
  }

  function DataSymbols(im: Import): seq<SymHandle>
  {
    var s, n := ProcessorSlots(im), ProcessorCount(im.processor);
    var t := if ByName(im) then s + 7 else s + 5;
    ThunkSymbols(im, s, n)
    + (if ByName(im) then [OfSection(s + 5, DataSections(im)[2], n + 3, SELECT_ASSOCIATIVE)] else [])
    + if im.processor == MACHINE_POWERPC then [External(t, TOC, 0, 0), External(t + 1, DESCRIPTOR + im.dll, 0, 0)]
      else [External(t, DESCRIPTOR + im.dll, 0, 0)]
  }

  function ImportSymbols(im: Import): seq<SymHandle>
  {
    ProcessorSymbols(im) + DataSymbols(im)
  }

  /** The sections declare what the specifications say. */
  ghost predicate Declared(hs: seq<SectionHeader>, specs: seq<Spec>)
  {
    |hs| == |specs| &&
    forall k :: 0 <= k < |hs| ==>
      && hs[k].size == |specs[k].data| % TWO_TO_32 && hs[k].numRelocs == specs[k].relocs
      && hs[k].flags == specs[k].flags && !Uninitialised(hs[k].flags)
  }

  function NamesOf(specs: seq<Spec>): (r: seq<seq<byte>>)
    ensures |r| == |specs| && forall k :: 0 <= k < |specs| ==> r[k] == specs[k].name
  {
    seq(|specs|, k requires 0 <= k < |specs| => specs[k].name)
  }

  /** The library holds exactly these sections and symbols. */
  ghost predicate Built(f: CoffLibFile, specs: seq<Spec>, symbols: seq<SymHandle>)
    reads f
  {
    f.Valid() && Declared(f.sections, specs) && f.added.sections == NamesOf(specs) && f.added.handles == symbols
  }

  // ------------------------------------------------------- room for the strings

  /** The string table's length and capacity. */
  datatype Capacity = Capacity(used: nat, room: nat)

  function CapacityOf(f: CoffLibFile): Capacity
    reads f
  {
    Capacity(|f.stringTable|, f.maxStringTableSize)
  }

  /** What is left when one more long name is stored after at most one doubling; None:
      it does not fit. */
  function Take(c: Capacity, name: seq<byte>): (r: Option<Capacity>)
    ensures r.Some? ==> r.value.room <= 2 * c.room && (c.used <= c.room ==> r.value.used <= r.value.room)
  {
    if |name| <= NAME_LEN then Some(c)
    else
      var used := c.used + |name| + 1;
      var room := if used >= c.room then 2 * c.room else c.room;
      if room > TWO_TO_32 / 2 || used > room then None else Some(Capacity(used, room))
  }

  function TakeAll(c: Option<Capacity>, names: seq<seq<byte>>): Option<Capacity>
    decreases |names|
  {
    if c.None? || names == [] then c else TakeAll(Take(c.value, names[0]), names[1..])
  }

  lemma TakeTwo(c: Capacity, a: seq<byte>, b: seq<byte>)
    ensures TakeAll(Some(c), [a, b]) == if Take(c, a).None? then None else Take(Take(c, a).value, b)
  {
    assert [a, b][1..] == [b] && [b][1..] == [];
    var r := Take(c, a);
    assert TakeAll(Some(c), [a, b]) == TakeAll(r, [b]);
    if r.Some? {
      assert TakeAll(r, [b]) == TakeAll(Take(r.value, b), []);
    }
  }

  /** The names that can be long, in the order in which they are stored. */
  function ProcessorNames(im: Import): seq<seq<byte>>
  {
    if im.processor == MACHINE_POWERPC then [DOTS + im.name, im.name] else [im.name]
  }

  function TableNames(im: Import): seq<seq<byte>>
  {
    [IMP + im.name, DESCRIPTOR + im.dll]
  }

  /** Every name fits after one doubling of the string buffer. */
  predicate NamesFit(im: Import)
  {
    TakeAll(TakeAll(Some(Capacity(0, INITIAL_ROOM)), ProcessorNames(im)), TableNames(im)).Some?
  }

  lemma ShortNameInHeader(lib: Lib, a: Added, k: nat)
    requires Tracks(lib, a) && k < |a.sections| && |a.sections[k]| <= NAME_LEN
    ensures ValidLib(lib) && k < |lib.sections| && HeaderName(lib.sections[k]) == a.sections[k]
  {
    assert SectionHolds(lib.strings, lib.sections[k].name, a.sections[k]);
    PaddedRead(a.sections[k]);
  }

  // --------------------------------------------------------- one addition at a time

  method NewSection(f: CoffLibFile, spec: Spec, size: u32, ghost specs: seq<Spec>, ghost symbols: seq<SymHandle>)
    returns (ok: bool, number: u16)
    requires Built(f, specs, symbols) && NoNul(spec.name)
    requires size == |spec.data| % TWO_TO_32 && spec.relocs < TWO_TO_16 && !Uninitialised(spec.flags)
    requires |spec.name| <= NAME_LEN
    modifies f
    ensures ok <==> |specs| < MAX_SECTIONS
    ensures ok ==> Built(f, specs + [spec], symbols) && number == |specs| + 1 && f.numSymbols == old(f.numSymbols)
                   && CapacityOf(f) == old(CapacityOf(f))
    ensures f.implib == old(f.implib)
  {
    hide Tracks, SectionField, Uninitialised;
    ok, number := f.AddCoffSection(spec.name, size, spec.relocs, spec.flags);
  }

  method NewSectionSymbol(f: CoffLibFile, selection: byte, number: u16, spare: seq<byte>, ghost specs: seq<Spec>, ghost symbols: seq<SymHandle>)
    returns (ok: bool, slot: u32)
    requires Built(f, specs, symbols) && |spare| == 3 && 1 <= number <= |specs| && |specs[number - 1].name| <= NAME_LEN
    requires specs[number - 1].relocs < TWO_TO_16
    modifies f
    ensures ok ==> Built(f, specs, symbols + [OfSection(old(f.numSymbols), specs[number - 1], number, selection)])
                   && slot == old(f.numSymbols) && f.numSymbols == old(f.numSymbols) + 2 && CapacityOf(f) == old(CapacityOf(f))
    ensures ok <==> old(f.numSymbols) + 2 <= MAX_SYMBOLS
    ensures f.implib == old(f.implib)
  {
    hide SymbolField, HeaderName, SecAux, Tracks;
    ShortNameInHeader(f.Contents(), f.added, number - 1);
    ok, slot := f.AddCoffSymSec(selection, number, spare);
  }

  method NewSymbol(f: CoffLibFile, name: seq<byte>, section: u16, kind: u16, ghost specs: seq<Spec>, ghost symbols: seq<SymHandle>)
    returns (ok: bool, slot: u32)
    requires Built(f, specs, symbols) && NoNul(name)
    modifies f
    ensures ok ==> Built(f, specs, symbols + [External(old(f.numSymbols), name, section, kind)])
                   && slot == old(f.numSymbols) && f.numSymbols == old(f.numSymbols) + 1
                   && Some(CapacityOf(f)) == Take(old(CapacityOf(f)), name)
    ensures ok <==> old(f.numSymbols) < MAX_SYMBOLS && Take(old(CapacityOf(f)), name).Some?
    ensures f.implib == old(f.implib)
  {
    hide Tracks, SymbolField;
    ok, slot := f.AddCoffSymbol(name, 0, section, kind, CLASS_EXTERNAL);
  }

  lemma PlainNames(im: Import)
    requires ValidImport(im)
    ensures NoNul(TEXT) && NoNul(PDATA) && NoNul(RELDATA) && NoNul(IDATA5) && NoNul(IDATA4) && NoNul(IDATA6) && NoNul(TOC)
    ensures NoNul(DOTS + im.name) && NoNul(IMP + im.name) && NoNul(DESCRIPTOR + im.dll)
  {
  }

  /** Three arbitrary bytes for each of the six auxiliary records. */
  predicate Spare(junk: seq<seq<byte>>)
  {
    |junk| == 6 && forall k :: 0 <= k < 6 ==> |junk[k]| == 3
  }

  /** The first part of CoffCreateImport for an Alpha or x86 library. */
  method AddTextOnly(f: CoffLibFile, im: Import, junk: seq<seq<byte>>) returns (ok: bool, text: u32)
    requires ValidImport(im) && Spare(junk) && Built(f, [], []) && f.numSymbols == 0 && im.processor != MACHINE_POWERPC
    modifies f
    ensures ok ==> Built(f, ProcessorSections(im.processor), ProcessorSymbols(im)) && f.numSymbols == 3 && text == 2
    ensures TakeAll(old(Some(CapacityOf(f))), ProcessorNames(im)) == if ok then Some(CapacityOf(f)) else None
    ensures f.implib == old(f.implib)
  {
    hide Built;
    PlainNames(im);
    var alpha := im.processor == MACHINE_ALPHA;
    var spec := if alpha then Spec(TEXT, ALPHA_TEXT, 3, ALIGN16 + TEXT_FLAGS) else Spec(TEXT, X86_TEXT, 1, ALIGN2 + TEXT_FLAGS);
    ghost var specs: seq<Spec>, symbols: seq<SymHandle> := [], [];
    var n, slot;
    text := 0;
    ok, n := NewSection(f, spec, |spec.data|, specs, symbols);
    if !ok { return; }
    specs := specs + [spec];
    ok, slot := NewSectionSymbol(f, SELECT_NODUPLICATES, n, junk[0], specs, symbols);
    if !ok { return; }
    symbols := symbols + [OfSection(0, spec, 1, SELECT_NODUPLICATES)];
    ok, text := NewSymbol(f, im.name, n, TYPE_FUNCTION, specs, symbols);
    assert specs == ProcessorSections(im.processor) && symbols + [External(2, im.name, 1, TYPE_FUNCTION)] == ProcessorSymbols(im);
  }

  /** The first part for a PowerPC library. */
  method AddPowerPC(f: CoffLibFile, im: Import, junk: seq<seq<byte>>) returns (ok: bool, text: u32)
    requires ValidImport(im) && Spare(junk) && Built(f, [], []) && f.numSymbols == 0 && im.processor == MACHINE_POWERPC
    modifies f
    ensures ok ==> Built(f, ProcessorSections(im.processor), ProcessorSymbols(im)) && f.numSymbols == ProcessorSlots(im) && text == 2
    ensures TakeAll(old(Some(CapacityOf(f))), ProcessorNames(im)) == if ok then Some(CapacityOf(f)) else None
    ensures f.implib == old(f.implib)
  {
    hide Built;
    PlainNames(im);
    TakeTwo(CapacityOf(f), DOTS + im.name, im.name);
    var s1 := Spec(TEXT, PPC_TEXT, 1, ALIGN4 + TEXT_FLAGS);
    var s2 := Spec(PDATA, PPC_PDATA, 4, ALIGN1 + COMDAT + DATA + READ);
    var s3 := Spec(RELDATA, Zeros(8), 2, ALIGN8 + DATA_FLAGS);
    ghost var specs: seq<Spec>, symbols: seq<SymHandle> := [], [];
    var n, slot;
    text := 0;
    ok, n := NewSection(f, s1, |PPC_TEXT|, specs, symbols);
    if !ok { return; }
    specs := specs + [s1];
    ok, slot := NewSectionSymbol(f, SELECT_NODUPLICATES, n, junk[0], specs, symbols);
    if !ok { return; }
    symbols := symbols + [OfSection(0, s1, 1, SELECT_NODUPLICATES)];
    ok, text := NewSymbol(f, DOTS + im.name, n, TYPE_FUNCTION, specs, symbols);
    if !ok { return; }
    symbols := symbols + [External(2, DOTS + im.name, 1, TYPE_FUNCTION)];
    ok, n := NewSection(f, s2, |PPC_PDATA|, specs, symbols);
    if !ok { return; }
    specs := specs + [s2];
    ok, slot := NewSectionSymbol(f, SELECT_ASSOCIATIVE, n, junk[1], specs, symbols);
    if !ok { return; }
    symbols := symbols + [OfSection(3, s2, 2, SELECT_ASSOCIATIVE)];
    ok, n := NewSection(f, s3, 8, specs, symbols);
    if !ok { return; }
    specs := specs + [s3];
    if im.kind != BY_ORDINAL {
      ok, slot := NewSectionSymbol(f, SELECT_NODUPLICATES, n, junk[2], specs, symbols);
      if !ok { return; }
      symbols := symbols + [OfSection(5, s3, 3, SELECT_NODUPLICATES)];
    }
    ghost var last := f.numSymbols;
    ok, slot := NewSymbol(f, im.name, n, 0, specs, symbols);
    assert specs == ProcessorSections(im.processor) && symbols + [External(last, im.name, 3, 0)] == ProcessorSymbols(im);
  }

  /** Sections and symbols of the two import tables. */
  method AddThunks(f: CoffLibFile, im: Import, junk: seq<seq<byte>>, ghost specs0: seq<Spec>, ghost symbols0: seq<SymHandle>)
    returns (ok: bool, imp: u32)
    requires ValidImport(im) && Spare(junk) && Built(f, specs0, symbols0) && |specs0| <= 3 && f.numSymbols <= 8
    modifies f
    ensures ok ==> Built(f, specs0 + DataSections(im)[..2], symbols0 + ThunkSymbols(im, old(f.numSymbols), |specs0|))
    ensures ok ==> imp == old(f.numSymbols) + 2 && f.numSymbols == old(f.numSymbols) + 5
    ensures Take(old(CapacityOf(f)), IMP + im.name) == if ok then Some(CapacityOf(f)) else None
    ensures f.implib == old(f.implib)
  {
    hide Built, Take;
    PlainNames(im);
    var relocs := if im.kind != BY_ORDINAL then 1 else 0;
    var s5, s4 := Spec(IDATA5, Thunk(im), relocs, ALIGN4 + DATA_FLAGS), Spec(IDATA4, Thunk(im), relocs, ALIGN4 + DATA_FLAGS);
    ghost var specs, symbols, s := specs0, symbols0, f.numSymbols;
    var n, slot;
    imp := 2;
    ok, n := NewSection(f, s5, 4, specs, symbols);
    if !ok { return; }
    specs := specs + [s5];
    ok, slot := NewSectionSymbol(f, SELECT_NODUPLICATES, n, junk[3], specs, symbols);
    if !ok { return; }
    symbols := symbols + [OfSection(s, s5, |specs0| + 1, SELECT_NODUPLICATES)];
    ok, imp := NewSymbol(f, IMP + im.name, n, 0, specs, symbols);
    if !ok { return; }
    symbols := symbols + [External(s + 2, IMP + im.name, |specs0| + 1, 0)];
    ok, n := NewSection(f, s4, 4, specs, symbols);
    if !ok { return; }
    specs := specs + [s4];
    ok, slot := NewSectionSymbol(f, SELECT_ASSOCIATIVE, n, junk[4], specs, symbols);
    if !ok { return; }
    symbols := symbols + [OfSection(s + 3, s4, |specs0| + 2, SELECT_ASSOCIATIVE)];
    assert specs == specs0 + DataSections(im)[..2];
    assert symbols == symbols0 + ThunkSymbols(im, s, |specs0|);
  }

  /** The import tables, for every processor. */
  method AddImportTables(f: CoffLibFile, im: Import, dllSymbol: seq<byte>, junk: seq<seq<byte>>)
    returns (ok: bool, imp: u32, idata6: u32, toc: u32)
    requires ValidImport(im) && Spare(junk) && dllSymbol == ImportName(im.name, im.kind)
    requires Built(f, ProcessorSections(im.processor), ProcessorSymbols(im)) && f.numSymbols == ProcessorSlots(im)
    modifies f
    ensures ok ==> Built(f, ImportSections(im), ImportSymbols(im))
    ensures TakeAll(old(Some(CapacityOf(f))), TableNames(im)) == if ok then Some(CapacityOf(f)) else None
    ensures ok ==> imp == ProcessorSlots(im) + 2 && idata6 == (if ByName(im) then ProcessorSlots(im) + 5 else 0)
                   && toc == if im.processor == MACHINE_POWERPC then ProcessorSlots(im) + (if ByName(im) then 7 else 5) else 0
    ensures f.implib == old(f.implib)
  {
    hide Built, Take, TakeAll, HintName, Thunk, ImportName;
    PlainNames(im);
    TakeTwo(CapacityOf(f), IMP + im.name, DESCRIPTOR + im.dll);
    ghost var specs, symbols, s := ProcessorSections(im.processor), ProcessorSymbols(im), ProcessorSlots(im);
    var s6 := Spec(IDATA6, HintName(im), 0, ALIGN2 + DATA_FLAGS);
    var n, slot;
    idata6, toc := 0, 0;
    ok, imp := AddThunks(f, im, junk, specs, symbols);
    if !ok { return; }
    specs := specs + DataSections(im)[..2];
    symbols := symbols + ThunkSymbols(im, s, ProcessorCount(im.processor));
    if im.kind != BY_ORDINAL {
      HintIsSized(im);
      ok, n := NewSection(f, s6, HintSize(dllSymbol), specs, symbols);
      specs := specs + [s6];
      ok, idata6 := NewSectionSymbol(f, SELECT_ASSOCIATIVE, n, junk[5], specs, symbols);
      symbols := symbols + [OfSection(s + 5, s6, n, SELECT_ASSOCIATIVE)];
    }
    if im.processor == MACHINE_POWERPC {
      TocFits(CapacityOf(f));
      ok, toc := NewSymbol(f, TOC, 0, 0, specs, symbols);
      symbols := symbols + [External(toc, TOC, 0, 0)];
    }
    ghost var last := f.numSymbols;
    ok, slot := NewSymbol(f, DESCRIPTOR + im.dll, 0, 0, specs, symbols);
    symbols := symbols + [External(last, DESCRIPTOR + im.dll, 0, 0)];
    assert specs == ImportSections(im) && symbols == ImportSymbols(im);
  }

  lemma TocFits(c: Capacity)
    ensures Take(c, TOC) == Some(c)
  {
  }

  lemma HintIsSized(im: Import)
    ensures HintSize(ImportName(im.name, im.kind)) == |HintName(im)| % TWO_TO_32
  {
    hide ImportName;
  }

  /** The declared size of the hint and name, cut to 32 bits: an odd length is rounded up. */
  function HintSize(name: seq<byte>): u32
  {
    (2 + (if |name| % 2 == 0 then |name| + 1 else |name|) + 1) % TWO_TO_32
  }
}
