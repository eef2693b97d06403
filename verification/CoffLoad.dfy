/** Reading an object file: CoffLoadFileStructure and load_coff_sec_handles of
    src/coff/coffload.c, CoffCreateSymbolHandles of src/coff/cofflwlv.c. Pointers into the
    buffers that hold the file are offsets in the file. */
module CoffLoad {
  import opened Basics
  import opened Bytes
  import opened CoffFormat
  import opened CoffNames

  const MAX_STRTAB_SIZE := 0x100_0000
  const REL_NAME: seq<byte> := [46, 114, 101, 108]
  const SYMTAB_NAME: seq<byte> := [46, 115, 121, 109, 116, 97, 98]
  const STRTAB_NAME: seq<byte> := [46, 115, 116, 114, 116, 97, 98]

  datatype Kind = Normal | RelocsOf(section: nat) | SymTab | StrTab

  /** A section handle. */
  datatype Handle = Handle(kind: Kind, name: seq<byte>, size: nat, offset: nat, uninit: bool, contents: Option<nat>)

  /** determine_section_specs, as far as it decides whether a section has bytes in the file. */
  predicate Uninitialised(flags: u32)
  {
    flags / 0x200 % 2 == 0 && flags / 0x20 % 2 == 0 && flags / 0x40 % 2 == 0 && flags / 0x80 % 2 == 1
  }

  /** In terms of the flag bits: only the bit for uninitialised data is set, of those for
      information, code, initialised and uninitialised data. */
  lemma UninitialisedIff(flags: u32, high: nat, info: bool, bit8: bool, bss: bool, data: bool, code: bool, low: nat)
    requires low < 0x20
    requires flags == 0x400 * high + (if info then 0x200 else 0) + (if bit8 then 0x100 else 0) + (if bss then 0x80 else 0)
                      + (if data then 0x40 else 0) + (if code then 0x20 else 0) + low
    ensures Uninitialised(flags) <==> bss && !info && !data && !code
  {
    var n := high;
    n := NextBit(n, info);
    n := NextBit(n, bit8);
    n := NextBit(n, bss);
    n := NextBit(n, data);
    n := NextBit(n, code);
    assert flags == 0x20 * n + low && flags / 0x20 == n;
    assert flags / 0x40 == n / 2 && flags / 0x80 == n / 4 && flags / 0x200 == n / 16;
    assert n / 4 == n / 2 / 2 && n / 16 == n / 2 / 2 / 2 / 2;
  }

  /** A bit more at the low end. */
  lemma NextBit(n: nat, bit: bool) returns (m: nat)
    ensures m == 2 * n + (if bit then 1 else 0) && m / 2 == n && (m % 2 == 1 <==> bit)
  {
    m := 2 * n + if bit then 1 else 0;
  }

  /** Such a section reaches nowhere: it needs no bytes in the file. All others do. */
  lemma BytesInFile(s: SectionHeader)
    requires |s.name| == NAME_LEN && s.rawPtr + s.size < TWO_TO_32
    ensures Reach(NormalHandle(s)) == if Uninitialised(s.flags) then 0 else s.rawPtr + s.size
  {
    hide CStringAt, Uninitialised;
  }

  /** determine_file_specs: the machines that are known; 0 is no machine in particular. */
  predicate KnownMachine(cpu: u16)
  {
    || cpu == 0 || cpu == 0x14c || cpu == 0x14d || cpu == 0x162 || cpu == 0x166 || cpu == 0x175 || cpu == 0x184
    || cpu == 0x1f0 || cpu == 0x8664
  }

  /** Not an unknown machine, and not a short import record, which is converted first. */
  predicate IsObject(h: FileHeader)
  {
    KnownMachine(h.cpu) && !(h.cpu == 0 && h.numSections == 0xFFFF)
  }

  function NumSymbols(h: FileHeader): nat
  {
    if h.symTable == 0 then 0 else h.numSymbols
  }

  function FirstHeader(h: FileHeader): nat
  {
    FILE_HEADER_SIZE + h.optSize
  }

  /** Where the headers end: the loader's initial_size. */
  function InitialSize(h: FileHeader): nat
  {
    FirstHeader(h) + SECTION_HEADER_SIZE * h.numSections
  }

  function Headers(b: seq<byte>, h: FileHeader): (hs: seq<SectionHeader>)
    requires InitialSize(h) <= |b|
    ensures |hs| == h.numSections
  {
    seq(h.numSections, i requires 0 <= i < h.numSections => GetSectionHeader(b, FirstHeader(h) + SECTION_HEADER_SIZE * i))
  }

  function NormalHandle(s: SectionHeader): Handle
    requires |s.name| == NAME_LEN
  {
    Handle(Normal, CStringAt(s.name, 0), s.size, s.rawPtr, Uninitialised(s.flags), None)
  }

  function NormalHandles(hs: seq<SectionHeader>): (r: seq<Handle>)
    requires forall k :: 0 <= k < |hs| ==> |hs[k].name| == NAME_LEN
    ensures |r| == |hs| && forall k :: 0 <= k < |hs| ==> r[k] == NormalHandle(hs[k])
  {
    seq(|hs|, k requires 0 <= k < |hs| => NormalHandle(hs[k]))
  }

  /** One more handle for every section with relocations. */
  function RelocHandles(hs: seq<SectionHeader>): seq<Handle>
  {
    if hs == [] then []
    else
      var i, s := |hs| - 1, hs[|hs| - 1];
      RelocHandles(hs[..i])
      + if s.numRelocs > 0 then [Handle(RelocsOf(i), REL_NAME, RELOC_SIZE * s.numRelocs, s.relocPtr, false, None)] else []
  }

  function TableHandles(h: FileHeader): (r: seq<Handle>)
    ensures |r| == 2
  {
    var size := SYMBOL_SIZE * NumSymbols(h) % TWO_TO_32;
    [Handle(SymTab, SYMTAB_NAME, size, h.symTable, false, None),
     Handle(StrTab, STRTAB_NAME, 0, (h.symTable + size) % TWO_TO_32, false, None)]
  }

  function FirstHandles(b: seq<byte>, h: FileHeader): (r: seq<Handle>)
    requires InitialSize(h) <= |b|
    ensures |r| >= 2 && r[|r| - 1] == TableHandles(h)[1]
  {
    NormalHandles(Headers(b, h)) + RelocHandles(Headers(b, h)) + TableHandles(h)
  }

  /** How far the sections reach into the file. */
  function Reach(s: Handle): nat
  {
    if s.uninit then 0 else (s.offset + s.size) % TWO_TO_32
  }

  function BufferEnd(hs: seq<Handle>): nat
  {
    if hs == [] then 0
    else
      var before, last := BufferEnd(hs[..|hs| - 1]), Reach(hs[|hs| - 1]);
      if last > before then last else before
  }

  /** The buffer has to hold exactly the furthest section, so that no size of a section
      without bytes in the file makes the loader ask for more. */
  lemma {:induction false} FurthestSection(hs: seq<Handle>)
    ensures forall k :: 0 <= k < |hs| ==> Reach(hs[k]) <= BufferEnd(hs)
    ensures BufferEnd(hs) == 0 || exists k :: 0 <= k < |hs| && !hs[k].uninit && (hs[k].offset + hs[k].size) % TWO_TO_32 == BufferEnd(hs)
    decreases |hs|
  {
    if hs != [] {
      var rest := hs[..|hs| - 1];
      FurthestSection(rest);
      if BufferEnd(hs) == BufferEnd(rest) && BufferEnd(rest) != 0 {
        var k :| 0 <= k < |rest| && !rest[k].uninit && (rest[k].offset + rest[k].size) % TWO_TO_32 == BufferEnd(rest);
        assert hs[k] == rest[k];
      }
      forall k | 0 <= k < |hs|
        ensures Reach(hs[k]) <= BufferEnd(hs)
      {
        assert k < |rest| ==> hs[k] == rest[k];
      }
    }
  }

  /** The string table's size, without the size field, 0 when there is none. */
  function StringSize(b: seq<byte>, h: FileHeader, end: nat): nat
  {
    if h.symTable == 0 || end + 4 > |b| then 0
    else
      var size := Word32(b, end);
      if size <= 4 || size > MAX_STRTAB_SIZE then 0 else size - 4
  }

  function Filled(s: Handle): (r: Handle)
    ensures r == s.(contents := r.contents)
  {
    if s.size > 0 && s.offset != 0 then s.(contents := Some(s.offset)) else s
  }

  function AllFilled(hs: seq<Handle>): (r: seq<Handle>)
    ensures |r| == |hs| && forall k :: 0 <= k < |hs| ==> r[k] == Filled(hs[k])
  {
    seq(|hs|, k requires 0 <= k < |hs| => Filled(hs[k]))
  }

  /** The string table with its size field; empty when there is none. */
  function TableOf(b: seq<byte>, s: Handle): seq<byte>
  {
    if s.contents.Some? && 4 <= s.contents.value && s.contents.value + s.size <= |b|
    then b[s.contents.value - 4..s.contents.value + s.size] else []
  }

  function Named(hs: seq<Handle>, table: seq<byte>): (r: Option<seq<Handle>>)
  {
    if hs == [] then Some([])
    else
      var before, last := Named(hs[..|hs| - 1], table), NameFrom(hs[|hs| - 1].name, table);
      if before.None? || last.None? then None else Some(before.value + [hs[|hs| - 1].(name := last.value)])
  }

  /** A loaded file; handles are in the order of the sections, then their relocations,
      then the symbol and string tables. */
  datatype Loaded = Loaded(header: FileHeader, handles: seq<Handle>, table: seq<byte>)

  /** None: not an object of a known machine, the file ends too early, or a pointer leaves it. */
  function Load(b: seq<byte>): Option<Loaded>
  {
    if |b| < FILE_HEADER_SIZE then None
    else
      var h := GetFileHeader(b, 0);
      if !IsObject(h) || InitialSize(h) > |b| then None
      else
        var hs := FirstHandles(b, h);
        var end := BufferEnd(hs);
        if end < InitialSize(h) || end > |b| then None else Finish(b, h, hs, StringSize(b, h, end))
  }

  /** The string table's handle once its size is known. */
  function WithSize(s: Handle, size: nat): Handle
  {
    s.(size := size, contents := if size > 0 && s.offset != 0 then Some(s.offset + 4) else None)
  }

  /** The second half: string table, contents, names. */
  function Finish(b: seq<byte>, h: FileHeader, hs: seq<Handle>, size: nat): Option<Loaded>
    requires |hs| > 0
  {
    var strtab := WithSize(hs[|hs| - 1], size);
    if strtab.contents.Some? && strtab.offset + 4 + size > |b| then None
    else
      var table := TableOf(b, strtab);
      var named := Named(AllFilled(hs[..|hs| - 1]) + [strtab], table);
      if named.None? then None else Some(Loaded(h, named.value, table))
  }

  /** A symbol handle: the symbol's slot in the table, its name, the rest of its record, and
      the record behind it if that is auxiliary. */
  datatype SymHandle = SymHandle(slot: nat, name: Option<seq<byte>>, attr: Attr, aux: Option<SecDef>)

  function HandleOf(b: seq<byte>, at: nat, i: nat, n: nat, table: seq<byte>): SymHandle
    requires at + SYMBOL_SIZE * n <= |b| && i < n
  {
    var s := GetSymbol(b, at + SYMBOL_SIZE * i);
    SymHandle(i, ReadSymbolName(s.name, table), AttrOf(s),
              if s.numAux > 0 && i + 1 < n then Some(GetSecDef(b, at + SYMBOL_SIZE * (i + 1))) else None)
  }

  /** CoffCreateSymbolHandles: a handle for every symbol; auxiliary records are skipped. */
  function ReadSymbols(b: seq<byte>, at: nat, i: nat, n: nat, table: seq<byte>): seq<SymHandle>
    requires at + SYMBOL_SIZE * n <= |b|
    decreases n - i
  {
    if i >= n then []
    else
      [HandleOf(b, at, i, n, table)] + ReadSymbols(b, at, i + 1 + GetSymbol(b, at + SYMBOL_SIZE * i).numAux, n, table)
  }
}
