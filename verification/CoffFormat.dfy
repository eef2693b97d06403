/** The records of a COFF object file (Microsoft PE Format specification, sections "COFF
    File Header", "Section Table", "COFF Relocations" and "COFF Symbol Table"). */
module CoffFormat {
  import opened Bytes

  type u16 = w: int | 0 <= w < 0x1_0000
  type u32 = w: int | 0 <= w < 0x1_0000_0000

  const FILE_HEADER_SIZE := 20
  const SECTION_HEADER_SIZE := 40
  const RELOC_SIZE := 10
  const SYMBOL_SIZE := 18
  const NAME_LEN := 8

  datatype FileHeader = FileHeader(cpu: u16, numSections: u16, time: u32, symTable: u32, numSymbols: u32,
                                   optSize: u16, flags: u16)

  datatype SectionHeader = SectionHeader(name: seq<byte>, virtSize: u32, offset: u32, size: u32, rawPtr: u32,
                                         relocPtr: u32, linePtr: u32, numRelocs: u16, numLines: u16, flags: u32)

  datatype Symbol = Symbol(name: seq<byte>, value: u32, section: u16, kind: u16, storage: byte, numAux: byte)

  /** What a symbol says besides its name. */
  datatype Attr = Attr(value: u32, section: u16, kind: u16, storage: byte, numAux: byte)

  function AttrOf(s: Symbol): Attr
  {
    Attr(s.value, s.section, s.kind, s.storage, s.numAux)
  }

  /** The auxiliary record of a section symbol ("Auxiliary Format 5: Section Definitions"). */
  datatype SecDef = SecDef(length: u32, relocs: u16, lines: u16, checksum: u32, number: u16, selection: byte)

  function GetSecDef(b: seq<byte>, at: nat): SecDef
    requires at + SYMBOL_SIZE <= |b|
  {
    SecDef(Word32(b, at), Word16(b, at + 4), Word16(b, at + 6), Word32(b, at + 8), Word16(b, at + 12), b[at + 14])
  }

  lemma SecDefStands(b: seq<byte>, at: nat, d: seq<byte>)
    requires |d| == SYMBOL_SIZE && Stands(b, at, d)
    ensures GetSecDef(b, at) == GetSecDef(d, 0)
  {
    assert forall i :: 0 <= i < SYMBOL_SIZE ==> b[at..at + SYMBOL_SIZE][i] == d[i];
    WordsStand(b, at, d, 0);
    WordsStand(b, at, d, 4);
    WordsStand(b, at, d, 6);
    WordsStand(b, at, d, 8);
    WordsStand(b, at, d, 12);
  }

  lemma WordsStand(b: seq<byte>, at: nat, d: seq<byte>, k: nat)
    requires Stands(b, at, d) && k + 4 <= |d|
    ensures Word16(b, at + k) == Word16(d, k) && Word32(b, at + k) == Word32(d, k)
  {
    var w := b[at..at + |d|];
    assert b[at + k] == w[k] && b[at + k + 1] == w[k + 1] && b[at + k + 2] == w[k + 2] && b[at + k + 3] == w[k + 3];
  }

  datatype Reloc = Reloc(offset: u32, symbol: u32, kind: u16)

  function PutFileHeader(h: FileHeader): (b: seq<byte>)
    ensures |b| == FILE_HEADER_SIZE
  {
    Put16(h.cpu) + (Put16(h.numSections) + (Put32(h.time) + (Put32(h.symTable)
    + (Put32(h.numSymbols) + (Put16(h.optSize) + Put16(h.flags))))))
  }

  function GetFileHeader(b: seq<byte>, at: nat): FileHeader
    requires at + FILE_HEADER_SIZE <= |b|
  {
    FileHeader(Word16(b, at), Word16(b, at + 2), Word32(b, at + 4), Word32(b, at + 8), Word32(b, at + 12),
               Word16(b, at + 16), Word16(b, at + 18))
  }

  function PutSectionHeader(h: SectionHeader): (b: seq<byte>)
    requires |h.name| == NAME_LEN
    ensures |b| == SECTION_HEADER_SIZE
  {
    h.name + (Put32(h.virtSize) + (Put32(h.offset) + (Put32(h.size) + (Put32(h.rawPtr)
    + (Put32(h.relocPtr) + (Put32(h.linePtr) + (Put16(h.numRelocs) + (Put16(h.numLines) + Put32(h.flags)))))))))
  }

  function GetSectionHeader(b: seq<byte>, at: nat): (h: SectionHeader)
    requires at + SECTION_HEADER_SIZE <= |b|
    ensures |h.name| == NAME_LEN
  {
    SectionHeader(b[at..at + NAME_LEN], Word32(b, at + 8), Word32(b, at + 12), Word32(b, at + 16), Word32(b, at + 20),
                  Word32(b, at + 24), Word32(b, at + 28), Word16(b, at + 32), Word16(b, at + 34), Word32(b, at + 36))
  }

  function PutSymbol(s: Symbol): (b: seq<byte>)
    requires |s.name| == NAME_LEN
    ensures |b| == SYMBOL_SIZE
  {
    s.name + (Put32(s.value) + (Put16(s.section) + (Put16(s.kind) + [s.storage, s.numAux])))
  }

  function GetSymbol(b: seq<byte>, at: nat): (s: Symbol)
    requires at + SYMBOL_SIZE <= |b|
    ensures |s.name| == NAME_LEN
  {
    Symbol(b[at..at + NAME_LEN], Word32(b, at + 8), Word16(b, at + 12), Word16(b, at + 14), b[at + 16], b[at + 17])
  }

  function PutReloc(r: Reloc): (b: seq<byte>)
    ensures |b| == RELOC_SIZE
  {
    Put32(r.offset) + (Put32(r.symbol) + Put16(r.kind))
  }

  function GetReloc(b: seq<byte>, at: nat): Reloc
    requires at + RELOC_SIZE <= |b|
  {
    Reloc(Word32(b, at), Word32(b, at + 4), Word16(b, at + 8))
  }

  // ---------------------------------------------------------------- round trips

  lemma Take16(b: seq<byte>, at: nat, v: u16, rest: seq<byte>)
    requires Stands(b, at, Put16(v) + rest)
    ensures at + 2 <= |b| && Word16(b, at) == v && Stands(b, at + 2, rest)
  {
    StandsApart(b, at, Put16(v), rest);
    Word16OfPut16(b, at, v);
  }

  lemma Take32(b: seq<byte>, at: nat, v: u32, rest: seq<byte>)
    requires Stands(b, at, Put32(v) + rest)
    ensures at + 4 <= |b| && Word32(b, at) == v && Stands(b, at + 4, rest)
  {
    StandsApart(b, at, Put32(v), rest);
    Word32OfPut32(b, at, v);
  }

  lemma FileHeaderRoundTrip(b: seq<byte>, at: nat, h: FileHeader)
    requires Stands(b, at, PutFileHeader(h))
    ensures GetFileHeader(b, at) == h
  {
    hide Word16, Word32, Put16, Put32, Stands;
    var s6 := Put16(h.flags);
    var s5 := Put16(h.optSize) + s6;
    var s4 := Put32(h.numSymbols) + s5;
    var s3 := Put32(h.symTable) + s4;
    var s2 := Put32(h.time) + s3;
    var s1 := Put16(h.numSections) + s2;
    Take16(b, at, h.cpu, s1);
    Take16(b, at + 2, h.numSections, s2);
    Take32(b, at + 4, h.time, s3);
    Take32(b, at + 8, h.symTable, s4);
    Take32(b, at + 12, h.numSymbols, s5);
    Take16(b, at + 16, h.optSize, s6);
    assert s6 == s6 + [];
    Take16(b, at + 18, h.flags, []);
  }

  lemma SectionHeaderRoundTrip(b: seq<byte>, at: nat, h: SectionHeader)
    requires |h.name| == NAME_LEN && Stands(b, at, PutSectionHeader(h))
    ensures GetSectionHeader(b, at) == h
  {
    var s9 := Put32(h.flags);
    var s8 := Put16(h.numLines) + s9;
    var s7 := Put16(h.numRelocs) + s8;
    var s6 := Put32(h.linePtr) + s7;
    var s5 := Put32(h.relocPtr) + s6;
    var s4 := Put32(h.rawPtr) + s5;
    var s3 := Put32(h.size) + s4;
    var s2 := Put32(h.offset) + s3;
    var s1 := Put32(h.virtSize) + s2;
    StandsApart(b, at, h.name, s1);
    assert b[at..at + NAME_LEN] == h.name;
    hide Word16, Word32, Put16, Put32, Stands;
    Take32(b, at + 8, h.virtSize, s2);
    Take32(b, at + 12, h.offset, s3);
    Take32(b, at + 16, h.size, s4);
    Take32(b, at + 20, h.rawPtr, s5);
    Take32(b, at + 24, h.relocPtr, s6);
    Take32(b, at + 28, h.linePtr, s7);
    Take16(b, at + 32, h.numRelocs, s8);
    Take16(b, at + 34, h.numLines, s9);
    assert s9 == s9 + [];
    Take32(b, at + 36, h.flags, []);
  }

  lemma RelocRoundTrip(b: seq<byte>, at: nat, r: Reloc)
    requires Stands(b, at, PutReloc(r))
    ensures GetReloc(b, at) == r
  {
    hide Word16, Word32, Put16, Put32, Stands;
    var s2 := Put16(r.kind);
    var s1 := Put32(r.symbol) + s2;
    Take32(b, at, r.offset, s1);
    Take32(b, at + 4, r.symbol, s2);
    assert s2 == s2 + [];
    Take16(b, at + 8, r.kind, []);
  }

  lemma SymbolRoundTrip(b: seq<byte>, at: nat, s: Symbol)
    requires |s.name| == NAME_LEN && Stands(b, at, PutSymbol(s))
    ensures GetSymbol(b, at) == s
  {
    var s4 := [s.storage, s.numAux];
    var s3 := Put16(s.kind) + s4;
    var s2 := Put16(s.section) + s3;
    var s1 := Put32(s.value) + s2;
    StandsApart(b, at, s.name, s1);
    assert b[at..at + NAME_LEN] == s.name;
    Take32(b, at + 8, s.value, s2);
    Take16(b, at + 12, s.section, s3);
    Take16(b, at + 14, s.kind, s4);
    assert b[at + 16] == b[at + 16..at + 18][0] && b[at + 17] == b[at + 16..at + 18][1];
  }
}
