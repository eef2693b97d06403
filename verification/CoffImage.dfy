/** The layout of an import object: headers with precomputed pointers first, then section
    data with relocations, symbols and strings; and where each of them stands. */
module CoffImage {
  import opened Bytes
  import opened CoffFormat
  import opened CoffNames
  import opened CoffLib

  const FLAG_32BIT_MACHINE: u16 := 0x100

  /** What is appended for a section: its bytes, and its relocations. */
  datatype Body = Body(data: seq<byte>, relocs: seq<Reloc>)

  function RelocBytes(rs: seq<Reloc>): (b: seq<byte>)
    ensures |b| == RELOC_SIZE * |rs|
  {
    if rs == [] then [] else RelocBytes(rs[..|rs| - 1]) + PutReloc(rs[|rs| - 1])
  }

  function ReadRelocs(b: seq<byte>, at: nat, n: nat): (rs: seq<Reloc>)
    requires at + RELOC_SIZE * n <= |b|
    ensures |rs| == n
  {
    seq(n, k requires 0 <= k < n => GetReloc(b, at + RELOC_SIZE * k))
  }

  /** Relocation records are read back. */
  lemma {:induction false} RelocsRead(b: seq<byte>, at: nat, rs: seq<Reloc>)
    requires Stands(b, at, RelocBytes(rs))
    ensures at + RELOC_SIZE * |rs| <= |b| && ReadRelocs(b, at, |rs|) == rs
  {
    if rs != [] {
      hide PutReloc, GetReloc;
      var n := |rs| - 1;
      StandsApart(b, at, RelocBytes(rs[..n]), PutReloc(rs[n]));
      RelocsRead(b, at, rs[..n]);
      RelocRoundTrip(b, at + RELOC_SIZE * n, rs[n]);
      assert ReadRelocs(b, at, n + 1) == ReadRelocs(b, at, n) + [GetReloc(b, at + RELOC_SIZE * n)];
    }
  }

  function OneBody(b: Body): (r: seq<byte>)
    ensures |r| == |b.data| + RELOC_SIZE * |b.relocs|
  {
    b.data + RelocBytes(b.relocs)
  }

  function BodyBytes(bs: seq<Body>): seq<byte>
  {
    if bs == [] then [] else OneBody(bs[0]) + BodyBytes(bs[1..])
  }

  /** The room a section declares in its header. */
  function Room(h: SectionHeader): nat
  {
    h.size + RELOC_SIZE * h.numRelocs
  }

  function EndOf(hs: seq<SectionHeader>, at: nat): nat
  {
    if hs == [] then at else EndOf(hs[1..], at + Room(hs[0]))
  }

  /** CreateCoffFileHeader: the pointers, in 32 bits, computed before anything is appended. */
  function Placed(hs: seq<SectionHeader>, at: nat): (r: seq<SectionHeader>)
    ensures |r| == |hs|
    ensures forall k :: 0 <= k < |hs| ==> r[k] == hs[k].(rawPtr := r[k].rawPtr, relocPtr := r[k].relocPtr)
  {
    if hs == [] then []
    else [hs[0].(rawPtr := at % TWO_TO_32, relocPtr := (at + hs[0].size) % TWO_TO_32)] + Placed(hs[1..], at + Room(hs[0]))
  }

  function HeaderBytes(hs: seq<SectionHeader>): (b: seq<byte>)
    requires forall k :: 0 <= k < |hs| ==> |hs[k].name| == NAME_LEN
    ensures |b| == SECTION_HEADER_SIZE * |hs|
  {
    if hs == [] then [] else PutSectionHeader(hs[0]) + HeaderBytes(hs[1..])
  }

  function Slots(e: Entry): nat
  {
    if e.aux.None? then 1 else 2
  }

  function SlotCount(es: seq<Entry>): nat
  {
    if es == [] then 0 else Slots(es[0]) + SlotCount(es[1..])
  }

  /** Entries as AddCoffSymbol and AddCoffSymSec leave them. */
  predicate ValidEntry(e: Entry)
  {
    && |e.symbol.name| == NAME_LEN && e.symbol.numAux == Slots(e) - 1
    && (e.aux.Some? ==> |e.aux.value| == SYMBOL_SIZE)
  }

  predicate ValidEntries(es: seq<Entry>)
  {
    es == [] || (ValidEntry(es[0]) && ValidEntries(es[1..]))
  }

  function EntryBytes(e: Entry): (b: seq<byte>)
    requires ValidEntry(e)
    ensures |b| == SYMBOL_SIZE * Slots(e)
  {
    PutSymbol(e.symbol) + if e.aux.Some? then e.aux.value else []
  }

  function SymbolBytes(es: seq<Entry>): (b: seq<byte>)
    requires ValidEntries(es)
    ensures |b| == SYMBOL_SIZE * SlotCount(es)
  {
    if es == [] then [] else EntryBytes(es[0]) + SymbolBytes(es[1..])
  }

  function Start(lib: Lib): nat
  {
    FILE_HEADER_SIZE + SECTION_HEADER_SIZE * |lib.sections|
  }

  function SymTable(lib: Lib): nat
  {
    EndOf(lib.sections, Start(lib))
  }

  function HeaderOf(lib: Lib, cpu: u16, time: u32): FileHeader
    requires ValidLib(lib)
  {
    FileHeader(cpu, |lib.sections|, time, SymTable(lib) % TWO_TO_32, lib.numSymbols, 0, FLAG_32BIT_MACHINE)
  }

  /** The whole object. */
  function Image(lib: Lib, bodies: seq<Body>, cpu: u16, time: u32): seq<byte>
    requires ValidLib(lib) && ValidEntries(lib.entries)
  {
    PutFileHeader(HeaderOf(lib, cpu, time))
    + (HeaderBytes(Placed(lib.sections, Start(lib)))
    + (BodyBytes(bodies)
    + (SymbolBytes(lib.entries) + Table(lib.strings))))
  }

  /** The sections get what their headers declare. */
  predicate Fit(hs: seq<SectionHeader>, bodies: seq<Body>)
  {
    |hs| == |bodies| &&
    forall k :: 0 <= k < |hs| ==> hs[k].size == |bodies[k].data| && hs[k].numRelocs == |bodies[k].relocs|
  }

  // -------------------------------------------------------- where things stand

  lemma {:induction false} HeadersStand(b: seq<byte>, at: nat, hs: seq<SectionHeader>, k: nat)
    requires forall i :: 0 <= i < |hs| ==> |hs[i].name| == NAME_LEN
    requires Stands(b, at, HeaderBytes(hs)) && k < |hs|
    ensures Stands(b, at + SECTION_HEADER_SIZE * k, PutSectionHeader(hs[k]))
    decreases k
  {
    StandsApart(b, at, PutSectionHeader(hs[0]), HeaderBytes(hs[1..]));
    if k > 0 {
      HeadersStand(b, at + SECTION_HEADER_SIZE, hs[1..], k - 1);
    }
  }

  lemma {:induction false} EndOfGrows(hs: seq<SectionHeader>, at: nat)
    ensures EndOf(hs, at) >= at
    decreases |hs|
  {
    if hs != [] {
      EndOfGrows(hs[1..], at + Room(hs[0]));
    }
  }

  lemma FitRest(hs: seq<SectionHeader>, bodies: seq<Body>)
    requires Fit(hs, bodies) && hs != []
    ensures Fit(hs[1..], bodies[1..])
  {
  }

  /** Every precomputed pointer is the offset at which the bytes are later appended. */
  lemma {:induction false} BodiesStand(b: seq<byte>, at: nat, hs: seq<SectionHeader>, bodies: seq<Body>, k: nat)
    requires Fit(hs, bodies) && k < |hs|
    requires Stands(b, at, BodyBytes(bodies)) && EndOf(hs, at) < TWO_TO_32
    ensures var p := Placed(hs, at)[k];
            && Stands(b, p.rawPtr, bodies[k].data) && Stands(b, p.relocPtr, RelocBytes(bodies[k].relocs))
            && at <= p.rawPtr && p.relocPtr == p.rawPtr + p.size && p.relocPtr + RELOC_SIZE * p.numRelocs <= EndOf(hs, at)
    decreases k
  {
    hide Stands, RelocBytes;
    EndOfGrows(hs[1..], at + Room(hs[0]));
    StandsApart(b, at, OneBody(bodies[0]), BodyBytes(bodies[1..]));
    if k == 0 {
      StandsApart(b, at, bodies[0].data, RelocBytes(bodies[0].relocs));
    } else {
      FitRest(hs, bodies);
      BodiesStand(b, at + Room(hs[0]), hs[1..], bodies[1..], k - 1);
    }
  }

  lemma {:induction false} BodiesLength(hs: seq<SectionHeader>, bodies: seq<Body>, at: nat)
    requires Fit(hs, bodies)
    ensures at + |BodyBytes(bodies)| == EndOf(hs, at)
    decreases |hs|
  {
    if hs != [] {
      BodiesLength(hs[1..], bodies[1..], at + Room(hs[0]));
    }
  }

  /** The parts of an image, each at its offset. */
  lemma ImageParts(lib: Lib, bodies: seq<Body>, cpu: u16, time: u32)
    requires ValidLib(lib) && ValidEntries(lib.entries) && Fit(lib.sections, bodies)
    ensures var b := Image(lib, bodies, cpu, time);
            && Stands(b, 0, PutFileHeader(HeaderOf(lib, cpu, time)))
            && Stands(b, FILE_HEADER_SIZE, HeaderBytes(Placed(lib.sections, Start(lib))))
            && Stands(b, Start(lib), BodyBytes(bodies))
            && Stands(b, SymTable(lib), SymbolBytes(lib.entries))
            && Stands(b, SymTable(lib) + SYMBOL_SIZE * SlotCount(lib.entries), Table(lib.strings))
            && |b| == SymTable(lib) + SYMBOL_SIZE * SlotCount(lib.entries) + |Table(lib.strings)|
  {
    hide HeaderBytes, BodyBytes, SymbolBytes, SlotCount, Placed, Table;
    var b := Image(lib, bodies, cpu, time);
    var p0, p1, p2, p3, p4 := PutFileHeader(HeaderOf(lib, cpu, time)), HeaderBytes(Placed(lib.sections, Start(lib))),
                              BodyBytes(bodies), SymbolBytes(lib.entries), Table(lib.strings);
    BodiesLength(lib.sections, bodies, Start(lib));
    assert Stands(b, 0, p0 + (p1 + (p2 + (p3 + p4))));
    hide Stands;
    StandsApart(b, 0, p0, p1 + (p2 + (p3 + p4)));
    StandsApart(b, FILE_HEADER_SIZE, p1, p2 + (p3 + p4));
    StandsApart(b, Start(lib), p2, p3 + p4);
    StandsApart(b, SymTable(lib), p3, p4);
  }
}
