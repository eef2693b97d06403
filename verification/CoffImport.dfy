/** Synthesis of an import object by src/coff/coffimpl.c: the library under construction
    with its appended bytes, and the functions that fill it. */
module CoffImport {
  import opened Basics
  import opened Bytes
  import opened CoffFormat
  import opened CoffNames
  import opened CoffLib
  import opened CoffImage
  import opened CoffLoad
  import opened CoffRoundTrip

  lemma {:induction false} BodyBytesSnoc(bs: seq<Body>, b: Body)
    ensures BodyBytes(bs + [b]) == BodyBytes(bs) + OneBody(b)
  {
    if bs == [] {
      assert [b][1..] == [];
    } else {
      assert (bs + [b])[0] == bs[0] && (bs + [b])[1..] == bs[1..] + [b];
      BodyBytesSnoc(bs[1..], b);
      assert OneBody(bs[0]) + (BodyBytes(bs[1..]) + OneBody(b)) == OneBody(bs[0]) + BodyBytes(bs[1..]) + OneBody(b);
    }
  }

  lemma {:induction false} SymHandlesSnoc(es: seq<Entry>, e: Entry, names: seq<seq<byte>>, name: seq<byte>, i: nat)
    requires |names| == |es|
    ensures SymHandles(es + [e], names + [name], i) == SymHandles(es, names, i) + [SymHandle(i + SlotCount(es), Some(name), AttrOf(e.symbol), AuxOf(e))]
    decreases |es|
  {
    if es == [] {
      assert [e][1..] == [] && [name][1..] == [];
    } else {
      assert (es + [e])[0] == es[0] && (es + [e])[1..] == es[1..] + [e];
      assert (names + [name])[0] == names[0] && (names + [name])[1..] == names[1..] + [name];
      SymHandlesSnoc(es[1..], e, names[1..], name, i + Slots(es[0]));
    }
  }

  /** The rest of a section symbol. */
  function SectionAttr(section: u16): Attr
  {
    Attr(0, section, 0, CLASS_STATIC, 1)
  }

  /** And its auxiliary record; the section's number is said only if it is associative. */
  function Definition(size: u32, relocs: u16, section: u16, selection: byte): SecDef
  {
    SecDef(size, relocs, 0, 0, if selection == SELECT_ASSOCIATIVE then section else 0, selection)
  }

  lemma DefinitionRead(h: SectionHeader, selection: byte, section: u16, spare: seq<byte>)
    requires |spare| == 3
    ensures GetSecDef(SecAux(h, selection, section, spare), 0) == Definition(h.size, h.numRelocs, section, selection)
  {
    hide Put16, Put32, Word16, Word32, Stands;
    var number: u16 := if selection == SELECT_ASSOCIATIVE then section else 0;
    var s5 := [selection] + spare;
    var s4 := Put16(number) + s5;
    var s3 := Put32(0) + s4;
    var s2 := Put16(0) + s3;
    var s1 := Put16(h.numRelocs) + s2;
    var b := SecAux(h, selection, section, spare);
    assert b == Put32(h.size) + s1;
    assert Stands(b, 0, b) by { StandsWhole(b); }
    Take32(b, 0, h.size, s1);
    Take16(b, 4, h.numRelocs, s2);
    Take16(b, 6, 0, s3);
    Take32(b, 8, 0, s4);
    Take16(b, 12, number, s5);
  }

  lemma StandsWhole(b: seq<byte>)
    ensures Stands(b, 0, b)
  {
    assert b[0..|b|] == b;
  }

  /** What has been added so far, by name. */
  datatype Added = Added(sections: seq<seq<byte>>, symbols: seq<seq<byte>>, handles: seq<SymHandle>)

  ghost predicate Tracks(lib: Lib, a: Added)
  {
    && ValidLib(lib) && Counted(lib) && NamesHold(lib, a.sections, a.symbols)
    && a.handles == SymHandles(lib.entries, a.symbols, 0)
  }

  ghost function Track(lib: Lib, a: Added, op: Op): Added
    requires ValidLib(lib) && ValidOp(op) && Apply(lib, op).Some?
  {
    match op
    case AddSection(name, _, _, _) => a.(sections := a.sections + [name])
    case AddSymbol(name, value, section, kind, storage) =>
      Added(a.sections, a.symbols + [name], a.handles + [SymHandle(lib.numSymbols, Some(name), Attr(value, section, kind, storage, 0), None)])
    case AddSymSec(selection, section, _) =>
      var h := lib.sections[section - 1];
      var name := HeaderName(h);
      Added(a.sections, a.symbols + [name], a.handles + [SymHandle(lib.numSymbols, Some(name), SectionAttr(section), Some(Definition(h.size, h.numRelocs, section, selection)))])
  }

  lemma HandlesCounted(lib: Lib, a: Added)
    requires Tracks(lib, a)
    ensures |a.symbols| == |lib.entries| && lib.numSymbols == SlotCount(lib.entries)
  {
  }

  lemma TrackStep(lib: Lib, a: Added, op: Op)
    requires Tracks(lib, a) && ValidOp(op) && Apply(lib, op).Some?
    ensures Tracks(Apply(lib, op).value, Track(lib, a, op))
  {
    hide SectionField, SymbolField, Holds, SectionHolds, SymbolHolds, SecAux, GetSecDef, NamesHold, Counted, SymHandles, Decimal, HeaderName;
    HandlesCounted(lib, a);
    StepHolds(lib, op, a.sections, a.symbols);
    ApplyCounts(lib, op);
    var lib' := Apply(lib, op).value;
    match op
    case AddSection(_, _, _, _) =>
    case AddSymbol(name, _, _, _, _) =>
      SymHandlesSnoc(lib.entries, lib'.entries[|lib.entries|], a.symbols, name, 0);
    case AddSymSec(selection, section, spare) =>
      DefinitionRead(lib.sections[section - 1], selection, section, spare);
      SymHandlesSnoc(lib.entries, lib'.entries[|lib.entries|], a.symbols, HeaderName(lib.sections[section - 1]), 0);
  }

  class CoffLibFile {
    var sections: seq<SectionHeader>
    var symbols: seq<Entry>
    var numSymbols: nat
    var stringTable: seq<byte>
    var maxStringTableSize: nat
    // the converted file, behind its length and position
    var implib: seq<byte>
    ghost var added: Added

    function Contents(): Lib
      reads this
    {
      Lib(sections, symbols, numSymbols, stringTable, maxStringTableSize)
    }

    ghost predicate Valid()
      reads this
    {
      Tracks(Contents(), added)
    }

    /** InitCoffFile and SetCoffFile. */
    constructor ()
      ensures Valid() && Contents() == EMPTY && added == Added([], [], []) && implib == []
    {
      sections, symbols, numSymbols, stringTable, maxStringTableSize := [], [], 0, [], INITIAL_ROOM;
      implib, added := [], Added([], [], []);
    }

    /** AddCoffString; false where the source writes behind its buffer. */
    method AddCoffString(name: seq<byte>) returns (ok: bool)
      requires ValidLib(Contents())
      modifies `stringTable, `maxStringTableSize
      ensures AddString(old(Contents()), name) == if ok then Some(Contents()) else None
    {
      var len := |name| + 1;
      var room := maxStringTableSize;
      if |stringTable| + len >= room {
        room := 2 * room;
      }
      if room > TWO_TO_32 / 2 || |stringTable| + len > room {
        return false;
      }
      maxStringTableSize := room;
      stringTable := stringTable + name + [0];
      ok := true;
    }

    /** AddCoffSection: the number of the new section. */
    method AddCoffSection(name: seq<byte>, size: u32, numRelocs: u16, flags: u32) returns (ok: bool, number: u16)
      requires Valid() && NoNul(name)
      modifies this
      ensures var op := AddSection(name, size, numRelocs, flags);
              && (ok <==> Apply(old(Contents()), op).Some?)
              && (ok ==> Valid() && Contents() == Apply(old(Contents()), op).value && added == Track(old(Contents()), old(added), op)
                         && number == |sections|)
      ensures implib == old(implib)
    {
      ghost var before, a := Contents(), added;
      if |sections| == MAX_SECTIONS || (|name| > NAME_LEN && |Decimal(|stringTable| + 4)| >= NAME_LEN) {
        return false, 0;
      }
      var h := SectionHeader(SectionField(name, |stringTable|), 0, 0, size, 0, 0, 0, numRelocs, 0, flags);
      ok := true;
      if |name| > NAME_LEN {
        ok := AddCoffString(name);
      }
      number := 0;
      if ok {
        sections := sections + [h];
        number := |sections|;
        ghost var op := AddSection(name, size, numRelocs, flags);
        added := Track(before, a, op);
        TrackStep(before, a, op);
      }
    }

    /** AddCoffSymbol: the slot of the new symbol. */
    method AddCoffSymbol(name: seq<byte>, value: u32, section: u16, kind: u16, storage: byte) returns (ok: bool, slot: u32)
      requires Valid() && NoNul(name)
      modifies this
      ensures var op := AddSymbol(name, value, section, kind, storage);
              && (ok <==> Apply(old(Contents()), op).Some?)
              && (ok ==> Valid() && Contents() == Apply(old(Contents()), op).value && added == Track(old(Contents()), old(added), op)
                         && slot == old(numSymbols))
      ensures implib == old(implib)
    {
      ghost var before, a := Contents(), added;
      if numSymbols == MAX_SYMBOLS {
        return false, 0;
      }
      var s := Symbol(SymbolField(name, |stringTable|), value, section, kind, storage, 0);
      ok := true;
      if |name| > NAME_LEN {
        ok := AddCoffString(name);
      }
      slot := 0;
      if ok {
        slot := numSymbols;
        symbols := symbols + [Entry(s, None)];
        numSymbols := numSymbols + 1;
        ghost var op := AddSymbol(name, value, section, kind, storage);
        added := Track(before, a, op);
        TrackStep(before, a, op);
      }
    }

    /** AddCoffSymSec: a section symbol and its auxiliary record, of which three bytes
        keep what the memory held. */
    method AddCoffSymSec(selection: byte, section: u16, spare: seq<byte>) returns (ok: bool, slot: u32)
      requires Valid() && |spare| == 3
      modifies this
      ensures var op := AddSymSec(selection, section, spare);
              && (ok <==> Apply(old(Contents()), op).Some?)
              && (ok ==> Valid() && Contents() == Apply(old(Contents()), op).value && added == Track(old(Contents()), old(added), op)
                         && slot == old(numSymbols))
      ensures implib == old(implib)
    {
      hide SymbolField, SecAux;
      ghost var before, a, op := Contents(), added, AddSymSec(selection, section, spare);
      if numSymbols + 2 > MAX_SYMBOLS || !(1 <= section <= |sections|) {
        return false, 0;
      }
      var h := sections[section - 1];
      var s := Symbol(SymbolField(HeaderName(h), |stringTable|), 0, section, 0, CLASS_STATIC, 1);
      slot := numSymbols;
      symbols := symbols + [Entry(s, Some(SecAux(h, selection, section, spare)))];
      numSymbols := numSymbols + 2;
      added := Track(before, a, op);
      TrackStep(before, a, op);
      ok := true;
    }

    /** AddDataImpLib. */
    method AddDataImpLib(data: seq<byte>)
      modifies `implib
      ensures implib == old(implib) + data
    {
      implib := implib + data;
    }

    method CreateCoffReloc(offset: u32, symbol: u32, kind: u16)
      modifies `implib
      ensures implib == old(implib) + PutReloc(Reloc(offset, symbol, kind))
    {
      AddDataImpLib(Put32(offset));
      AddDataImpLib(Put32(symbol));
      AddDataImpLib(Put16(kind));
    }

    /** The loop of CreateCoffFileHeader: every section's pointers, from start on. */
    method PlaceSections(start: u32) returns (dPtr: u32)
      modifies `sections
      ensures sections == Placed(old(sections), start) && dPtr == EndOf(old(sections), start) % TWO_TO_32
    {
      hide Placed, EndOf;
      ghost var hs, at: nat := sections, start;
      dPtr := start;
      var i := 0;
      while i < |sections|
        invariant 0 <= i <= |sections| == |hs|
        invariant dPtr == at % TWO_TO_32 && EndOf(hs, start) == EndOf(hs[i..], at)
        invariant sections[i..] == hs[i..] && sections[..i] + Placed(hs[i..], at) == Placed(hs, start)
      {
        PlaceNext(sections, hs, i, at);
        var size := sections[i].size;
        var relocs := RELOC_SIZE * sections[i].numRelocs;
        Cut(at, size, relocs);
        var placed := sections[i].(rawPtr := dPtr, relocPtr := (dPtr + size) % TWO_TO_32);
        assert placed == hs[i].(rawPtr := at % TWO_TO_32, relocPtr := (at + hs[i].size) % TWO_TO_32);
        sections := sections[i := placed];
        dPtr := (dPtr + size + relocs) % TWO_TO_32;
        at := at + Room(hs[i]);
        i := i + 1;
      }
      PlaceNone(sections, hs, at);
    }

    /** CreateCoffFileHeader: all pointers are set before the header is appended. */
    method CreateCoffFileHeader(cpu: u16, time: u32)
      requires ValidLib(Contents())
      modifies `sections, `implib
      ensures sections == Placed(old(sections), Start(old(Contents())))
      ensures implib == old(implib) + PutFileHeader(HeaderOf(old(Contents()), cpu, time))
    {
      hide PutFileHeader, Placed, EndOf;
      var dPtr := PlaceSections(FILE_HEADER_SIZE + SECTION_HEADER_SIZE * |sections|);
      AddDataImpLib(PutFileHeader(FileHeader(cpu, |sections|, time, dPtr, numSymbols, 0, FLAG_32BIT_MACHINE)));
    }

    /** A section's data, then its relocation records. */
    method AddSectionBody(b: Body)
      modifies `implib
      ensures implib == old(implib) + OneBody(b)
    {
      ghost var base := implib + b.data;
      AddDataImpLib(b.data);
      var i := 0;
      assert base + [] == base;
      while i < |b.relocs|
        invariant 0 <= i <= |b.relocs| && implib == base + RelocBytes(b.relocs[..i])
      {
        var r := b.relocs[i];
        assert b.relocs[..i + 1][..i] == b.relocs[..i];
        CreateCoffReloc(r.offset, r.symbol, r.kind);
        i := i + 1;
      }
      assert b.relocs[..i] == b.relocs;
    }
  }

  /** Placing one more section. */
  lemma PlaceNext(now: seq<SectionHeader>, hs: seq<SectionHeader>, i: nat, at: nat)
    requires i < |hs| == |now| && now[i..] == hs[i..]
    ensures var p := hs[i].(rawPtr := at % TWO_TO_32, relocPtr := (at + hs[i].size) % TWO_TO_32);
            && now[i] == hs[i] && Placed(hs[i..], at) == [p] + Placed(hs[i + 1..], at + Room(hs[i]))
            && now[i := p][..i + 1] == now[..i] + [p] && now[i := p][i + 1..] == hs[i + 1..]
            && now[..i] + [p] + Placed(hs[i + 1..], at + Room(hs[i])) == now[..i] + Placed(hs[i..], at)
    ensures EndOf(hs[i..], at) == EndOf(hs[i + 1..], at + Room(hs[i]))
  {
    var p := hs[i].(rawPtr := at % TWO_TO_32, relocPtr := (at + hs[i].size) % TWO_TO_32);
    PlacedFrom(hs, i, at);
    hide Placed, EndOf, Room;
    assert now[i] == now[i..][0] == hs[i..][0];
    assert now[i + 1..] == now[i..][1..] == hs[i..][1..] == hs[i + 1..];
    Regroup(now[..i], [p], Placed(hs[i + 1..], at + Room(hs[i])));
  }

  lemma PlacedFrom(hs: seq<SectionHeader>, i: nat, at: nat)
    requires i < |hs|
    ensures var p := hs[i].(rawPtr := at % TWO_TO_32, relocPtr := (at + hs[i].size) % TWO_TO_32);
            && Placed(hs[i..], at) == [p] + Placed(hs[i + 1..], at + Room(hs[i]))
            && EndOf(hs[i..], at) == EndOf(hs[i + 1..], at + Room(hs[i]))
  {
    assert hs[i..][0] == hs[i] && hs[i..][1..] == hs[i + 1..];
  }

  lemma PlaceNone(now: seq<SectionHeader>, hs: seq<SectionHeader>, at: nat)
    requires |now| == |hs|
    ensures now[..|hs|] + Placed(hs[|hs|..], at) == now && EndOf(hs[|hs|..], at) == at
  {
  }

  lemma Cut(at: nat, size: nat, relocs: nat)
    ensures (at % TWO_TO_32 + size) % TWO_TO_32 == (at + size) % TWO_TO_32
    ensures (at % TWO_TO_32 + size + relocs) % TWO_TO_32 == (at + size + relocs) % TWO_TO_32
  {
  }
}
