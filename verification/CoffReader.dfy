/** The loader of src/coff/coffload.c and src/coff/cofflwlv.c as methods: loops that fill
    the handles and patch them in place, proved against the functions of CoffLoad. */
module CoffReader {
  import opened Basics
  import opened Bytes
  import opened CoffFormat
  import opened CoffNames
  import opened CoffLoad

  lemma BufferEndSnoc(hs: seq<Handle>, i: nat)
    requires i < |hs|
    ensures var before, last := BufferEnd(hs[..i]), Reach(hs[i]);
            BufferEnd(hs[..i + 1]) == if last > before then last else before
  {
    assert hs[..i + 1][..i] == hs[..i];
  }

  lemma RelocHandlesSnoc(hs: seq<SectionHeader>, i: nat)
    requires i < |hs|
    ensures RelocHandles(hs[..i + 1])
            == RelocHandles(hs[..i])
               + if hs[i].numRelocs > 0 then [Handle(RelocsOf(i), REL_NAME, RELOC_SIZE * hs[i].numRelocs, hs[i].relocPtr, false, None)] else []
  {
    assert hs[..i + 1][..i] == hs[..i];
  }

  lemma NoRelocs(hs: seq<SectionHeader>)
    ensures hs[..0] == [] && RelocHandles([]) == [] && forall n: seq<Handle> :: n + RelocHandles([]) == n
  {
  }

  lemma SymbolsStep(b: seq<byte>, at: nat, i: nat, n: nat, table: seq<byte>, r: seq<SymHandle>)
    requires at + SYMBOL_SIZE * n <= |b| && i < n
    ensures var s := GetSymbol(b, at + SYMBOL_SIZE * i);
            r + ReadSymbols(b, at, i, n, table)
            == r + [HandleOf(b, at, i, n, table)] + ReadSymbols(b, at, i + 1 + s.numAux, n, table)
  {
    hide GetSymbol, HandleOf;
    var s := GetSymbol(b, at + SYMBOL_SIZE * i);
    Regroup(r, [HandleOf(b, at, i, n, table)], ReadSymbols(b, at, i + 1 + s.numAux, n, table));
  }

  lemma SymbolsEnd(b: seq<byte>, at: nat, i: nat, n: nat, table: seq<byte>, r: seq<SymHandle>)
    requires at + SYMBOL_SIZE * n <= |b| && i >= n
    ensures r + ReadSymbols(b, at, i, n, table) == r
  {
  }

  /** One name more. */
  lemma NamedSnoc(hs: seq<Handle>, table: seq<byte>, i: nat)
    requires i < |hs|
    ensures Named(hs[..i + 1], table)
            == var before, last := Named(hs[..i], table), NameFrom(hs[i].name, table);
               if before.None? || last.None? then None else Some(before.value + [hs[i].(name := last.value)])
  {
    assert hs[..i + 1][..i] == hs[..i];
  }

  /** A handle without a name spoils them all. */
  lemma {:induction false} NamedNone(hs: seq<Handle>, table: seq<byte>, i: nat)
    requires i < |hs| && NameFrom(hs[i].name, table).None?
    ensures Named(hs, table) == None
    decreases |hs|
  {
    if i < |hs| - 1 {
      NamedNone(hs[..|hs| - 1], table, i);
    }
  }

  class CoffFile {
    const file: seq<byte>
    var handles: seq<Handle>
    var stringTable: seq<byte>

    constructor (file: seq<byte>)
      ensures this.file == file && handles == [] && stringTable == []
    {
      this.file, handles, stringTable := file, [], [];
    }

    /** load_coff_sec_handles: a handle for every section, one for the relocations of each
        section that has some, and those of the symbol and string tables. */
    method LoadSecHandles(h: FileHeader)
      requires InitialSize(h) <= |file|
      modifies `handles
      ensures handles == FirstHandles(file, h)
    {
      hide GetSectionHeader, NormalHandle, RelocHandles, TableHandles;
      ghost var hs := Headers(file, h);
      LoadNormal(h);
      var i := 0;
      NoRelocs(hs);
      while i < h.numSections
        invariant 0 <= i <= h.numSections && handles == NormalHandles(hs) + RelocHandles(hs[..i])
      {
        var s := GetSectionHeader(file, FirstHeader(h) + SECTION_HEADER_SIZE * i);
        assert s == hs[i];
        RelocHandlesSnoc(hs, i);
        if s.numRelocs > 0 {
          handles := handles + [Handle(RelocsOf(i), REL_NAME, RELOC_SIZE * s.numRelocs, s.relocPtr, false, None)];
        }
        i := i + 1;
      }
      assert hs[..i] == hs;
      handles := handles + TableHandles(h);
    }

    /** Its first loop. */
    method LoadNormal(h: FileHeader)
      requires InitialSize(h) <= |file|
      modifies `handles
      ensures handles == NormalHandles(Headers(file, h))
    {
      hide GetSectionHeader, NormalHandle;
      ghost var hs := Headers(file, h);
      handles := [];
      var i := 0;
      while i < h.numSections
        invariant 0 <= i <= h.numSections && handles == NormalHandles(hs[..i])
      {
        var s := GetSectionHeader(file, FirstHeader(h) + SECTION_HEADER_SIZE * i);
        assert s == hs[i] && hs[..i + 1] == hs[..i] + [s];
        handles := handles + [NormalHandle(s)];
        i := i + 1;
      }
      assert hs[..i] == hs;
    }

    /** The furthest end of a section with bytes in the file. */
    method BufferSize() returns (end: nat)
      ensures end == BufferEnd(handles)
    {
      end := 0;
      var i := 0;
      while i < |handles|
        invariant 0 <= i <= |handles| && end == BufferEnd(handles[..i])
      {
        BufferEndSnoc(handles, i);
        if Reach(handles[i]) > end {
          end := Reach(handles[i]);
        }
        i := i + 1;
      }
      assert handles[..i] == handles;
    }

    /** The contents of all sections but the last. */
    method FillContents()
      requires handles != []
      modifies `handles
      ensures handles == AllFilled(old(handles)[..|old(handles)| - 1]) + [old(handles)[|old(handles)| - 1]]
    {
      var i := 0;
      while i < |handles| - 1
        invariant |handles| == |old(handles)| && 0 <= i <= |handles| - 1
        invariant forall k :: 0 <= k < i ==> handles[k] == Filled(old(handles)[k])
        invariant forall k :: i <= k < |handles| ==> handles[k] == old(handles)[k]
      {
        if handles[i].size > 0 && handles[i].offset != 0 {
          handles := handles[i := handles[i].(contents := Some(handles[i].offset))];
        }
        i := i + 1;
      }
    }

    /** The names that point into the string table. */
    method ResolveNames() returns (ok: bool)
      modifies `handles
      ensures Named(old(handles), stringTable) == if ok then Some(handles) else None
    {
      ghost var hs := handles;
      var i := 0;
      while i < |handles|
        invariant |handles| == |hs| && 0 <= i <= |hs|
        invariant Named(hs[..i], stringTable) == Some(handles[..i]) && handles[i..] == hs[i..]
      {
        assert handles[i] == handles[i..][0] == hs[i];
        ghost var before := handles[..i];
        NamedSnoc(hs, stringTable, i);
        if handles[i].name != [] && handles[i].name[0] == SLASH {
          var at := Atoi(handles[i].name[1..]);
          if !(4 <= at <= |stringTable|) {
            NamedNone(hs, stringTable, i);
            return false;
          }
          handles := handles[i := handles[i].(name := CStringAt(stringTable, at))];
        }
        assert handles[..i + 1] == before + [handles[i]] && handles[i + 1..] == hs[i + 1..];
        i := i + 1;
      }
      assert hs[..i] == hs && handles[..i] == handles;
      ok := true;
    }

    /** CoffLoadFileStructure, from the file header on. */
    method LoadFileStructure() returns (ok: bool, h: FileHeader)
      modifies this
      ensures Load(file) == if ok then Some(Loaded(h, handles, stringTable)) else None
    {
      h := FileHeader(0, 0, 0, 0, 0, 0, 0);
      if |file| < FILE_HEADER_SIZE {
        return false, h;
      }
      h := GetFileHeader(file, 0);
      if !IsObject(h) || InitialSize(h) > |file| {
        return false, h;
      }
      LoadSecHandles(h);
      var end := BufferSize();
      if end < InitialSize(h) || end > |file| {
        return false, h;
      }
      ok := LoadStrings(h, end);
    }

    /** String table, contents and names. */
    method LoadStrings(h: FileHeader, end: nat) returns (ok: bool)
      requires handles != []
      modifies this
      ensures Finish(file, h, old(handles), StringSize(file, h, end))
              == if ok then Some(Loaded(h, handles, stringTable)) else None
    {
      hide Word32, TableOf, Named, AllFilled;
      ghost var hs := handles;
      var size := 0;
      if h.symTable != 0 && end + 4 <= |file| {
        size := Word32(file, end);
      }
      if size <= 4 || size > MAX_STRTAB_SIZE {
        size := 0;
      }
      if size != 0 {
        size := size - 4;
      }
      var last := |handles| - 1;
      var strtab := handles[last].(size := size, contents := None);
      if size > 0 && strtab.offset != 0 {
        if strtab.offset + 4 + size > |file| {
          return false;
        }
        strtab := strtab.(contents := Some(strtab.offset + 4));
      }
      assert strtab == WithSize(hs[last], StringSize(file, h, end));
      stringTable := TableOf(file, strtab);
      handles := handles[last := strtab];
      assert handles[..last] == hs[..last];
      FillContents();
      ok := ResolveNames();
    }
  }

  /** CoffCreateSymbolHandles: one handle for each symbol that is not auxiliary. */
  method CreateSymbolHandles(b: seq<byte>, at: nat, n: nat, table: seq<byte>) returns (r: seq<SymHandle>)
    requires at + SYMBOL_SIZE * n <= |b|
    ensures r == ReadSymbols(b, at, 0, n, table)
  {
    hide GetSymbol, GetSecDef, ReadSymbolName, ReadSymbols;
    r := [];
    var i := 0;
    assert [] + ReadSymbols(b, at, 0, n, table) == ReadSymbols(b, at, 0, n, table);
    while i < n
      invariant 0 <= i
      invariant r + ReadSymbols(b, at, i, n, table) == ReadSymbols(b, at, 0, n, table)
      decreases n - i
    {
      var s := GetSymbol(b, at + SYMBOL_SIZE * i);
      SymbolsStep(b, at, i, n, table, r);
      var aux := None;
      if s.numAux > 0 && i + 1 < n {
        aux := Some(GetSecDef(b, at + SYMBOL_SIZE * (i + 1)));
      }
      r := r + [SymHandle(i, ReadSymbolName(s.name, table), AttrOf(s), aux)];
      i := i + 1 + s.numAux;
    }
    SymbolsEnd(b, at, i, n, table, r);
  }
}
