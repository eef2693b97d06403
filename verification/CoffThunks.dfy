/** What the import tables of a recovered import object hold, read from the file itself. */
module CoffThunks {
  import opened Bytes
  import opened CoffNames
  import opened CoffLoad
  import opened CoffRoundTrip
  import opened CoffSynthesis
  import opened CoffCreate

  /** A loaded section of this name, with room for n bytes. */
  predicate HasSection(b: seq<byte>, handles: seq<Handle>, k: nat, name: seq<byte>, n: nat)
  {
    && k < |handles| && handles[k].name == name && handles[k].size >= n
    && handles[k].contents.Some? && handles[k].contents.value + handles[k].size <= |b|
  }

  lemma DataAt(b: seq<byte>, handles: seq<Handle>, k: nat, name: seq<byte>, data: seq<byte>)
    requires k < |handles| && SectionLoaded(b, handles[k], name, data) && data != []
    ensures HasSection(b, handles, k, name, |data|) && handles[k].size == |data|
    ensures var c := handles[k].contents.value; b[c..c + |data|] == data
  {
  }

  /** An entry of ".idata$5" and ".idata$4" is the ordinal with the top bit set if the import
      is by ordinal, and otherwise 0, to be relocated. */
  lemma ThunksRead(im: Import, b: seq<byte>)
    requires Supported(im.processor) && Recovered(im, b)
    ensures var handles, n := Load(b).value.handles, ProcessorCount(im.processor);
            && HasSection(b, handles, n, IDATA5, 4) && HasSection(b, handles, n + 1, IDATA4, 4)
            && var entry := if im.kind == 0 then 0x8000_0000 + im.ordinal else 0;
               Word32(b, handles[n].contents.value) == Word32(b, handles[n + 1].contents.value) == entry
  {
    hide Load, ImportSymbols, ImportRefs, ReadSymbols, Headers, Relocated, HintName, Thunk;
    var handles, n := Load(b).value.handles, ProcessorCount(im.processor);
    var specs := ImportSections(im);
    assert specs[n].name == IDATA5 && specs[n].data == Thunk(im) && specs[n + 1].name == IDATA4 && specs[n + 1].data == Thunk(im);
    assert SectionLoaded(b, handles[n], specs[n].name, specs[n].data);
    assert SectionLoaded(b, handles[n + 1], specs[n + 1].name, specs[n + 1].data);
    hide ImportSections, SectionLoaded, Recovered;
    DataAt(b, handles, n, IDATA5, Thunk(im));
    DataAt(b, handles, n + 1, IDATA4, Thunk(im));
    ThunkValue(im, b, handles[n].contents.value);
    ThunkValue(im, b, handles[n + 1].contents.value);
  }

  lemma ThunkValue(im: Import, b: seq<byte>, at: nat)
    requires at + 4 <= |b| && b[at..at + 4] == Thunk(im)
    ensures Word32(b, at) == if im.kind == 0 then 0x8000_0000 + im.ordinal else 0
  {
    if im.kind == 0 {
      assert b[at..at + 2] == Thunk(im)[..2] == Put16(im.ordinal) && b[at + 2..at + 4] == Thunk(im)[2..] == Put16(0x8000);
      hide Put16;
      Word16OfPut16(b, at, im.ordinal);
      Word16OfPut16(b, at + 2, 0x8000);
    } else {
      var w := b[at..at + 4];
      assert b[at] == w[0] == 0 && b[at + 1] == w[1] == 0 && b[at + 2] == w[2] == 0 && b[at + 3] == w[3] == 0;
    }
  }

  /** For an import by name ".idata$6" holds the ordinal as a hint, the import name with its
      NUL, and no more than what makes its size even. */
  lemma HintRead(im: Import, b: seq<byte>)
    requires ValidImport(im) && Supported(im.processor) && im.kind != 0 && Recovered(im, b)
    ensures var handles, n := Load(b).value.handles, ProcessorCount(im.processor) + 2;
            && HasSection(b, handles, n, IDATA6, 3)
            && var c, size := handles[n].contents.value, handles[n].size;
               && Word16(b, c) == im.ordinal && IsImportName(im.name, im.kind, CStringAt(b, c + 2))
               && size % 2 == 0 && 3 + |CStringAt(b, c + 2)| <= size <= 4 + |CStringAt(b, c + 2)|
  {
    hide Load, ImportSymbols, ImportRefs, ReadSymbols, Headers, Relocated, HintName, Thunk, ImportName, IsImportName;
    var handles, n := Load(b).value.handles, ProcessorCount(im.processor) + 2;
    var specs := ImportSections(im);
    assert specs[n].name == IDATA6 && specs[n].data == HintName(im);
    assert SectionLoaded(b, handles[n], specs[n].name, specs[n].data);
    hide ImportSections, SectionLoaded, Recovered;
    HintLength(im);
    DataAt(b, handles, n, IDATA6, HintName(im));
    HintValue(im, b, handles[n].contents.value);
  }

  lemma HintLength(im: Import)
    ensures var n := |ImportName(im.name, im.kind)|; |HintName(im)| % 2 == 0 && n + 3 <= |HintName(im)| <= n + 4
  {
    hide ImportName;
  }

  lemma HintValue(im: Import, b: seq<byte>, at: nat)
    requires ValidImport(im) && at + |HintName(im)| <= |b| && b[at..at + |HintName(im)|] == HintName(im)
    ensures |HintName(im)| >= 3 && Word16(b, at) == im.ordinal
    ensures CStringAt(b, at + 2) == ImportName(im.name, im.kind) && IsImportName(im.name, im.kind, CStringAt(b, at + 2))
  {
    hide ImportName, IsImportName, CStringAt, Put16;
    var n, d := ImportName(im.name, im.kind), HintName(im);
    ImportNameIs(im.name, im.kind);
    ImportNameHasNoNul(im);
    var rest := [0] + if |n| % 2 == 0 then [0] else [];
    assert d == Put16(im.ordinal) + (n + rest);
    hide HintName;
    assert Stands(b, at, d);
    StandsApart(b, at, Put16(im.ordinal), n + rest);
    StandsApart(b, at + 2, n, rest);
    hide Stands;
    HintEnds(b, at, n, rest);
    Word16OfPut16(b, at, im.ordinal);
    CStringRead(b, at + 2, n);
  }

  lemma HintEnds(b: seq<byte>, at: nat, n: seq<byte>, rest: seq<byte>)
    requires Stands(b, at + 2, n) && Stands(b, at + 2 + |n|, rest) && rest != [] && rest[0] == 0
    ensures at + 2 + |n| < |b| && b[at + 2 + |n|] == 0
  {
    var k := at + 2 + |n|;
    assert b[k] == b[k..k + |rest|][0];
  }

  lemma ImportNameHasNoNul(im: Import)
    requires ValidImport(im)
    ensures NoNul(ImportName(im.name, im.kind))
  {
    ImportNameIs(im.name, im.kind);
    hide ImportName;
  }
}
