/** Building the sections, symbols and strings of an import object: the Add* functions of
    src/coff/coffimpl.c as steps on a state, and what the names read back as after any
    sequence of them. */
module CoffLib {
  import opened Basics
  import opened Bytes
  import opened CoffFormat
  import opened CoffNames

  const MAX_SECTIONS := 8
  const MAX_SYMBOLS := 32
  const INITIAL_ROOM := 1024
  const SELECT_ASSOCIATIVE: byte := 5
  const CLASS_STATIC: byte := 3

  /** A symbol and the auxiliary record behind it. */
  datatype Entry = Entry(symbol: Symbol, aux: Option<seq<byte>>)

  /** room is the capacity of the string table, numSymbols counts auxiliary records too. */
  datatype Lib = Lib(sections: seq<SectionHeader>, entries: seq<Entry>, numSymbols: nat, strings: seq<byte>, room: nat)

  /** The calls. spare: the bytes of an auxiliary record that are never set. */
  datatype Op =
    | AddSection(name: seq<byte>, size: u32, numRelocs: u16, flags: u32)
    | AddSymbol(name: seq<byte>, value: u32, section: u16, kind: u16, storage: byte)
    | AddSymSec(selection: byte, section: u16, spare: seq<byte>)

  predicate ValidOp(op: Op)
  {
    match op
    case AddSection(name, _, _, _) => NoNul(name)
    case AddSymbol(name, _, _, _, _) => NoNul(name)
    case AddSymSec(_, _, spare) => |spare| == 3
  }

  predicate ValidLib(lib: Lib)
  {
    && (forall k :: 0 <= k < |lib.sections| ==> |lib.sections[k].name| == NAME_LEN)
    && (forall k :: 0 <= k < |lib.entries| ==> |lib.entries[k].symbol.name| == NAME_LEN)
    && |lib.sections| <= MAX_SECTIONS && lib.numSymbols <= MAX_SYMBOLS
    && |lib.strings| <= lib.room <= TWO_TO_32 / 2
  }

  /** AddCoffString: the buffer is doubled once when the name would fill it. None: the
      name does not fit even then, or the capacity leaves 32 bits. */
  function AddString(lib: Lib, name: seq<byte>): (r: Option<Lib>)
    requires ValidLib(lib)
    ensures r.Some? ==> ValidLib(r.value) && r.value == lib.(strings := lib.strings + name + [0], room := r.value.room)
  {
    var end := |lib.strings| + |name| + 1;
    var room := if end >= lib.room then 2 * lib.room else lib.room;
    if room > TWO_TO_32 / 2 || end > room then None else Some(lib.(strings := lib.strings + name + [0], room := room))
  }

  function AddName(lib: Lib, name: seq<byte>): (r: Option<Lib>)
    requires ValidLib(lib)
    ensures r.Some? ==> ValidLib(r.value) && r.value == lib.(strings := lib.strings + Stored(name), room := r.value.room)
  {
    if |name| > NAME_LEN then AddString(lib, name) else assert lib.strings + [] == lib.strings; Some(lib)
  }

  /** The name AddCoffSymSec takes from a section's header. */
  function HeaderName(h: SectionHeader): (s: seq<byte>)
    requires |h.name| == NAME_LEN
    ensures |s| <= NAME_LEN && NoNul(s)
  {
    CStringInField(h.name, 0);
    CStringAt(h.name, 0)
  }

  lemma {:induction false} CStringInField(t: seq<byte>, at: nat)
    requires at <= |t|
    ensures |CStringAt(t, at)| <= |t| - at && NoNul(CStringAt(t, at))
    decreases |t| - at
  {
    if at < |t| && t[at] != 0 {
      CStringInField(t, at + 1);
    }
  }

  function SecAux(h: SectionHeader, selection: byte, section: u16, spare: seq<byte>): (b: seq<byte>)
    requires |spare| == 3
    ensures |b| == SYMBOL_SIZE
  {
    Put32(h.size) + Put16(h.numRelocs) + Put16(0) + Put32(0)
    + Put16(if selection == SELECT_ASSOCIATIVE then section else 0) + [selection] + spare
  }

  /** One call. None: it writes outside the arrays, the string buffer or a name field. */
  function Apply(lib: Lib, op: Op): (r: Option<Lib>)
    requires ValidLib(lib) && ValidOp(op)
    ensures r.Some? ==> ValidLib(r.value)
  {
    match op
    case AddSection(name, size, numRelocs, flags) =>
      if |lib.sections| == MAX_SECTIONS || (|name| > NAME_LEN && |Decimal(|lib.strings| + 4)| >= NAME_LEN) then None
      else
        var h := SectionHeader(SectionField(name, |lib.strings|), 0, 0, size, 0, 0, 0, numRelocs, 0, flags);
        var r := AddName(lib, name);
        if r.None? then None else Some(r.value.(sections := lib.sections + [h]))
    case AddSymbol(name, value, section, kind, storage) =>
      if lib.numSymbols == MAX_SYMBOLS then None
      else
        var s := Symbol(SymbolField(name, |lib.strings|), value, section, kind, storage, 0);
        var r := AddName(lib, name);
        if r.None? then None else Some(r.value.(entries := lib.entries + [Entry(s, None)], numSymbols := lib.numSymbols + 1))
    case AddSymSec(selection, section, spare) =>
      if lib.numSymbols + 2 > MAX_SYMBOLS || !(1 <= section <= |lib.sections|) then None
      else
        var h := lib.sections[section - 1];
        var s := Symbol(SymbolField(HeaderName(h), |lib.strings|), 0, section, 0, CLASS_STATIC, 1);
        Some(lib.(entries := lib.entries + [Entry(s, Some(SecAux(h, selection, section, spare)))], numSymbols := lib.numSymbols + 2))
  }

  const EMPTY := Lib([], [], 0, [], INITIAL_ROOM)

  ghost predicate ValidOps(ops: seq<Op>)
  {
    forall k :: 0 <= k < |ops| ==> ValidOp(ops[k])
  }

  /** Any sequence of calls. */
  function Build(ops: seq<Op>): (r: Option<Lib>)
    requires ValidOps(ops)
    ensures r.Some? ==> ValidLib(r.value)
  {
    if ops == [] then Some(EMPTY)
    else
      var before := Build(ops[..|ops| - 1]);
      if before.None? then None else Apply(before.value, ops[|ops| - 1])
  }

  /** The names that were added, in order: of sections, and of symbols. */
  function SectionNames(ops: seq<Op>): seq<seq<byte>>
  {
    if ops == [] then []
    else SectionNames(ops[..|ops| - 1]) + if ops[|ops| - 1].AddSection? then [ops[|ops| - 1].name] else []
  }

  function SymbolNames(ops: seq<Op>): seq<seq<byte>>
    requires ValidOps(ops) && Build(ops).Some?
  {
    if ops == [] then []
    else
      var before, op := ops[..|ops| - 1], ops[|ops| - 1];
      SymbolNames(before)
      + match op
        case AddSection(_, _, _, _) => []
        case AddSymbol(name, _, _, _, _) => [name]
        case AddSymSec(_, section, _) => [HeaderName(Build(before).value.sections[section - 1])]
  }

  // --------------------------------------------------------- reading them back

  ghost predicate SectionHolds(strings: seq<byte>, field: seq<byte>, name: seq<byte>)
  {
    exists size: nat :: size <= |strings| && (|name| > NAME_LEN ==> |Decimal(size + 4)| < NAME_LEN)
                        && field == SectionField(name, size) && Holds(strings, name, size)
  }

  ghost predicate SymbolHolds(strings: seq<byte>, field: seq<byte>, name: seq<byte>)
  {
    exists size: nat :: size <= |strings| && size + 4 < TWO_TO_32 && field == SymbolField(name, size) && Holds(strings, name, size)
  }

  lemma SectionHoldsLater(strings: seq<byte>, more: seq<byte>, field: seq<byte>, name: seq<byte>)
    requires SectionHolds(strings, field, name)
    ensures SectionHolds(strings + more, field, name)
  {
    var size: nat :| size <= |strings| && (|name| > NAME_LEN ==> |Decimal(size + 4)| < NAME_LEN)
                     && field == SectionField(name, size) && Holds(strings, name, size);
    HoldsLater(strings, more, name, size);
  }

  lemma SymbolHoldsLater(strings: seq<byte>, more: seq<byte>, field: seq<byte>, name: seq<byte>)
    requires SymbolHolds(strings, field, name)
    ensures SymbolHolds(strings + more, field, name)
  {
    var size: nat :| size <= |strings| && size + 4 < TWO_TO_32 && field == SymbolField(name, size) && Holds(strings, name, size);
    HoldsLater(strings, more, name, size);
  }

  lemma JustStored(strings: seq<byte>, name: seq<byte>)
    ensures Holds(strings + Stored(name), name, |strings|)
  {
  }

  ghost predicate NamesHold(lib: Lib, sections: seq<seq<byte>>, symbols: seq<seq<byte>>)
  {
    && |lib.sections| == |sections| && |lib.entries| == |symbols|
    && (forall k :: 0 <= k < |sections| ==> NoNul(sections[k]) && SectionHolds(lib.strings, lib.sections[k].name, sections[k]))
    && (forall k :: 0 <= k < |symbols| ==> NoNul(symbols[k]) && SymbolHolds(lib.strings, lib.entries[k].symbol.name, symbols[k]))
  }

  lemma NamesHoldLater(lib: Lib, lib': Lib, more: seq<byte>, sections: seq<seq<byte>>, symbols: seq<seq<byte>>)
    requires NamesHold(lib, sections, symbols) && lib'.strings == lib.strings + more
    requires lib'.sections == lib.sections && lib'.entries == lib.entries
    ensures NamesHold(lib', sections, symbols)
  {
    forall k | 0 <= k < |sections|
      ensures SectionHolds(lib'.strings, lib.sections[k].name, sections[k])
    {
      SectionHoldsLater(lib.strings, more, lib.sections[k].name, sections[k]);
    }
    forall k | 0 <= k < |symbols|
      ensures SymbolHolds(lib'.strings, lib.entries[k].symbol.name, symbols[k])
    {
      SymbolHoldsLater(lib.strings, more, lib.entries[k].symbol.name, symbols[k]);
    }
  }

  lemma StepHolds(lib: Lib, op: Op, sections: seq<seq<byte>>, symbols: seq<seq<byte>>)
    requires ValidLib(lib) && ValidOp(op) && Apply(lib, op).Some? && NamesHold(lib, sections, symbols)
    ensures var r := Apply(lib, op).value;
            match op
            case AddSection(name, _, _, _) => NamesHold(r, sections + [name], symbols)
            case AddSymbol(name, _, _, _, _) => NamesHold(r, sections, symbols + [name])
            case AddSymSec(_, section, _) => NamesHold(r, sections, symbols + [HeaderName(lib.sections[section - 1])])
  {
    hide Decimal, Holds, SectionField, SymbolField;
    var r := Apply(lib, op).value;
    match op
    case AddSection(name, size, numRelocs, flags) =>
      var added := AddName(lib, name).value;
      NamesHoldLater(lib, added, Stored(name), sections, symbols);
      JustStored(lib.strings, name);
    case AddSymbol(name, _, _, _, _) =>
      var added := AddName(lib, name).value;
      NamesHoldLater(lib, added, Stored(name), sections, symbols);
      JustStored(lib.strings, name);
    case AddSymSec(_, section, _) =>
      var name := HeaderName(lib.sections[section - 1]);
      JustStored(lib.strings, name);
      assert lib.strings + Stored(name) == lib.strings;
  }

  lemma {:induction false} BuildHolds(ops: seq<Op>)
    requires ValidOps(ops) && Build(ops).Some?
    ensures NamesHold(Build(ops).value, SectionNames(ops), SymbolNames(ops))
  {
    hide Apply, SectionHolds, SymbolHolds, HeaderName;
    if ops != [] {
      var before := ops[..|ops| - 1];
      BuildHolds(before);
      StepHolds(Build(before).value, ops[|ops| - 1], SectionNames(before), SymbolNames(before));
      var m := SectionNames(before);
      assert m + [] == m;
      var n := SymbolNames(before);
      assert n + [] == n;
    }
  }

  /** Names that are held read back: symbol names unless empty, section names exactly if
      they survive. */
  lemma HeldNamesRead(lib: Lib, sections: seq<seq<byte>>, symbols: seq<seq<byte>>, k: nat)
    requires ValidLib(lib) && NamesHold(lib, sections, symbols)
    ensures |lib.strings| + 4 < TWO_TO_32
    ensures k < |sections| ==>
              (ReadSectionName(lib.sections[k].name, Table(lib.strings)) == Some(sections[k]) <==> SectionSurvives(lib.strings, sections[k]))
    ensures k < |symbols| ==>
              ReadSymbolName(lib.entries[k].symbol.name, Table(lib.strings)) == Some(SymbolAsRead(lib.strings, symbols[k]))
  {
    hide Decimal, Holds, SectionField, SymbolField, ReadSectionName, ReadSymbolName, SectionSurvives, SymbolAsRead;
    if k < |sections| {
      var size: nat :| size <= |lib.strings| && (|sections[k]| > NAME_LEN ==> |Decimal(size + 4)| < NAME_LEN)
                       && lib.sections[k].name == SectionField(sections[k], size) && Holds(lib.strings, sections[k], size);
      SectionNameIff(lib.strings, sections[k], size);
    }
    if k < |symbols| {
      var size: nat :| size <= |lib.strings| && size + 4 < TWO_TO_32
                       && lib.entries[k].symbol.name == SymbolField(symbols[k], size) && Holds(lib.strings, symbols[k], size);
      SymbolNameRoundTrip(lib.strings, symbols[k], size);
    }
  }

  /** So after any sequence of calls every name reads back as it was added, with the two
      exact exceptions. */
  lemma NamesRoundTrip(ops: seq<Op>, k: nat)
    requires ValidOps(ops) && Build(ops).Some?
    ensures var lib, names := Build(ops).value, SectionNames(ops);
            |lib.sections| == |names| && |lib.strings| + 4 < TWO_TO_32
            && (k < |names| ==>
                  (ReadSectionName(lib.sections[k].name, Table(lib.strings)) == Some(names[k]) <==> SectionSurvives(lib.strings, names[k])))
    ensures var lib, names := Build(ops).value, SymbolNames(ops);
            |lib.entries| == |names|
            && (k < |names| ==>
                  (ReadSymbolName(lib.entries[k].symbol.name, Table(lib.strings)) == Some(names[k])
                   <==> names[k] != [] || (|lib.strings| + 4) % TWO_TO_8 == 0))
  {
    hide Decimal, Holds, SectionField, SymbolField, ReadSectionName, ReadSymbolName, SectionSurvives, SymbolAsRead;
    BuildHolds(ops);
    HeldNamesRead(Build(ops).value, SectionNames(ops), SymbolNames(ops), k);
    if k < |SymbolNames(ops)| {
      EmptySymbolNameIff(Build(ops).value.strings, SymbolNames(ops)[k]);
    }
  }
}
