/** How src/coff/coffimpl.c records section and symbol names, and how the loader reads
    them back: in place up to 8 bytes, in the string table beyond. */
module CoffNames {
  import opened Basics
  import opened Bytes
  import opened CoffFormat

  predicate NoNul(s: seq<byte>)
  {
    forall i :: 0 <= i < |s| ==> s[i] != 0
  }

  /** The C string that starts at an offset; a field without NUL ends with the field. */
  function CStringAt(t: seq<byte>, at: nat): seq<byte>
    requires at <= |t|
    decreases |t| - at
  {
    if at == |t| || t[at] == 0 then [] else [t[at]] + CStringAt(t, at + 1)
  }

  lemma {:induction false} CStringRead(t: seq<byte>, at: nat, s: seq<byte>)
    requires NoNul(s) && Stands(t, at, s) && (at + |s| == |t| || t[at + |s|] == 0)
    ensures CStringAt(t, at) == s
    decreases |s|
  {
    if s != [] {
      assert t[at] == t[at..at + |s|][0] == s[0];
      assert t[at + 1..at + 1 + |s[1..]|] == s[1..];
      CStringRead(t, at + 1, s[1..]);
      assert s == [s[0]] + s[1..];
    }
  }

  function Padded(s: seq<byte>): (f: seq<byte>)
    requires |s| <= NAME_LEN
    ensures |f| == NAME_LEN
  {
    s + Zeros(NAME_LEN - |s|)
  }

  lemma PaddedRead(s: seq<byte>)
    requires NoNul(s) && |s| <= NAME_LEN
    ensures CStringAt(Padded(s), 0) == s
  {
    assert Padded(s)[0..|s|] == s;
    CStringRead(Padded(s), 0, s);
  }

  // ------------------------------------------------------------ decimal numbers

  /** sprintf's %i and atoi, on digits. */
  function Decimal(n: nat): (d: seq<byte>)
    ensures |d| > 0 && forall i :: 0 <= i < |d| ==> '0' as int <= d[i] <= '9' as int
  {
    (if n < 10 then [] else Decimal(n / 10)) + [48 + n % 10]
  }

  function Atoi(b: seq<byte>): nat
  {
    Value(LeadingDigits(b))
  }

  function LeadingDigits(b: seq<byte>): (d: seq<byte>)
    ensures forall i :: 0 <= i < |d| ==> '0' as int <= d[i] <= '9' as int
  {
    if b == [] || !('0' as int <= b[0] <= '9' as int) then [] else [b[0]] + LeadingDigits(b[1..])
  }

  function Value(d: seq<byte>): nat
    requires forall i :: 0 <= i < |d| ==> '0' as int <= d[i] <= '9' as int
  {
    if d == [] then 0
    else
      var last: nat := d[|d| - 1];
      10 * Value(d[..|d| - 1]) + (last - 48)
  }

  lemma ValueSnoc(front: seq<byte>, digit: nat)
    requires digit < 10 && forall i :: 0 <= i < |front| ==> '0' as int <= front[i] <= '9' as int
    ensures Value(front + [48 + digit]) == 10 * Value(front) + digit
  {
    var d: seq<byte> := front + [48 + digit];
    assert d[..|d| - 1] == front && d[|d| - 1] == 48 + digit;
  }

  lemma {:induction false} DecimalValue(n: nat)
    ensures Value(Decimal(n)) == n
  {
    hide Value;
    if n < 10 {
      ValueSnoc([], n % 10);
      ValueOfNothing();
    } else {
      DecimalValue(n / 10);
      ValueSnoc(Decimal(n / 10), n % 10);
    }
  }

  lemma ValueOfNothing()
    ensures Value([]) == 0
  {
  }

  lemma {:induction false} DigitsThenNul(d: seq<byte>, z: seq<byte>)
    requires forall i :: 0 <= i < |d| ==> '0' as int <= d[i] <= '9' as int
    requires z == [] || z[0] == 0
    ensures LeadingDigits(d + z) == d
  {
    if d == [] {
      assert d + z == z;
    } else {
      assert (d + z)[1..] == d[1..] + z;
      DigitsThenNul(d[1..], z);
    }
  }

  // ------------------------------------------------------- the fields of a name

  const SLASH: byte := 47

  /** A symbol's name field, the string table holding `size` bytes when it is written. */
  function SymbolField(name: seq<byte>, size: nat): (f: seq<byte>)
    requires size + 4 < TWO_TO_32
    ensures |f| == NAME_LEN
  {
    if |name| > NAME_LEN then Put32(0) + Put32(size + 4) else Padded(name)
  }

  /** A section's: "/" and the offset in decimal. */
  function SectionField(name: seq<byte>, size: nat): (f: seq<byte>)
    requires |name| > NAME_LEN ==> |Decimal(size + 4)| < NAME_LEN
    ensures |f| == NAME_LEN
  {
    if |name| > NAME_LEN then Padded([SLASH] + Decimal(size + 4)) else Padded(name)
  }

  /** What a name adds to the string table. */
  function Stored(name: seq<byte>): seq<byte>
  {
    if |name| > NAME_LEN then name + [0] else []
  }

  /** The string table as it stands in the file: its size, and the strings. */
  function Table(strings: seq<byte>): seq<byte>
    requires |strings| + 4 < TWO_TO_32
  {
    Put32(|strings| + 4) + strings
  }

  /** The loader's symbol name; table offsets count from the size field. */
  function ReadSymbolName(field: seq<byte>, table: seq<byte>): Option<seq<byte>>
    requires |field| == NAME_LEN
  {
    if Word32(field, 0) == 0 then
      var at := Word32(field, 4);
      if at <= |table| then Some(CStringAt(table, at)) else None
    else Some(CStringAt(field, 0))
  }

  /** The loader's section name: one that starts with a slash is looked up. */
  function ReadSectionName(field: seq<byte>, table: seq<byte>): Option<seq<byte>>
    requires |field| == NAME_LEN
  {
    NameFrom(CStringAt(field, 0), table)
  }

  /** None: the 32-bit offset behind the size field, or the table, is left. */
  function NameFrom(name: seq<byte>, table: seq<byte>): Option<seq<byte>>
  {
    if name != [] && name[0] == SLASH then
      var at := Atoi(name[1..]);
      if 4 <= at <= |table| then Some(CStringAt(table, at)) else None
    else Some(name)
  }

  /** The name that was stored when the string table held size bytes is in the final one. */
  predicate Holds(strings: seq<byte>, name: seq<byte>, size: nat)
  {
    Stands(strings, size, Stored(name))
  }

  lemma HoldsLater(strings: seq<byte>, more: seq<byte>, name: seq<byte>, size: nat)
    requires Holds(strings, name, size)
    ensures Holds(strings + more, name, size)
  {
    assert (strings + more)[size..size + |Stored(name)|] == strings[size..size + |Stored(name)|];
  }

  lemma LongNameRead(strings: seq<byte>, name: seq<byte>, size: nat)
    requires NoNul(name) && |name| > NAME_LEN && |strings| + 4 < TWO_TO_32 && Holds(strings, name, size)
    ensures size + 4 <= |Table(strings)| && CStringAt(Table(strings), size + 4) == name
  {
    var t := Table(strings);
    StandsApart(strings, size, name, [0]);
    assert t[size + 4..size + 4 + |name|] == strings[size..size + |name|];
    assert t[size + 4 + |name|] == strings[size + |name|] == strings[size + |name|..size + |name| + 1][0];
    CStringRead(t, size + 4, name);
  }

  /** What a symbol name is read as: an empty one from the size field of the string table. */
  function SymbolAsRead(strings: seq<byte>, name: seq<byte>): seq<byte>
    requires |strings| + 4 < TWO_TO_32
  {
    if name == [] then CStringAt(Table(strings), 0) else name
  }

  /** A symbol name of length below, equal to or above 8 comes back unchanged, unless it
      is empty. */
  lemma SymbolNameRoundTrip(strings: seq<byte>, name: seq<byte>, size: nat)
    requires NoNul(name) && |strings| + 4 < TWO_TO_32 && Holds(strings, name, size) && size <= |strings|
    ensures ReadSymbolName(SymbolField(name, size), Table(strings)) == Some(SymbolAsRead(strings, name))
  {
    var f := SymbolField(name, size);
    if |name| > NAME_LEN {
      Word32OfPut32(f, 0, 0);
      Word32OfPut32(f, 4, size + 4);
      LongNameRead(strings, name, size);
    } else if name == [] {
      assert Word32(f, 0) == 0 && Word32(f, 4) == 0;
    } else {
      assert f[0] == name[0];
      PaddedRead(name);
    }
  }

  /** An empty symbol name comes back exactly when the lowest byte of the string table's
      size is 0. */
  lemma EmptySymbolNameIff(strings: seq<byte>, name: seq<byte>)
    requires |strings| + 4 < TWO_TO_32
    ensures SymbolAsRead(strings, name) == name <==> name != [] || (|strings| + 4) % TWO_TO_8 == 0
  {
    assert Table(strings)[0] == (|strings| + 4) % TWO_TO_16 % TWO_TO_8;
  }

  lemma SlashFieldRead(at: nat)
    requires |Decimal(at)| < NAME_LEN
    ensures var n := CStringAt(Padded([SLASH] + Decimal(at)), 0); n != [] && n[0] == SLASH && Atoi(n[1..]) == at
  {
    hide Decimal, Value, LeadingDigits;
    var d := Decimal(at);
    PaddedRead([SLASH] + d);
    assert ([SLASH] + d)[1..] == d && d + [] == d;
    DigitsThenNul(d, []);
    DecimalValue(at);
  }

  /** A short section name with a leading slash is taken for the offset of a name; it
      comes back only if its own text is what stands there. */
  predicate SectionSurvives(strings: seq<byte>, name: seq<byte>)
    requires |strings| + 4 < TWO_TO_32
  {
    0 < |name| <= NAME_LEN && name[0] == SLASH ==>
      var at := Atoi(name[1..]);
      4 <= at <= |Table(strings)| && CStringAt(Table(strings), at) == name
  }

  /** A section name comes back unchanged exactly if it survives in this sense. */
  lemma SectionNameIff(strings: seq<byte>, name: seq<byte>, size: nat)
    requires NoNul(name) && |strings| + 4 < TWO_TO_32 && Holds(strings, name, size) && size <= |strings|
    requires |name| > NAME_LEN ==> |Decimal(size + 4)| < NAME_LEN
    ensures ReadSectionName(SectionField(name, size), Table(strings)) == Some(name) <==> SectionSurvives(strings, name)
  {
    hide Decimal, Value, LeadingDigits, CStringAt, Holds;
    if |name| > NAME_LEN {
      SlashFieldRead(size + 4);
      LongNameRead(strings, name, size);
    } else {
      PaddedRead(name);
    }
  }

  /** A section called "/x" is always lost. */
  lemma SlashNameIsLost(strings: seq<byte>, size: nat)
    requires |strings| + 4 < TWO_TO_32
    ensures ReadSectionName(SectionField([SLASH, 120], size), Table(strings)) == None
  {
    PaddedRead([SLASH, 120]);
    assert [SLASH, 120][1..] == [120];
    assert LeadingDigits([120]) == [];
  }

  lemma TwelveIs12()
    ensures Atoi([49, 50]) == 12
  {
    hide Value;
    assert [49, 50] + [] == [49, 50];
    DigitsThenNul([49, 50], []);
    ValueSnoc([49], 2);
    ValueSnoc([], 1);
    ValueOfNothing();
    assert [49] + [50] == [49, 50] && [] + [49] == [49];
  }

  /** A section called "/12" survives if a name of 11 bytes that ends like it comes first in
      the string table. */
  lemma SlashNameSurvives(before: seq<byte>)
    requires |before| == 8
    ensures SectionSurvives(Stored(before + [SLASH, 49, 50]), [SLASH, 49, 50])
  {
    hide Value, LeadingDigits, Decimal, Atoi, CStringAt;
    var name: seq<byte> := [SLASH, 49, 50];
    var t := Table(Stored(before + name));
    TwelveIs12();
    assert name[1..] == [49, 50];
    assert t[12..15] == name && t[15] == 0;
    CStringRead(t, 12, name);
  }
}
