/** The chained hash multimap of src/orlhash.c: what it means, as a function of the
    insertions made, and the heap structure that implements it. */
module HashTable {
  import opened Bytes
  import opened CaseFold

  // ------------------------------------------------------------------- keys

  datatype TableType = ByNumber | ByString | ByStringIgnoreCase

  /** A key: the bits of an intptr_t (of 64 bits), or a C string. */
  datatype Key = Number(n: nat) | Name(s: seq<byte>)

  predicate KeyOf(t: TableType, k: Key)
  {
    if t.ByNumber? then k.Number? && k.n < TWO_TO_32 * TWO_TO_32 else k.Name? && IsCString(k.s)
  }

  /** The three compare functions. */
  predicate SameKey(t: TableType, a: Key, b: Key)
    requires KeyOf(t, a) && KeyOf(t, b)
  {
    match t
    case ByNumber => a.n == b.n
    case ByString => Text(a.s) == Text(b.s)
    case ByStringIgnoreCase => FoldedText(a.s) == FoldedText(b.s)
  }

  method CompareKeys(t: TableType, a: Key, b: Key) returns (same: bool)
    requires KeyOf(t, a) && KeyOf(t, b)
    ensures same <==> SameKey(t, a, b)
  {
    match t
    case ByNumber => same := a.n == b.n;
    case ByString => same := Text(a.s) == Text(b.s);
    case ByStringIgnoreCase =>
      var c := Strcasecmp(a.s, b.s);
      same := c == 0;
  }

  /** Keys are equal without regard to case exactly if their strings have the same letters. */
  lemma IgnoringCase(a: Key, b: Key)
    requires KeyOf(ByStringIgnoreCase, a) && KeyOf(ByStringIgnoreCase, b)
    ensures SameKey(ByStringIgnoreCase, a, b) <==> SameText(Text(a.s), Text(b.s))
  {
    FoldIsSameText(Text(a.s), Text(b.s));
  }

  // ---------------------------------------------------------------- hashing

  /** One step of the hash: the shifted value plus the character, with the top four
      bits folded back into bits 4 to 7. It stays below 2^28. */
  function HashStep(h: bv32, c: bv32): (r: bv32)
    ensures r < 0x1000_0000
  {
    var s := (h << 4) + c;
    var g := s & 0xf000_0000;
    if g != 0 then (s ^ (g >> 24)) ^ g else s
  }

  function Encode(b: seq<byte>): (h: bv32)
    ensures h < 0x1000_0000
  {
    if b == [] then 0 else HashStep(Encode(b[..|b| - 1]), b[|b| - 1] as bv32)
  }

  function UpperText(b: seq<byte>): (u: seq<byte>)
    ensures |u| == |b| && forall i :: 0 <= i < |b| ==> u[i] == Upper(b[i])
  {
    seq<byte>(|b|, i requires 0 <= i < |b| => Upper(b[i]))
  }

  method HashEncode(size: nat, b: seq<byte>, ignorecase: bool) returns (r: nat)
    requires 0 < size
    ensures r == (Encode(if ignorecase then UpperText(b) else b) as int) % size < size
  {
    hide Encode, HashStep, Upper;
    NothingHashed();
    ghost var u := if ignorecase then UpperText(b) else b;
    var h: bv32 := 0;
    var i := 0;
    while i < |b|
      invariant 0 <= i <= |b| && h == Encode(u[..i])
    {
      var c: byte := if ignorecase then Upper(b[i]) else b[i];
      EncodeSnoc(u[..i], c);
      assert u[..i] + [c] == u[..i + 1];
      h := HashStep(h, c as bv32);
      i := i + 1;
    }
    assert u[..i] == u;
    r := (h as int) % size;
  }

  lemma EncodeSnoc(b: seq<byte>, c: byte)
    ensures Encode(b + [c]) == HashStep(Encode(b), c as bv32)
  {
    assert (b + [c])[..|b|] == b;
  }

  /** The value of the hash for "syscall", which the System V ABI's hash gives too. */
  lemma KnownHash()
    ensures Encode([115, 121, 115, 99, 97, 108, 108]) == 0x0b09985c
  {
    hide Encode;
    NothingHashed();
    StepTo([], [115], 115, 0x0, 0x73);
    StepTo([115], [115, 121], 121, 0x73, 0x7a9);
    StepTo([115, 121], [115, 121, 115], 115, 0x7a9, 0x7b03);
    StepTo([115, 121, 115], [115, 121, 115, 99], 99, 0x7b03, 0x7b093);
    StepTo([115, 121, 115, 99], [115, 121, 115, 99, 97], 97, 0x7b093, 0x7b0991);
    StepTo([115, 121, 115, 99, 97], [115, 121, 115, 99, 97, 108], 108, 0x7b0991, 0x7b0997c);
    StepTo([115, 121, 115, 99, 97, 108], [115, 121, 115, 99, 97, 108, 108], 108, 0x7b0997c, 0xb09985c);
  }

  lemma StepTo(b: seq<byte>, more: seq<byte>, v: bv32, h: bv32, r: bv32)
    requires |more| == |b| + 1 && more[..|b|] == b && v == more[|b|] as bv32
    requires Encode(b) == h && HashStep(h, v) == r
    ensures Encode(more) == r
  {
    hide HashStep;
    EncodeSnoc(b, more[|b|]);
    assert more == b + [more[|b|]];
  }

  lemma NothingHashed()
    ensures Encode([]) == 0
  {
  }

  /** The bytes that are hashed for a key. */
  function HashedBytes(t: TableType, k: Key): seq<byte>
    requires KeyOf(t, k)
  {
    match t
    case ByNumber => Put32(k.n % TWO_TO_32) + Put32(k.n / TWO_TO_32)
    case ByString => Text(k.s)
    case ByStringIgnoreCase => UpperText(Text(k.s))
  }

  function HashOf(t: TableType, size: nat, k: Key): (r: nat)
    requires 0 < size && KeyOf(t, k)
    ensures r < size
  {
    (Encode(HashedBytes(t, k)) as int) % size
  }

  method Hash(t: TableType, size: nat, k: Key) returns (r: nat)
    requires 0 < size && KeyOf(t, k)
    ensures r == HashOf(t, size, k)
  {
    match t
    case ByNumber => r := HashEncode(size, Put32(k.n % TWO_TO_32) + Put32(k.n / TWO_TO_32), false);
    case ByString => r := HashEncode(size, Text(k.s), false);
    case ByStringIgnoreCase => r := HashEncode(size, Text(k.s), true);
  }

  /** Keys that compare equal hash alike, although strings are compared under one
      case fold and hashed under the other. */
  lemma SameKeysHashAlike(t: TableType, size: nat, a: Key, b: Key)
    requires 0 < size && KeyOf(t, a) && KeyOf(t, b) && SameKey(t, a, b)
    ensures HashOf(t, size, a) == HashOf(t, size, b)
  {
    if t.ByStringIgnoreCase? {
      var x, y := Text(a.s), Text(b.s);
      assert |x| == |FoldedText(a.s)| == |y|;
      forall i | 0 <= i < |x|
        ensures Upper(x[i]) == Upper(y[i])
      {
        assert Lower(x[i]) == FoldedText(a.s)[i] == FoldedText(b.s)[i] == Lower(y[i]);
        FoldsIdentifySamePairs(x[i], y[i]);
      }
      assert UpperText(x) == UpperText(y);
    }
  }

  // ---------------------------------------------------------------- meaning

  datatype Insertion<T> = Insertion(key: Key, data: T)

  ghost predicate LogOf<T>(t: TableType, log: seq<Insertion<T>>)
  {
    forall i :: 0 <= i < |log| ==> KeyOf(t, log[i].key)
  }

  /** The multimap: the data inserted under keys equal to k, in insertion order. */
  function Matching<T>(t: TableType, log: seq<Insertion<T>>, k: Key): seq<T>
    requires LogOf(t, log) && KeyOf(t, k)
  {
    if log == [] then []
    else
      var before, last := Matching(t, log[..|log| - 1], k), log[|log| - 1];
      if SameKey(t, last.key, k) then before + [last.data] else before
  }

  /** A bucket's entries, first to last, and the data of each. */
  datatype Chain<T> = Chain(key: Key, data: seq<T>)

  ghost predicate ChainsOf<T>(t: TableType, cs: seq<Chain<T>>)
  {
    forall i :: 0 <= i < |cs| ==> KeyOf(t, cs[i].key)
  }

  /** The first entry with a key equal to k; the length if there is none. */
  function Lookup<T>(t: TableType, cs: seq<Chain<T>>, k: Key): (i: nat)
    requires ChainsOf(t, cs) && KeyOf(t, k)
    ensures i <= |cs| && (i < |cs| ==> SameKey(t, cs[i].key, k))
    ensures forall j :: 0 <= j < i ==> !SameKey(t, cs[j].key, k)
  {
    if cs == [] || SameKey(t, cs[0].key, k) then 0 else 1 + Lookup(t, cs[1..], k)
  }

  function QueryChain<T>(t: TableType, cs: seq<Chain<T>>, k: Key): seq<T>
    requires ChainsOf(t, cs) && KeyOf(t, k)
  {
    var i := Lookup(t, cs, k);
    if i < |cs| then cs[i].data else []
  }

  /** Data goes behind that of an entry with an equal key, or to a new first entry. */
  function InsertChain<T>(t: TableType, cs: seq<Chain<T>>, k: Key, d: T): (r: seq<Chain<T>>)
    requires ChainsOf(t, cs) && KeyOf(t, k)
    ensures ChainsOf(t, r)
  {
    var i := Lookup(t, cs, k);
    if i < |cs| then cs[i := Chain(cs[i].key, cs[i].data + [d])] else [Chain(k, [d])] + cs
  }

  lemma LookupIs<T>(t: TableType, cs: seq<Chain<T>>, k: Key, i: nat)
    requires ChainsOf(t, cs) && KeyOf(t, k)
    requires i <= |cs| && (i < |cs| ==> SameKey(t, cs[i].key, k))
    requires forall j :: 0 <= j < i ==> !SameKey(t, cs[j].key, k)
    ensures Lookup(t, cs, k) == i
  {
  }

  lemma SameKeyTransfers(t: TableType, a: Key, k: Key, k': Key)
    requires KeyOf(t, a) && KeyOf(t, k) && KeyOf(t, k') && SameKey(t, k, k')
    ensures SameKey(t, a, k) <==> SameKey(t, a, k')
  {
  }

  lemma OtherKeyExcluded(t: TableType, a: Key, k: Key, k': Key)
    requires KeyOf(t, a) && KeyOf(t, k) && KeyOf(t, k') && SameKey(t, a, k) && !SameKey(t, k, k')
    ensures !SameKey(t, a, k')
  {
  }

  lemma QueryAfterInsert<T>(t: TableType, cs: seq<Chain<T>>, k: Key, d: T, k': Key)
    requires ChainsOf(t, cs) && KeyOf(t, k) && KeyOf(t, k')
    ensures QueryChain(t, InsertChain(t, cs, k, d), k')
            == if SameKey(t, k, k') then QueryChain(t, cs, k') + [d] else QueryChain(t, cs, k')
  {
    if SameKey(t, k, k') {
      SameKeyQuery(t, cs, k, d, k');
    } else {
      hide KeyOf;
      OtherKeyQuery(t, cs, k, d, k');
    }
  }

  lemma SameKeyQuery<T>(t: TableType, cs: seq<Chain<T>>, k: Key, d: T, k': Key)
    requires ChainsOf(t, cs) && KeyOf(t, k) && KeyOf(t, k') && SameKey(t, k, k')
    ensures QueryChain(t, InsertChain(t, cs, k, d), k') == QueryChain(t, cs, k') + [d]
  {
    hide KeyOf, SameKey;
    var cs', i := InsertChain(t, cs, k, d), Lookup(t, cs, k);
    forall j | 0 <= j < |cs|
      ensures SameKey(t, cs[j].key, k) <==> SameKey(t, cs[j].key, k')
    {
      SameKeyTransfers(t, cs[j].key, k, k');
    }
    LookupIs(t, cs, k', i);
    if i < |cs| {
      LookupIs(t, cs', k', i);
    } else {
      LookupIs(t, cs', k', 0);
    }
  }

  lemma OtherKeyQuery<T>(t: TableType, cs: seq<Chain<T>>, k: Key, d: T, k': Key)
    requires ChainsOf(t, cs) && KeyOf(t, k) && KeyOf(t, k') && !SameKey(t, k, k')
    ensures QueryChain(t, InsertChain(t, cs, k, d), k') == QueryChain(t, cs, k')
  {
    var cs', i, l := InsertChain(t, cs, k, d), Lookup(t, cs, k), Lookup(t, cs, k');
    if i < |cs| {
      OtherKeyExcluded(t, cs[i].key, k, k');
      hide KeyOf, SameKey;
      LookupIs(t, cs', k', l);
    } else {
      hide KeyOf, SameKey;
      forall j | 0 <= j < l + 1
        ensures !SameKey(t, cs'[j].key, k')
      {
        assert j > 0 ==> cs'[j] == cs[j - 1];
      }
      assert l < |cs| ==> cs'[l + 1] == cs[l];
      LookupIs(t, cs', k', l + 1);
    }
  }

  ghost predicate BucketsOf<T>(t: TableType, bs: seq<seq<Chain<T>>>)
  {
    forall b :: 0 <= b < |bs| ==> ChainsOf(t, bs[b])
  }

  function Insert<T>(t: TableType, bs: seq<seq<Chain<T>>>, k: Key, d: T): (r: seq<seq<Chain<T>>>)
    requires BucketsOf(t, bs) && KeyOf(t, k) && |bs| > 0
    ensures BucketsOf(t, r) && |r| == |bs|
  {
    var h := HashOf(t, |bs|, k);
    bs[h := InsertChain(t, bs[h], k, d)]
  }

  function Query<T>(t: TableType, bs: seq<seq<Chain<T>>>, k: Key): seq<T>
    requires BucketsOf(t, bs) && KeyOf(t, k) && |bs| > 0
  {
    QueryChain(t, bs[HashOf(t, |bs|, k)], k)
  }

  /** The buckets that a sequence of insertions leaves. */
  function Inserted<T>(t: TableType, size: nat, log: seq<Insertion<T>>): (bs: seq<seq<Chain<T>>>)
    requires 0 < size && LogOf(t, log)
    ensures BucketsOf(t, bs) && |bs| == size
  {
    if log == [] then seq(size, _ => [])
    else Insert(t, Inserted(t, size, log[..|log| - 1]), log[|log| - 1].key, log[|log| - 1].data)
  }

  lemma InsertedSnoc<T>(t: TableType, size: nat, log: seq<Insertion<T>>, last: Insertion<T>)
    requires 0 < size && LogOf(t, log) && KeyOf(t, last.key)
    ensures Inserted(t, size, log + [last]) == Insert(t, Inserted(t, size, log), last.key, last.data)
  {
    assert (log + [last])[..|log|] == log;
  }

  /** Over every sequence of insertions, a query finds exactly the data inserted under
      keys equal to k, in insertion order. */
  lemma {:induction false} QueryIsMatching<T>(t: TableType, size: nat, log: seq<Insertion<T>>, k: Key)
    requires 0 < size && LogOf(t, log) && KeyOf(t, k)
    ensures Query(t, Inserted(t, size, log), k) == Matching(t, log, k)
  {
    if log != [] {
      var before, last := log[..|log| - 1], log[|log| - 1];
      QueryIsMatching(t, size, before, k);
      QueryAfterOne(t, Inserted(t, size, before), last, k);
    }
  }

  /** One insertion adds to the answer for equal keys, and to no other. */
  lemma QueryAfterOne<T>(t: TableType, bs: seq<seq<Chain<T>>>, last: Insertion<T>, k: Key)
    requires BucketsOf(t, bs) && |bs| > 0 && KeyOf(t, last.key) && KeyOf(t, k)
    ensures Query(t, Insert(t, bs, last.key, last.data), k)
            == if SameKey(t, last.key, k) then Query(t, bs, k) + [last.data] else Query(t, bs, k)
  {
    hide Encode, HashedBytes, SameKey, KeyOf, Lookup, QueryChain, InsertChain;
    QueryAfterInsert(t, bs[HashOf(t, |bs|, last.key)], last.key, last.data, k);
    if SameKey(t, last.key, k) {
      SameKeysHashAlike(t, |bs|, last.key, k);
    }
  }
}
