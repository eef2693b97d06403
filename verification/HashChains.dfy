/** The linked structure of src/orlhash.c: an array of buckets, each a list of entries,
    each with a list of data; every method is proved against the functions of HashTable. */
module HashChains {
  import opened HashTable

  /** The data of an insertion: a symbol handle, a section handle or a string. */
  type Handle = nat

  class DataEntry {
    const data: Handle
    var next: DataEntry?
    // the entry whose list this is on, and the place there
    ghost var owner: HashEntry?
    ghost var place: nat

    constructor (data: Handle)
      ensures this.data == data && next == null && owner == null
    {
      this.data, next, owner := data, null, null;
    }
  }

  /** What follows item k of a list. */
  function After(items: seq<DataEntry>, k: nat): DataEntry?
  {
    if k + 1 < |items| then items[k + 1] else null
  }

  /** What follows entry i of a bucket. */
  function EntryAfter(es: seq<HashEntry>, i: nat): HashEntry?
  {
    if i + 1 < |es| then es[i + 1] else null
  }

  /** first is the head of a list that holds exactly these items. */
  ghost predicate IsList(first: DataEntry?, items: seq<DataEntry>)
    reads items
  {
    && (first == if items == [] then null else items[0])
    && forall k :: 0 <= k < |items| ==> items[k].next == After(items, k)
  }

  function DataOf(items: seq<DataEntry>): (r: seq<Handle>)
    ensures |r| == |items| && forall k :: 0 <= k < |items| ==> r[k] == items[k].data
  {
    seq(|items|, k requires 0 <= k < |items| => items[k].data)
  }

  class HashEntry {
    const key: Key
    const dataEntry: DataEntry
    var next: HashEntry?
    ghost var items: seq<DataEntry>
    // the bucket this is in, and the number of entries behind it
    ghost const bucket: nat
    ghost const rank: nat

    ghost predicate Valid()
      reads this, items
    {
      && items != [] && IsList(dataEntry, items)
      && forall k :: 0 <= k < |items| ==> items[k].owner == this && items[k].place == k
    }

    constructor (key: Key, dataEntry: DataEntry, next: HashEntry?, ghost bucket: nat, ghost rank: nat)
      requires dataEntry.next == null && dataEntry.owner == null
      modifies dataEntry`owner, dataEntry`place
      ensures Valid() && items == [dataEntry]
      ensures this.key == key && this.next == next && this.bucket == bucket && this.rank == rank
    {
      this.key, this.dataEntry, this.next := key, dataEntry, next;
      this.bucket, this.rank, items := bucket, rank, [dataEntry];
      new;
      dataEntry.owner, dataEntry.place := this, 0;
    }

    /** The walk to the last data entry. */
    method Last() returns (last: DataEntry)
      requires Valid()
      ensures last == items[|items| - 1] && last.next == null
    {
      last := dataEntry;
      ghost var k := 0;
      assert IsList(dataEntry, items) && items[0] == last;
      while last.next != null
        invariant 0 <= k < |items| && last == items[k]
        decreases |items| - k
      {
        assert items[k].next == After(items, k);
        last := last.next;
        k := k + 1;
      }
      assert items[k].next == After(items, k);
    }

    /** The new data entry goes behind the last one. */
    method Append(d: DataEntry)
      requires Valid() && d.next == null && d.owner == null
      modifies this`items, items, d`owner, d`place
      ensures Valid() && items == old(items) + [d]
    {
      var last := Last();
      ghost var was := items;
      assert forall j :: 0 <= j < |was| ==> was[j] != d && was[j].place == j;
      last.next := d;
      d.owner, d.place := this, |items|;
      items := items + [d];
      forall j | 0 <= j < |items|
        ensures items[j].next == After(items, j)
      {
        assert j < |was| - 1 ==> was[j].next == After(was, j);
      }
    }
  }

  /** One bucket: the list of entries that starts at first. */
  ghost predicate IsBucket(first: HashEntry?, es: seq<HashEntry>, bucket: nat)
    reads es`next
  {
    && (first == if es == [] then null else es[0])
    && forall i :: 0 <= i < |es| ==>
         es[i].bucket == bucket && es[i].rank == |es| - 1 - i && es[i].next == EntryAfter(es, i)
  }

  /** An entry holds the key and the data of c, on a list of its own data entries. */
  ghost predicate EntryHolds(e: HashEntry, c: Chain<Handle>, data: set<DataEntry>)
    reads e, data
  {
    && (forall k :: 0 <= k < |e.items| ==> e.items[k] in data)
    && e.Valid() && c == Chain(e.key, DataOf(e.items))
  }

  ghost predicate AllHold(chains: map<HashEntry, Chain<Handle>>, data: set<DataEntry>)
    reads chains.Keys, data
  {
    forall e :: e in chains ==> EntryHolds(e, chains[e], data)
  }

  /** The buckets are lists of these entries. */
  ghost predicate Linked(heads: seq<HashEntry?>, buckets: seq<seq<HashEntry>>, entries: set<HashEntry>)
    reads entries`next
  {
    && |heads| == |buckets|
    && (forall b, i :: 0 <= b < |buckets| && 0 <= i < |buckets[b]| ==> buckets[b][i] in entries)
    && forall b :: 0 <= b < |buckets| ==> IsBucket(heads[b], buckets[b], b)
  }

  /** The buckets' entries hold the chains bs. */
  ghost predicate Shape(buckets: seq<seq<HashEntry>>, chains: map<HashEntry, Chain<Handle>>, bs: seq<seq<Chain<Handle>>>)
  {
    && |bs| == |buckets|
    && (forall b :: 0 <= b < |buckets| ==> |buckets[b]| == |bs[b]|)
    && forall b, i :: 0 <= b < |buckets| && 0 <= i < |buckets[b]| ==> buckets[b][i] in chains && chains[buckets[b][i]] == bs[b][i]
  }

  class Table {
    const table: array<HashEntry?>
    const kind: TableType
    ghost var buckets: seq<seq<HashEntry>>
    ghost var chains: map<HashEntry, Chain<Handle>>
    ghost var data: set<DataEntry>
    ghost var log: seq<Insertion<Handle>>

    /** What the buckets hold: the entries are linked into them, and hold their chains. */
    ghost predicate HoldsAll(bs: seq<seq<Chain<Handle>>>)
      reads `buckets, `chains, `data, table, chains.Keys, data
    {
      && |bs| == |buckets| == table.Length
      && Linked(table[..], buckets, chains.Keys) && AllHold(chains, data) && Shape(buckets, chains, bs)
    }

    /** The structure holds what the insertions made so far leave. */
    ghost predicate Valid()
      reads this, table, chains.Keys, data
    {
      LogOf(kind, log) && table.Length > 0 && HoldsAll(Inserted(kind, table.Length, log))
    }

    /** ORLHashTableCreate. */
    constructor (size: nat, kind: TableType)
      requires size > 0
      ensures Valid() && this.kind == kind && table.Length == size && log == []
      ensures fresh(table) && chains == map[] && data == {}
    {
      table := new HashEntry?[size](_ => null);
      this.kind := kind;
      buckets := seq(size, _ => []);
      chains, data, log := map[], {}, [];
    }

    /** The walk along a bucket for the first entry with a key equal to k. */
    method Find(h: nat, k: Key, ghost es: seq<HashEntry>, ghost c: seq<Chain<Handle>>) returns (e: HashEntry?)
      requires h < table.Length && IsBucket(table[h], es, h) && ChainsOf(kind, c) && KeyOf(kind, k)
      requires |es| == |c| && forall i :: 0 <= i < |es| ==> c[i].key == es[i].key
      ensures e == if Lookup(kind, c, k) < |c| then es[Lookup(kind, c, k)] else null
    {
      e := table[h];
      ghost var i := 0;
      while e != null
        invariant 0 <= i <= |es| && e == if i < |es| then es[i] else null
        invariant forall j :: 0 <= j < i ==> !SameKey(kind, c[j].key, k)
        decreases |es| - i
      {
        assert c[i].key == es[i].key && es[i].next == EntryAfter(es, i);
        var same := CompareKeys(kind, e.key, k);
        if same {
          LookupIs(kind, c, k, i);
          return;
        }
        e := e.next;
        i := i + 1;
      }
      LookupIs(kind, c, k, i);
    }

    /** ORLHashTableQuery: the list of the data inserted under keys equal to k, in
        insertion order; null exactly when there is none. */
    method Query(k: Key) returns (first: DataEntry?, ghost items: seq<DataEntry>)
      requires Valid() && KeyOf(kind, k)
      ensures IsList(first, items) && DataOf(items) == Matching(kind, log, k)
    {
      QueryIsMatching(kind, table.Length, log, k);
      first, items := QueryIn(k, Inserted(kind, table.Length, log));
    }

    method QueryIn(k: Key, ghost bs: seq<seq<Chain<Handle>>>) returns (first: DataEntry?, ghost items: seq<DataEntry>)
      requires HoldsAll(bs) && BucketsOf(kind, bs) && |bs| > 0 && KeyOf(kind, k)
      ensures IsList(first, items) && DataOf(items) == HashTable.Query(kind, bs, k)
    {
      hide Shape, AllHold, Linked;
      var h := Hash(kind, table.Length, k);
      KeysHeld(h, bs);
      var e := Find(h, k, buckets[h], bs[h]);
      if e == null {
        return null, [];
      }
      EntryInPlace(e, Lookup(kind, bs[h], k), h, bs);
      return e.dataEntry, e.items;
    }

    lemma KeysHeld(h: nat, bs: seq<seq<Chain<Handle>>>)
      requires HoldsAll(bs) && h < |bs|
      ensures |buckets| == |bs| == table.Length && |buckets[h]| == |bs[h]| && IsBucket(table[h], buckets[h], h)
      ensures forall i :: 0 <= i < |buckets[h]| ==> bs[h][i].key == buckets[h][i].key
    {
      assert table[..][h] == table[h];
      forall i | 0 <= i < |buckets[h]|
        ensures bs[h][i].key == buckets[h][i].key
      {
        assert EntryHolds(buckets[h][i], chains[buckets[h][i]], data);
      }
    }

    /** ORLHashTableInsert. */
    method Insert(k: Key, d: Handle)
      requires Valid() && KeyOf(kind, k)
      modifies this, table, chains.Keys, data
      ensures Valid() && log == old(log) + [Insertion(k, d)]
      ensures fresh(chains.Keys - old(chains.Keys)) && fresh(data - old(data))
    {
      hide HoldsAll, Inserted, HashTable.Insert;
      InsertedSnoc(kind, table.Length, log, Insertion(k, d));
      InsertIn(k, d, Inserted(kind, table.Length, log));
      log := log + [Insertion(k, d)];
    }

    method InsertIn(k: Key, d: Handle, ghost bs: seq<seq<Chain<Handle>>>)
      requires HoldsAll(bs) && BucketsOf(kind, bs) && |bs| > 0 && KeyOf(kind, k)
      modifies this`data, this`chains, this`buckets, table, chains.Keys, data
      ensures HoldsAll(HashTable.Insert(kind, bs, k, d))
      ensures fresh(chains.Keys - old(chains.Keys)) && fresh(data - old(data))
    {
      hide Shape, AllHold, Linked, HashOf, SameKey, KeyOf;
      var n := new DataEntry(d);
      var h := Hash(kind, table.Length, k);
      KeysHeld(h, bs);
      var e := Find(h, k, buckets[h], bs[h]);
      if e != null {
        AppendTo(e, Lookup(kind, bs[h], k), n, h, bs);
      } else {
        PushFront(k, n, h, bs);
      }
    }

    /** An entry with an equal key: the data goes behind its data. */
    method AppendTo(e: HashEntry, ghost i: nat, n: DataEntry, ghost h: nat, ghost bs: seq<seq<Chain<Handle>>>)
      requires HoldsAll(bs) && h < |bs| && i < |bs[h]| && |buckets[h]| == |bs[h]| && buckets[h][i] == e
      requires n.next == null && n.owner == null && n !in data
      modifies this`data, this`chains, chains.Keys`items, data, n
      ensures HoldsAll(bs[h := bs[h][i := Chain(bs[h][i].key, bs[h][i].data + [n.data])]])
      ensures data == old(data) + {n} && chains.Keys == old(chains.Keys)
    {
      hide Shape, AllHold, Linked;
      EntryInPlace(e, i, h, bs);
      ghost var c := Chain(bs[h][i].key, bs[h][i].data + [n.data]);
      ghost var heads, es := table[..], chains.Keys;
      ChangedShape(heads, buckets, chains, bs, h, i, c);
      AppendKeeping(e, n, chains, data);
      assert table[..] == heads && Linked(heads, buckets, es);
      data, chains := data + {n}, chains[e := c];
      assert chains.Keys == es;
    }

    lemma EntryInPlace(e: HashEntry, i: nat, h: nat, bs: seq<seq<Chain<Handle>>>)
      requires HoldsAll(bs) && h < |bs| && i < |bs[h]| && |buckets[h]| == |bs[h]| && buckets[h][i] == e
      ensures |buckets| == |bs| && e in chains && chains[e] == bs[h][i] && bs[h][i].key == e.key
      ensures IsList(e.dataEntry, e.items) && DataOf(e.items) == bs[h][i].data
    {
      assert EntryHolds(e, chains[e], data);
    }

    /** No entry with an equal key: a new one becomes the first of its bucket. */
    method PushFront(k: Key, n: DataEntry, h: nat, ghost bs: seq<seq<Chain<Handle>>>)
      requires HoldsAll(bs) && h < |bs|
      requires n.next == null && n.owner == null && n !in data
      modifies this`data, this`chains, this`buckets, table, n
      ensures HoldsAll(bs[h := [Chain(k, [n.data])] + bs[h]])
      ensures data == old(data) + {n} && fresh(chains.Keys - old(chains.Keys))
    {
      hide Shape, AllHold, Linked;
      KeysHeld(h, bs);
      ghost var heads, es, c := table[..], chains.Keys, Chain(k, [n.data]);
      var x := new HashEntry(k, n, table[h], h, |buckets[h]|);
      assert Linked(heads, buckets, es) && AllHold(chains, data);
      AddedHolds(chains, data, x, c, n);
      PushedShape(buckets, chains, bs, h, x, c);
      PushedLinked(heads, buckets, es, h, x);
      table[h] := x;
      assert table[..] == heads[h := x];
      buckets, chains, data := buckets[h := [x] + buckets[h]], chains[x := c], data + {n};
      assert chains.Keys == es + {x};
    }
  }

  lemma AddedHolds(chains: map<HashEntry, Chain<Handle>>, data: set<DataEntry>, x: HashEntry, c: Chain<Handle>, n: DataEntry)
    requires AllHold(chains, data) && EntryHolds(x, c, data + {n})
    ensures AllHold(chains[x := c], data + {n})
  {
    forall f | f in chains && f != x
      ensures EntryHolds(f, chains[f], data + {n})
    {
      assert EntryHolds(f, chains[f], data);
    }
  }

  lemma PushedLinked(heads: seq<HashEntry?>, buckets: seq<seq<HashEntry>>, es: set<HashEntry>, h: nat, x: HashEntry)
    requires Linked(heads, buckets, es) && h < |buckets|
    requires x.next == heads[h] && x.bucket == h && x.rank == |buckets[h]|
    ensures Linked(heads[h := x], buckets[h := [x] + buckets[h]], es + {x})
  {
    assert IsBucket(heads[h], buckets[h], h);
    assert IsBucket(x, [x] + buckets[h], h) by {
      forall i | 0 < i <= |buckets[h]|
        ensures ([x] + buckets[h])[i] == buckets[h][i - 1] && EntryAfter([x] + buckets[h], i) == EntryAfter(buckets[h], i - 1)
      {
      }
    }
  }

  lemma PushedShape(buckets: seq<seq<HashEntry>>, chains: map<HashEntry, Chain<Handle>>, bs: seq<seq<Chain<Handle>>>,
                       h: nat, x: HashEntry, c: Chain<Handle>)
    requires Shape(buckets, chains, bs) && h < |bs| && x !in chains
    ensures Shape(buckets[h := [x] + buckets[h]], chains[x := c], bs[h := [c] + bs[h]])
  {
  }

  /** Appending to one entry changes no other. */
  method AppendKeeping(e: HashEntry, n: DataEntry, ghost chains: map<HashEntry, Chain<Handle>>, ghost data: set<DataEntry>)
    requires AllHold(chains, data) && e in chains
    requires n.next == null && n.owner == null && n !in data
    modifies e`items, data, n
    ensures AllHold(chains[e := Chain(e.key, chains[e].data + [n.data])], data + {n})
  {
    hide IsList;
    ghost var items := e.items;
    assert EntryHolds(e, chains[e], data);
    e.Append(n);
    assert DataOf(items + [n]) == DataOf(items) + [n.data];
    forall f | f in chains && f != e
      ensures EntryHolds(f, chains[f], data + {n})
    {
      assert old(EntryHolds(f, chains[f], data));
      forall k | 0 <= k < |f.items|
        ensures f.items[k] !in items && f.items[k] in data
      {
        assert old(f.items[k].owner) == f;
      }
    }
  }

  /** An entry has one place in the buckets. */
  lemma ChangedShape(heads: seq<HashEntry?>, buckets: seq<seq<HashEntry>>, chains: map<HashEntry, Chain<Handle>>,
                     bs: seq<seq<Chain<Handle>>>, h: nat, i: nat, c: Chain<Handle>)
    requires Linked(heads, buckets, chains.Keys) && Shape(buckets, chains, bs) && h < |bs| && i < |bs[h]|
    requires |buckets| == |bs| && |buckets[h]| == |bs[h]|
    ensures Shape(buckets, chains[buckets[h][i] := c], bs[h := bs[h][i := c]])
  {
    forall b, j | 0 <= b < |buckets| && 0 <= j < |buckets[b]|
      ensures buckets[b][j].bucket == b && buckets[b][j].rank == |buckets[b]| - 1 - j
    {
      assert IsBucket(heads[b], buckets[b], b);
    }
  }
}
