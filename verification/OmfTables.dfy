/** The growing tables of src/omf/omfmunge.c (segments, COMDATs, groups, name lists) and
    the list of sections with its indices. */
module OmfTables {
  import opened Basics

  const STD_INC := 256

  /** Table indices and counts (omf_idx) have 16 bits. */
  const INDEX_LIMIT := 0x1_0000

  // ---------------------------------------------------------- what a table holds

  /** The count kept after the entries of log have been added. */
  function Count<T>(log: seq<T>): nat
  {
    |log| % INDEX_LIMIT
  }

  /** The index an entry is given, k entries having been added before. */
  function IdOf(k: nat): nat
  {
    (k + 1) % INDEX_LIMIT
  }

  /** Looking an index up: the table holds what was added since the count was last 0. */
  function Find<T>(log: seq<T>, idx: nat): Option<T>
  {
    var num := Count(log);
    if idx == 0 || idx > num then None else Some(log[|log| - num + idx - 1])
  }

  /** Every entry is found under its index exactly while fewer than 2^16 were added. */
  lemma FoundIff<T>(log: seq<T>)
    ensures (forall k :: 0 <= k < |log| ==> Find(log, IdOf(k)) == Some(log[k])) <==> |log| < INDEX_LIMIT
  {
    if |log| < INDEX_LIMIT {
      forall k | 0 <= k < |log|
        ensures Find(log, IdOf(k)) == Some(log[k])
      {
        FoundWhileSmall(log, k);
      }
    } else {
      assert IdOf(INDEX_LIMIT - 1) == 0 && Find(log, 0) == None;
    }
  }

  lemma FoundWhileSmall<T>(log: seq<T>, k: nat)
    requires k < |log| < INDEX_LIMIT
    ensures Find(log, IdOf(k)) == Some(log[k])
  {
    if k + 1 < |log| {
      assert IdOf(k) == k + 1;
    }
  }

  /** Counting one more, modulo 2^16. */
  lemma CountNext<T>(log: seq<T>, x: T)
    ensures Count(log + [x]) == IdOf(|log|) == (Count(log) + 1) % INDEX_LIMIT
    ensures Count(log) + 1 < INDEX_LIMIT ==> Count(log + [x]) == Count(log) + 1
    ensures Count(log) + 1 >= INDEX_LIMIT ==> Count(log + [x]) == 0
    ensures Count(log) <= |log|
  {
  }

  lemma CapacityCovers(num: nat)
    ensures num <= Capacity(num) && (num % STD_INC == 0 ==> Capacity(num) == num)
    ensures Capacity(num + 1) == if num % STD_INC == 0 then num + STD_INC else Capacity(num)
  {
  }

  /** The capacity that holds num entries: the next multiple of the increment. */
  function Capacity(num: nat): nat
  {
    (num + STD_INC - 1) / STD_INC * STD_INC
  }

  /** checkArraySize: before an entry is added to a full table, its array is replaced by
      one with room for another STD_INC entries. The null pointer is an empty array. */
  method CheckArraySize<T>(arr: array<T>, num: nat, zero: T) returns (r: array<T>)
    requires num <= arr.Length && (num > 0 ==> arr.Length == Capacity(num))
    ensures r.Length == Capacity(num + 1) > num && forall i :: 0 <= i < num ==> r[i] == arr[i]
    ensures if num % STD_INC != 0 then r == arr else fresh(r) && forall i :: num <= i < r.Length ==> r[i] == zero
  {
    CapacityCovers(num);
    CapacityCovers(num + 1);
    r := arr;
    if num % STD_INC == 0 {
      r := new T[num + STD_INC](_ => zero);
      forall i | 0 <= i < num {
        r[i] := arr[i];
      }
    }
  }

  /** A table: the array and its count. */
  class Table<T> {
    const zero: T
    var arr: array<T>
    var num: nat
    ghost var log: seq<T>

    ghost predicate Valid()
      reads this, arr
    {
      && num == Count(log) <= arr.Length && (num > 0 ==> arr.Length == Capacity(num))
      && forall k :: 0 <= k < num ==> arr[k] == log[|log| - num + k]
    }

    constructor (zero: T)
      ensures Valid() && log == [] && fresh(arr)
    {
      this.zero := zero;
      arr, num, log := new T[0], 0, [];
    }

    /** Growing the array, storing the entry, and counting it. */
    method Append(x: T) returns (id: nat)
      requires Valid()
      modifies this, arr
      ensures Valid() && log == old(log) + [x] && id == IdOf(|old(log)|)
      ensures arr == old(arr) || fresh(arr)
    {
      hide Count, IdOf, Capacity;
      CountNext(log, x);
      arr := CheckArraySize(arr, num, zero);
      arr[num] := x;
      num := (num + 1) % INDEX_LIMIT;
      id := num;
      log := log + [x];
    }

    /** findSegment, findGroup, findComDat and OmfGetLName. */
    method Lookup(idx: nat) returns (r: Option<T>)
      requires Valid()
      ensures r == Find(log, idx)
    {
      if idx == 0 || idx > num {
        return None;
      }
      return Some(arr[idx - 1]);
    }
  }

  // -------------------------------------------------------------- the section list

  /** OMF_SEC_NEXT_AVAILABLE, and the first index it hands out. The indices below are
      those of the name list, the external names, the relocations, the symbol table and
      the comments, each of which is one section. */
  const NEXT_AVAILABLE := -1
  const DATA_CODE_START := 5

  class SecHandle {
    const index: int
    var next: SecHandle?
    var segId: nat
    ghost const place: nat

    constructor (index: int, ghost place: nat)
      ensures this.index == index && this.place == place && next == null && segId == 0
    {
      this.index, this.place := index, place;
      next, segId := null, 0;
    }
  }

  /** The sections hang together in creation order. */
  ghost predicate IsChain(first: SecHandle?, last: SecHandle?, list: seq<SecHandle>)
    reads list`next
  {
    && (if list == [] then first == null else first == list[0] && last == list[|list| - 1])
    && forall k :: 0 <= k < |list| ==> list[k].place == k && list[k].next == NextIn(list, k)
  }

  function NextIn(list: seq<SecHandle>, k: nat): SecHandle?
  {
    if k + 1 < |list| then list[k + 1] else null
  }

  ghost predicate Distinct(list: seq<SecHandle>)
  {
    forall j, k :: 0 <= j < k < |list| ==> list[j].index != list[k].index
  }

  /** No section has the index. */
  ghost predicate Free(list: seq<SecHandle>, index: int)
  {
    forall k :: 0 <= k < |list| ==> list[k].index != index
  }

  lemma DistinctSnoc(list: seq<SecHandle>, sh: SecHandle)
    ensures Distinct(list + [sh]) <==> Distinct(list) && Free(list, sh.index)
  {
    if Distinct(list + [sh]) {
      forall j, k | 0 <= j < k < |list|
        ensures list[j].index != list[k].index
      {
        assert (list + [sh])[j].index != (list + [sh])[k].index;
      }
      forall k | 0 <= k < |list|
        ensures list[k].index != sh.index
      {
        assert (list + [sh])[k].index != (list + [sh])[|list|].index;
      }
    }
  }

  /** Each section of a table carries the index it is found under. */
  ghost predicate Numbered(log: seq<SecHandle?>, list: seq<SecHandle>)
    reads list`segId
  {
    forall k :: 0 <= k < |log| ==> log[k] != null && log[k] in list && log[k].segId == IdOf(k)
  }

  /** A reserved index belongs to the section in its slot. */
  ghost predicate ReservedIn(reserved: seq<SecHandle?>, list: seq<SecHandle>)
  {
    && |reserved| == DATA_CODE_START
    && (forall k :: 0 <= k < |list| && list[k].index < DATA_CODE_START ==> 0 <= list[k].index && reserved[list[k].index] == list[k])
    && forall i :: 0 <= i < DATA_CODE_START && reserved[i] != null ==> reserved[i] in list && reserved[i].index == i
  }

  lemma NoneReserved(reserved: seq<SecHandle?>)
    requires |reserved| == DATA_CODE_START && forall i :: 0 <= i < |reserved| ==> reserved[i] == null
    ensures ReservedIn(reserved, [])
  {
  }

  lemma ReservedSnoc(reserved: seq<SecHandle?>, list: seq<SecHandle>, sh: SecHandle)
    requires ReservedIn(reserved, list) && 0 <= sh.index
    requires sh.index < DATA_CODE_START ==> reserved[sh.index] == null
    ensures ReservedIn(if sh.index < DATA_CODE_START then reserved[sh.index := sh] else reserved, list + [sh])
  {
  }

  lemma ReservedFree(reserved: seq<SecHandle?>, list: seq<SecHandle>, i: nat)
    requires ReservedIn(reserved, list) && i < DATA_CODE_START && reserved[i] == null
    ensures Free(list, i)
  {
  }

  /** The tail of newSegSection and newComDatSection. */
  method StoreIn(t: Table<SecHandle?>, sh: SecHandle)
    requires t.Valid()
    modifies t, t.arr, sh`segId
    ensures t.Valid() && t.log == old(t.log) + [sh] && sh.segId == IdOf(|old(t.log)|)
    ensures t.arr == old(t.arr) || fresh(t.arr)
  {
    var id := t.Append(sh);
    sh.segId := id;
  }

  lemma NumberedSnoc(log: seq<SecHandle?>, list: seq<SecHandle>, sh: SecHandle)
    requires Numbered(log, list) && sh.segId == IdOf(|log|)
    ensures Numbered(log + [sh], list + [sh])
  {
  }

  lemma NumberedMore(log: seq<SecHandle?>, list: seq<SecHandle>, sh: SecHandle)
    requires Numbered(log, list)
    ensures Numbered(log, list + [sh])
  {
  }

  class Sections {
    var firstSec: SecHandle?
    var lastSec: SecHandle?
    var nextIdx: int
    var numSections: nat
    const segs: Table<SecHandle?>
    const comdats: Table<SecHandle?>
    // the sections with reserved indices
    var reserved: seq<SecHandle?>
    ghost var list: seq<SecHandle>

    /** The list has numSections nodes and ends at lastSec; no two sections share an
        index, and NEXT_AVAILABLE will not hand out one that is taken. */
    ghost predicate Linked()
      reads `firstSec, `lastSec, `nextIdx, `numSections, `list, list`next
    {
      Chained() && Distinct(list)
    }

    ghost predicate Chained()
      reads `firstSec, `lastSec, `nextIdx, `numSections, `list, list`next
    {
      && numSections == |list| && IsChain(firstSec, lastSec, list)
      && (forall k :: 0 <= k < |list| ==> 0 <= list[k].index < nextIdx) && 0 <= nextIdx
    }

    ghost predicate TablesValid()
      reads `list, list`segId, segs, segs.arr, comdats, comdats.arr
    {
      && segs != comdats && segs.arr != comdats.arr && segs.Valid() && comdats.Valid()
      && Numbered(segs.log, list) && Numbered(comdats.log, list)
    }

    ghost predicate Valid()
      reads this, list, segs, segs.arr, comdats, comdats.arr
    {
      Linked() && ReservedIn(reserved, list) && TablesValid()
    }

    constructor ()
      ensures list == [] && segs.log == [] && comdats.log == []
      ensures Valid()
    {
      hide Table<SecHandle?>.Valid, ReservedIn;
      firstSec, lastSec, nextIdx, numSections := null, null, 0, 0;
      segs := new Table(null);
      comdats := new Table(null);
      reserved, list := seq(DATA_CODE_START, _ => null), [];
      new;
      NoneReserved(reserved);
    }

    /** newSection: idx is NEXT_AVAILABLE, or an index that the caller chose. Indices stay
        distinct exactly if no section has the chosen one. */
    method NewSection(idx: int) returns (sh: SecHandle)
      requires Chained() && idx >= NEXT_AVAILABLE
      modifies `firstSec, `lastSec, `nextIdx, `numSections, `list, list`next
      ensures Chained() && list == old(list) + [sh] && fresh(sh) && sh.segId == 0
      ensures Distinct(list) <==> Distinct(old(list)) && (idx == NEXT_AVAILABLE || Free(old(list), idx))
      ensures if idx == NEXT_AVAILABLE then sh.index >= DATA_CODE_START else sh.index == idx
    {
      hide IsChain, Distinct;
      var index := idx;
      if index == NEXT_AVAILABLE {
        if nextIdx < DATA_CODE_START {
          nextIdx := DATA_CODE_START;
        }
        index := nextIdx;
        nextIdx := nextIdx + 1;
      } else if index >= nextIdx {
        nextIdx := index + 1;
      }
      sh := new SecHandle(index, |list|);
      DistinctSnoc(list, sh);
      Link(sh);
    }

    method Link(sh: SecHandle)
      requires numSections == |list| && IsChain(firstSec, lastSec, list)
      requires sh.next == null && sh.place == |list|
      modifies `firstSec, `lastSec, `numSections, `list, list`next
      ensures numSections == |list| && IsChain(firstSec, lastSec, list) && list == old(list) + [sh]
    {
      if firstSec != null {
        lastSec.next := sh;
      } else {
        firstSec := sh;
      }
      lastSec := sh;
      numSections := numSections + 1;
      list := list + [sh];
    }

    /** newSegSection: the array grows if it is full, and the new section's seg_id is the
        count after it is stored. */
    method NewSegSection() returns (sh: SecHandle)
      requires Valid()
      modifies this, list, segs, segs.arr
      ensures Valid() && list == old(list) + [sh] && fresh(sh)
      ensures segs.log == old(segs.log) + [sh] && comdats.log == old(comdats.log)
      ensures reserved == old(reserved) && (segs.arr == old(segs.arr) || fresh(segs.arr))
    {
      hide Chained, Distinct, Free, ReservedIn, Numbered, Table<SecHandle?>.Valid;
      sh := NewSection(NEXT_AVAILABLE);
      ReservedSnoc(reserved, old(list), sh);
      StoreIn(segs, sh);
      NumberedMore(comdats.log, old(list), sh);
      NumberedSnoc(old(segs.log), old(list), sh);
    }

    /** newComDatSection: the same with the other table. */
    method NewComDatSection() returns (sh: SecHandle)
      requires Valid()
      modifies this, list, comdats, comdats.arr
      ensures Valid() && list == old(list) + [sh] && fresh(sh)
      ensures comdats.log == old(comdats.log) + [sh] && segs.log == old(segs.log)
      ensures reserved == old(reserved) && (comdats.arr == old(comdats.arr) || fresh(comdats.arr))
    {
      hide Chained, Distinct, Free, ReservedIn, Numbered, Table<SecHandle?>.Valid;
      sh := NewSection(NEXT_AVAILABLE);
      ReservedSnoc(reserved, old(list), sh);
      StoreIn(comdats, sh);
      NumberedMore(segs.log, old(list), sh);
      NumberedSnoc(old(comdats.log), old(list), sh);
    }

    /** findSegment. */
    method FindSegment(seg: nat) returns (sh: SecHandle?)
      requires Valid()
      ensures Find(segs.log, seg) == if sh == null then None else Some(sh)
    {
      var r := segs.Lookup(seg);
      match r
      case None => sh := null;
      case Some(h) =>
        sh := h;
        assert h in segs.log;
    }

    /** findSegment finds every segment under its own seg_id exactly while fewer than
        2^16 have been created. */
    lemma SegmentsFoundIff()
      requires Valid()
      ensures (forall k :: 0 <= k < |segs.log| ==> segs.log[k] != null && Find(segs.log, segs.log[k].segId) == Some(segs.log[k]))
              <==> |segs.log| < INDEX_LIMIT
    {
      FoundIff(segs.log);
    }

    /** The section with a reserved index, created when it is first needed. */
    method ReservedSection(i: nat) returns (sh: SecHandle)
      requires Valid() && i < DATA_CODE_START
      modifies this, list
      ensures Valid() && sh.index == i && reserved == old(reserved)[i := sh]
      ensures if old(reserved[i]) != null then sh == old(reserved[i]) && list == old(list) else list == old(list) + [sh]
      ensures segs.log == old(segs.log) && comdats.log == old(comdats.log)
    {
      hide Chained, Distinct, Free, Numbered, Table<SecHandle?>.Valid;
      if reserved[i] != null {
        return reserved[i];
      }
      hide ReservedIn;
      ReservedFree(reserved, list, i);
      sh := NewSection(i);
      ReservedSnoc(reserved, old(list), sh);
      NumberedMore(segs.log, old(list), sh);
      NumberedMore(comdats.log, old(list), sh);
      reserved := reserved[i := sh];
    }
  }
}
