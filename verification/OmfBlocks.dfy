/** LIDATA records (A2H/A3H, TIS Relocatable Object Module Format Specification v1.1):
    the block trees they encode, what a tree means, and what becomes of the fixups
    that point into the encoded data. */
module OmfBlocks {
  import opened Basics
  import opened Bytes

  /** A data block; `at` is the offset of its header in the record. A leaf repeats
      its data bytes, a node repeats the concatenation of its blocks. */
  datatype Block =
    | Leaf(repeat: nat, at: nat, data: seq<byte>)
    | Node(repeat: nat, at: nat, kids: seq<Block>)

  datatype Parsed = Parsed(block: Block, end: nat)
  datatype ParsedMany = ParsedMany(blocks: seq<Block>, end: nat)

  /** The width of a repeat count: 2 bytes, or 4 in 32-bit records. */
  predicate IsWordSize(ws: nat)
  {
    ws == 2 || ws == 4
  }

  function UWord(b: seq<byte>, at: nat, ws: nat): nat
    requires IsWordSize(ws) && at + ws <= |b|
  {
    if ws == 4 then Word32(b, at) else Word16(b, at)
  }

  function ParseBlock(b: seq<byte>, pos: nat, ws: nat): (r: Option<Parsed>)
    requires IsWordSize(ws) && pos <= |b|
    ensures r.Some? ==> pos < r.value.end <= |b|
    decreases |b| - pos, 0
  {
    if |b| - pos < ws + 2 then None
    else
      var repeat := UWord(b, pos, ws);
      var count := Word16(b, pos + ws);
      var p := pos + ws + 2;
      if count > 0 then
        var r := ParseBlocks(b, p, count, ws);
        if r.None? then None else Some(Parsed(Node(repeat, pos, r.value.blocks), r.value.end))
      else if p == |b| || |b| - p - 1 < b[p] then None
      else Some(Parsed(Leaf(repeat, pos, b[p + 1..p + 1 + b[p]]), p + 1 + b[p]))
  }

  function ParseBlocks(b: seq<byte>, pos: nat, count: nat, ws: nat): (r: Option<ParsedMany>)
    requires IsWordSize(ws) && pos <= |b|
    ensures r.Some? ==> pos <= r.value.end <= |b| && |r.value.blocks| == count
    decreases |b| - pos, count + 1
  {
    if count == 0 then Some(ParsedMany([], pos))
    else
      var first := ParseBlock(b, pos, ws);
      if first.None? then None else
      var rest := ParseBlocks(b, first.value.end, count - 1, ws);
      if rest.None? then None
      else Some(ParsedMany([first.value.block] + rest.value.blocks, rest.value.end))
  }

  /** A record is a sequence of blocks that fills it. */
  function ParseRecord(b: seq<byte>, pos: nat, ws: nat): Option<seq<Block>>
    requires IsWordSize(ws) && pos <= |b|
    decreases |b| - pos
  {
    if pos == |b| then Some([])
    else
      var first := ParseBlock(b, pos, ws);
      if first.None? then None else
      var rest := ParseRecord(b, first.value.end, ws);
      if rest.None? then None else Some([first.value.block] + rest.value)
  }

  // ---------------------------------------------------------------- meaning

  function Times<T>(s: seq<T>, n: nat): (r: seq<T>)
    ensures |r| == n * |s|
  {
    if n == 0 then [] else assert n * |s| == |s| + (n - 1) * |s|; s + Times(s, n - 1)
  }

  lemma TimesGrows<T>(s: seq<T>, n: nat)
    requires n > 0
    ensures |Times(s, n)| >= |s|
  {
    assert Times(s, n) == s + Times(s, n - 1);
  }

  /** The bytes a block stands for. */
  function Denote(b: Block): seq<byte>
    decreases b, 1
  {
    Times(Body(b), b.repeat)
  }

  /** One repetition. */
  function Body(b: Block): seq<byte>
    decreases b, 0
  {
    match b
    case Leaf(_, _, data) => data
    case Node(_, _, kids) => DenoteAll(kids)
  }

  function DenoteAll(bs: seq<Block>): seq<byte>
    decreases bs, 0
  {
    if bs == [] then [] else Denote(bs[0]) + DenoteAll(bs[1..])
  }

  /** Every repeat count and every data length is positive: the records that
      calcLIDataLength accepts. */
  predicate Positive(b: Block)
  {
    b.repeat > 0 &&
    match b
    case Leaf(_, _, data) => |data| > 0
    case Node(_, _, kids) => |kids| > 0 && AllPositive(kids)
  }

  predicate AllPositive(bs: seq<Block>)
  {
    bs == [] || (Positive(bs[0]) && AllPositive(bs[1..]))
  }

  lemma {:induction false} PositiveMeansBytes(b: Block)
    ensures Positive(b) ==> |Denote(b)| >= |Body(b)| > 0
  {
    if Positive(b) {
      if b.Node? {
        assert AllPositive(b.kids) && Positive(b.kids[0]);
        PositiveMeansBytes(b.kids[0]);
        assert DenoteAll(b.kids) == Denote(b.kids[0]) + DenoteAll(b.kids[1..]);
      }
      TimesGrows(Body(b), b.repeat);
    }
  }

  // ----------------------------------------------------------------- sizing

  /** What calcLIDataLength returns for a block: the length it stands for, cut to
      32 bits at every level, and 0 as soon as some part has length 0. */
  function SizedLength(b: Block): nat
  {
    match b
    case Leaf(repeat, _, data) => (repeat * |data|) % TWO_TO_32
    case Node(repeat, _, kids) => if AllSized(kids) then (repeat * SizedTotal(kids)) % TWO_TO_32 else 0
  }

  predicate AllSized(bs: seq<Block>)
  {
    bs == [] || (SizedLength(bs[0]) > 0 && AllSized(bs[1..]))
  }

  function SizedTotal(bs: seq<Block>): nat
  {
    if bs == [] then 0 else SizedLength(bs[0]) + SizedTotal(bs[1..])
  }

  /** The trees that records encode: a node has at least one block. */
  predicate WellFormed(b: Block)
  {
    b.Node? ==> |b.kids| > 0 && AllWellFormed(b.kids)
  }

  predicate AllWellFormed(bs: seq<Block>)
  {
    bs == [] || (WellFormed(bs[0]) && AllWellFormed(bs[1..]))
  }

  lemma {:induction false} ParsedIsWellFormed(b: seq<byte>, pos: nat, ws: nat)
    requires IsWordSize(ws) && pos <= |b|
    ensures var r := ParseBlock(b, pos, ws); r.Some? ==> WellFormed(r.value.block)
    decreases |b| - pos, 0
  {
    if |b| - pos >= ws + 2 {
      ParsedAllWellFormed(b, pos + ws + 2, Word16(b, pos + ws), ws);
    }
  }

  lemma {:induction false} ParsedAllWellFormed(b: seq<byte>, pos: nat, count: nat, ws: nat)
    requires IsWordSize(ws) && pos <= |b|
    ensures var r := ParseBlocks(b, pos, count, ws); r.Some? ==> AllWellFormed(r.value.blocks)
    decreases |b| - pos, count + 1
  {
    if count > 0 {
      ParsedIsWellFormed(b, pos, ws);
      var first := ParseBlock(b, pos, ws);
      if first.Some? {
        ParsedAllWellFormed(b, first.value.end, count - 1, ws);
      }
    }
  }

  lemma RepeatedLength(n: nat, k: nat)
    requires n * k < TWO_TO_32
    ensures (n * k) % TWO_TO_32 == n * k && (n > 0 ==> k <= n * k) && (n == 0 || k == 0 ==> n * k == 0)
  {
    if n > 0 {
      assert n * k == k + (n - 1) * k;
      assert (n - 1) * k >= 0;
    }
  }

  /** While the expansion is shorter than 2^32 sizing is exact: it returns the length
      of the expansion, or 0 exactly for trees with an empty part. */
  lemma {:induction false} SizingIsExact(b: Block)
    requires |Denote(b)| < TWO_TO_32 && WellFormed(b)
    ensures SizedLength(b) == if Positive(b) then |Denote(b)| else 0
    ensures Positive(b) ==> |Denote(b)| > 0
    decreases b, 0
  {
    RepeatedLength(b.repeat, |Body(b)|);
    if Positive(b) {
      PositiveMeansBytes(b);
    }
    if b.Node? && b.repeat > 0 {
      SizingAllIsExact(b.kids);
    }
  }

  lemma {:induction false} SizingAllIsExact(bs: seq<Block>)
    requires |DenoteAll(bs)| < TWO_TO_32 && AllWellFormed(bs)
    ensures AllSized(bs) <==> AllPositive(bs)
    ensures AllPositive(bs) ==> SizedTotal(bs) == |DenoteAll(bs)|
    decreases bs, 1
  {
    if bs != [] {
      SizingIsExact(bs[0]);
      SizingAllIsExact(bs[1..]);
    }
  }
}
