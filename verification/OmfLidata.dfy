/** Sizing and expanding LIDATA records: calcLIDataLength, writeAndFixupLIData and
    findMatchingFixup of src/omf/omfmunge.c. */
module OmfLidata {
  import opened Basics
  import opened Bytes
  import opened OmfBlocks
  import opened OmfClones

  // ----------------------------------------------------------------- sizing

  function Prepend(done: seq<Block>, r: Option<ParsedMany>): (p: Option<ParsedMany>)
    ensures done == [] ==> p == r
  {
    assert done == [] && r.Some? ==> done + r.value.blocks == r.value.blocks;
    if r.None? then None else Some(ParsedMany(done + r.value.blocks, r.value.end))
  }

  lemma {:induction false} SizedSnoc(bs: seq<Block>, b: Block)
    ensures AllSized(bs + [b]) <==> AllSized(bs) && SizedLength(b) > 0
    ensures SizedTotal(bs + [b]) == SizedTotal(bs) + SizedLength(b)
  {
    if bs == [] {
      assert [b][1..] == [];
    } else {
      SizedSnoc(bs[1..], b);
      assert (bs + [b])[0] == bs[0] && (bs + [b])[1..] == bs[1..] + [b];
    }
  }

  lemma {:induction false} AllSizedOfPrefix(bs: seq<Block>, cs: seq<Block>)
    ensures AllSized(bs + cs) ==> AllSized(bs) && AllSized(cs)
  {
    if bs == [] {
      assert bs + cs == cs;
    } else {
      AllSizedOfPrefix(bs[1..], cs);
      assert (bs + cs)[0] == bs[0] && (bs + cs)[1..] == bs[1..] + cs;
    }
  }

  /** calcLIDataLength: 0 for a block that does not parse or has an empty part;
      otherwise its length (cut to 32 bits), having consumed exactly the block. */
  method CalcLIDataLength(b: seq<byte>, pos: nat, ws: nat) returns (result: nat, end: nat)
    requires IsWordSize(ws) && pos <= |b|
    ensures match ParseBlock(b, pos, ws)
            case None => result == 0
            case Some(p) => result == SizedLength(p.block) && (result > 0 ==> end == p.end)
    ensures pos <= end <= |b|
    decreases |b| - pos, 0
  {
    if |b| - pos < ws + 2 {
      return 0, pos;
    }
    var repeat := UWord(b, pos, ws);
    var block := Word16(b, pos + ws);
    end := pos + ws + 2;
    if block > 0 {
      result, end := CalcBlocks(b, end, block, ws);
    } else {
      if end == |b| || |b| - end - 1 < b[end] {
        return 0, pos;
      }
      result := b[end];
      end := end + result + 1;
    }
    if result == 0 {
      return 0, pos;
    }
    result := (repeat * result) % TWO_TO_32;
  }

  /** The loop over the blocks of a node: 0 as soon as one of them has size 0. */
  method CalcBlocks(b: seq<byte>, pos: nat, count: nat, ws: nat) returns (result: nat, end: nat)
    requires IsWordSize(ws) && pos <= |b| && count > 0
    ensures match ParseBlocks(b, pos, count, ws)
            case None => result == 0
            case Some(p) => result == (if AllSized(p.blocks) then SizedTotal(p.blocks) else 0) && (result > 0 ==> end == p.end)
    ensures pos <= end <= |b|
    decreases |b| - pos, 1
  {
    NothingSized();
    hide ParseBlock, SizedLength, AllSized, SizedTotal;
    result, end := 0, pos;
    var block := count;
    ghost var done := [];
    while block > 0
      invariant 0 <= block <= count && pos <= end <= |b|
      invariant ParseBlocks(b, pos, count, ws) == Prepend(done, ParseBlocks(b, end, block, ws))
      invariant AllSized(done) && result == SizedTotal(done)
    {
      var tmp, next := CalcLIDataLength(b, end, ws);
      if tmp == 0 {
        EmptyPart(done, ParseBlocks(b, end, block, ws));
        return 0, pos;
      }
      PrependStep(b, end, block, ws, done);
      done := SizedMore(done, ParseBlock(b, end, ws).value.block);
      result, end, block := result + tmp, next, block - 1;
    }
    assert done + [] == done;
  }

  lemma NothingSized()
    ensures AllSized([]) && SizedTotal([]) == 0
  {
  }

  ghost method SizedMore(done: seq<Block>, b: Block) returns (more: seq<Block>)
    requires AllSized(done) && SizedLength(b) > 0
    ensures more == done + [b] && AllSized(more) && SizedTotal(more) == SizedTotal(done) + SizedLength(b)
  {
    SizedSnoc(done, b);
    more := done + [b];
  }

  lemma PrependStep(b: seq<byte>, pos: nat, count: nat, ws: nat, done: seq<Block>)
    requires IsWordSize(ws) && pos <= |b| && count > 0 && ParseBlock(b, pos, ws).Some?
    ensures var first := ParseBlock(b, pos, ws).value;
            Prepend(done, ParseBlocks(b, pos, count, ws))
            == Prepend(done + [first.block], ParseBlocks(b, first.end, count - 1, ws))
  {
    var first := ParseBlock(b, pos, ws).value;
    var rest := ParseBlocks(b, first.end, count - 1, ws);
    if rest.Some? {
      assert done + ([first.block] + rest.value.blocks) == done + [first.block] + rest.value.blocks;
    }
  }

  /** A block of size 0 empties the whole node, whatever follows it. */
  lemma EmptyPart(done: seq<Block>, rest: Option<ParsedMany>)
    ensures rest.Some? && |rest.value.blocks| > 0 && SizedLength(rest.value.blocks[0]) == 0
            ==> !AllSized(done + rest.value.blocks)
  {
    if rest.Some? {
      AllSizedOfPrefix(done, rest.value.blocks);
    }
  }

  // -------------------------------------------------------------- expansion

  /** A segment's section: the bytes allocated so far, and where the current data
      record goes. */
  class Section {
    const segId: nat
    const name: nat
    const size: nat
    var contents: seq<byte>
    var curOffset: nat

    constructor (segId: nat, name: nat, size: nat)
      ensures this.segId == segId && this.name == name && this.size == size
      ensures contents == [] && curOffset == 0
    {
      this.segId, this.name, this.size := segId, name, size;
      contents, curOffset := [], 0;
    }
  }

  /** The cursors of a pending LIDATA record, its queued fixups, and the clones. */
  class Lidata {
    var size: nat
    var used: nat
    var offset: nat
    const ws: nat
    var fixups: seq<Fixup>
    var newFixups: seq<Fixup>

    constructor (size: nat, ws: nat)
      ensures this.size == size && this.ws == ws && used == 0 && offset == 0
      ensures fixups == [] && newFixups == []
    {
      this.size, this.ws := size, ws;
      used, offset := 0, 0;
      fixups, newFixups := [], [];
    }
  }

  /** findMatchingFixup: the first fixup of the list, from position `from` on, that
      points into [lo, hi]; the length of the list if there is none. */
  method FindMatchingFixup(fx: seq<Fixup>, from: nat, lo: nat, hi: nat) returns (k: nat)
    requires from <= |fx|
    ensures from <= k <= |fx|
    ensures forall i :: from <= i < k ==> !(lo <= fx[i].offset <= if hi < lo then lo else hi)
    ensures k < |fx| ==> lo <= fx[k].offset <= if hi < lo then lo else hi
  {
    var top := if hi < lo then lo else hi;
    k := from;
    while k < |fx|
      invariant from <= k <= |fx|
      invariant forall i :: from <= i < k ==> !(lo <= fx[i].offset <= top)
    {
      if lo <= fx[k].offset <= top {
        return;
      }
      k := k + 1;
    }
  }

  lemma {:induction false} LeafClonesSkip(fx: seq<Fixup>, from: nat, to: nat, lo: nat, n: nat, off: nat)
    requires from <= to <= |fx|
    requires forall i :: from <= i < to ==> !(lo <= fx[i].offset < lo + n)
    ensures LeafClones(fx[from..], lo, n, off) == LeafClones(fx[to..], lo, n, off)
    decreases |fx| - from
  {
    if from < to {
      assert fx[from..][0] == fx[from] && fx[from..][1..] == fx[from + 1..];
      LeafClonesSkip(fx, from + 1, to, lo, n, off);
    }
  }

  function CloneOf(f: Fixup, lo: nat, off: nat): Fixup
    requires lo <= f.offset
  {
    f.(offset := off + (f.offset - lo))
  }

  /** From a matching fixup to the next match: one clone more. */
  lemma LeafClonesNext(fx: seq<Fixup>, k: nat, k': nat, lo: nat, n: nat, off: nat, q: seq<Fixup>)
    requires k < k' <= |fx| && lo <= fx[k].offset < lo + n
    requires forall i :: k < i < k' ==> !(lo <= fx[i].offset < lo + n)
    ensures q + LeafClones(fx[k..], lo, n, off) == q + [CloneOf(fx[k], lo, off)] + LeafClones(fx[k'..], lo, n, off)
  {
    assert fx[k..][0] == fx[k] && fx[k..][1..] == fx[k + 1..];
    LeafClonesSkip(fx, k + 1, k', lo, n, off);
  }

  /** The fixup loop of a leaf: a clone of every fixup into the data just written, at
      the offset it has in the expansion. */
  method CloneFixups(lidata: Lidata, lo: nat, n: nat)
    requires n > 0
    modifies lidata`newFixups
    ensures lidata.newFixups == old(lidata.newFixups) + LeafClones(lidata.fixups, lo, n, lidata.offset)
  {
    var fx, off := lidata.fixups, lidata.offset;
    ghost var goal := lidata.newFixups + LeafClones(fx, lo, n, off);
    var k := FindMatchingFixup(fx, 0, lo, lo + n - 1);
    LeafClonesSkip(fx, 0, k, lo, n, off);
    assert fx[0..] == fx;
    while k < |fx|
      invariant 0 <= k <= |fx| && (k < |fx| ==> lo <= fx[k].offset < lo + n)
      invariant lidata.newFixups + LeafClones(fx[k..], lo, n, off) == goal
    {
      var k' := FindMatchingFixup(fx, k + 1, lo, lo + n - 1);
      LeafClonesNext(fx, k, k', lo, n, off, lidata.newFixups);
      lidata.newFixups := lidata.newFixups + [CloneOf(fx[k], lo, off)];
      k := k';
    }
  }

  lemma TimesSnoc<T>(s: seq<T>, n: nat)
    ensures Times(s, n + 1) == Times(s, n) + s
  {
    if n > 0 {
      TimesSnoc(s, n - 1);
    }
  }

  /** What an expansion has produced so far: the bytes, and the queue of clones. */
  datatype Output = Output(emitted: seq<byte>, clones: seq<Fixup>)

  function Written(o: Output, d: seq<byte>, clones: seq<Fixup>): Output
  {
    Output(o.emitted + d, o.clones + clones)
  }

  lemma WrittenTwice(o: Output, d: seq<byte>, c: seq<Fixup>, d': seq<byte>, c': seq<Fixup>)
    ensures Written(Written(o, d, c), d', c') == Written(o, d + d', c + c')
  {
  }

  lemma WrittenNothing(o: Output)
    ensures Written(o, [], []) == o
  {
  }

  /** The section, which held `base`, has received the output from offset `at` on, and
      the cursors agree. */
  ghost predicate Holds(lidata: Lidata, sh: Section, base: seq<byte>, at: nat, o: Output)
    reads lidata`offset, lidata`newFixups, sh
  {
    && Room(base, at, o, 0) && sh.contents == Overlay(base, at, o.emitted) && sh.curOffset == at + |o.emitted|
    && lidata.offset == |o.emitted| && lidata.newFixups == o.clones
  }

  predicate Room(base: seq<byte>, at: nat, o: Output, n: nat)
  {
    at + |o.emitted| + n <= |base|
  }

  /** What n repetitions of a block write. */
  ghost function AfterRepeats(o: Output, b: Block, ws: nat, fx: seq<Fixup>, n: nat): Output
  {
    Written(o, Times(EmittedBody(b, ws, fx), n), RepeatedEmitted(b, ws, fx, |o.emitted|, n))
  }

  lemma OneMoreRepeat(o: Output, b: Block, ws: nat, fx: seq<Fixup>, n: nat)
    ensures var o' := AfterRepeats(o, b, ws, fx, n);
            Written(o', EmittedBody(b, ws, fx), BodyEmitted(b, ws, fx, |o'.emitted|)) == AfterRepeats(o, b, ws, fx, n + 1)
  {
    var d := EmittedBody(b, ws, fx);
    TimesSnoc(d, n);
    assert |Times(d, n)| == n * |d|;
    WrittenTwice(o, Times(d, n), RepeatedEmitted(b, ws, fx, |o.emitted|, n), d, BodyEmitted(b, ws, fx, |o.emitted| + n * |d|));
  }

  /** One copy of a leaf's data into the section, with the clones of its fixups. */
  method WriteCopy(lidata: Lidata, sh: Section, data: seq<byte>, lo: nat, ghost base: seq<byte>, ghost at: nat, ghost o: Output)
    requires |data| > 0 && Holds(lidata, sh, base, at, o) && Room(base, at, o, |data|)
    modifies lidata`offset, lidata`newFixups, sh`contents, sh`curOffset
    ensures Holds(lidata, sh, base, at, Written(o, data, LeafClones(lidata.fixups, lo, |data|, |o.emitted|)))
  {
    OverlayAppend(base, at, o.emitted, data);
    sh.contents := Overlay(sh.contents, sh.curOffset, data);
    CloneFixups(lidata, lo, |data|);
    lidata.offset := lidata.offset + |data|;
    sh.curOffset := sh.curOffset + |data|;
  }

  /** The repeat loop of a leaf. */
  method WriteLeaf(lidata: Lidata, sh: Section, data: seq<byte>, count: nat, lo: nat, ghost b: Block,
                   ghost base: seq<byte>, ghost at: nat, ghost o: Output)
    requires b.Leaf? && b.data == data && |data| > 0 && lo == DataStart(b, lidata.ws)
    requires Holds(lidata, sh, base, at, o) && Room(base, at, o, |Times(data, count)|)
    modifies lidata`offset, lidata`newFixups, sh`contents, sh`curOffset
    ensures Holds(lidata, sh, base, at, AfterRepeats(o, b, lidata.ws, lidata.fixups, count))
  {
    ghost var ws, fx, n := lidata.ws, lidata.fixups, 0;
    var repeat := count;
    WrittenNothing(o);
    while repeat > 0
      invariant 0 <= repeat <= count && n == count - repeat && lidata.fixups == fx
      invariant Holds(lidata, sh, base, at, AfterRepeats(o, b, ws, fx, n))
    {
      TimesRoom(data, n, count);
      OneMoreRepeat(o, b, ws, fx, n);
      WriteCopy(lidata, sh, data, lo, base, at, AfterRepeats(o, b, ws, fx, n));
      repeat := repeat - 1;
      n := n + 1;
    }
  }

  lemma {:induction false} ScaleLe(k: nat, a: nat, b: nat)
    requires a <= b
    ensures k * a <= k * b
  {
    if k > 0 {
      ScaleLe(k - 1, a, b);
      assert k * a == (k - 1) * a + a && k * b == (k - 1) * b + b;
    }
  }

  lemma ScaledRoom(e: nat, d: nat, r: nat, n: nat)
    requires e <= d && n < r
    ensures n * e + d <= r * d
  {
    ScaleLe(n, e, d);
    ScaleLe(d, n + 1, r);
    assert d * (n + 1) == n * d + d && d * r == r * d;
  }

  lemma TimesRoom<T>(s: seq<T>, n: nat, r: nat)
    requires n < r
    ensures |Times(s, n)| + |s| <= |Times(s, r)|
  {
    ScaledRoom(|s|, |s|, r, n);
  }

  /** The room reserved for a node covers every repetition. */
  lemma RoomForRepeat(b: Block, ws: nat, fx: seq<Fixup>, n: nat)
    requires n < b.repeat
    ensures |Times(EmittedBody(b, ws, fx), n)| + |Body(b)| <= |Denote(b)|
  {
    EmitsNoMore(b, ws, fx);
    ScaledRoom(|EmittedBody(b, ws, fx)|, |Body(b)|, b.repeat, n);
  }

  /** What a block, or a sequence of blocks, writes. */
  ghost function AfterOne(o: Output, b: Block, ws: nat, fx: seq<Fixup>): Output
  {
    Written(o, Emitted(b, ws, fx), EmittedClones(b, ws, fx, |o.emitted|))
  }

  lemma AfterOneCases(o: Output, b: Block, ws: nat, fx: seq<Fixup>)
    ensures AfterOne(o, b, ws, fx)
            == if PointsInto(fx, b.at, b.at + ws + 2) then o else AfterRepeats(o, b, ws, fx, b.repeat)
  {
    WrittenNothing(o);
  }

  ghost function AfterAll(o: Output, bs: seq<Block>, ws: nat, fx: seq<Fixup>): Output
  {
    Written(o, EmittedAll(bs, ws, fx), AllEmitted(bs, ws, fx, |o.emitted|))
  }

  lemma AfterAllOfNothing(bs: seq<Block>, ws: nat, fx: seq<Fixup>)
    ensures AfterAll(Output([], []), bs, ws, fx) == Output(EmittedAll(bs, ws, fx), AllEmitted(bs, ws, fx, 0))
  {
  }

  /** A failing first block is all that is written; otherwise the rest follows it. */
  lemma KidsStep(o: Output, bs: seq<Block>, ws: nat, fx: seq<Fixup>)
    requires bs != []
    ensures AfterAll(o, bs, ws, fx) == if HitsHeader(bs[0], ws, fx) then AfterOne(o, bs[0], ws, fx)
                                       else AfterAll(AfterOne(o, bs[0], ws, fx), bs[1..], ws, fx)
  {
    var d, c := Emitted(bs[0], ws, fx), EmittedClones(bs[0], ws, fx, |o.emitted|);
    if HitsHeader(bs[0], ws, fx) {
      assert d + [] == d && c + [] == c;
    } else {
      WrittenTwice(o, d, c, EmittedAll(bs[1..], ws, fx), AllEmitted(bs[1..], ws, fx, |o.emitted| + |d|));
    }
  }

  /** The room for the blocks to come, before and after the first of them. */
  lemma RoomNext(base: seq<byte>, at: nat, o: Output, bs: seq<Block>, ws: nat, fx: seq<Fixup>)
    requires bs != [] && Room(base, at, o, |DenoteAll(bs)|)
    ensures Room(base, at, o, |Denote(bs[0])|) && Room(base, at, AfterOne(o, bs[0], ws, fx), |DenoteAll(bs[1..])|)
  {
    hide Denote, EmittedClones;
    EmitsNoMore(bs[0], ws, fx);
  }

  lemma AfterNothing(o: Output, ws: nat, fx: seq<Fixup>)
    ensures AfterAll(o, [], ws, fx) == o
  {
    WrittenNothing(o);
  }

  /** The cursor stands at a block of the record. */
  ghost predicate AtBlock(lidata: Lidata, buffer: seq<byte>, b: Block, end: nat)
    reads lidata
  {
    && IsWordSize(lidata.ws) && lidata.used <= |buffer| && lidata.size == |buffer| - lidata.used
    && ParseBlock(buffer, lidata.used, lidata.ws) == Some(Parsed(b, end)) && Positive(b)
  }

  ghost predicate AtBlocks(lidata: Lidata, buffer: seq<byte>, count: nat, bs: seq<Block>, end: nat)
    reads lidata
  {
    && IsWordSize(lidata.ws) && lidata.used <= |buffer| && lidata.size == |buffer| - lidata.used
    && ParseBlocks(buffer, lidata.used, count, lidata.ws) == Some(ParsedMany(bs, end)) && AllPositive(bs)
  }

  /** The first of the blocks at the cursor, if any are to come. */
  lemma FirstBlock(lidata: Lidata, buffer: seq<byte>, count: nat, bs: seq<Block>, end: nat)
    requires AtBlocks(lidata, buffer, count, bs, end)
    ensures count == 0 ==> bs == [] && lidata.used == end
    ensures count > 0 ==>
              var p := ParseBlock(buffer, lidata.used, lidata.ws);
              && p.Some? && bs != [] && AtBlock(lidata, buffer, bs[0], p.value.end) && AllPositive(bs)
              && lidata.size >= lidata.ws + 2
              && Prepend([bs[0]], ParseBlocks(buffer, p.value.end, count - 1, lidata.ws)) == Some(ParsedMany(bs, end))
  {
  }

  /** What the bytes at the cursor say about the block. */
  lemma BlockParts(lidata: Lidata, buffer: seq<byte>, b: Block, end: nat)
    requires AtBlock(lidata, buffer, b, end)
    ensures var used, ws := lidata.used, lidata.ws;
            && lidata.size >= ws + 2 && b.at == used && b.repeat == UWord(buffer, used, ws) > 0
            && if Word16(buffer, used + ws) > 0 then
                 && b.Node? && AllPositive(b.kids)
                 && ParseBlocks(buffer, used + ws + 2, Word16(buffer, used + ws), ws) == Some(ParsedMany(b.kids, end))
               else
                 && b.Leaf? && used + ws + 3 <= end == used + ws + 3 + buffer[used + ws + 2] <= |buffer|
                 && |b.data| > 0 && b.data == buffer[used + ws + 3..end] && Denote(b) == Times(b.data, b.repeat)
  {
  }

  /** writeAndFixupLIData: expands the block at the cursor into the section, and
      queues the clones of its fixups. It fails when the record ends before the two
      counts, and otherwise exactly when a fixup points at a header it visits; if not, it
      writes the meaning of the block (NoHitEmitsMeaning) and leaves the cursor behind it. */
  method WriteAndFixupLIData(lidata: Lidata, sh: Section, buffer: seq<byte>, ghost b: Block, ghost end: nat,
                             ghost base: seq<byte>, ghost at: nat, ghost o: Output)
    returns (ok: bool)
    requires lidata.size >= lidata.ws + 2 ==>
               AtBlock(lidata, buffer, b, end) && Holds(lidata, sh, base, at, o) && Room(base, at, o, |Denote(b)|)
    modifies lidata`size, lidata`used, lidata`offset, lidata`newFixups, sh`contents, sh`curOffset
    ensures old(lidata.size) < lidata.ws + 2 ==> !ok && unchanged(lidata) && unchanged(sh)
    ensures old(lidata.size) >= lidata.ws + 2 ==>
              && (ok <==> !HitsHeader(b, lidata.ws, lidata.fixups))
              && (ok ==> lidata.used == end && lidata.size == |buffer| - end)
              && Holds(lidata, sh, base, at, AfterOne(o, b, lidata.ws, lidata.fixups))
    decreases b, 1
  {
    hide ParseBlock, ParseBlocks, Positive, AllPositive, Denote, Holds, AfterOne, AfterRepeats, DenoteAll, UWord, Word16;
    var ws, used, size := lidata.ws, lidata.used, lidata.size;
    if size < ws + 2 {
      return false;
    }
    BlockParts(lidata, buffer, b, end);
    AfterOneCases(o, b, ws, lidata.fixups);
    var repeat := UWord(buffer, used, ws);
    var block := Word16(buffer, used + ws);
    var k := FindMatchingFixup(lidata.fixups, 0, used, used + ws + 2);
    used, size := used + ws + 2, size - (ws + 2);
    assert k < |lidata.fixups| <==> PointsInto(lidata.fixups, b.at, b.at + ws + 2);
    if k < |lidata.fixups| {
      return false;
    }
    ok := true;
    if block > 0 {
      ok := WriteNode(lidata, sh, buffer, used, size, repeat, block, b, end, base, at, o);
    } else {
      var tmp := buffer[used];
      used, size := used + 1, size - 1;
      WriteLeaf(lidata, sh, buffer[used..used + tmp], repeat, used, b, base, at, o);
      lidata.size := size - tmp;
      lidata.used := used + tmp;
    }
  }

  /** A repetition of a node is its blocks once more. */
  lemma NodeRepeat(base: seq<byte>, at: nat, o: Output, b: Block, ws: nat, fx: seq<Fixup>, n: nat)
    requires b.Node? && n < b.repeat && Room(base, at, o, |Denote(b)|)
    ensures var o' := AfterRepeats(o, b, ws, fx, n);
            Room(base, at, o', |DenoteAll(b.kids)|) && AfterAll(o', b.kids, ws, fx) == AfterRepeats(o, b, ws, fx, n + 1)
  {
    RoomForRepeat(b, ws, fx, n);
    OneMoreRepeat(o, b, ws, fx, n);
  }

  lemma NoRepeat(o: Output, b: Block, ws: nat, fx: seq<Fixup>)
    ensures AfterRepeats(o, b, ws, fx, 0) == o
  {
    WrittenNothing(o);
  }

  /** The repeat loop of a node. A failing repetition does not stop it. */
  method WriteNode(lidata: Lidata, sh: Section, buffer: seq<byte>, used: nat, size: nat, count: nat, block: nat,
                   ghost b: Block, ghost end: nat, ghost base: seq<byte>, ghost at: nat, ghost o: Output)
    returns (ok: bool)
    requires b.Node? && b.repeat == count > 0 && AllPositive(b.kids)
    requires IsWordSize(lidata.ws) && used <= |buffer| && size == |buffer| - used
    requires ParseBlocks(buffer, used, block, lidata.ws) == Some(ParsedMany(b.kids, end))
    requires Holds(lidata, sh, base, at, o) && Room(base, at, o, |Denote(b)|)
    modifies lidata`size, lidata`used, lidata`offset, lidata`newFixups, sh`contents, sh`curOffset
    ensures ok <==> !AnyHitsHeader(b.kids, lidata.ws, lidata.fixups)
    ensures ok ==> lidata.used == end && lidata.size == |buffer| - end
    ensures Holds(lidata, sh, base, at, AfterRepeats(o, b, lidata.ws, lidata.fixups, count))
    decreases b, 0
  {
    hide AfterRepeats, AfterAll, Holds, Room, Denote, DenoteAll, ParseBlocks, AllPositive, AnyHitsHeader;
    ghost var ws, fx, n := lidata.ws, lidata.fixups, 0;
    var repeat := count;
    NoRepeat(o, b, ws, fx);
    ok := true;
    while repeat > 0
      invariant 0 <= repeat <= count && n == count - repeat && lidata.fixups == fx
      invariant Holds(lidata, sh, base, at, AfterRepeats(o, b, ws, fx, n))
      invariant n > 0 ==> (ok <==> !AnyHitsHeader(b.kids, ws, fx))
      invariant n > 0 && ok ==> lidata.used == end && lidata.size == |buffer| - end
    {
      NodeRepeat(base, at, o, b, ws, fx, n);
      repeat := repeat - 1;
      lidata.used := used;
      lidata.size := size;
      ok := WriteKids(lidata, sh, buffer, block, b.kids, end, base, at, AfterRepeats(o, b, ws, fx, n));
      n := n + 1;
    }
  }

  /** The loop over the blocks of one repetition; it stops at the first failure. */
  method WriteKids(lidata: Lidata, sh: Section, buffer: seq<byte>, block: nat, ghost kids: seq<Block>, ghost end: nat,
                   ghost base: seq<byte>, ghost at: nat, ghost o: Output)
    returns (ok: bool)
    requires AtBlocks(lidata, buffer, block, kids, end)
    requires Holds(lidata, sh, base, at, o) && Room(base, at, o, |DenoteAll(kids)|)
    modifies lidata`size, lidata`used, lidata`offset, lidata`newFixups, sh`contents, sh`curOffset
    ensures ok <==> !AnyHitsHeader(kids, lidata.ws, lidata.fixups)
    ensures ok ==> lidata.used == end && lidata.size == |buffer| - end
    ensures Holds(lidata, sh, base, at, AfterAll(o, kids, lidata.ws, lidata.fixups))
    decreases kids, 0
  {
    hide AfterAll, AfterOne, DenoteAll, Denote, HitsHeader, ParseBlock, ParseBlocks, AtBlock, AllPositive, Prepend, Holds, Room;
    ghost var ws, fx, rest, now := lidata.ws, lidata.fixups, kids, o;
    var x := 0;
    while x < block
      invariant 0 <= x <= block && lidata.fixups == fx && rest == kids[x..]
      invariant AtBlocks(lidata, buffer, block - x, rest, end)
      invariant Holds(lidata, sh, base, at, now) && Room(base, at, now, |DenoteAll(rest)|)
      invariant AfterAll(o, kids, ws, fx) == AfterAll(now, rest, ws, fx)
      invariant AnyHitsHeader(kids, ws, fx) <==> AnyHitsHeader(rest, ws, fx)
    {
      FirstBlock(lidata, buffer, block - x, rest, end);
      ghost var next := ParseBlock(buffer, lidata.used, ws).value.end;
      KidsStep(now, rest, ws, fx);
      RoomNext(base, at, now, rest, ws, fx);
      assert rest[0] in kids;
      ok := WriteAndFixupLIData(lidata, sh, buffer, rest[0], next, base, at, now);
      if !ok {
        return false;
      }
      now := AfterOne(now, rest[0], ws, fx);
      rest := NextBlocks(buffer, next, block - x - 1, ws, rest, end);
      x := x + 1;
    }
    FirstBlock(lidata, buffer, 0, rest, end);
    AfterNothing(now, ws, fx);
    ok := true;
  }

  ghost method NextBlocks(buffer: seq<byte>, next: nat, count: nat, ws: nat, bs: seq<Block>, end: nat) returns (rest: seq<Block>)
    requires IsWordSize(ws) && next <= |buffer| && bs != [] && AllPositive(bs)
    requires Prepend([bs[0]], ParseBlocks(buffer, next, count, ws)) == Some(ParsedMany(bs, end))
    ensures rest == bs[1..] && AllPositive(rest)
    ensures ParseBlocks(buffer, next, count, ws) == Some(ParsedMany(rest, end))
  {
    rest := bs[1..];
  }

  lemma RecordStep(buffer: seq<byte>, pos: nat, ws: nat, bs: seq<Block>)
    requires IsWordSize(ws) && pos <= |buffer| && ParseRecord(buffer, pos, ws) == Some(bs) && AllPositive(bs)
    ensures pos < |buffer| <==> bs != []
    ensures bs != [] ==>
              && ParseBlock(buffer, pos, ws).Some? && ParseBlock(buffer, pos, ws).value.block == bs[0] && Positive(bs[0])
              && ParseRecord(buffer, ParseBlock(buffer, pos, ws).value.end, ws) == Some(bs[1..]) && AllPositive(bs[1..])
  {
    if pos < |buffer| {
      var rest := ParseRecord(buffer, ParseBlock(buffer, pos, ws).value.end, ws).value;
      assert bs == [ParseBlock(buffer, pos, ws).value.block] + rest && bs[1..] == rest;
    }
  }

  /** The loop of expandPrevLIData over the record's own blocks. */
  method WriteRecord(lidata: Lidata, sh: Section, buffer: seq<byte>, ghost blocks: seq<Block>) returns (ok: bool)
    requires IsWordSize(lidata.ws) && lidata.used == 0 && lidata.size == |buffer|
    requires lidata.offset == 0 && lidata.newFixups == []
    requires ParseRecord(buffer, 0, lidata.ws) == Some(blocks) && AllPositive(blocks)
    requires sh.curOffset + |DenoteAll(blocks)| <= |sh.contents|
    modifies lidata`size, lidata`used, lidata`offset, lidata`newFixups, sh`contents, sh`curOffset
    ensures ok <==> !AnyHitsHeader(blocks, lidata.ws, lidata.fixups)
    ensures |EmittedAll(blocks, lidata.ws, lidata.fixups)| <= |DenoteAll(blocks)|
    ensures Holds(lidata, sh, old(sh.contents), old(sh.curOffset), AfterAll(Output([], []), blocks, lidata.ws, lidata.fixups))
  {
    ghost var ws, fx, rest, now := lidata.ws, lidata.fixups, blocks, Output([], []);
    ghost var base, at, goal := sh.contents, sh.curOffset, AfterAll(now, blocks, ws, fx);
    EmitsNoMoreAll(blocks, ws, fx);
    RecordStep(buffer, 0, ws, rest);
    while lidata.size > 0
      invariant lidata.fixups == fx && lidata.used <= |buffer| && lidata.size == |buffer| - lidata.used
      invariant ParseRecord(buffer, lidata.used, ws) == Some(rest) && AllPositive(rest)
      invariant lidata.size > 0 <==> rest != []
      invariant Holds(lidata, sh, base, at, now) && Room(base, at, now, |DenoteAll(rest)|)
      invariant goal == AfterAll(now, rest, ws, fx)
      invariant AnyHitsHeader(blocks, ws, fx) <==> AnyHitsHeader(rest, ws, fx)
      decreases lidata.size
    {
      ghost var next := ParseBlock(buffer, lidata.used, ws).value.end;
      RecordStep(buffer, lidata.used, ws, rest);
      KidsStep(now, rest, ws, fx);
      RoomNext(base, at, now, rest, ws, fx);
      ok := WriteAndFixupLIData(lidata, sh, buffer, rest[0], next, base, at, now);
      if !ok {
        return false;
      }
      now := AfterOne(now, rest[0], ws, fx);
      rest := rest[1..];
      RecordStep(buffer, lidata.used, ws, rest);
    }
    AfterNothing(now, ws, fx);
    ok := true;
  }
}
