/** The fixups that an expanded LIDATA record leaves: one clone for every fixup of the
    record and every emitted byte that comes from the place the fixup points at. */
module OmfClones {
  import opened Bytes
  import opened OmfBlocks

  /** A queued fixup; id is its place in the queue, which stands for its `next` pointer. */
  datatype Fixup = Fixup(id: nat, is32: bool, mode: bool, location: nat, offset: nat,
                         fmethod: nat, fidx: nat, tmethod: nat, tidx: nat, disp: int)

  /** Where a leaf's data starts in the record: after repeat count, block count and length. */
  function DataStart(b: Block, ws: nat): nat
  {
    b.at + ws + 3
  }

  /** Some fixup points into [lo, hi]. */
  predicate PointsInto(fx: seq<Fixup>, lo: nat, hi: nat)
  {
    exists k :: 0 <= k < |fx| && lo <= fx[k].offset <= hi
  }

  /** A fixup points at a header that the expansion visits. The range the source
      tests ends one byte behind the two counts. */
  predicate HitsHeader(b: Block, ws: nat, fx: seq<Fixup>)
  {
    || PointsInto(fx, b.at, b.at + ws + 2)
    || (b.Node? && AnyHitsHeader(b.kids, ws, fx))
  }

  predicate AnyHitsHeader(bs: seq<Block>, ws: nat, fx: seq<Fixup>)
  {
    bs != [] && (HitsHeader(bs[0], ws, fx) || AnyHitsHeader(bs[1..], ws, fx))
  }

  // ---------------------------------------------------------- emission order

  /** The clones for one copy of a leaf's data emitted at off, in list order. */
  function LeafClones(fx: seq<Fixup>, lo: nat, n: nat, off: nat): seq<Fixup>
  {
    if fx == [] then []
    else
      (if lo <= fx[0].offset < lo + n then [fx[0].(offset := off + (fx[0].offset - lo))] else [])
      + LeafClones(fx[1..], lo, n, off)
  }

  function Clones(b: Block, ws: nat, fx: seq<Fixup>, off: nat): seq<Fixup>
    decreases b, 2, 0
  {
    RepeatedClones(b, ws, fx, off, b.repeat)
  }

  function RepeatedClones(b: Block, ws: nat, fx: seq<Fixup>, off: nat, n: nat): seq<Fixup>
    decreases b, 1, n
  {
    if n == 0 then [] else BodyClones(b, ws, fx, off) + RepeatedClones(b, ws, fx, off + |Body(b)|, n - 1)
  }

  function BodyClones(b: Block, ws: nat, fx: seq<Fixup>, off: nat): seq<Fixup>
    decreases b, 0, 0
  {
    match b
    case Leaf(_, _, data) => LeafClones(fx, DataStart(b, ws), |data|, off)
    case Node(_, _, kids) => AllClones(kids, ws, fx, off)
  }

  function AllClones(bs: seq<Block>, ws: nat, fx: seq<Fixup>, off: nat): seq<Fixup>
    decreases bs, 0, 0
  {
    if bs == [] then [] else Clones(bs[0], ws, fx, off) + AllClones(bs[1..], ws, fx, off + |Denote(bs[0])|)
  }

  // --------------------------------------------------------- source positions

  /** For every byte of the expansion, the offset in the record it is copied from. */
  function Trace(b: Block, ws: nat): (t: seq<nat>)
    ensures |t| == |Denote(b)|
    decreases b, 1
  {
    Times(BodyTrace(b, ws), b.repeat)
  }

  function BodyTrace(b: Block, ws: nat): (t: seq<nat>)
    ensures |t| == |Body(b)|
    decreases b, 0
  {
    match b
    case Leaf(_, _, data) => seq(|data|, i => DataStart(b, ws) + i)
    case Node(_, _, kids) => TraceAll(kids, ws)
  }

  function TraceAll(bs: seq<Block>, ws: nat): (t: seq<nat>)
    ensures |t| == |DenoteAll(bs)|
    decreases bs, 0
  {
    if bs == [] then [] else Trace(bs[0], ws) + TraceAll(bs[1..], ws)
  }

  /** The bytes of the expansion are the record's bytes at the traced offsets. */
  ghost predicate ReadsFrom(d: seq<byte>, t: seq<nat>, rec: seq<byte>)
  {
    |d| == |t| && forall i :: 0 <= i < |d| ==> t[i] < |rec| && d[i] == rec[t[i]]
  }

  lemma {:induction false} TimesReadsFrom(d: seq<byte>, t: seq<nat>, n: nat, rec: seq<byte>)
    requires ReadsFrom(d, t, rec)
    ensures ReadsFrom(Times(d, n), Times(t, n), rec)
  {
    if n > 0 {
      TimesReadsFrom(d, t, n - 1, rec);
    }
  }

  lemma {:induction false} ExpansionReadsRecord(rec: seq<byte>, pos: nat, ws: nat)
    requires IsWordSize(ws) && pos <= |rec| && ParseBlock(rec, pos, ws).Some?
    ensures var b := ParseBlock(rec, pos, ws).value.block;
            ReadsFrom(Denote(b), Trace(b, ws), rec)
    decreases |rec| - pos, 0
  {
    var b := ParseBlock(rec, pos, ws).value.block;
    if b.Node? {
      ExpansionsReadRecord(rec, pos + ws + 2, Word16(rec, pos + ws), ws);
    }
    TimesReadsFrom(Body(b), BodyTrace(b, ws), b.repeat, rec);
  }

  lemma {:induction false} ExpansionsReadRecord(rec: seq<byte>, pos: nat, count: nat, ws: nat)
    requires IsWordSize(ws) && pos <= |rec| && ParseBlocks(rec, pos, count, ws).Some?
    ensures var bs := ParseBlocks(rec, pos, count, ws).value.blocks;
            ReadsFrom(DenoteAll(bs), TraceAll(bs, ws), rec)
    decreases |rec| - pos, count + 1
  {
    if count > 0 {
      var first := ParseBlock(rec, pos, ws).value;
      var rest := ParseBlocks(rec, first.end, count - 1, ws).value;
      ExpansionReadsRecord(rec, pos, ws);
      ExpansionsReadRecord(rec, first.end, count - 1, ws);
      var bs := [first.block] + rest.blocks;
      assert bs[1..] == rest.blocks;
    }
  }

  // ------------------------------------------- the clones at each emitted byte

  /** The fixups of a list that point at o, in list order. */
  function At(fx: seq<Fixup>, o: nat): seq<Fixup>
  {
    if fx == [] then [] else (if fx[0].offset == o then [fx[0]] else []) + At(fx[1..], o)
  }

  /** The same fixups moved to o. */
  function MovedTo(fx: seq<Fixup>, o: nat): (r: seq<Fixup>)
    ensures |r| == |fx|
    ensures forall k :: 0 <= k < |fx| ==> r[k] == fx[k].(offset := o)
  {
    seq(|fx|, k requires 0 <= k < |fx| => fx[k].(offset := o))
  }

  ghost predicate Within(fx: seq<Fixup>, lo: nat, hi: nat)
  {
    forall k :: 0 <= k < |fx| ==> lo <= fx[k].offset < hi
  }

  lemma {:induction false} AtConcat(a: seq<Fixup>, b: seq<Fixup>, o: nat)
    ensures At(a + b, o) == At(a, o) + At(b, o)
  {
    if a == [] {
      assert a + b == b;
    } else {
      AtConcat(a[1..], b, o);
      assert (a + b)[0] == a[0] && (a + b)[1..] == a[1..] + b;
      var head := if a[0].offset == o then [a[0]] else [];
      assert head + (At(a[1..], o) + At(b, o)) == head + At(a[1..], o) + At(b, o);
    }
  }

  lemma {:induction false} AtOutside(fx: seq<Fixup>, lo: nat, hi: nat, o: nat)
    requires Within(fx, lo, hi) && !(lo <= o < hi)
    ensures At(fx, o) == []
  {
    if fx != [] {
      AtOutside(fx[1..], lo, hi, o);
    }
  }

  /** The clones emitted for bytes [off, off + |t|) that were copied from the offsets t. */
  ghost predicate FollowTrace(cs: seq<Fixup>, t: seq<nat>, fx: seq<Fixup>, off: nat)
  {
    && Within(cs, off, off + |t|)
    && forall i :: 0 <= i < |t| ==> At(cs, off + i) == MovedTo(At(fx, t[i]), off + i)
  }

  /** One more fixup in front: it yields a clone at one position, or none. */
  lemma LeafHead(fx: seq<Fixup>, lo: nat, n: nat, off: nat, i: nat)
    requires fx != [] && i < n
    requires At(LeafClones(fx[1..], lo, n, off), off + i) == MovedTo(At(fx[1..], lo + i), off + i)
    ensures At(LeafClones(fx, lo, n, off), off + i) == MovedTo(At(fx, lo + i), off + i)
  {
    var rest := LeafClones(fx[1..], lo, n, off);
    if lo <= fx[0].offset < lo + n {
      var c := fx[0].(offset := off + (fx[0].offset - lo));
      assert ([c] + rest)[1..] == rest;
    } else {
      assert [] + rest == rest;
    }
  }

  lemma {:induction false} LeafFollows(fx: seq<Fixup>, lo: nat, n: nat, off: nat)
    ensures FollowTrace(LeafClones(fx, lo, n, off), seq(n, i => lo + i), fx, off)
  {
    if fx != [] {
      LeafFollows(fx[1..], lo, n, off);
      var t := seq(n, i => lo + i);
      forall i | 0 <= i < n
        ensures At(LeafClones(fx, lo, n, off), off + i) == MovedTo(At(fx, t[i]), off + i)
      {
        assert t[i] == lo + i;
        LeafHead(fx, lo, n, off, i);
      }
    }
  }

  lemma {:induction false} FollowConcat(cs: seq<Fixup>, t: seq<nat>, ds: seq<Fixup>, u: seq<nat>, fx: seq<Fixup>, off: nat)
    requires FollowTrace(cs, t, fx, off) && FollowTrace(ds, u, fx, off + |t|)
    ensures FollowTrace(cs + ds, t + u, fx, off)
  {
    forall i | 0 <= i < |t + u|
      ensures At(cs + ds, off + i) == MovedTo(At(fx, (t + u)[i]), off + i)
    {
      AtConcat(cs, ds, off + i);
      if i < |t| {
        AtOutside(ds, off + |t|, off + |t| + |u|, off + i);
      } else {
        AtOutside(cs, off, off + |t|, off + i);
        var k := i - |t|;
        assert At(ds, off + |t| + k) == MovedTo(At(fx, u[k]), off + |t| + k);
      }
    }
  }

  /** For every emitted byte, the clones pointing at it are exactly the fixups that
      point at the byte it was copied from, in their order, moved to the copy. */
  lemma {:induction false} ClonesFollowTrace(b: Block, ws: nat, fx: seq<Fixup>, off: nat)
    ensures FollowTrace(Clones(b, ws, fx, off), Trace(b, ws), fx, off)
    decreases b, 2, 0
  {
    RepeatedFollow(b, ws, fx, off, b.repeat);
  }

  lemma {:induction false} RepeatedFollow(b: Block, ws: nat, fx: seq<Fixup>, off: nat, n: nat)
    ensures FollowTrace(RepeatedClones(b, ws, fx, off, n), Times(BodyTrace(b, ws), n), fx, off)
    decreases b, 1, n
  {
    if n > 0 {
      BodyFollows(b, ws, fx, off);
      RepeatedFollow(b, ws, fx, off + |Body(b)|, n - 1);
      var t := BodyTrace(b, ws);
      var u := Times(t, n - 1);
      FollowConcat(BodyClones(b, ws, fx, off), t, RepeatedClones(b, ws, fx, off + |t|, n - 1), u, fx, off);
      assert Times(t, n) == t + u;
    }
  }

  lemma {:induction false} BodyFollows(b: Block, ws: nat, fx: seq<Fixup>, off: nat)
    ensures FollowTrace(BodyClones(b, ws, fx, off), BodyTrace(b, ws), fx, off)
    decreases b, 0, 0
  {
    match b
    case Leaf(_, _, data) =>
      LeafFollows(fx, DataStart(b, ws), |data|, off);
      assert BodyTrace(b, ws) == seq(|data|, i => DataStart(b, ws) + i);
    case Node(_, _, kids) =>
      AllFollow(kids, ws, fx, off);
  }

  lemma {:induction false} AllFollow(bs: seq<Block>, ws: nat, fx: seq<Fixup>, off: nat)
    ensures FollowTrace(AllClones(bs, ws, fx, off), TraceAll(bs, ws), fx, off)
    decreases bs, 0, 0
  {
    if bs != [] {
      ClonesFollowTrace(bs[0], ws, fx, off);
      AllFollow(bs[1..], ws, fx, off + |Denote(bs[0])|);
      FollowConcat(Clones(bs[0], ws, fx, off), Trace(bs[0], ws),
                   AllClones(bs[1..], ws, fx, off + |Denote(bs[0])|), TraceAll(bs[1..], ws), fx, off);
    }
  }

  // ------------------------------------------------- what the writer emits, hit or not

  /** The bytes written for a block: nothing once a fixup points at its header, and a
      node's repetition ends with the first block in it that has such a header. */
  function Emitted(b: Block, ws: nat, fx: seq<Fixup>): seq<byte>
    decreases b, 1
  {
    if PointsInto(fx, b.at, b.at + ws + 2) then [] else Times(EmittedBody(b, ws, fx), b.repeat)
  }

  function EmittedBody(b: Block, ws: nat, fx: seq<Fixup>): seq<byte>
    decreases b, 0
  {
    match b
    case Leaf(_, _, data) => data
    case Node(_, _, kids) => EmittedAll(kids, ws, fx)
  }

  function EmittedAll(bs: seq<Block>, ws: nat, fx: seq<Fixup>): seq<byte>
    decreases bs, 0
  {
    if bs == [] then []
    else Emitted(bs[0], ws, fx) + (if HitsHeader(bs[0], ws, fx) then [] else EmittedAll(bs[1..], ws, fx))
  }

  /** The clones queued along with them. */
  function EmittedClones(b: Block, ws: nat, fx: seq<Fixup>, off: nat): seq<Fixup>
    decreases b, 2, 0
  {
    if PointsInto(fx, b.at, b.at + ws + 2) then [] else RepeatedEmitted(b, ws, fx, off, b.repeat)
  }

  function RepeatedEmitted(b: Block, ws: nat, fx: seq<Fixup>, off: nat, n: nat): seq<Fixup>
    decreases b, 1, n
  {
    if n == 0 then []
    else RepeatedEmitted(b, ws, fx, off, n - 1) + BodyEmitted(b, ws, fx, off + (n - 1) * |EmittedBody(b, ws, fx)|)
  }

  function BodyEmitted(b: Block, ws: nat, fx: seq<Fixup>, off: nat): seq<Fixup>
    decreases b, 0, 0
  {
    match b
    case Leaf(_, _, data) => LeafClones(fx, DataStart(b, ws), |data|, off)
    case Node(_, _, kids) => AllEmitted(kids, ws, fx, off)
  }

  function AllEmitted(bs: seq<Block>, ws: nat, fx: seq<Fixup>, off: nat): seq<Fixup>
    decreases bs, 0, 0
  {
    if bs == [] then []
    else EmittedClones(bs[0], ws, fx, off)
         + if HitsHeader(bs[0], ws, fx) then [] else AllEmitted(bs[1..], ws, fx, off + |Emitted(bs[0], ws, fx)|)
  }

  /** Without a hit the writer emits the block's meaning and its clones. */
  lemma {:induction false} NoHitEmitsMeaning(b: Block, ws: nat, fx: seq<Fixup>, off: nat)
    requires !HitsHeader(b, ws, fx)
    ensures Emitted(b, ws, fx) == Denote(b) && EmittedClones(b, ws, fx, off) == Clones(b, ws, fx, off)
    decreases b, 2, 0
  {
    NoHitRepeated(b, ws, fx, off, b.repeat);
  }

  lemma {:induction false} RepeatedSnoc(b: Block, ws: nat, fx: seq<Fixup>, off: nat, n: nat)
    ensures RepeatedClones(b, ws, fx, off, n + 1) == RepeatedClones(b, ws, fx, off, n) + BodyClones(b, ws, fx, off + n * |Body(b)|)
    decreases n
  {
    var k := |Body(b)|;
    var first := BodyClones(b, ws, fx, off);
    if n == 0 {
      assert RepeatedClones(b, ws, fx, off, 1) == first + RepeatedClones(b, ws, fx, off + k, 0);
      assert first + [] == [] + first;
    } else {
      RepeatedSnoc(b, ws, fx, off + k, n - 1);
      assert off + k + (n - 1) * k == off + n * k;
      var rest, last := RepeatedClones(b, ws, fx, off + k, n - 1), BodyClones(b, ws, fx, off + n * k);
      assert first + (rest + last) == first + rest + last;
    }
  }

  lemma {:induction false} NoHitRepeated(b: Block, ws: nat, fx: seq<Fixup>, off: nat, n: nat)
    requires !HitsHeader(b, ws, fx)
    ensures EmittedBody(b, ws, fx) == Body(b)
    ensures RepeatedEmitted(b, ws, fx, off, n) == RepeatedClones(b, ws, fx, off, n)
    decreases b, 1, n
  {
    if n > 0 {
      NoHitRepeated(b, ws, fx, off, n - 1);
      var last := off + (n - 1) * |Body(b)|;
      NoHitBody(b, ws, fx, last);
      assert RepeatedClones(b, ws, fx, off, n) == RepeatedClones(b, ws, fx, off, n - 1) + BodyClones(b, ws, fx, last) by {
        RepeatedSnoc(b, ws, fx, off, n - 1);
      }
    } else {
      NoHitBody(b, ws, fx, off);
    }
  }

  lemma {:induction false} NoHitBody(b: Block, ws: nat, fx: seq<Fixup>, off: nat)
    requires !HitsHeader(b, ws, fx)
    ensures EmittedBody(b, ws, fx) == Body(b) && BodyEmitted(b, ws, fx, off) == BodyClones(b, ws, fx, off)
    decreases b, 0, 0
  {
    if b.Node? {
      NoHitAll(b.kids, ws, fx, off);
    }
  }

  lemma {:induction false} NoHitAll(bs: seq<Block>, ws: nat, fx: seq<Fixup>, off: nat)
    requires !AnyHitsHeader(bs, ws, fx)
    ensures EmittedAll(bs, ws, fx) == DenoteAll(bs) && AllEmitted(bs, ws, fx, off) == AllClones(bs, ws, fx, off)
    decreases bs, 0, 0
  {
    if bs != [] {
      NoHitEmitsMeaning(bs[0], ws, fx, off);
      NoHitAll(bs[1..], ws, fx, off + |Denote(bs[0])|);
    }
  }

  /** The writer never emits more than the block stands for. */
  lemma {:induction false} EmitsNoMore(b: Block, ws: nat, fx: seq<Fixup>)
    ensures |Emitted(b, ws, fx)| <= |Denote(b)| && |EmittedBody(b, ws, fx)| <= |Body(b)|
    decreases b, 1
  {
    if b.Node? {
      EmitsNoMoreAll(b.kids, ws, fx);
    }
    var e, d, n := |EmittedBody(b, ws, fx)|, |Body(b)|, b.repeat;
    assert n * (d - e) >= 0 && n * (d - e) == n * d - n * e;
  }

  lemma {:induction false} EmitsNoMoreAll(bs: seq<Block>, ws: nat, fx: seq<Fixup>)
    ensures |EmittedAll(bs, ws, fx)| <= |DenoteAll(bs)|
    decreases bs, 0
  {
    if bs != [] {
      EmitsNoMore(bs[0], ws, fx);
      EmitsNoMoreAll(bs[1..], ws, fx);
    }
  }
}
