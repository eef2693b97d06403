/** What a module's data records mean, and the proof that the pending-work machine
    computes it: the bytes of every segment are those of the last record that wrote
    them, plus the backpatches made since, on a background of zeros. */
module OmfOverlay {
  import opened Basics
  import opened Bytes
  import opened OmfBlocks
  import opened OmfClones
  import opened OmfWork

  datatype Write =
    | Image(seg: nat, at: nat, bytes: seq<byte>)
    | Patch(seg: nat, at: nat, width: Width, disp: int)

  /** A word after disp is added to it, modulo its width. */
  function Added(w: seq<byte>, disp: int): (r: seq<byte>)
    ensures |r| == |w|
  {
    Digits((LittleEndian(w) + disp) % Radix(|w|), |w|)
  }

  lemma AddedValue(w: seq<byte>, disp: int)
    ensures LittleEndian(Added(w, disp)) == (LittleEndian(w) + disp) % Radix(|w|)
  {
    hide LittleEndian, Digits, Radix;
    Residue(LittleEndian(w) + disp, Radix(|w|));
    DigitsValue((LittleEndian(w) + disp) % Radix(|w|), |w|);
  }

  lemma Residue(x: int, m: nat)
    requires m > 0
    ensures 0 <= x % m < m
  {
  }

  /** Byte i of a segment after some writes, the last one winning. */
  function ByteAt(ws: seq<Write>, seg: nat, i: nat): byte
    decreases |ws|, 0
  {
    if ws == [] then 0
    else
      var w, before := ws[|ws| - 1], ws[..|ws| - 1];
      if w.seg != seg then ByteAt(before, seg, i)
      else match w
        case Image(_, at, bytes) => if at <= i < at + |bytes| then bytes[i - at] else ByteAt(before, seg, i)
        case Patch(_, at, width, disp) =>
          if at <= i < at + width.Size() then Added(WordAt(before, seg, at, width.Size()), disp)[i - at] else ByteAt(before, seg, i)
  }

  function WordAt(ws: seq<Write>, seg: nat, at: nat, width: nat): (r: seq<byte>)
    ensures |r| == width
    decreases |ws|, 1
  {
    seq<byte>(width, k requires 0 <= k < width => ByteAt(ws, seg, at + k))
  }

  /** Byte i of a segment, 0 where nothing has been allocated. */
  function Cell(secs: seq<SecState>, seg: nat, i: nat): byte
    requires 1 <= seg <= |secs|
  {
    var c := secs[seg - 1].contents;
    if i < |c| then c[i] else 0
  }

  ghost predicate Reflects(secs: seq<SecState>, ws: seq<Write>)
  {
    forall seg, i :: 1 <= seg <= |secs| && 0 <= i ==> Cell(secs, seg, i) == ByteAt(ws, seg, i)
  }

  /** The writes a record stands for. A LIDATA record leaves its raw bytes first and
      its expansion over them. */
  function Meaning(ev: Event): (r: seq<Write>)
    requires ValidEvent(ev)
  {
    match ev
    case LEDATA(seg, offset, data) => [Image(seg, offset, data)]
    case LIDATA(ws, seg, offset, data) => [Image(seg, offset, data), Image(seg, offset, Expansion(data, ws))]
    case FIXUPP(_) => []
    case BAKPAT(loctype, location, seg, disp) =>
      if BakpatWidth(loctype).Some? then [Patch(seg, location, BakpatWidth(loctype).value, disp)] else []
    case MODEND => []
  }

  function Expansion(raw: seq<byte>, ws: nat): seq<byte>
    requires IsWordSize(ws)
  {
    var bs := ParseRecord(raw, 0, ws);
    if bs.None? then [] else DenoteAll(bs.value)
  }

  function Writes(evs: seq<Event>): (r: seq<Write>)
    requires forall k :: 0 <= k < |evs| ==> ValidEvent(evs[k])
  {
    if evs == [] then [] else Meaning(evs[0]) + Writes(evs[1..])
  }

  /** The writes that the machine still owes. */
  function PatchWrites(q: seq<Bkfix>): (r: seq<Write>)
    ensures |r| == |q|
  {
    seq(|q|, k requires 0 <= k < |q| => Patch(q[k].seg, q[k].offset, q[k].width, q[k].disp))
  }

  function PendingWrites(st: State): (r: seq<Write>)
    requires Inv(st)
  {
    (if st.lidata.Some? then [Image(st.work.value, st.secs[st.work.value - 1].cur, DenoteAll(PendingBlocks(st).value))] else [])
    + if st.bakpat.Some? then PatchWrites(st.bakpat.value) else []
  }

  // --------------------------------------------------------------- one write

  lemma ImageReflects(secs: seq<SecState>, secs': seq<SecState>, ws: seq<Write>, seg: nat, at: nat, data: seq<byte>)
    requires Reflects(secs, ws) && 1 <= seg <= |secs|
    requires |secs'| == |secs| && forall k :: 0 <= k < |secs| && k != seg - 1 ==> secs'[k].contents == secs[k].contents
    requires var c, c' := secs[seg - 1].contents, secs'[seg - 1].contents;
             && |c| <= |c'| && at + |data| <= |c'| && (forall i :: at <= i < at + |data| ==> c'[i] == data[i - at])
             && forall i :: 0 <= i < |c'| && !(at <= i < at + |data|) ==> c'[i] == if i < |c| then c[i] else 0
    ensures Reflects(secs', ws + [Image(seg, at, data)])
  {
    var ws' := ws + [Image(seg, at, data)];
    assert ws'[..|ws|] == ws;
    forall s, i | 1 <= s <= |secs'| && 0 <= i
      ensures Cell(secs', s, i) == ByteAt(ws', s, i)
    {
      assert Cell(secs, s, i) == ByteAt(ws, s, i);
    }
  }

  lemma ByteAfterPatch(ws: seq<Write>, seg: nat, at: nat, width: Width, disp: int, s: nat, i: nat)
    ensures ByteAt(ws + [Patch(seg, at, width, disp)], s, i)
            == if s == seg && at <= i < at + width.Size()
               then Added(WordAt(ws, seg, at, width.Size()), disp)[i - at] else ByteAt(ws, s, i)
  {
    var ws' := ws + [Patch(seg, at, width, disp)];
    assert ws'[..|ws'| - 1] == ws && ws'[|ws'| - 1] == Patch(seg, at, width, disp);
  }

  /** What the source does to a word of each width is that addition. */
  lemma PatchedAdds(w: seq<byte>, width: Width, disp: int)
    requires |w| == width.Size()
    ensures Patched(w, width, disp) == Added(w, disp)
  {
    hide LittleEndian, Word16, Word32;
    WordsAreLittleEndian(w, 0);
    assert w[0..|w|] == w && Radix(1) == TWO_TO_8 && Radix(2) == TWO_TO_16 && Radix(4) == TWO_TO_32 by { SmallRadix(); }
    match width
    case W8 =>
      assert LittleEndian(w) == w[0] by { OneByte(w); }
      DigitsOfPut((w[0] + disp) % TWO_TO_8);
    case W16 => DigitsOfPut((Word16(w, 0) + disp) % TWO_TO_16);
    case W32 => DigitsOfPut((Word32(w, 0) + disp) % TWO_TO_32);
  }

  lemma OneByte(w: seq<byte>)
    requires |w| == 1
    ensures LittleEndian(w) == w[0]
  {
    assert w[1..] == [];
  }

  lemma SmallRadix()
    ensures Radix(1) == TWO_TO_8 && Radix(2) == TWO_TO_16 && Radix(4) == TWO_TO_32
  {
    assert Radix(0) == 1 && Radix(3) == TWO_TO_8 * Radix(2);
  }

  lemma DigitsOfPut(v: nat)
    ensures v < TWO_TO_8 ==> Digits(v, 1) == [v]
    ensures v < TWO_TO_16 ==> Digits(v, 2) == Put16(v)
    ensures v < TWO_TO_32 ==> Digits(v, 4) == Put32(v)
  {
    hide Digits, Put16;
    if v < TWO_TO_8 {
      OneDigit(v);
    }
    if v < TWO_TO_16 {
      TwoDigits(v);
    }
    if v < TWO_TO_32 {
      TwoDigits(v % TWO_TO_16);
      TwoDigits(v / TWO_TO_16);
      FourDigits(v);
    }
  }

  lemma OneDigit(v: nat)
    requires v < TWO_TO_8
    ensures Digits(v, 1) == [v]
  {
    assert Digits(v, 1) == [v % TWO_TO_8] + Digits(v / TWO_TO_8, 0);
  }

  lemma TwoDigits(v: nat)
    requires v < TWO_TO_16
    ensures Digits(v, 2) == Put16(v)
  {
    var h := v / TWO_TO_8;
    assert Digits(h, 1) == [h % TWO_TO_8] + Digits(h / TWO_TO_8, 0);
    assert Digits(v, 2) == [v % TWO_TO_8] + Digits(h, 1);
  }

  lemma FourDigits(v: nat)
    requires v < TWO_TO_32
    ensures Digits(v, 4) == Digits(v % TWO_TO_16, 2) + Digits(v / TWO_TO_16, 2)
  {
    var l, h := v % TWO_TO_16, v / TWO_TO_16;
    assert v / TWO_TO_8 / TWO_TO_8 == h && v % TWO_TO_8 == l % TWO_TO_8 && v / TWO_TO_8 % TWO_TO_8 == l / TWO_TO_8 % TWO_TO_8;
    hide Digits;
    FirstDigits(v, 2);
    FirstDigits(l, 0);
    FirstDigits(l / TWO_TO_8 / TWO_TO_8, 0);
  }

  lemma FirstDigits(v: nat, n: nat)
    ensures Digits(v, n + 2) == [v % TWO_TO_8, v / TWO_TO_8 % TWO_TO_8] + Digits(v / TWO_TO_8 / TWO_TO_8, n)
    ensures Digits(v, 0) == []
  {
    var h := v / TWO_TO_8;
    assert Digits(v, n + 2) == [v % TWO_TO_8] + Digits(h, n + 1);
    assert Digits(h, n + 1) == [h % TWO_TO_8] + Digits(h / TWO_TO_8, n);
  }

  lemma WordReflected(secs: seq<SecState>, ws: seq<Write>, seg: nat, at: nat, n: nat)
    requires Reflects(secs, ws) && 1 <= seg <= |secs| && at + n <= |secs[seg - 1].contents|
    ensures WordAt(ws, seg, at, n) == secs[seg - 1].contents[at..at + n]
  {
    forall k | 0 <= k < n
      ensures WordAt(ws, seg, at, n)[k] == secs[seg - 1].contents[at..at + n][k]
    {
      assert Cell(secs, seg, at + k) == ByteAt(ws, seg, at + k);
    }
  }

  lemma ModInjective(x: nat, y: nat, d: int, m: nat)
    requires m == TWO_TO_8 || m == TWO_TO_16 || m == TWO_TO_32
    requires x < m && y < m && (x + d) % m == (y + d) % m
    ensures x == y
  {
    if m == TWO_TO_8 {
      assert (x + d) % TWO_TO_8 == (y + d) % TWO_TO_8;
    } else if m == TWO_TO_16 {
      assert (x + d) % TWO_TO_16 == (y + d) % TWO_TO_16;
    } else {
      assert (x + d) % TWO_TO_32 == (y + d) % TWO_TO_32;
    }
  }

  /** Adding can be undone: different words stay different. */
  lemma PatchedInjective(a: seq<byte>, b: seq<byte>, width: Width, disp: int)
    requires |a| == |b| == width.Size() && Patched(a, width, disp) == Patched(b, width, disp)
    ensures a == b
  {
    hide Put16, Put32, Word16, Word32;
    match width
    case W8 =>
      assert [(a[0] + disp) % TWO_TO_8][0] == [(b[0] + disp) % TWO_TO_8][0];
      ModInjective(a[0], b[0], disp, TWO_TO_8);
    case W16 =>
      PutInjective((Word16(a, 0) + disp) % TWO_TO_16, (Word16(b, 0) + disp) % TWO_TO_16);
      ModInjective(Word16(a, 0), Word16(b, 0), disp, TWO_TO_16);
      SameWord16(a, b, 0);
    case W32 =>
      PutInjective((Word32(a, 0) + disp) % TWO_TO_32, (Word32(b, 0) + disp) % TWO_TO_32);
      ModInjective(Word32(a, 0), Word32(b, 0), disp, TWO_TO_32);
      SameWord32(a, b);
  }

  lemma SameWord16(a: seq<byte>, b: seq<byte>, at: nat)
    requires at + 2 <= |a| == |b| && Word16(a, at) == Word16(b, at)
    ensures a[at] == b[at] && a[at + 1] == b[at + 1]
  {
  }

  lemma SameWord32(a: seq<byte>, b: seq<byte>)
    requires |a| == |b| == 4 && Word32(a, 0) == Word32(b, 0)
    ensures a == b
  {
    assert Word16(a, 0) == Word16(b, 0) && Word16(a, 2) == Word16(b, 2) by { hide Word16; }
    SameWord16(a, b, 0);
    SameWord16(a, b, 2);
  }

  lemma PutInjective(u: nat, v: nat)
    requires u < TWO_TO_32 && v < TWO_TO_32
    ensures u < TWO_TO_16 && v < TWO_TO_16 && Put16(u) == Put16(v) ==> u == v
    ensures Put32(u) == Put32(v) ==> u == v
  {
    if u < TWO_TO_16 && v < TWO_TO_16 && Put16(u) == Put16(v) {
      Word16OfPut16(Put16(u), 0, u);
      Word16OfPut16(Put16(v), 0, v);
    }
    if Put32(u) == Put32(v) {
      Word32OfPut32(Put32(u), 0, u);
      Word32OfPut32(Put32(v), 0, v);
    }
  }

  /** A backpatch keeps what is reflected, and cannot repair what is not. */
  lemma PatchReflects(secs: seq<SecState>, secs': seq<SecState>, ws: seq<Write>, seg: nat, at: nat, width: Width, disp: int)
    requires 1 <= seg <= |secs| && at + width.Size() <= |secs[seg - 1].contents|
    requires secs' == secs[seg - 1 := secs[seg - 1].(contents := PatchContents(secs[seg - 1].contents, at, width, disp))]
    ensures Reflects(secs, ws) <==> Reflects(secs', ws + [Patch(seg, at, width, disp)])
  {
    if Reflects(secs, ws) {
      PatchAdds(secs, secs', ws, seg, at, width, disp);
    }
    if Reflects(secs', ws + [Patch(seg, at, width, disp)]) {
      PatchUndone(secs, secs', ws, seg, at, width, disp);
    }
  }

  lemma PatchAdds(secs: seq<SecState>, secs': seq<SecState>, ws: seq<Write>, seg: nat, at: nat, width: Width, disp: int)
    requires Reflects(secs, ws) && 1 <= seg <= |secs| && at + width.Size() <= |secs[seg - 1].contents|
    requires secs' == secs[seg - 1 := secs[seg - 1].(contents := PatchContents(secs[seg - 1].contents, at, width, disp))]
    ensures Reflects(secs', ws + [Patch(seg, at, width, disp)])
  {
    hide Patched, Added, ByteAt, WordAt;
    WordReflected(secs, ws, seg, at, width.Size());
    PatchedAdds(WordAt(ws, seg, at, width.Size()), width, disp);
    forall s, i | 1 <= s <= |secs'| && 0 <= i
      ensures Cell(secs', s, i) == ByteAt(ws + [Patch(seg, at, width, disp)], s, i)
    {
      ByteAfterPatch(ws, seg, at, width, disp, s, i);
      assert Cell(secs, s, i) == ByteAt(ws, s, i);
    }
  }

  lemma PatchUndone(secs: seq<SecState>, secs': seq<SecState>, ws: seq<Write>, seg: nat, at: nat, width: Width, disp: int)
    requires 1 <= seg <= |secs| && at + width.Size() <= |secs[seg - 1].contents|
    requires secs' == secs[seg - 1 := secs[seg - 1].(contents := PatchContents(secs[seg - 1].contents, at, width, disp))]
    requires Reflects(secs', ws + [Patch(seg, at, width, disp)])
    ensures Reflects(secs, ws)
  {
    hide Patched, Added, ByteAt, WordAt;
    PatchedAdds(WordAt(ws, seg, at, width.Size()), width, disp);
    var n, c := width.Size(), secs[seg - 1].contents;
    var p, q := Patched(c[at..at + n], width, disp), Patched(WordAt(ws, seg, at, n), width, disp);
    forall k | 0 <= k < n
      ensures p[k] == q[k]
    {
      ByteAfterPatch(ws, seg, at, width, disp, seg, at + k);
      assert Cell(secs', seg, at + k) == ByteAt(ws + [Patch(seg, at, width, disp)], seg, at + k);
    }
    assert p == q;
    PatchedInjective(c[at..at + n], WordAt(ws, seg, at, n), width, disp);
    forall s, i | 1 <= s <= |secs| && 0 <= i
      ensures Cell(secs, s, i) == ByteAt(ws, s, i)
    {
      ByteAfterPatch(ws, seg, at, width, disp, s, i);
      assert Cell(secs', s, i) == ByteAt(ws + [Patch(seg, at, width, disp)], s, i);
      if s == seg && at <= i < at + n {
        WordByte(ws, seg, at, n, i - at);
        assert c[at..at + n][i - at] == c[i];
      }
    }
  }

  lemma WordByte(ws: seq<Write>, seg: nat, at: nat, n: nat, k: nat)
    requires k < n
    ensures WordAt(ws, seg, at, n)[k] == ByteAt(ws, seg, at + k)
  {
  }

  lemma PatchWritesCons(q: seq<Bkfix>, ws: seq<Write>)
    requires q != []
    ensures ws + [Patch(q[0].seg, q[0].offset, q[0].width, q[0].disp)] + PatchWrites(q[1..]) == ws + PatchWrites(q)
  {
    assert PatchWrites(q) == [Patch(q[0].seg, q[0].offset, q[0].width, q[0].disp)] + PatchWrites(q[1..]);
  }

  /** Each backpatch of the queue is applied once, in order; the contents are right after
      them exactly if they were right before. */
  lemma {:induction false} QueueReflects(st: State, q: seq<Bkfix>, ws: seq<Write>)
    requires ApplyAll(st, q).0.Okay?
    ensures Reflects(st.secs, ws) <==> Reflects(ApplyAll(st, q).1.secs, ws + PatchWrites(q))
    decreases |q|
  {
    if q == [] {
      assert ws + PatchWrites(q) == ws;
    } else {
      hide PatchContents, Reflects;
      var b := q[0];
      var s := st.secs[b.seg - 1];
      var st' := WithSec(st, b.seg, s.(contents := PatchContents(s.contents, b.offset, b.width, b.disp)));
      PatchReflects(st.secs, st'.secs, ws, b.seg, b.offset, b.width, b.disp);
      QueueReflects(st', q[1..], ws + [Patch(b.seg, b.offset, b.width, b.disp)]);
      PatchWritesCons(q, ws);
    }
  }

  // ----------------------------------------------------------- pending work

  /** The pending expansion will be abandoned, and the backpatches queued behind it
      will hide that. */
  predicate Masked(st: State)
    requires Inv(st)
  {
    && st.lidata.Some? && st.addBakpat
    && AnyHitsHeader(PendingBlocks(st).value, st.lidata.value.ws, st.lidata.value.fixups)
  }

  /** What an expansion, abandoned or not, leaves in its place is what it stands for: the
      bytes it wrote, and behind them what was there already. */
  predicate LeftRight(st: State)
    requires Inv(st) && st.lidata.Some?
  {
    var p, s, blocks := st.lidata.value, st.secs[st.work.value - 1], PendingBlocks(st).value;
    var d, e := DenoteAll(blocks), EmittedAll(blocks, p.ws, p.fixups);
    s.cur + |d| <= |s.contents| && forall i :: 0 <= i < |d| ==> d[i] == if i < |e| then e[i] else s.contents[s.cur + i]
  }

  /** Only an expansion that is abandoned can leave anything else. */
  lemma CompleteLeavesRight(st: State)
    requires Inv(st) && st.lidata.Some?
    requires var s := st.secs[st.work.value - 1]; s.cur + |DenoteAll(PendingBlocks(st).value)| <= |s.contents|
    requires !AnyHitsHeader(PendingBlocks(st).value, st.lidata.value.ws, st.lidata.value.fixups)
    ensures LeftRight(st)
  {
    NoHitAll(PendingBlocks(st).value, st.lidata.value.ws, st.lidata.value.fixups, 0);
  }

  lemma AfterWritingReflects(st: State, ws: seq<Write>)
    requires Inv(st) && st.lidata.Some? && Reflects(st.secs, ws)
    requires var s := st.secs[st.work.value - 1]; s.cur + |DenoteAll(PendingBlocks(st).value)| <= |s.contents|
    ensures Reflects(AfterWriting(st).secs,
                     ws + [Image(st.work.value, st.secs[st.work.value - 1].cur, DenoteAll(PendingBlocks(st).value))])
            <==> LeftRight(st)
  {
    hide ParseRecord, AllPositive, DenoteAll, EmittedAll, AnyHitsHeader, Reflects, ByteAt;
    var p, s, blocks := st.lidata.value, st.secs[st.work.value - 1], PendingBlocks(st).value;
    var d, e, secs' := DenoteAll(blocks), EmittedAll(blocks, p.ws, p.fixups), AfterWriting(st).secs;
    EmitsNoMoreAll(blocks, p.ws, p.fixups);
    assert secs'[st.work.value - 1].contents == Overlay(s.contents, s.cur, e);
    OverlayReflects(st.secs, secs', ws, st.work.value, s.cur, e, d);
  }

  /** Writing e where d is meant is right exactly if e, with what lies behind it, is d. */
  lemma OverlayReflects(secs: seq<SecState>, secs': seq<SecState>, ws: seq<Write>, seg: nat, at: nat, e: seq<byte>, d: seq<byte>)
    requires Reflects(secs, ws) && 1 <= seg <= |secs| && |e| <= |d| && at + |d| <= |secs[seg - 1].contents|
    requires |secs'| == |secs| && (forall k :: 0 <= k < |secs| && k != seg - 1 ==> secs'[k].contents == secs[k].contents)
    requires secs'[seg - 1].contents == Overlay(secs[seg - 1].contents, at, e)
    ensures Reflects(secs', ws + [Image(seg, at, d)])
            <==> forall i :: 0 <= i < |d| ==> d[i] == if i < |e| then e[i] else secs[seg - 1].contents[at + i]
  {
    if forall i :: 0 <= i < |d| ==> d[i] == if i < |e| then e[i] else secs[seg - 1].contents[at + i] {
      ImageReflects(secs, secs', ws, seg, at, d);
    }
    if Reflects(secs', ws + [Image(seg, at, d)]) {
      var ws' := ws + [Image(seg, at, d)];
      assert ws'[|ws'| - 1] == Image(seg, at, d);
      forall i | 0 <= i < |d|
        ensures d[i] == if i < |e| then e[i] else secs[seg - 1].contents[at + i]
      {
        assert Cell(secs', seg, at + i) == ByteAt(ws', seg, at + i) == d[i];
      }
    }
  }

  /** When finishing the pending work succeeds, its result is right exactly if what the
      expansion left is; and that can only fail if the expansion was abandoned and the
      backpatches hid it. */
  lemma FinishReflects(t: Tables, st: State, ws: seq<Write>)
    requires Inv(st) && Reflects(st.secs, ws) && FinishPrevWork(t, st).0.Okay?
    ensures Reflects(FinishPrevWork(t, st).1.secs, ws + PendingWrites(st)) <==> (Masked(st) ==> LeftRight(st))
    ensures st.lidata.Some? && !Masked(st) ==> LeftRight(st)
  {
    hide EmittedAll, AllEmitted, AnyHitsHeader, DenoteAll, ParseRecord, AllPositive, AfterWriting, Reflects, ByteAt, ApplyAll, LeftRight;
    ExpandKeepsQueue(t, st);
    var e := if st.lidata.Some? then ExpandPrev(t, st) else (Okay, st);
    var image := if st.lidata.Some? then [Image(st.work.value, st.secs[st.work.value - 1].cur, DenoteAll(PendingBlocks(st).value))] else [];
    if st.lidata.Some? {
      ExpandReflects(t, st, ws);
      if !Masked(st) {
        CompleteLeavesRight(st);
      }
    } else {
      assert ws + image == ws;
    }
    if st.addBakpat {
      QueueReflects(e.1, st.bakpat.value, ws + image);
      assert ws + image + PatchWrites(st.bakpat.value) == ws + PendingWrites(st);
    } else {
      assert ws + image == ws + PendingWrites(st);
    }
  }

  lemma ExpandReflects(t: Tables, st: State, ws: seq<Write>)
    requires Inv(st) && st.lidata.Some? && Reflects(st.secs, ws) && !ExpandPrev(t, st).0.Undefined?
    ensures Reflects(ExpandPrev(t, st).1.secs,
                     ws + [Image(st.work.value, st.secs[st.work.value - 1].cur, DenoteAll(PendingBlocks(st).value))])
            <==> LeftRight(st)
    ensures var s := st.secs[st.work.value - 1]; s.cur + |DenoteAll(PendingBlocks(st).value)| <= |s.contents|
  {
    hide EmittedAll, AllEmitted, AnyHitsHeader, DenoteAll, ParseRecord, AllPositive, Reflects, LeftRight;
    AfterWritingReflects(st, ws);
    var p := st.lidata.value;
    EmitKeeps(t, AfterWriting(st), AllEmitted(PendingBlocks(st).value, p.ws, p.fixups, 0));
  }

  lemma StoreReflects(st: State, seg: nat, offset: nat, length: nat, data: seq<byte>, ws: seq<Write>)
    requires Reflects(st.secs, ws)
    requires StoreRecord(st, seg, offset, length, data).0.Okay?
    ensures Reflects(StoreRecord(st, seg, offset, length, data).1.secs, ws + [Image(seg, offset, data)])
  {
    ImageReflects(st.secs, StoreRecord(st, seg, offset, length, data).1.secs, ws, seg, offset, data);
  }

  // ------------------------------------------------------------------- runs

  predicate Flushes(ev: Event)
  {
    ev.LEDATA? || ev.LIDATA? || ev.MODEND?
  }

  /** One step: the writes done and the writes owed grow together by what the record
      means. Returns the writes that the new contents reflect. */
  lemma StepReflects(t: Tables, st: State, ev: Event, ws: seq<Write>) returns (ws': seq<Write>)
    requires Inv(st) && ValidEvent(ev) && Reflects(st.secs, ws)
    requires Step(t, st, ev).0.Okay? && (Flushes(ev) && Masked(st) ==> LeftRight(st))
    ensures Inv(Step(t, st, ev).1) && Reflects(Step(t, st, ev).1.secs, ws')
    ensures ws' + PendingWrites(Step(t, st, ev).1) == ws + PendingWrites(st) + Meaning(ev)
  {
    StepKeepsInv(t, st, ev);
    var st' := Step(t, st, ev).1;
    if Flushes(ev) {
      FinishReflects(t, st, ws);
      FinishSettles(t, st);
      ws' := FlushStep(t, st, ev, ws + PendingWrites(st));
    } else {
      ws' := ws;
      if ev.BAKPAT? {
        BakpatOwed(st, ev, ws);
      } else {
        FixuppOwes(t, st, ev, ws);
      }
    }
  }

  lemma FlushStep(t: Tables, st: State, ev: Event, ws: seq<Write>) returns (ws': seq<Write>)
    requires Inv(st) && ValidEvent(ev) && Flushes(ev) && Step(t, st, ev).0.Okay?
    requires var f := FinishPrevWork(t, st).1; Inv(f) && Settled(f) && Reflects(f.secs, ws)
    requires Inv(Step(t, st, ev).1)
    ensures Reflects(Step(t, st, ev).1.secs, ws')
    ensures ws' + PendingWrites(Step(t, st, ev).1) == ws + Meaning(ev)
  {
    match ev
    case LEDATA(seg, offset, data) =>
      ws' := ws + [Image(seg, offset, data)];
      StoreReflects(FinishPrevWork(t, st).1, seg, offset, |data|, data, ws);
    case LIDATA(n, seg, offset, data) =>
      ws' := ws + [Image(seg, offset, data)];
      FlushLIData(t, st, n, seg, offset, data, ws);
    case MODEND =>
      ws' := ws;
  }

  lemma FlushLIData(t: Tables, st: State, n: nat, seg: nat, offset: nat, data: seq<byte>, ws: seq<Write>)
    requires Inv(st) && IsWordSize(n) && AddLIData(t, st, n, seg, offset, data).0.Okay?
    requires var f := FinishPrevWork(t, st).1; Inv(f) && Settled(f) && Reflects(f.secs, ws)
    requires Inv(AddLIData(t, st, n, seg, offset, data).1)
    ensures var st', a := AddLIData(t, st, n, seg, offset, data).1, Image(seg, offset, data);
            && Reflects(st'.secs, ws + [a])
            && ws + [a] + PendingWrites(st') == ws + [a, Image(seg, offset, Expansion(data, n))]
  {
    var f := FinishPrevWork(t, st).1;
    var size := SizeRecord(data, 0, n).value;
    StoreReflects(f, seg, offset, size, data, ws);
    StoreKeepsInv(f, seg, offset, size, data);
    StagedPending(AddLIData(t, st, n, seg, offset, data).1, n, seg, offset, data);
  }

  /** A record just staged owes its expansion. */
  lemma StagedPending(st: State, ws: nat, seg: nat, offset: nat, data: seq<byte>)
    requires Inv(st) && Stored(st, seg, offset, data) && st.lidata == Some(Pending(|data|, ws, [])) && st.bakpat == None
    ensures PendingWrites(st) == [Image(seg, offset, Expansion(data, ws))]
  {
    assert Raw(st) == data;
  }

  lemma BakpatOwed(st: State, ev: Event, ws: seq<Write>)
    requires Inv(st) && ev.BAKPAT? && AddBakpat(st, ev.loctype, ev.location, ev.seg, ev.disp).0.Okay?
    ensures var st' := AddBakpat(st, ev.loctype, ev.location, ev.seg, ev.disp).1;
            Inv(st') && ws + PendingWrites(st') == ws + PendingWrites(st) + Meaning(ev)
  {
    BakpatPending(st, ev);
    Regroup(ws, PendingWrites(st), Meaning(ev));
  }

  lemma BakpatPending(st: State, ev: Event)
    requires Inv(st) && ev.BAKPAT? && AddBakpat(st, ev.loctype, ev.location, ev.seg, ev.disp).0.Okay?
    ensures var st' := AddBakpat(st, ev.loctype, ev.location, ev.seg, ev.disp).1;
            Inv(st') && PendingWrites(st') == PendingWrites(st) + Meaning(ev)
  {
    var q := if st.bakpat.Some? then st.bakpat.value else [];
    PatchWritesSnoc(q, Bkfix(BakpatWidth(ev.loctype).value, ev.seg, ev.location, ev.disp));
    assert PatchWrites([]) == [];
  }

  lemma PatchWritesSnoc(q: seq<Bkfix>, b: Bkfix)
    ensures PatchWrites(q + [b]) == PatchWrites(q) + [Patch(b.seg, b.offset, b.width, b.disp)]
  {
  }

  lemma FixuppOwes(t: Tables, st: State, ev: Event, ws: seq<Write>)
    requires Inv(st) && ev.FIXUPP?
    ensures var st' := AddFixupp(t, st, ev.f).1;
            Inv(st') && st'.secs == st.secs && ws + PendingWrites(st') == ws + PendingWrites(st) + Meaning(ev)
  {
    AddFixuppKeepsInv(t, st, ev.f);
    var st' := AddFixupp(t, st, ev.f).1;
    if st.lidata.Some? {
      assert Raw(st') == Raw(st);
    } else {
      EmitKeeps(t, st, [ev.f]);
    }
  }

  /** A run in which every step succeeds. */
  function Run(t: Tables, st: State, evs: seq<Event>): Option<State>
    requires Inv(st) && forall k :: 0 <= k < |evs| ==> ValidEvent(evs[k])
    decreases |evs|
  {
    if evs == [] then Some(st)
    else
      StepKeepsInv(t, st, evs[0]);
      var r := Step(t, st, evs[0]);
      if !r.0.Okay? then None else Run(t, r.1, evs[1..])
  }

  /** Whenever backpatches hide that an expansion was abandoned, what it left is right. */
  predicate NeverLeftWrong(t: Tables, st: State, evs: seq<Event>)
    requires Inv(st) && forall k :: 0 <= k < |evs| ==> ValidEvent(evs[k])
    decreases |evs|
  {
    evs == [] ||
    (StepKeepsInv(t, st, evs[0]);
     var r := Step(t, st, evs[0]);
     (Flushes(evs[0]) && Masked(st) ==> LeftRight(st)) && (r.0.Okay? ==> NeverLeftWrong(t, r.1, evs[1..])))
  }

  lemma {:induction false} RunReflects(t: Tables, st: State, evs: seq<Event>, ws: seq<Write>) returns (ws': seq<Write>)
    requires Inv(st) && forall k :: 0 <= k < |evs| ==> ValidEvent(evs[k])
    requires Reflects(st.secs, ws)
    requires Run(t, st, evs).Some? && NeverLeftWrong(t, st, evs)
    ensures var st' := Run(t, st, evs).value;
            && Inv(st') && Reflects(st'.secs, ws')
            && ws' + PendingWrites(st') == ws + PendingWrites(st) + Writes(evs)
    decreases |evs|
  {
    if evs == [] {
      ws' := ws;
      assert ws + PendingWrites(st) + [] == ws + PendingWrites(st);
    } else {
      var ws1 := StepReflects(t, st, evs[0], ws);
      var st1 := Step(t, st, evs[0]).1;
      ws' := RunReflects(t, st1, evs[1..], ws1);
      Regroup(ws + PendingWrites(st), Meaning(evs[0]), Writes(evs[1..]));
      assert Run(t, st, evs) == Run(t, st1, evs[1..]);
    }
  }

  /** Whenever a step settles the pending work, every byte is what the records before it
      mean; done is the meaning of the records before evs. */
  ghost predicate SettledRight(t: Tables, st: State, evs: seq<Event>, done: seq<Write>)
    requires Inv(st) && forall k :: 0 <= k < |evs| ==> ValidEvent(evs[k])
    decreases |evs|
  {
    evs == [] ||
    (StepKeepsInv(t, st, evs[0]);
     var r := Step(t, st, evs[0]);
     && (Flushes(evs[0]) ==> Reflects(FinishPrevWork(t, st).1.secs, done))
     && (r.0.Okay? ==> SettledRight(t, r.1, evs[1..], done + Meaning(evs[0]))))
  }

  /** Over every successful run: the contents are right whenever work is settled exactly if
      no hidden abandoned expansion left a wrong byte. */
  lemma {:induction false} SettledRightIff(t: Tables, st: State, evs: seq<Event>, ws: seq<Write>)
    requires Inv(st) && forall k :: 0 <= k < |evs| ==> ValidEvent(evs[k])
    requires Reflects(st.secs, ws) && Run(t, st, evs).Some?
    ensures SettledRight(t, st, evs, ws + PendingWrites(st)) <==> NeverLeftWrong(t, st, evs)
    decreases |evs|
  {
    if evs != [] {
      hide Reflects, PendingWrites, LeftRight, Masked, Meaning, FinishPrevWork;
      var ev := evs[0];
      StepKeepsInv(t, st, ev);
      var right := true;
      if Flushes(ev) {
        FlushSucceeds(t, st, ev);
        FinishReflects(t, st, ws);
        right := Masked(st) ==> LeftRight(st);
      }
      if right {
        var ws' := StepReflects(t, st, ev, ws);
        SettledRightIff(t, Step(t, st, ev).1, evs[1..], ws');
      }
    }
  }

  lemma FlushSucceeds(t: Tables, st: State, ev: Event)
    requires Inv(st) && ValidEvent(ev) && Flushes(ev) && Step(t, st, ev).0.Okay?
    ensures FinishPrevWork(t, st).0.Okay?
  {
  }

  /** A file handle before its first record. */
  predicate Initial(st: State)
  {
    && st == State(st.secs, None, None, false, None, [])
    && forall k :: 0 <= k < |st.secs| ==> st.secs[k].contents == [] && st.secs[k].cur == 0
  }

  lemma {:induction false} WritesSnoc(evs: seq<Event>, ev: Event)
    requires ValidEvent(ev) && forall k :: 0 <= k < |evs| ==> ValidEvent(evs[k])
    ensures Writes(evs + [ev]) == Writes(evs) + Meaning(ev)
  {
    if evs == [] {
      assert ([] + [ev])[1..] == [];
    } else {
      assert (evs + [ev])[0] == evs[0] && (evs + [ev])[1..] == evs[1..] + [ev];
      WritesSnoc(evs[1..], ev);
    }
  }

  lemma {:induction false} RunSnoc(t: Tables, st: State, evs: seq<Event>, ev: Event)
    requires Inv(st) && ValidEvent(ev) && forall k :: 0 <= k < |evs| ==> ValidEvent(evs[k])
    requires Run(t, st, evs + [ev]).Some?
    ensures Run(t, st, evs).Some? && Inv(Run(t, st, evs).value)
    ensures Step(t, Run(t, st, evs).value, ev) == (Okay, Run(t, st, evs + [ev]).value)
    decreases |evs|
  {
    StepKeepsInv(t, st, (evs + [ev])[0]);
    if evs == [] {
      assert ([] + [ev])[1..] == [];
      assert Run(t, Step(t, st, ev).1, []) == Some(Step(t, st, ev).1);
    } else {
      assert (evs + [ev])[0] == evs[0] && (evs + [ev])[1..] == evs[1..] + [ev];
      RunSnoc(t, Step(t, st, evs[0]).1, evs[1..], ev);
    }
  }

  /** Safety over whole runs: after any successful sequence of records that ends with
      MODEND, nothing is pending, and every byte of every segment is the one that the
      records, applied in order and at once, would have put there. */
  lemma ModuleContents(t: Tables, st: State, evs: seq<Event>)
    requires Initial(st) && forall k :: 0 <= k < |evs| ==> ValidEvent(evs[k])
    requires Run(t, st, evs + [MODEND]).Some? && NeverLeftWrong(t, st, evs + [MODEND])
    ensures var st' := Run(t, st, evs + [MODEND]).value;
            Settled(st') && Reflects(st'.secs, Writes(evs))
  {
    var ws' := RunReflects(t, st, evs + [MODEND], []);
    var st' := Run(t, st, evs + [MODEND]).value;
    assert Settled(st') by {
      RunSnoc(t, st, evs, MODEND);
      FinishSettles(t, Run(t, st, evs).value);
    }
    NothingOwed(st);
    NothingOwed(st');
    WritesSnoc(evs, MODEND);
    assert ws' + [] == ws' && [] + [] + (Writes(evs) + []) == Writes(evs);
  }

  lemma NothingOwed(st: State)
    requires Inv(st) && Settled(st)
    ensures PendingWrites(st) == []
  {
  }

  // ------------------------------------------------- what the code does not hide

  /** The raw bytes of a LIDATA record stay out of sight, whatever was there before,
      exactly when the record is no longer than its expansion. */
  lemma StagingInvisibleIff(seg: nat, at: nat, raw: seq<byte>, d: seq<byte>)
    ensures (forall ws: seq<Write>, i: nat ::
               ByteAt(ws + [Image(seg, at, raw), Image(seg, at, d)], seg, i) == ByteAt(ws + [Image(seg, at, d)], seg, i))
            <==> |raw| <= |d|
  {
    forall ws: seq<Write>, i: nat
      ensures |raw| <= |d| ==>
                ByteAt(ws + [Image(seg, at, raw), Image(seg, at, d)], seg, i) == ByteAt(ws + [Image(seg, at, d)], seg, i)
    {
      TwoImages(ws, seg, at, raw, d, i);
    }
    if |d| < |raw| {
      StagingShows(seg, at, raw, d);
    }
  }

  lemma StagingShows(seg: nat, at: nat, raw: seq<byte>, d: seq<byte>)
    requires |d| < |raw|
    ensures exists ws: seq<Write>, i: nat ::
              ByteAt(ws + [Image(seg, at, raw), Image(seg, at, d)], seg, i) != ByteAt(ws + [Image(seg, at, d)], seg, i)
  {
    var i := at + |d|;
    var other: byte := if raw[|d|] == 0 then 1 else 0;
    var ws := [Image(seg, i, [other])];
    assert ByteAt(ws, seg, i) == other;
    TwoImages(ws, seg, at, raw, d, i);
  }

  lemma TwoImages(ws: seq<Write>, seg: nat, at: nat, raw: seq<byte>, d: seq<byte>, i: nat)
    ensures ByteAt(ws + [Image(seg, at, d)], seg, i) == if at <= i < at + |d| then d[i - at] else ByteAt(ws, seg, i)
    ensures ByteAt(ws + [Image(seg, at, raw), Image(seg, at, d)], seg, i)
            == if at <= i < at + |d| then d[i - at] else if at <= i < at + |raw| then raw[i - at] else ByteAt(ws, seg, i)
  {
    var a, b := Image(seg, at, raw), Image(seg, at, d);
    assert (ws + [b])[..|ws|] == ws && (ws + [a])[..|ws|] == ws;
    assert (ws + [a, b])[..|ws| + 1] == ws + [a];
  }

  /** An expansion that meets a fixup at a header makes the next record fail, unless
      there are backpatches to apply: then their result is returned instead. */
  lemma AbandonedExpansion(t: Tables, st: State)
    requires Inv(st) && st.lidata.Some? && !ExpandPrev(t, st).0.Undefined?
    requires AnyHitsHeader(PendingBlocks(st).value, st.lidata.value.ws, st.lidata.value.fixups)
    ensures ExpandPrev(t, st).0.Error? && ExpandPrev(t, st).1.relocs == st.relocs
    ensures FinishPrevWork(t, st).0.Okay?
            <==> st.addBakpat && ApplyAll(AfterWriting(st), st.bakpat.value).0.Okay?
  {
    ExpandKeepsQueue(t, st);
  }

  /** What is then left in the section, if the fixup points at the record's first header:
      the raw bytes of the record, where its expansion should be. */
  lemma AbandonedLeavesRaw(st: State)
    requires Inv(st) && st.lidata.Some?
    requires var s, blocks, p := st.secs[st.work.value - 1], PendingBlocks(st).value, st.lidata.value;
             && s.cur + |DenoteAll(blocks)| <= |s.contents|
             && blocks != [] && PointsInto(p.fixups, blocks[0].at, blocks[0].at + p.ws + 2)
    ensures var s, s' := st.secs[st.work.value - 1], AfterWriting(st).secs[st.work.value - 1];
            s'.contents == s.contents && s'.contents[s.cur..s.cur + st.lidata.value.len] == Raw(st)
  {
    hide ParseRecord, DenoteAll, AllPositive;
    var p, s, blocks := st.lidata.value, st.secs[st.work.value - 1], PendingBlocks(st).value;
    assert HitsHeader(blocks[0], p.ws, p.fixups);
    assert EmittedAll(blocks, p.ws, p.fixups) == [];
    assert Overlay(s.contents, s.cur, []) == s.contents;
  }
}
