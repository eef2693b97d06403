/** FIXUPP records (9CH/9DH, TIS Relocatable Object Module Format Specification v1.1):
    what the subrecords decoded by src/omf/omfload.c mean, their encoding, and a record
    in which every thread reference is spelled out. */
module OmfFixupp {
  import opened Basics
  import opened Bytes
  import opened OmfBlocks
  import opened OmfClones
  import opened OmfWork

  /** The frame and the target of a fixup: given by a thread, or by method and index. */
  datatype FrameRef = FrameThread(n: nat) | Frame(meth: nat, idx: nat)
  datatype TargetRef = TargetThread(n: nat) | Target(kind: nat, idx: nat)

  /** A THREAD subrecord, or an explicit FIXUP subrecord. */
  datatype Sub =
    | Thread(isFrame: bool, meth: nat, n: nat, idx: Option<nat>)
    | Fix(mode: bool, location: nat, offset: nat, frame: FrameRef, target: TargetRef, disp: Option<int>)

  datatype ParsedSub = ParsedSub(sub: Sub, end: nat)
  datatype ParsedIndex = ParsedIndex(idx: nat, end: nat)

  /** loadIndex: one byte, or two when the high bit of the first is set. */
  function ParseIndex(b: seq<byte>, pos: nat): (r: Option<ParsedIndex>)
    ensures r.Some? ==> pos < r.value.end <= |b|
  {
    if pos >= |b| then None
    else if b[pos] < 128 then Some(ParsedIndex(b[pos], pos + 1))
    else if pos + 1 >= |b| then None
    else
      var hi: nat, lo: nat := b[pos] - 128, b[pos + 1];
      Some(ParsedIndex(hi * 256 + lo, pos + 2))
  }

  /** OmfGetSWord. */
  function SWord(b: seq<byte>, at: nat, ws: nat): int
    requires IsWordSize(ws) && at + ws <= |b|
  {
    var w, half := UWord(b, at, ws), if ws == 4 then TWO_TO_32 / 2 else TWO_TO_16 / 2;
    if w >= half then w - 2 * half else w
  }

  /** Optional parts of a subrecord: an index, a displacement. */
  function ParseFrame(b: seq<byte>, pos: nat, datum: byte): (r: Option<(FrameRef, nat)>)
    ensures r.Some? ==> pos <= r.value.1 && (pos <= |b| ==> r.value.1 <= |b|)
  {
    var meth := datum / 16 % 8;
    if datum >= 128 then Some((FrameThread(meth % 4), pos))
    else if meth >= 3 then Some((Frame(meth, 0), pos))
    else
      var i := ParseIndex(b, pos);
      if i.None? then None else Some((Frame(meth, i.value.idx), i.value.end))
  }

  function ParseTarget(b: seq<byte>, pos: nat, datum: byte): (r: Option<(TargetRef, nat)>)
    ensures r.Some? ==> pos <= r.value.1 && (pos <= |b| ==> r.value.1 <= |b|)
  {
    if datum / 8 % 2 == 1 then Some((TargetThread(datum % 4), pos))
    else
      var i := ParseIndex(b, pos);
      if i.None? then None else Some((Target(datum % 4, i.value.idx), i.value.end))
  }

  function ParseDisp(b: seq<byte>, pos: nat, datum: byte, ws: nat): (r: Option<(Option<int>, nat)>)
    requires IsWordSize(ws)
    ensures r.Some? ==> pos <= r.value.1 && (pos <= |b| ==> r.value.1 <= |b|)
  {
    if datum / 4 % 2 == 1 then Some((None, pos))
    else if pos + ws > |b| then None
    else Some((Some(SWord(b, pos, ws)), pos + ws))
  }

  function ParseFix(b: seq<byte>, pos: nat, ws: nat): (r: Option<ParsedSub>)
    requires IsWordSize(ws)
    ensures r.Some? ==> pos < r.value.end <= |b| && r.value.sub.Fix?
  {
    if pos + 3 > |b| then None
    else
      var locat: nat, low: nat, datum := b[pos], b[pos + 1], b[pos + 2];
      var frame := ParseFrame(b, pos + 3, datum);
      if frame.None? then None else
      var target := ParseTarget(b, frame.value.1, datum);
      if target.None? then None else
      var disp := ParseDisp(b, target.value.1, datum, ws);
      if disp.None? then None
      else Some(ParsedSub(Fix(locat / 64 % 2 == 1, locat / 4 % 16, locat % 4 * 256 + low,
                              frame.value.0, target.value.0, disp.value.0), disp.value.1))
  }

  /** A thread's index is read for targets, and for the frame methods that have one. */
  function ParseThread(b: seq<byte>, pos: nat): (r: Option<ParsedSub>)
    ensures r.Some? ==> pos < r.value.end <= |b| && r.value.sub.Thread?
  {
    if pos >= |b| then None
    else
      var isFrame, meth, n := b[pos] / 64 % 2 == 1, b[pos] / 4 % 8, b[pos] % 4;
      if isFrame && meth >= 3 then Some(ParsedSub(Thread(isFrame, meth, n, None), pos + 1))
      else
        var i := ParseIndex(b, pos + 1);
        if i.None? then None else Some(ParsedSub(Thread(isFrame, meth, n, Some(i.value.idx)), i.value.end))
  }

  function ParseSub(b: seq<byte>, pos: nat, ws: nat): (r: Option<ParsedSub>)
    requires IsWordSize(ws) && pos < |b|
    ensures r.Some? ==> pos < r.value.end <= |b|
  {
    if b[pos] >= 128 then ParseFix(b, pos, ws) else ParseThread(b, pos)
  }

  /** The subrecords of a record: None when the last one is cut short. */
  function ParseSubs(b: seq<byte>, pos: nat, ws: nat): Option<seq<Sub>>
    requires IsWordSize(ws) && pos <= |b|
    decreases |b| - pos
  {
    if pos == |b| then Some([])
    else
      var first := ParseSub(b, pos, ws);
      if first.None? then None else
      var rest := ParseSubs(b, first.value.end, ws);
      if rest.None? then None else Some([first.value.sub] + rest.value)
  }

  // -------------------------------------------------------------- what they do

  /** A thread register of the file handle. */
  datatype ThreadReg = ThreadReg(meth: nat, idx: nat)

  datatype Threads = Threads(frame: seq<ThreadReg>, target: seq<ThreadReg>)

  predicate ValidReg(r: ThreadReg)
  {
    r.meth < 8 && r.idx < 0x8000
  }

  predicate ValidThreads(th: Threads)
  {
    && |th.frame| == 4 && |th.target| == 4
    && (forall k :: 0 <= k < 4 ==> ValidReg(th.frame[k])) && forall k :: 0 <= k < 4 ==> ValidReg(th.target[k])
  }

  /** What a subrecord can hold. */
  predicate ValidSub(s: Sub)
  {
    match s
    case Thread(isFrame, meth, n, idx) =>
      && meth < 8 && n < 4 && (idx.None? <==> isFrame && meth >= 3) && (idx.Some? ==> idx.value < 0x8000)
    case Fix(_, location, offset, frame, target, disp) =>
      location < 16 && offset < 1024 && ValidFrame(frame) && ValidTarget(target)
  }

  predicate ValidFrame(f: FrameRef)
  {
    match f
    case FrameThread(n) => n < 4
    case Frame(meth, idx) => meth < 8 && idx < 0x8000 && (meth >= 3 ==> idx == 0)
  }

  predicate ValidTarget(t: TargetRef)
  {
    match t
    case TargetThread(n) => n < 4
    case Target(kind, idx) => kind < 4 && idx < 0x8000
  }

  predicate FitsWord(d: Option<int>, ws: nat)
  {
    d.Some? ==> if ws == 4 then -0x8000_0000 <= d.value < 0x8000_0000 else -0x8000 <= d.value < 0x8000
  }

  predicate ValidSubs(subs: seq<Sub>)
  {
    subs == [] || (ValidSub(subs[0]) && ValidSubs(subs[1..]))
  }

  function SetReg(r: ThreadReg, s: Sub): ThreadReg
    requires s.Thread?
  {
    ThreadReg(s.meth, if s.idx.Some? then s.idx.value else r.idx)
  }

  function SetThread(th: Threads, s: Sub): (r: Threads)
    requires ValidThreads(th) && s.Thread? && ValidSub(s)
    ensures ValidThreads(r)
  {
    if s.isFrame then th.(frame := th.frame[s.n := SetReg(th.frame[s.n], s)])
    else th.(target := th.target[s.n := SetReg(th.target[s.n], s)])
  }

  /** The arguments that processExplicitFixup passes to OmfAddFixupp. With an explicit
      target, frame meth 5 (same as target) is resolved here; with a target thread it
      is left to OmfAddFixupp. The displacement bit is also bit 2 of an explicit method. */
  function FixupOf(th: Threads, s: Sub, is32: bool): Fixup
    requires ValidThreads(th) && s.Fix? && ValidSub(s)
  {
    var fr := match s.frame case FrameThread(n) => th.frame[n] case Frame(m, i) => ThreadReg(m, i);
    var tr := match s.target case TargetThread(n) => th.target[n]
                             case Target(k, i) => ThreadReg(if s.disp.None? then k + 4 else k, i);
    var fr' := if s.target.Target? && fr.meth == FRAME_TARG then ThreadReg(tr.meth % 4, tr.idx) else fr;
    Fixup(0, is32, s.mode, s.location, s.offset, fr'.meth, fr'.idx, tr.meth, tr.idx,
          if s.disp.Some? then s.disp.value else 0)
  }

  /** What a record leaves in the thread registers, and the fixups it adds. */
  function ThreadsAfter(th: Threads, subs: seq<Sub>): (r: Threads)
    requires ValidThreads(th) && ValidSubs(subs)
    ensures ValidThreads(r)
    decreases |subs|
  {
    if subs == [] then th
    else ThreadsAfter(if subs[0].Thread? then SetThread(th, subs[0]) else th, subs[1..])
  }

  function FixupsOf(th: Threads, subs: seq<Sub>, is32: bool): seq<Fixup>
    requires ValidThreads(th) && ValidSubs(subs)
    decreases |subs|
  {
    if subs == [] then []
    else if subs[0].Thread? then FixupsOf(SetThread(th, subs[0]), subs[1..], is32)
    else [FixupOf(th, subs[0], is32)] + FixupsOf(th, subs[1..], is32)
  }

  // ---------------------------------------------------- without threads

  /** A fixup with its threads replaced by the methods and indices they hold. */
  function Explicit(th: Threads, s: Sub): (r: Sub)
    requires ValidThreads(th) && s.Fix? && ValidSub(s)
    ensures r.Fix? && r.frame.Frame? && r.target.Target? && ValidSub(r)
    ensures r.disp == s.disp
  {
    var frame := match s.frame
      case FrameThread(n) => Frame(th.frame[n].meth, if th.frame[n].meth < 3 then th.frame[n].idx else 0)
      case Frame(m, i) => s.frame;
    var target := match s.target
      case TargetThread(n) => Target(th.target[n].meth % 4, th.target[n].idx)
      case Target(k, i) => s.target;
    s.(frame := frame, target := target)
  }

  /** A record's fixups, spelled out, and no THREAD subrecords. */
  function ExplicitAll(th: Threads, subs: seq<Sub>): (r: seq<Sub>)
    requires ValidThreads(th) && ValidSubs(subs)
    ensures ValidSubs(r)
    decreases |subs|
  {
    if subs == [] then []
    else if subs[0].Thread? then ExplicitAll(SetThread(th, subs[0]), subs[1..])
    else
      var e, rest := Explicit(th, subs[0]), ExplicitAll(th, subs[1..]);
      assert ([e] + rest)[1..] == rest;
      [e] + rest
  }

  /** What a fixup says once the shorthands are undone: the frame of a segment, group or
      external, of the location, or none; the target without its displacement bit. */
  function Canon(f: Fixup): Fixup
  {
    var kind := if f.tmethod < 8 then f.tmethod % 4 else f.tmethod;
    if f.fmethod == FRAME_TARG && kind < 3 then f.(fmethod := kind, fidx := f.tidx, tmethod := kind)
    else if f.fmethod < 3 then f.(tmethod := kind)
    else if f.fmethod == FRAME_LOC then f.(fidx := 0, tmethod := kind)
    else f.(fmethod := FRAME_ABS, fidx := 0, tmethod := kind)
  }

  /** A fixup resolves the same way as its canonical form. */
  lemma ResolveCanon(t: Tables, f: Fixup, work: Option<nat>, cur: nat)
    ensures Resolve(t, Canon(f), work, cur) == Resolve(t, f, work, cur)
  {
  }

  /** The fixup of a thread reference and that of its replacement say the same,
      whatever the threads are then: this covers both ways in which a frame that is
      "the same as the target" is resolved. */
  lemma ExplicitSaysTheSame(th: Threads, s: Sub, is32: bool, any: Threads)
    requires ValidThreads(th) && ValidThreads(any) && s.Fix? && ValidSub(s)
    ensures Canon(FixupOf(any, Explicit(th, s), is32)) == Canon(FixupOf(th, s, is32))
  {
  }

  function CanonAll(fx: seq<Fixup>): (r: seq<Fixup>)
    ensures |r| == |fx| && forall k :: 0 <= k < |fx| ==> r[k] == Canon(fx[k])
  {
    seq(|fx|, k requires 0 <= k < |fx| => Canon(fx[k]))
  }

  lemma {:induction false} ExplicitAllSaysTheSame(th: Threads, subs: seq<Sub>, is32: bool, any: Threads)
    requires ValidThreads(th) && ValidThreads(any) && ValidSubs(subs)
    ensures CanonAll(FixupsOf(any, ExplicitAll(th, subs), is32)) == CanonAll(FixupsOf(th, subs, is32))
    decreases |subs|
  {
    if subs != [] {
      if subs[0].Thread? {
        ExplicitAllSaysTheSame(SetThread(th, subs[0]), subs[1..], is32, any);
      } else {
        ExplicitSaysTheSame(th, subs[0], is32, any);
        ExplicitAllSaysTheSame(th, subs[1..], is32, any);
        var e, rest := Explicit(th, subs[0]), ExplicitAll(th, subs[1..]);
        assert ([e] + rest)[0] == e && ([e] + rest)[1..] == rest;
      }
    }
  }

  // ------------------------------------------------------------------ encoding

  function PutIndex(i: nat): (b: seq<byte>)
    requires i < 0x8000
  {
    if i < 128 then [i] else [128 + i / 256, i % 256]
  }

  function PutSWord(d: int, ws: nat): (b: seq<byte>)
    requires IsWordSize(ws) && FitsWord(Some(d), ws)
    ensures |b| == ws
  {
    if ws == 4 then Put32(d % TWO_TO_32) else Put16(d % TWO_TO_16)
  }

  function PutFrame(f: FrameRef): seq<byte>
    requires ValidFrame(f)
  {
    if f.Frame? && f.meth < 3 then PutIndex(f.idx) else []
  }

  function PutTarget(t: TargetRef): seq<byte>
    requires ValidTarget(t)
  {
    if t.Target? then PutIndex(t.idx) else []
  }

  function Datum(f: FrameRef, t: TargetRef, disp: Option<int>): byte
    requires ValidFrame(f) && ValidTarget(t)
  {
    (match f case FrameThread(n) => 128 + n * 16 case Frame(meth, _) => meth * 16)
    + (match t case TargetThread(n) => 8 + n case Target(kind, _) => kind)
    + if disp.None? then 4 else 0
  }

  /** The first three bytes of a FIXUP subrecord. */
  function Head(s: Sub): (h: seq<byte>)
    requires s.Fix? && ValidSub(s)
    ensures |h| == 3
  {
    [128 + (if s.mode then 64 else 0) + s.location * 4 + s.offset / 256, s.offset % 256, Datum(s.frame, s.target, s.disp)]
  }

  function Encode(s: Sub, ws: nat): seq<byte>
    requires IsWordSize(ws) && ValidSub(s) && (s.Fix? ==> FitsWord(s.disp, ws))
  {
    match s
    case Thread(isFrame, meth, n, idx) =>
      [(if isFrame then 64 else 0) + meth * 4 + n] + if idx.Some? then PutIndex(idx.value) else []
    case Fix(_, _, _, frame, target, disp) =>
      Head(s) + PutFrame(frame) + PutTarget(target) + if disp.Some? then PutSWord(disp.value, ws) else []
  }

  predicate AllFit(subs: seq<Sub>, ws: nat)
  {
    subs == [] || ((subs[0].Fix? ==> FitsWord(subs[0].disp, ws)) && AllFit(subs[1..], ws))
  }

  function EncodeAll(subs: seq<Sub>, ws: nat): seq<byte>
    requires IsWordSize(ws) && ValidSubs(subs) && AllFit(subs, ws)
  {
    if subs == [] then [] else Encode(subs[0], ws) + EncodeAll(subs[1..], ws)
  }

  lemma IndexRoundTrip(b: seq<byte>, pos: nat, i: nat)
    requires i < 0x8000 && Stands(b, pos, PutIndex(i))
    ensures ParseIndex(b, pos) == Some(ParsedIndex(i, pos + |PutIndex(i)|))
  {
    var e := PutIndex(i);
    assert b[pos] == b[pos..pos + |e|][0] && (i >= 128 ==> b[pos + 1] == b[pos..pos + |e|][1]);
  }

  lemma SWordRoundTrip(b: seq<byte>, pos: nat, d: int, ws: nat)
    requires IsWordSize(ws) && FitsWord(Some(d), ws) && Stands(b, pos, PutSWord(d, ws))
    ensures SWord(b, pos, ws) == d
  {
    if ws == 4 {
      Word32OfPut32(b, pos, d % TWO_TO_32);
    } else {
      Word16OfPut16(b, pos, d % TWO_TO_16);
    }
  }

  /** The bit fields of a subrecord's bytes. */
  lemma BitFields(f: nat, m: nat, t: nat, p: nat, k: nat)
    requires f < 2 && m < 8 && t < 2 && p < 2 && k < 4
    ensures var d := f * 128 + m * 16 + t * 8 + p * 4 + k;
            && d / 16 == f * 8 + m && d / 8 == f * 16 + m * 2 + t && d / 4 == f * 32 + m * 4 + t * 2 + p && d % 4 == k
    ensures (f * 8 + m) % 8 == m && (f * 16 + m * 2 + t) % 2 == t && (f * 32 + m * 4 + t * 2 + p) % 2 == p
  {
  }

  lemma DatumFields(f: FrameRef, t: TargetRef, disp: Option<int>)
    requires ValidFrame(f) && ValidTarget(t)
    ensures var d := Datum(f, t, disp);
            && (d >= 128 <==> f.FrameThread?) && d / 16 % 8 == (match f case FrameThread(n) => n case Frame(meth, _) => meth)
            && (d / 8 % 2 == 1 <==> t.TargetThread?) && d % 4 == (match t case TargetThread(n) => n case Target(kind, _) => kind)
            && (d / 4 % 2 == 1 <==> disp.None?)
  {
    BitFields(if f.FrameThread? then 1 else 0, match f case FrameThread(n) => n case Frame(meth, _) => meth,
              if t.TargetThread? then 1 else 0, if disp.None? then 1 else 0,
              match t case TargetThread(n) => n case Target(kind, _) => kind);
  }

  /** The location, its type and the mode of a fixup, from its first two bytes. */
  lemma LocatFields(mode: bool, location: nat, offset: nat)
    requires location < 16 && offset < 1024
    ensures var d := 128 + (if mode then 64 else 0) + location * 4 + offset / 256;
            && 128 <= d < 256 && (d / 64 % 2 == 1 <==> mode) && d / 4 % 16 == location && d % 4 * 256 + offset % 256 == offset
  {
  }

  lemma PartsStand(b: seq<byte>, pos: nat, s: Sub, ws: nat)
    requires IsWordSize(ws) && s.Fix? && ValidSub(s) && FitsWord(s.disp, ws) && Stands(b, pos, Encode(s, ws))
    ensures var f, t := PutFrame(s.frame), PutTarget(s.target);
            && Stands(b, pos, Head(s)) && Stands(b, pos + 3, f) && Stands(b, pos + 3 + |f|, t)
            && (s.disp.Some? ==> Stands(b, pos + 3 + |f| + |t|, PutSWord(s.disp.value, ws)))
            && |Encode(s, ws)| == 3 + |f| + |t| + if s.disp.Some? then ws else 0
  {
    hide PutFrame, PutTarget, PutSWord, Datum, ValidFrame, ValidTarget, FitsWord, Stands;
    var h, f, t, d := Head(s), PutFrame(s.frame), PutTarget(s.target), if s.disp.Some? then PutSWord(s.disp.value, ws) else [];
    assert Encode(s, ws) == h + f + t + d;
    StandsApart(b, pos, h + f + t, d);
    StandsApart(b, pos, h + f, t);
    StandsApart(b, pos, h, f);
  }

  lemma HeadRoundTrip(b: seq<byte>, pos: nat, s: Sub)
    requires s.Fix? && ValidSub(s) && Stands(b, pos, Head(s))
    ensures pos + 3 <= |b| && 128 <= b[pos] && b[pos + 2] == Datum(s.frame, s.target, s.disp)
    ensures (b[pos] / 64 % 2 == 1 <==> s.mode) && b[pos] / 4 % 16 == s.location
    ensures var locat: nat, low: nat := b[pos], b[pos + 1]; locat % 4 * 256 + low == s.offset
  {
    hide Datum, ValidFrame, ValidTarget;
    assert b[pos] == b[pos..pos + 3][0] && b[pos + 1] == b[pos..pos + 3][1] && b[pos + 2] == b[pos..pos + 3][2];
    LocatFields(s.mode, s.location, s.offset);
  }

  lemma FixRoundTrip(b: seq<byte>, pos: nat, s: Sub, ws: nat)
    requires IsWordSize(ws) && s.Fix? && ValidSub(s) && FitsWord(s.disp, ws) && Stands(b, pos, Encode(s, ws))
    ensures pos + 3 <= |b| && b[pos] >= 128 && ParseFix(b, pos, ws) == Some(ParsedSub(s, pos + |Encode(s, ws)|))
  {
    hide Encode, PutFrame, PutTarget, PutSWord, Datum, ValidFrame, ValidTarget, FitsWord, ParseFrame, ParseTarget, ParseDisp, Stands;
    PartsStand(b, pos, s, ws);
    HeadRoundTrip(b, pos, s);
    PartsRoundTrip(b, pos + 3, s, ws);
  }

  lemma PartsRoundTrip(b: seq<byte>, pos: nat, s: Sub, ws: nat)
    requires IsWordSize(ws) && s.Fix? && ValidSub(s) && FitsWord(s.disp, ws)
    requires Stands(b, pos, PutFrame(s.frame)) && Stands(b, pos + |PutFrame(s.frame)|, PutTarget(s.target))
    requires s.disp.Some? ==> Stands(b, pos + |PutFrame(s.frame)| + |PutTarget(s.target)|, PutSWord(s.disp.value, ws))
    ensures var datum, at := Datum(s.frame, s.target, s.disp), pos + |PutFrame(s.frame)|;
            && ParseFrame(b, pos, datum) == Some((s.frame, at))
            && ParseTarget(b, at, datum) == Some((s.target, at + |PutTarget(s.target)|))
            && ParseDisp(b, at + |PutTarget(s.target)|, datum, ws)
               == Some((s.disp, at + |PutTarget(s.target)| + if s.disp.Some? then ws else 0))
  {
    hide ParseFrame, ParseTarget, ParseDisp, PutFrame, PutTarget, PutSWord, FitsWord, Stands;
    var datum, at := Datum(s.frame, s.target, s.disp), pos + |PutFrame(s.frame)|;
    DatumFields(s.frame, s.target, s.disp);
    hide Datum;
    FrameRoundTrip(b, pos, s.frame, datum);
    TargetRoundTrip(b, at, s.target, datum);
    DispRoundTrip(b, at + |PutTarget(s.target)|, s.disp, datum, ws);
  }

  lemma FrameRoundTrip(b: seq<byte>, pos: nat, f: FrameRef, datum: byte)
    requires ValidFrame(f) && Stands(b, pos, PutFrame(f))
    requires (datum >= 128 <==> f.FrameThread?) && datum / 16 % 8 == (match f case FrameThread(n) => n case Frame(meth, _) => meth)
    ensures ParseFrame(b, pos, datum) == Some((f, pos + |PutFrame(f)|))
  {
    hide PutIndex, ParseIndex;
    if f.Frame? && f.meth < 3 {
      IndexRoundTrip(b, pos, f.idx);
    }
  }

  lemma TargetRoundTrip(b: seq<byte>, pos: nat, t: TargetRef, datum: byte)
    requires ValidTarget(t) && Stands(b, pos, PutTarget(t))
    requires (datum / 8 % 2 == 1 <==> t.TargetThread?) && datum % 4 == (match t case TargetThread(n) => n case Target(kind, _) => kind)
    ensures ParseTarget(b, pos, datum) == Some((t, pos + |PutTarget(t)|))
  {
    hide PutIndex, ParseIndex;
    if t.Target? {
      IndexRoundTrip(b, pos, t.idx);
    }
  }

  lemma DispRoundTrip(b: seq<byte>, pos: nat, disp: Option<int>, datum: byte, ws: nat)
    requires IsWordSize(ws) && FitsWord(disp, ws) && (disp.Some? ==> Stands(b, pos, PutSWord(disp.value, ws)))
    requires datum / 4 % 2 == 1 <==> disp.None?
    ensures ParseDisp(b, pos, datum, ws) == Some((disp, pos + if disp.Some? then ws else 0))
  {
    if disp.Some? {
      SWordRoundTrip(b, pos, disp.value, ws);
    }
  }

  lemma ThreadFields(isFrame: bool, meth: nat, n: nat)
    requires meth < 8 && n < 4
    ensures var d := (if isFrame then 64 else 0) + meth * 4 + n;
            d < 128 && (d / 64 % 2 == 1 <==> isFrame) && d / 4 % 8 == meth && d % 4 == n
  {
  }

  lemma FirstByte(b: seq<byte>, pos: nat, c: byte)
    requires Stands(b, pos, [c])
    ensures pos < |b| && b[pos] == c
  {
    assert b[pos] == b[pos..pos + 1][0];
  }

  lemma ThreadRoundTrip(b: seq<byte>, pos: nat, s: Sub, ws: nat)
    requires IsWordSize(ws) && s.Thread? && ValidSub(s) && Stands(b, pos, Encode(s, ws))
    ensures pos < |b| && b[pos] < 128 && ParseThread(b, pos) == Some(ParsedSub(s, pos + |Encode(s, ws)|))
  {
    hide PutIndex, ParseIndex, Stands;
    var h, i := [(if s.isFrame then 64 else 0) + s.meth * 4 + s.n], if s.idx.Some? then PutIndex(s.idx.value) else [];
    StandsApart(b, pos, h, i);
    FirstByte(b, pos, h[0]);
    ThreadFields(s.isFrame, s.meth, s.n);
    if s.idx.Some? {
      IndexRoundTrip(b, pos + 1, s.idx.value);
    }
  }

  lemma SubRoundTrip(b: seq<byte>, pos: nat, s: Sub, ws: nat)
    requires IsWordSize(ws) && ValidSub(s) && (s.Fix? ==> FitsWord(s.disp, ws)) && Stands(b, pos, Encode(s, ws))
    ensures pos < |b| && ParseSub(b, pos, ws) == Some(ParsedSub(s, pos + |Encode(s, ws)|))
  {
    hide Encode, ParseThread, ParseFix, ValidSub, FitsWord, Stands;
    if s.Thread? {
      ThreadRoundTrip(b, pos, s, ws);
    } else {
      FixRoundTrip(b, pos, s, ws);
    }
  }

  /** Decoding the encoding of subrecords gives them back. */
  lemma {:induction false} SubsRoundTrip(b: seq<byte>, pos: nat, subs: seq<Sub>, ws: nat)
    requires IsWordSize(ws) && ValidSubs(subs) && AllFit(subs, ws)
    requires Stands(b, pos, EncodeAll(subs, ws)) && pos + |EncodeAll(subs, ws)| == |b|
    ensures ParseSubs(b, pos, ws) == Some(subs)
    decreases |subs|
  {
    hide ParseSub, ValidSub, FitsWord, Encode;
    if subs != [] {
      StandsApart(b, pos, Encode(subs[0], ws), EncodeAll(subs[1..], ws));
      SubRoundTrip(b, pos, subs[0], ws);
      SubsRoundTrip(b, pos + |Encode(subs[0], ws)|, subs[1..], ws);
      assert [subs[0]] + subs[1..] == subs;
    }
  }

  /** What a complete record decodes to can be encoded. */
  lemma {:induction false} ParsedIsValid(b: seq<byte>, pos: nat, ws: nat)
    requires IsWordSize(ws) && pos <= |b| && ParseSubs(b, pos, ws).Some?
    ensures ValidSubs(ParseSubs(b, pos, ws).value) && AllFit(ParseSubs(b, pos, ws).value, ws)
    decreases |b| - pos
  {
    if pos < |b| {
      ParsedSubIsValid(b, pos, ws);
      var first := ParseSub(b, pos, ws).value;
      ParsedIsValid(b, first.end, ws);
      var rest := ParseSubs(b, first.end, ws).value;
      assert ([first.sub] + rest)[0] == first.sub && ([first.sub] + rest)[1..] == rest;
    }
  }

  lemma ParsedSubIsValid(b: seq<byte>, pos: nat, ws: nat)
    requires IsWordSize(ws) && pos < |b| && ParseSub(b, pos, ws).Some?
    ensures var s := ParseSub(b, pos, ws).value.sub; ValidSub(s) && (s.Fix? ==> FitsWord(s.disp, ws))
  {
  }
}
