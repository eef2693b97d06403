/** Corollaries about the contents of a module: without the staged bytes, and a run in
    which backpatches hide an abandoned expansion. */
module OmfContents {
  import opened Basics
  import opened Bytes
  import opened OmfBlocks
  import opened OmfClones
  import opened OmfWork
  import opened OmfOverlay

  /** What a record means when its staging does not show: a LIDATA record is its expansion. */
  function CleanMeaning(ev: Event): seq<Write>
    requires ValidEvent(ev)
  {
    if ev.LIDATA? then [Image(ev.seg, ev.offset, Expansion(ev.data, ev.ws))] else Meaning(ev)
  }

  function CleanWrites(evs: seq<Event>): seq<Write>
    requires forall k :: 0 <= k < |evs| ==> ValidEvent(evs[k])
  {
    if evs == [] then [] else CleanMeaning(evs[0]) + CleanWrites(evs[1..])
  }

  /** The raw record is no longer than its expansion. */
  predicate StagingFits(ev: Event)
    requires ValidEvent(ev)
  {
    ev.LIDATA? ==> |ev.data| <= |Expansion(ev.data, ev.ws)|
  }

  /** Two histories that leave the same bytes everywhere. */
  ghost predicate SameBytes(a: seq<Write>, b: seq<Write>)
  {
    forall seg: nat, i: nat :: ByteAt(a, seg, i) == ByteAt(b, seg, i)
  }

  /** The last write sees only the bytes before it. */
  lemma SameAppend(a: seq<Write>, b: seq<Write>, w: Write)
    requires SameBytes(a, b)
    ensures SameBytes(a + [w], b + [w])
  {
    assert (a + [w])[..|a|] == a && (b + [w])[..|b|] == b;
    if w.Patch? {
      assert WordAt(a, w.seg, w.at, w.width.Size()) == WordAt(b, w.seg, w.at, w.width.Size());
    }
  }

  lemma Staged(a: seq<Write>, seg: nat, at: nat, raw: seq<byte>, d: seq<byte>)
    requires |raw| <= |d|
    ensures SameBytes(a + [Image(seg, at, raw), Image(seg, at, d)], a + [Image(seg, at, d)])
  {
    var x, y := Image(seg, at, raw), Image(seg, at, d);
    assert (a + [x, y])[..|a| + 1] == a + [x] && (a + [x])[..|a|] == a && (a + [y])[..|a|] == a;
    forall s: nat, i: nat
      ensures ByteAt(a + [x, y], s, i) == ByteAt(a + [y], s, i)
    {
      TwoImages(a, seg, at, raw, d, i);
    }
  }

  lemma SameStep(a: seq<Write>, b: seq<Write>, ev: Event)
    requires SameBytes(a, b) && ValidEvent(ev) && StagingFits(ev)
    ensures SameBytes(a + Meaning(ev), b + CleanMeaning(ev))
  {
    if ev.LIDATA? {
      var raw, d := Image(ev.seg, ev.offset, ev.data), Image(ev.seg, ev.offset, Expansion(ev.data, ev.ws));
      SameAppend(a, b, d);
      Staged(a, ev.seg, ev.offset, ev.data, Expansion(ev.data, ev.ws));
    } else if Meaning(ev) == [] {
      assert a + [] == a && b + [] == b;
    } else {
      SameAppend(a, b, Meaning(ev)[0]);
    }
  }

  lemma {:induction false} SameWrites(a: seq<Write>, b: seq<Write>, evs: seq<Event>)
    requires SameBytes(a, b) && forall k :: 0 <= k < |evs| ==> ValidEvent(evs[k]) && StagingFits(evs[k])
    ensures SameBytes(a + Writes(evs), b + CleanWrites(evs))
    decreases |evs|
  {
    if evs == [] {
      assert a + [] == a && b + [] == b;
    } else {
      SameStep(a, b, evs[0]);
      SameWrites(a + Meaning(evs[0]), b + CleanMeaning(evs[0]), evs[1..]);
      Regroup(a, Meaning(evs[0]), Writes(evs[1..]));
      Regroup(b, CleanMeaning(evs[0]), CleanWrites(evs[1..]));
    }
  }

  /** If every LIDATA record is no longer than its expansion, a module's segments hold what
      the records mean: data, expansions and backpatches in order, on zeros. */
  lemma CleanContents(t: Tables, st: State, evs: seq<Event>)
    requires Initial(st) && forall k :: 0 <= k < |evs| ==> ValidEvent(evs[k]) && StagingFits(evs[k])
    requires Run(t, st, evs + [MODEND]).Some? && NeverLeftWrong(t, st, evs + [MODEND])
    ensures var st' := Run(t, st, evs + [MODEND]).value;
            Settled(st') && Reflects(st'.secs, CleanWrites(evs))
  {
    hide Step, Meaning, CleanMeaning, Expansion, ByteAt;
    ModuleContents(t, st, evs);
    SameWrites([], [], evs);
    assert [] + Writes(evs) == Writes(evs) && [] + CleanWrites(evs) == CleanWrites(evs);
  }

  // ------------------------------------------------ a run whose contents are wrong

  /** One repetition of the byte 65, a fixup at its header, and a backpatch elsewhere. */
  const RAW: seq<byte> := [1, 0, 0, 0, 1, 65]
  const AT_HEADER := Fixup(0, false, true, 1, 0, FRAME_SEG, 1, 0, 1, 0)
  const ONE_SEGMENT := State([SecState(100, [], 0)], None, None, false, None, [])
  const HIDDEN := [LIDATA(2, 1, 0, RAW), FIXUPP(AT_HEADER), BAKPAT(0, 10, 1, 0)]

  lemma RawParses()
    ensures ParseRecord(RAW, 0, 2) == Some([Leaf(1, 0, [65])]) && SizeRecord(RAW, 0, 2) == Some(1)
    ensures DenoteAll([Leaf(1, 0, [65])]) == [65]
  {
    assert UWord(RAW, 0, 2) == 1 && Word16(RAW, 2) == 0 && RAW[5..6] == [65];
    var p := ParseBlock(RAW, 0, 2);
    assert p == Some(Parsed(Leaf(1, 0, [65]), 6));
    assert SizedLength(Leaf(1, 0, [65])) == 1;
    assert ParseRecord(RAW, 6, 2) == Some([]) && SizeRecord(RAW, 6, 2) == Some(0);
    assert [Leaf(1, 0, [65])] + [] == [Leaf(1, 0, [65])];
    assert Times([65], 1) == [65] + Times([65], 0);
    assert [Leaf(1, 0, [65])][1..] == [] && DenoteAll([]) == [];
  }

  /** The states of the run: the record staged, its fixup queued, the backpatch queued. */
  function Staging(fixups: seq<Fixup>, bakpat: Option<seq<Bkfix>>): State
  {
    State([SecState(100, Overlay(Zeros(STD_CODE_SIZE), 0, RAW), 0)], Some(1), Some(Pending(|RAW|, 2, fixups)), bakpat.Some?, bakpat, [])
  }

  const QUEUE := [Bkfix(W8, 1, 10, 0)]

  lemma StagingHolds(fixups: seq<Fixup>, bakpat: Option<seq<Bkfix>>)
    requires Queued(fixups)
    ensures Inv(Staging(fixups, bakpat)) && PendingBlocks(Staging(fixups, bakpat)) == Some([Leaf(1, 0, [65])])
  {
    RawParses();
    assert Overlay(Zeros(STD_CODE_SIZE), 0, RAW)[..6] == RAW;
    assert Raw(Staging(fixups, bakpat)) == RAW;
  }

  lemma FirstStored()
    ensures StoreRecord(ONE_SEGMENT, 1, 0, 1, RAW) == (Okay, Staging([], None).(lidata := None))
  {
    hide Overlay, Zeros;
    var s := SecState(100, [], 0);
    assert [] + Zeros(STD_CODE_SIZE) == Zeros(STD_CODE_SIZE);
    assert CheckSegmentLength(s, 1) == Some(s.(contents := Zeros(STD_CODE_SIZE)));
    assert [s][0 := SecState(100, Overlay(Zeros(STD_CODE_SIZE), 0, RAW), 0)] == [SecState(100, Overlay(Zeros(STD_CODE_SIZE), 0, RAW), 0)];
  }

  lemma HiddenFirst(t: Tables)
    ensures Step(t, ONE_SEGMENT, HIDDEN[0]) == (Okay, Staging([], None)) && Inv(Staging([], None))
  {
    hide StoreRecord, ParseRecord, SizeRecord;
    RawParses();
    FirstStored();
    StagingHolds([], None);
  }

  lemma HiddenSecond(t: Tables)
    requires Inv(Staging([], None))
    ensures Step(t, Staging([], None), HIDDEN[1]) == (Okay, Staging([AT_HEADER], None)) && Inv(Staging([AT_HEADER], None))
  {
    hide ParseRecord, Inv, Overlay;
    StagingHolds([AT_HEADER], None);
    assert [] + [AT_HEADER] == [AT_HEADER];
  }

  lemma HiddenThird(t: Tables)
    requires Inv(Staging([AT_HEADER], None))
    ensures Step(t, Staging([AT_HEADER], None), HIDDEN[2]) == (Okay, Staging([AT_HEADER], Some(QUEUE)))
  {
    hide ParseRecord, Inv, Overlay;
    assert [] + QUEUE == QUEUE;
  }

  lemma PatchElsewhere(st: State)
    requires |st.secs| == 1 && |st.secs[0].contents| > 10
    ensures var r := ApplyAll(st, QUEUE); r.0.Okay? && |r.1.secs| == 1 && Cell(r.1.secs, 1, 0) == Cell(st.secs, 1, 0)
  {
    assert QUEUE[1..] == [];
  }

  /** At the end the expansion is abandoned, and nobody hears of it. */
  lemma HiddenEnd(t: Tables)
    ensures Inv(Staging([AT_HEADER], Some(QUEUE)))
    ensures var r := Step(t, Staging([AT_HEADER], Some(QUEUE)), MODEND); r.0.Okay? && |r.1.secs| == 1 && Cell(r.1.secs, 1, 0) == 1
  {
    hide ApplyAll, AnyHitsHeader, PointsInto, ParseRecord, DenoteAll, EmittedAll, AllPositive, StoreRecord;
    StagingHolds([AT_HEADER], Some(QUEUE));
    RawParses();
    HeaderHit();
    assert Overlay(Zeros(STD_CODE_SIZE), 0, RAW)[0] == RAW[0];
    hide Overlay, Inv;
    var st := Staging([AT_HEADER], Some(QUEUE));
    AbandonedLeavesRaw(st);
    AbandonedExpansion(t, st);
    hide AfterWriting;
    PatchElsewhere(AfterWriting(st));
  }

  lemma HeaderHit()
    ensures PointsInto([AT_HEADER], 0, 4) && AnyHitsHeader([Leaf(1, 0, [65])], 2, [AT_HEADER])
  {
    assert [AT_HEADER][0].offset == 0;
    assert HitsHeader(Leaf(1, 0, [65]), 2, [AT_HEADER]);
  }

  lemma RunStep(t: Tables, st: State, ev: Event, rest: seq<Event>)
    requires Inv(st) && ValidEvent(ev) && forall k :: 0 <= k < |rest| ==> ValidEvent(rest[k])
    requires Step(t, st, ev).0.Okay? && Inv(Step(t, st, ev).1)
    ensures Run(t, st, [ev] + rest) == Run(t, Step(t, st, ev).1, rest)
  {
    hide Step, Inv;
    assert ([ev] + rest)[1..] == rest;
  }

  /** The whole run succeeds, and the segment starts with the first byte of the raw
      record where the records mean the byte 65. */
  lemma HiddenRunIsWrong(t: Tables)
    ensures var r := Run(t, ONE_SEGMENT, HIDDEN + [MODEND]);
            r.Some? && |r.value.secs| == 1 && Cell(r.value.secs, 1, 0) == 1 && ByteAt(Writes(HIDDEN), 1, 0) == 65
  {
    HiddenFirst(t);
    HiddenSecond(t);
    HiddenThird(t);
    HiddenEnd(t);
    HiddenMeaning();
    hide Step, Inv, Staging, ByteAt, Writes, Cell, Run;
    FourSteps(t, ONE_SEGMENT, HIDDEN[0], Staging([], None), HIDDEN[1], Staging([AT_HEADER], None), HIDDEN[2],
              Staging([AT_HEADER], Some(QUEUE)), MODEND);
    assert HIDDEN + [MODEND] == [HIDDEN[0], HIDDEN[1], HIDDEN[2], MODEND];
  }

  lemma FourSteps(t: Tables, s0: State, a: Event, s1: State, b: Event, s2: State, c: Event, s3: State, d: Event)
    requires Inv(s0) && Inv(s1) && Inv(s2) && Inv(s3) && ValidEvent(a) && ValidEvent(b) && ValidEvent(c) && ValidEvent(d)
    requires Step(t, s0, a) == (Okay, s1) && Step(t, s1, b) == (Okay, s2) && Step(t, s2, c) == (Okay, s3)
    requires Step(t, s3, d).0.Okay?
    ensures Run(t, s0, [a, b, c, d]) == Some(Step(t, s3, d).1)
  {
    hide Step, Inv, Run;
    LastStep(t, s3, d);
    RunStep(t, s2, c, [d]);
    RunStep(t, s1, b, [c, d]);
    RunStep(t, s0, a, [b, c, d]);
    assert [c] + [d] == [c, d] && [b] + [c, d] == [b, c, d] && [a] + [b, c, d] == [a, b, c, d];
  }

  lemma LastStep(t: Tables, st: State, ev: Event)
    requires Inv(st) && ValidEvent(ev) && Step(t, st, ev).0.Okay?
    ensures Run(t, st, [ev]) == Some(Step(t, st, ev).1)
  {
    StepKeepsInv(t, st, ev);
    RunStep(t, st, ev, []);
    assert [ev] + [] == [ev];
  }

  lemma WritesCons(ev: Event, rest: seq<Event>)
    requires ValidEvent(ev) && forall k :: 0 <= k < |rest| ==> ValidEvent(rest[k])
    ensures Writes([ev] + rest) == Meaning(ev) + Writes(rest)
  {
    assert ([ev] + rest)[1..] == rest;
  }

  lemma HiddenMeaning()
    ensures ByteAt(Writes(HIDDEN), 1, 0) == 65
  {
    hide ParseRecord, DenoteAll, Writes, ByteAt;
    RawParses();
    var a, b, c := HIDDEN[0], HIDDEN[1], HIDDEN[2];
    WritesCons(c, []);
    WritesCons(b, [c] + []);
    WritesCons(a, [b] + ([c] + []));
    assert HIDDEN == [a] + ([b] + ([c] + []));
    var x, y := Image(1, 0, RAW), Image(1, 0, [65]);
    assert Writes([]) == [] by { NoWrites(); }
    assert Writes(HIDDEN) == [x, y] + [Patch(1, 10, W8, 0)];
    ByteAfterPatch([x, y], 1, 10, W8, 0, 1, 0);
    TwoImages([], 1, 0, RAW, [65], 0);
    assert [] + [x, y] == [x, y];
  }

  lemma NoWrites()
    ensures Writes([]) == []
  {
  }
}
