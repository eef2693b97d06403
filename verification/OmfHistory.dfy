/** What every successful run leaves in the segments, abandoned expansions included, said
    of the records alone; and so exactly when a module's contents are what its records mean. */
module OmfHistory {
  import opened Basics
  import opened Bytes
  import opened OmfBlocks
  import opened OmfClones
  import opened OmfWork
  import opened OmfOverlay

  /** The fixups that the records behind a LIDATA record queue for it, the next one getting
      number n. */
  function QueuedBy(evs: seq<Event>, seg: nat, n: nat): seq<Fixup>
  {
    if evs == [] || Flushes(evs[0]) then []
    else if evs[0].FIXUPP? then [Numbered(evs[0].f, seg, n)] + QueuedBy(evs[1..], seg, n + 1)
    else QueuedBy(evs[1..], seg, n)
  }

  function Numbered(f: Fixup, seg: nat, n: nat): Fixup
  {
    (if f.fmethod == FRAME_LOC then f.(fmethod := FRAME_SEG, fidx := seg) else f).(id := n)
  }

  /** What the expansion of a record writes, given its fixups: everything it stands for, or
      what comes before the first header that a fixup points at. */
  function Emission(raw: seq<byte>, ws: nat, fx: seq<Fixup>): seq<byte>
    requires IsWordSize(ws)
  {
    var bs := ParseRecord(raw, 0, ws);
    if bs.None? then [] else EmittedAll(bs.value, ws, fx)
  }

  /** The writes of a record, given those that follow. */
  function Effect(ev: Event, rest: seq<Event>): seq<Write>
    requires ValidEvent(ev)
  {
    if ev.LIDATA? then
      [Image(ev.seg, ev.offset, ev.data), Image(ev.seg, ev.offset, Emission(ev.data, ev.ws, QueuedBy(rest, ev.seg, 0)))]
    else Meaning(ev)
  }

  function Effects(evs: seq<Event>): seq<Write>
    requires forall k :: 0 <= k < |evs| ==> ValidEvent(evs[k])
  {
    if evs == [] then [] else Effect(evs[0], evs[1..]) + Effects(evs[1..])
  }

  /** The writes still owed when the records evs are to come. */
  function Owed(st: State, evs: seq<Event>): seq<Write>
    requires Inv(st)
  {
    OwedExpansion(st, evs) + if st.bakpat.Some? then PatchWrites(st.bakpat.value) else []
  }

  function OwedExpansion(st: State, evs: seq<Event>): seq<Write>
    requires Inv(st)
  {
    if st.lidata.None? then []
    else
      var p := st.lidata.value;
      var fx := p.fixups + QueuedBy(evs, st.work.value, |p.fixups|);
      [Image(st.work.value, st.secs[st.work.value - 1].cur, EmittedAll(PendingBlocks(st).value, p.ws, fx))]
  }

  // ----------------------------------------------------------- finishing work

  lemma ExpandWrites(t: Tables, st: State, ws: seq<Write>)
    requires Inv(st) && st.lidata.Some? && Reflects(st.secs, ws) && !ExpandPrev(t, st).0.Undefined?
    ensures var p, s := st.lidata.value, st.secs[st.work.value - 1];
            Reflects(ExpandPrev(t, st).1.secs, ws + [Image(st.work.value, s.cur, EmittedAll(PendingBlocks(st).value, p.ws, p.fixups))])
  {
    hide EmittedAll, AllEmitted, AnyHitsHeader, DenoteAll, ParseRecord, AllPositive, Reflects;
    var p, s, blocks := st.lidata.value, st.secs[st.work.value - 1], PendingBlocks(st).value;
    var e := EmittedAll(blocks, p.ws, p.fixups);
    EmitsNoMoreAll(blocks, p.ws, p.fixups);
    EmitKeeps(t, AfterWriting(st), AllEmitted(blocks, p.ws, p.fixups, 0));
    OverlayReflects(st.secs, AfterWriting(st).secs, ws, st.work.value, s.cur, e, e);
  }

  lemma FinishWrites(t: Tables, st: State, ws: seq<Write>)
    requires Inv(st) && Reflects(st.secs, ws) && FinishPrevWork(t, st).0.Okay?
    ensures Reflects(FinishPrevWork(t, st).1.secs, ws + Owed(st, []))
  {
    hide EmittedAll, AllEmitted, AnyHitsHeader, DenoteAll, ParseRecord, AllPositive, AfterWriting, Reflects, ApplyAll;
    ExpandKeepsQueue(t, st);
    var e := if st.lidata.Some? then ExpandPrev(t, st) else (Okay, st);
    if st.lidata.Some? {
      ExpandWrites(t, st, ws);
      assert st.lidata.value.fixups + [] == st.lidata.value.fixups;
    } else {
      assert ws + [] == ws;
    }
    if st.addBakpat {
      QueueReflects(e.1, st.bakpat.value, ws + OwedExpansion(st, []));
      Regroup(ws, OwedExpansion(st, []), PatchWrites(st.bakpat.value));
    } else {
      Regroup(ws, OwedExpansion(st, []), []);
      assert OwedExpansion(st, []) + [] == OwedExpansion(st, []);
    }
  }

  // ------------------------------------------------------------------- steps

  /** One step: the writes done and those still owed grow by the record's effect. */
  lemma StepWrites(t: Tables, st: State, ev: Event, rest: seq<Event>, ws: seq<Write>) returns (ws': seq<Write>)
    requires Inv(st) && ValidEvent(ev) && Reflects(st.secs, ws) && Step(t, st, ev).0.Okay?
    ensures Inv(Step(t, st, ev).1) && Reflects(Step(t, st, ev).1.secs, ws')
    ensures ws' + Owed(Step(t, st, ev).1, rest) == ws + Owed(st, [ev] + rest) + Effect(ev, rest)
  {
    StepKeepsInv(t, st, ev);
    assert ([ev] + rest)[1..] == rest;
    if Flushes(ev) {
      FlushSucceeds(t, st, ev);
      FinishWrites(t, st, ws);
      FinishSettles(t, st);
      assert QueuedBy([ev] + rest, 0, 0) == [];
      assert Owed(st, [ev] + rest) == Owed(st, []);
      ws' := FlushWrites(t, st, ev, rest, ws + Owed(st, []));
    } else {
      ws' := ws;
      if ev.BAKPAT? {
        BakpatOwes(st, ev, rest);
        Regroup(ws, Owed(st, [ev] + rest), Effect(ev, rest));
      } else {
        FixuppKeepsOwed(t, st, ev, rest);
        assert ws + Owed(st, [ev] + rest) + [] == ws + Owed(st, [ev] + rest);
      }
    }
  }

  lemma FlushWrites(t: Tables, st: State, ev: Event, rest: seq<Event>, ws: seq<Write>) returns (ws': seq<Write>)
    requires Inv(st) && ValidEvent(ev) && Flushes(ev) && Step(t, st, ev).0.Okay?
    requires var f := FinishPrevWork(t, st).1; Inv(f) && Settled(f) && Reflects(f.secs, ws)
    requires Inv(Step(t, st, ev).1)
    ensures Reflects(Step(t, st, ev).1.secs, ws')
    ensures ws' + Owed(Step(t, st, ev).1, rest) == ws + Effect(ev, rest)
  {
    hide Reflects;
    match ev
    case LEDATA(seg, offset, data) =>
      ws' := ws + [Image(seg, offset, data)];
      StoreReflects(FinishPrevWork(t, st).1, seg, offset, |data|, data, ws);
      assert Owed(Step(t, st, ev).1, rest) == [];
    case LIDATA(n, seg, offset, data) =>
      ws' := ws + [Image(seg, offset, data)];
      var f := FinishPrevWork(t, st).1;
      var size := SizeRecord(data, 0, n).value;
      StoreReflects(f, seg, offset, size, data, ws);
      StoreKeepsInv(f, seg, offset, size, data);
      StagedOwes(Step(t, st, ev).1, n, seg, offset, data, rest);
      assert ws + [Image(seg, offset, data)] + Owed(Step(t, st, ev).1, rest) == ws + Effect(ev, rest);
    case MODEND =>
      ws' := ws;
      assert Owed(Step(t, st, ev).1, rest) == [];
  }

  /** A record just staged owes what its expansion will write. */
  lemma StagedOwes(st: State, ws: nat, seg: nat, offset: nat, data: seq<byte>, rest: seq<Event>)
    requires Inv(st) && Stored(st, seg, offset, data) && st.lidata == Some(Pending(|data|, ws, [])) && st.bakpat == None
    ensures Owed(st, rest) == [Image(seg, offset, Emission(data, ws, QueuedBy(rest, seg, 0)))]
  {
    assert Raw(st) == data;
    assert [] + QueuedBy(rest, seg, 0) == QueuedBy(rest, seg, 0);
  }

  lemma BakpatOwes(st: State, ev: Event, rest: seq<Event>)
    requires Inv(st) && ev.BAKPAT? && AddBakpat(st, ev.loctype, ev.location, ev.seg, ev.disp).0.Okay?
    ensures var st' := AddBakpat(st, ev.loctype, ev.location, ev.seg, ev.disp).1;
            Inv(st') && Owed(st', rest) == Owed(st, [ev] + rest) + Meaning(ev)
  {
    hide EmittedAll, ParseRecord, AllPositive;
    assert ([ev] + rest)[1..] == rest;
    var st' := AddBakpat(st, ev.loctype, ev.location, ev.seg, ev.disp).1;
    AddBakpatKeepsInv(st, ev.loctype, ev.location, ev.seg, ev.disp);
    var q := if st.bakpat.Some? then st.bakpat.value else [];
    PatchWritesSnoc(q, Bkfix(BakpatWidth(ev.loctype).value, ev.seg, ev.location, ev.disp));
    assert PatchWrites([]) == [];
    assert OwedExpansion(st', rest) == OwedExpansion(st, [ev] + rest);
    Regroup(OwedExpansion(st', rest), PatchWrites(q), Meaning(ev));
  }

  lemma FixuppKeepsOwed(t: Tables, st: State, ev: Event, rest: seq<Event>)
    requires Inv(st) && ev.FIXUPP?
    ensures var st' := AddFixupp(t, st, ev.f).1;
            Inv(st') && st'.secs == st.secs && Owed(st', rest) == Owed(st, [ev] + rest)
  {
    hide EmittedAll, ParseRecord, AllPositive;
    assert ([ev] + rest)[1..] == rest;
    AddFixuppKeepsInv(t, st, ev.f);
    var st' := AddFixupp(t, st, ev.f).1;
    if st.lidata.Some? {
      assert Raw(st') == Raw(st);
      var fx, n := st.lidata.value.fixups, |st.lidata.value.fixups|;
      Regroup(fx, [Numbered(ev.f, st.work.value, n)], QueuedBy(rest, st.work.value, n + 1));
    } else {
      EmitKeeps(t, st, [ev.f]);
    }
  }

  // ------------------------------------------------------------------- runs

  lemma {:induction false} RunWrites(t: Tables, st: State, evs: seq<Event>, ws: seq<Write>) returns (ws': seq<Write>)
    requires Inv(st) && (forall k :: 0 <= k < |evs| ==> ValidEvent(evs[k])) && Reflects(st.secs, ws) && Run(t, st, evs).Some?
    ensures var st' := Run(t, st, evs).value;
            Inv(st') && Reflects(st'.secs, ws') && ws' + Owed(st', []) == ws + Owed(st, evs) + Effects(evs)
    decreases |evs|
  {
    if evs == [] {
      ws' := ws;
      assert ws + Owed(st, []) + [] == ws + Owed(st, []);
    } else {
      hide Reflects, Owed, Effect, Step;
      assert [evs[0]] + evs[1..] == evs;
      StepKeepsInv(t, st, evs[0]);
      var ws1 := StepWrites(t, st, evs[0], evs[1..], ws);
      ws' := RunWrites(t, Step(t, st, evs[0]).1, evs[1..], ws1);
      Regroup(ws + Owed(st, evs), Effect(evs[0], evs[1..]), Effects(evs[1..]));
    }
  }

  /** After every successful run that ends with MODEND every byte of every segment is the
      one that the effects of its records leave on zeros. */
  lemma AnyRunContents(t: Tables, st: State, evs: seq<Event>)
    requires Initial(st) && forall k :: 0 <= k < |evs| ==> ValidEvent(evs[k])
    requires Run(t, st, evs + [MODEND]).Some?
    ensures var st' := Run(t, st, evs + [MODEND]).value;
            Settled(st') && Reflects(st'.secs, Effects(evs + [MODEND]))
  {
    hide Step;
    var all := evs + [MODEND];
    var ws' := RunWrites(t, st, all, []);
    var st' := Run(t, st, all).value;
    assert Settled(st') by {
      RunSnoc(t, st, evs, MODEND);
      ModEndSettles(t, Run(t, st, evs).value);
    }
    assert Owed(st, all) == [] && Owed(st', []) == [];
    assert ws' + [] == ws' && [] + [] + Effects(all) == Effects(all);
  }

  lemma ModEndSettles(t: Tables, st: State)
    requires Inv(st) && Step(t, st, MODEND).0.Okay?
    ensures Settled(Step(t, st, MODEND).1)
  {
    FinishSettles(t, st);
  }

  /** Two histories that leave the same bytes in the first n segments. */
  ghost predicate Agree(a: seq<Write>, b: seq<Write>, n: nat)
  {
    forall seg, i :: 1 <= seg <= n && 0 <= i ==> ByteAt(a, seg, i) == ByteAt(b, seg, i)
  }

  /** So a module's contents are what its records mean exactly if the effects of its records
      agree with their meaning, which the records alone decide. */
  lemma ModuleContentsIff(t: Tables, st: State, evs: seq<Event>)
    requires Initial(st) && forall k :: 0 <= k < |evs| ==> ValidEvent(evs[k])
    requires Run(t, st, evs + [MODEND]).Some?
    ensures var st' := Run(t, st, evs + [MODEND]).value;
            Reflects(st'.secs, Writes(evs)) <==> Agree(Effects(evs + [MODEND]), Writes(evs), |st'.secs|)
  {
    hide ByteAt, Effects, Writes, Run;
    AnyRunContents(t, st, evs);
    var st' := Run(t, st, evs + [MODEND]).value;
    var a, b := Effects(evs + [MODEND]), Writes(evs);
    assert forall seg, i :: 1 <= seg <= |st'.secs| && 0 <= i ==> Cell(st'.secs, seg, i) == ByteAt(a, seg, i);
  }

  /** No LIDATA record has a fixup that points at one of its headers. */
  predicate NoHeaderHit(evs: seq<Event>)
    requires forall k :: 0 <= k < |evs| ==> ValidEvent(evs[k])
  {
    evs == [] ||
    (NoHeaderHit(evs[1..]) &&
     assert ValidEvent(evs[0]);
     (evs[0].LIDATA? && ParseRecord(evs[0].data, 0, evs[0].ws).Some? ==>
        !AnyHitsHeader(ParseRecord(evs[0].data, 0, evs[0].ws).value, evs[0].ws, QueuedBy(evs[1..], evs[0].seg, 0))))
  }

  /** Then effect and meaning are the same, write for write. */
  lemma {:induction false} EffectsAreMeant(evs: seq<Event>)
    requires (forall k :: 0 <= k < |evs| ==> ValidEvent(evs[k])) && NoHeaderHit(evs)
    ensures Effects(evs) == Writes(evs)
    decreases |evs|
  {
    if evs != [] {
      var ev := evs[0];
      EffectsAreMeant(evs[1..]);
      if ev.LIDATA? && ParseRecord(ev.data, 0, ev.ws).Some? {
        NoHitAll(ParseRecord(ev.data, 0, ev.ws).value, ev.ws, QueuedBy(evs[1..], ev.seg, 0), 0);
      }
    }
  }
}
