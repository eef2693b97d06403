/** Thread compression is transparent: a module whose FIXUPP records use threads leaves the
    same segments and the same relocations as the module with every thread reference
    replaced by the method and index the thread holds. */
module OmfThreads {
  import opened Basics
  import opened Bytes
  import opened OmfBlocks
  import opened OmfClones
  import opened OmfWork
  import opened OmfFixupp

  // --------------------------------------- the machine works on canonical fixups

  function CanonState(st: State): State
  {
    if st.lidata.None? then st else st.(lidata := Some(st.lidata.value.(fixups := CanonAll(st.lidata.value.fixups))))
  }

  function CanonEvent(ev: Event): Event
  {
    if ev.FIXUPP? then FIXUPP(Canon(ev.f)) else ev
  }

  lemma CanonConcat(a: seq<Fixup>, b: seq<Fixup>)
    ensures CanonAll(a + b) == CanonAll(a) + CanonAll(b)
  {
  }

  lemma PointsIntoCanon(fx: seq<Fixup>, lo: nat, hi: nat)
    ensures PointsInto(CanonAll(fx), lo, hi) <==> PointsInto(fx, lo, hi)
  {
    var cs := CanonAll(fx);
    assert forall k :: 0 <= k < |fx| ==> cs[k].offset == fx[k].offset;
    if PointsInto(fx, lo, hi) {
      var k :| 0 <= k < |fx| && lo <= fx[k].offset <= hi;
      assert lo <= cs[k].offset <= hi;
    }
  }

  lemma {:induction false} HitsCanon(b: Block, ws: nat, fx: seq<Fixup>)
    ensures HitsHeader(b, ws, CanonAll(fx)) <==> HitsHeader(b, ws, fx)
    decreases b, 1
  {
    PointsIntoCanon(fx, b.at, b.at + ws + 2);
    if b.Node? {
      AnyHitsCanon(b.kids, ws, fx);
    }
  }

  lemma {:induction false} AnyHitsCanon(bs: seq<Block>, ws: nat, fx: seq<Fixup>)
    ensures AnyHitsHeader(bs, ws, CanonAll(fx)) <==> AnyHitsHeader(bs, ws, fx)
    decreases bs, 0
  {
    if bs != [] {
      HitsCanon(bs[0], ws, fx);
      AnyHitsCanon(bs[1..], ws, fx);
    }
  }

  lemma {:induction false} LeafClonesCanon(fx: seq<Fixup>, lo: nat, n: nat, off: nat)
    ensures LeafClones(CanonAll(fx), lo, n, off) == CanonAll(LeafClones(fx, lo, n, off))
  {
    if fx != [] {
      assert CanonAll(fx)[1..] == CanonAll(fx[1..]);
      LeafClonesCanon(fx[1..], lo, n, off);
      var first := if lo <= fx[0].offset < lo + n then [fx[0].(offset := off + (fx[0].offset - lo))] else [];
      CanonConcat(first, LeafClones(fx[1..], lo, n, off));
    }
  }

  lemma {:induction false} EmittedCanon(b: Block, ws: nat, fx: seq<Fixup>, off: nat)
    ensures Emitted(b, ws, CanonAll(fx)) == Emitted(b, ws, fx)
    ensures EmittedClones(b, ws, CanonAll(fx), off) == CanonAll(EmittedClones(b, ws, fx, off))
    decreases b, 2, 0
  {
    PointsIntoCanon(fx, b.at, b.at + ws + 2);
    BodyCanon(b, ws, fx, off);
    RepeatedCanon(b, ws, fx, off, b.repeat);
  }

  lemma {:induction false} RepeatedCanon(b: Block, ws: nat, fx: seq<Fixup>, off: nat, n: nat)
    ensures RepeatedEmitted(b, ws, CanonAll(fx), off, n) == CanonAll(RepeatedEmitted(b, ws, fx, off, n))
    decreases b, 1, n
  {
    if n > 0 {
      var last := off + (n - 1) * |EmittedBody(b, ws, fx)|;
      RepeatedCanon(b, ws, fx, off, n - 1);
      BodyCanon(b, ws, fx, last);
      CanonConcat(RepeatedEmitted(b, ws, fx, off, n - 1), BodyEmitted(b, ws, fx, last));
    }
  }

  lemma {:induction false} BodyCanon(b: Block, ws: nat, fx: seq<Fixup>, off: nat)
    ensures EmittedBody(b, ws, CanonAll(fx)) == EmittedBody(b, ws, fx)
    ensures BodyEmitted(b, ws, CanonAll(fx), off) == CanonAll(BodyEmitted(b, ws, fx, off))
    decreases b, 0, 0
  {
    match b
    case Leaf(_, _, data) => LeafClonesCanon(fx, DataStart(b, ws), |data|, off);
    case Node(_, _, kids) => AllCanon(kids, ws, fx, off);
  }

  lemma {:induction false} AllCanon(bs: seq<Block>, ws: nat, fx: seq<Fixup>, off: nat)
    ensures EmittedAll(bs, ws, CanonAll(fx)) == EmittedAll(bs, ws, fx)
    ensures AllEmitted(bs, ws, CanonAll(fx), off) == CanonAll(AllEmitted(bs, ws, fx, off))
    decreases bs, 0, 0
  {
    if bs != [] {
      var next := off + |Emitted(bs[0], ws, fx)|;
      EmittedCanon(bs[0], ws, fx, off);
      HitsCanon(bs[0], ws, fx);
      AllCanon(bs[1..], ws, fx, next);
      CanonConcat(EmittedClones(bs[0], ws, fx, off),
                  if HitsHeader(bs[0], ws, fx) then [] else AllEmitted(bs[1..], ws, fx, next));
    }
  }

  lemma {:induction false} EmitCanon(t: Tables, st: State, fx: seq<Fixup>)
    requires st.work.Some? ==> WorkInRange(st)
    ensures EmitFixups(t, st, CanonAll(fx)) == EmitFixups(t, st, fx)
    decreases |fx|
  {
    if fx != [] {
      var cur := if st.work.Some? then st.secs[st.work.value - 1].cur else 0;
      ResolveCanon(t, fx[0], st.work, cur);
      assert CanonAll(fx)[1..] == CanonAll(fx[1..]);
      var r := Resolve(t, fx[0], st.work, cur);
      if r.Some? {
        EmitCanon(t, st.(relocs := st.relocs + [r.value]), fx[1..]);
      }
    }
  }

  lemma CanonKeepsInv(st: State)
    requires Inv(st)
    ensures Inv(CanonState(st)) && (st.lidata.Some? ==> PendingBlocks(CanonState(st)) == PendingBlocks(st))
  {
    if st.lidata.Some? {
      assert Raw(CanonState(st)) == Raw(st);
    }
  }

  lemma AfterWritingCanon(st: State)
    requires Inv(st) && st.lidata.Some? && Inv(CanonState(st))
    requires var s := st.secs[st.work.value - 1]; s.cur + |DenoteAll(PendingBlocks(st).value)| <= |s.contents|
    ensures PendingBlocks(CanonState(st)) == PendingBlocks(st) && AfterWriting(CanonState(st)) == AfterWriting(st)
    ensures WorkInRange(AfterWriting(st))
  {
    hide EmittedAll, AllEmitted, AnyHitsHeader, DenoteAll;
    CanonKeepsInv(st);
    AllCanon(PendingBlocks(st).value, st.lidata.value.ws, st.lidata.value.fixups, 0);
    AnyHitsCanon(PendingBlocks(st).value, st.lidata.value.ws, st.lidata.value.fixups);
  }

  lemma QueueEndCanon(fx: seq<Fixup>, clones: seq<Fixup>)
    ensures CloneQueueEnds(CanonAll(fx), CanonAll(clones)) <==> CloneQueueEnds(fx, clones)
  {
  }

  /** Expanding a record with canonical fixups does the same as with the original ones. */
  lemma ExpandCanon(t: Tables, st: State)
    requires Inv(st) && st.lidata.Some? && Inv(CanonState(st))
    ensures ExpandPrev(t, CanonState(st)) == ExpandPrev(t, st)
  {
    hide AfterWriting, CloneQueueEnds, AllEmitted, AnyHitsHeader, PendingBlocks, DenoteAll, EmitFixups;
    CanonKeepsInv(st);
    var p, s, blocks := st.lidata.value, st.secs[st.work.value - 1], PendingBlocks(st).value;
    if s.cur + |DenoteAll(blocks)| <= |s.contents| {
      AfterWritingCanon(st);
      AllCanon(blocks, p.ws, p.fixups, 0);
      AnyHitsCanon(blocks, p.ws, p.fixups);
      var clones := AllEmitted(blocks, p.ws, p.fixups, 0);
      QueueEndCanon(p.fixups, clones);
      if !AnyHitsHeader(blocks, p.ws, p.fixups) {
        EmitCanon(t, AfterWriting(st), clones);
      }
    }
  }

  lemma FinishCanon(t: Tables, st: State)
    requires Inv(st) && Inv(CanonState(st))
    ensures FinishPrevWork(t, CanonState(st)) == FinishPrevWork(t, st)
  {
    hide ExpandPrev;
    if st.lidata.Some? {
      ExpandCanon(t, st);
    }
  }

  lemma AddFixuppCanon(t: Tables, st: State, f: Fixup)
    requires Inv(st) && Inv(CanonState(st))
    ensures var r := AddFixupp(t, st, f);
            AddFixupp(t, CanonState(st), Canon(f)) == (r.0, CanonState(r.1))
  {
    if st.lidata.Some? {
      var p := st.lidata.value;
      var g := (if f.fmethod == FRAME_LOC then f.(fmethod := FRAME_SEG, fidx := st.work.value) else f).(id := |p.fixups|);
      CanonConcat(p.fixups, [g]);
      assert CanonAll([g]) == [Canon(g)];
    } else {
      assert CanonAll([f]) == [Canon(f)];
      EmitCanon(t, st, [f]);
      EmitKeeps(t, st, [f]);
    }
  }

  lemma StoreSettles(st: State, seg: nat, offset: nat, length: nat, data: seq<byte>)
    requires st.lidata.None?
    ensures StoreRecord(st, seg, offset, length, data).1.lidata.None?
  {
  }

  /** Every step does to canonical fixups what it does to the original ones. */
  lemma StepCanon(t: Tables, st: State, ev: Event)
    requires Inv(st) && Inv(CanonState(st)) && ValidEvent(ev)
    ensures Step(t, CanonState(st), CanonEvent(ev)).0 == Step(t, st, ev).0
    ensures !Step(t, st, ev).0.Undefined? ==> Step(t, CanonState(st), CanonEvent(ev)).1 == CanonState(Step(t, st, ev).1)
  {
    hide FinishPrevWork, StoreRecord, SizeRecord;
    FinishSettles(t, st);
    FinishCanon(t, st);
    var f := FinishPrevWork(t, st);
    match ev
    case LEDATA(seg, offset, data) =>
      if f.0.Okay? {
        StoreSettles(f.1, seg, offset, |data|, data);
      }
    case LIDATA(ws, seg, offset, data) =>
      assert CanonAll([]) == [];
      if f.0.Okay? && SizeRecord(data, 0, ws).Some? {
        StoreSettles(f.1, seg, offset, SizeRecord(data, 0, ws).value, data);
      }
    case FIXUPP(g) => AddFixuppCanon(t, st, g);
    case BAKPAT(_, _, _, _) =>
    case MODEND =>
  }

  /** Playing a sequence of records up to the first that does not succeed. */
  function Play(t: Tables, st: State, evs: seq<Event>): (OrlReturn, State)
    requires Inv(st) && forall k :: 0 <= k < |evs| ==> ValidEvent(evs[k])
    decreases |evs|
  {
    if evs == [] then (Okay, st)
    else
      StepKeepsInv(t, st, evs[0]);
      var r := Step(t, st, evs[0]);
      if !r.0.Okay? then r else Play(t, r.1, evs[1..])
  }

  function CanonEvents(evs: seq<Event>): (r: seq<Event>)
    ensures |r| == |evs| && forall k :: 0 <= k < |evs| ==> r[k] == CanonEvent(evs[k])
  {
    seq(|evs|, k requires 0 <= k < |evs| => CanonEvent(evs[k]))
  }

  lemma {:induction false} PlayCanon(t: Tables, st: State, evs: seq<Event>)
    requires Inv(st) && Inv(CanonState(st)) && forall k :: 0 <= k < |evs| ==> ValidEvent(evs[k])
    ensures Play(t, CanonState(st), CanonEvents(evs)).0 == Play(t, st, evs).0
    ensures !Play(t, st, evs).0.Undefined? ==> Play(t, CanonState(st), CanonEvents(evs)).1 == CanonState(Play(t, st, evs).1)
    decreases |evs|
  {
    if evs != [] {
      StepKeepsInv(t, st, evs[0]);
      StepCanon(t, st, evs[0]);
      var r := Step(t, st, evs[0]);
      if r.0.Okay? {
        CanonKeepsInv(r.1);
        assert CanonEvents(evs)[1..] == CanonEvents(evs[1..]);
        PlayCanon(t, r.1, evs[1..]);
      }
    }
  }

  // -------------------------------------------------------------------- modules

  /** A record of a module: FIXUPP as its bytes, any other as its event. */
  datatype Record = Data(ev: Event) | Fixups(is32: bool, bytes: seq<byte>)

  function WordSize(is32: bool): (ws: nat)
    ensures IsWordSize(ws)
  {
    if is32 then 4 else 2
  }

  /** No FIXUPP record ends inside a subrecord. */
  predicate Complete(r: Record)
  {
    match r
    case Data(ev) => !ev.FIXUPP? && ValidEvent(ev)
    case Fixups(is32, bytes) => ParseSubs(bytes, 0, WordSize(is32)).Some?
  }

  predicate AllComplete(recs: seq<Record>)
  {
    recs == [] || (Complete(recs[0]) && AllComplete(recs[1..]))
  }

  function SubsOf(r: Record): (subs: seq<Sub>)
    requires r.Fixups? && Complete(r)
    ensures ValidSubs(subs) && AllFit(subs, WordSize(r.is32))
  {
    ParsedIsValid(r.bytes, 0, WordSize(r.is32));
    ParseSubs(r.bytes, 0, WordSize(r.is32)).value
  }

  function FixupEvents(fx: seq<Fixup>): (r: seq<Event>)
    ensures |r| == |fx| && forall k :: 0 <= k < |fx| ==> r[k] == FIXUPP(fx[k])
  {
    seq(|fx|, k requires 0 <= k < |fx| => FIXUPP(fx[k]))
  }

  /** The events a module consists of, the thread registers being th at first. */
  function EventsOf(th: Threads, recs: seq<Record>): (evs: seq<Event>)
    requires ValidThreads(th) && AllComplete(recs)
    ensures forall k :: 0 <= k < |evs| ==> ValidEvent(evs[k])
    decreases |recs|
  {
    if recs == [] then []
    else match recs[0]
      case Data(ev) => [ev] + EventsOf(th, recs[1..])
      case Fixups(is32, _) =>
        var subs := SubsOf(recs[0]);
        FixupEvents(FixupsOf(th, subs, is32)) + EventsOf(ThreadsAfter(th, subs), recs[1..])
  }

  lemma {:induction false} ExplicitFits(th: Threads, subs: seq<Sub>, ws: nat)
    requires IsWordSize(ws) && ValidThreads(th) && ValidSubs(subs) && AllFit(subs, ws)
    ensures AllFit(ExplicitAll(th, subs), ws)
    decreases |subs|
  {
    if subs != [] {
      ExplicitFits(if subs[0].Thread? then SetThread(th, subs[0]) else th, subs[1..], ws);
      if subs[0].Fix? {
        var e, rest := Explicit(th, subs[0]), ExplicitAll(th, subs[1..]);
        assert ([e] + rest)[0] == e && ([e] + rest)[1..] == rest;
      }
    }
  }

  /** A FIXUPP record rewritten without threads. */
  function ExplicitRecord(th: Threads, r: Record): (e: Record)
    requires ValidThreads(th) && r.Fixups? && Complete(r)
    ensures e.Fixups? && e.is32 == r.is32 && Complete(e) && SubsOf(e) == ExplicitAll(th, SubsOf(r))
  {
    var subs, ws := ExplicitAll(th, SubsOf(r)), WordSize(r.is32);
    ExplicitFits(th, SubsOf(r), ws);
    SubsRoundTrip(EncodeAll(subs, ws), 0, subs, ws);
    Fixups(r.is32, EncodeAll(subs, ws))
  }

  /** A module rewritten without threads. */
  function ExplicitModule(th: Threads, recs: seq<Record>): (r: seq<Record>)
    requires ValidThreads(th) && AllComplete(recs)
    ensures AllComplete(r)
    decreases |recs|
  {
    if recs == [] then []
    else
      var first := if recs[0].Data? then recs[0] else ExplicitRecord(th, recs[0]);
      var rest := ExplicitModule(if recs[0].Data? then th else ThreadsAfter(th, SubsOf(recs[0])), recs[1..]);
      assert ([first] + rest)[1..] == rest;
      [first] + rest
  }

  lemma CanonEventsConcat(a: seq<Event>, b: seq<Event>)
    ensures CanonEvents(a + b) == CanonEvents(a) + CanonEvents(b)
  {
  }

  lemma CanonOfFixupEvents(fx: seq<Fixup>)
    ensures CanonEvents(FixupEvents(fx)) == FixupEvents(CanonAll(fx))
  {
  }

  lemma {:induction false} SameEvents(th: Threads, any: Threads, recs: seq<Record>)
    requires ValidThreads(th) && ValidThreads(any) && AllComplete(recs)
    ensures CanonEvents(EventsOf(any, ExplicitModule(th, recs))) == CanonEvents(EventsOf(th, recs))
    decreases |recs|
  {
    if recs != [] {
      var ms := ExplicitModule(th, recs);
      if recs[0].Data? {
        var rest := ExplicitModule(th, recs[1..]);
        assert ms[0] == recs[0] && ms[1..] == rest;
        SameEvents(th, any, recs[1..]);
        CanonEventsConcat([recs[0].ev], EventsOf(any, rest));
        CanonEventsConcat([recs[0].ev], EventsOf(th, recs[1..]));
      } else {
        SameFixupEvents(th, any, recs);
      }
    }
  }

  lemma {:induction false} SameFixupEvents(th: Threads, any: Threads, recs: seq<Record>)
    requires ValidThreads(th) && ValidThreads(any) && AllComplete(recs) && recs != [] && recs[0].Fixups?
    ensures CanonEvents(EventsOf(any, ExplicitModule(th, recs))) == CanonEvents(EventsOf(th, recs))
    decreases |recs|, 0
  {
    var r, is32, subs := recs[0], recs[0].is32, SubsOf(recs[0]);
    var e, th', rest := ExplicitRecord(th, r), ThreadsAfter(th, subs), ExplicitModule(ThreadsAfter(th, subs), recs[1..]);
    var ms, any' := ExplicitModule(th, recs), ThreadsAfter(any, SubsOf(e));
    assert ms[0] == e && ms[1..] == rest;
    SameEvents(th', any', recs[1..]);
    ExplicitAllSaysTheSame(th, subs, is32, any);
    CanonOfFixupEvents(FixupsOf(any, SubsOf(e), is32));
    CanonOfFixupEvents(FixupsOf(th, subs, is32));
    CanonEventsConcat(FixupEvents(FixupsOf(any, SubsOf(e), is32)), EventsOf(any', rest));
    CanonEventsConcat(FixupEvents(FixupsOf(th, subs, is32)), EventsOf(th', recs[1..]));
  }

  /** Thread compression is transparent over whole modules, deferred LIDATA expansions
      included: the module without threads, whatever its thread registers hold, has the
      same outcome, and leaves the same bytes in every section and the same relocations. */
  lemma ThreadsAreTransparent(t: Tables, st: State, th: Threads, any: Threads, recs: seq<Record>)
    requires Inv(st) && ValidThreads(th) && ValidThreads(any) && AllComplete(recs)
    ensures var r, e := Play(t, st, EventsOf(th, recs)), Play(t, st, EventsOf(any, ExplicitModule(th, recs)));
            e.0 == r.0 && (!r.0.Undefined? ==> e.1.secs == r.1.secs && e.1.relocs == r.1.relocs && CanonState(e.1) == CanonState(r.1))
  {
    CanonKeepsInv(st);
    SameEvents(th, any, recs);
    PlayCanon(t, st, EventsOf(th, recs));
    PlayCanon(t, st, EventsOf(any, ExplicitModule(th, recs)));
  }
}
