/** The FIXUPP decoders of src/omf/omfload.c as methods on a reader with its thread
    registers; they are proved against the functions of OmfFixupp and OmfThreads. */
module OmfLoad {
  import opened Basics
  import opened Bytes
  import opened OmfClones
  import opened OmfWork
  import opened OmfFixupp
  import opened OmfThreads
  import opened OmfMunge

  /** Doing the subrecords of a record in order, up to the first that does not succeed. */
  function ExecSubs(t: Tables, st: State, th: Threads, b: seq<byte>, pos: nat, is32: bool): (OrlReturn, State, Threads)
    requires Inv(st) && ValidThreads(th) && pos <= |b|
    decreases |b| - pos
  {
    if pos == |b| then (Okay, st, th)
    else
      var p := ParseSub(b, pos, WordSize(is32));
      if p.None? then (Undefined, st, th)
      else
        ParsedSubIsValid(b, pos, WordSize(is32));
        var s, end := p.value.sub, p.value.end;
        if s.Thread? then ExecSubs(t, st, SetThread(th, s), b, end, is32)
        else
          AddFixuppKeepsInv(t, st, FixupOf(th, s, is32));
          var r := AddFixupp(t, st, FixupOf(th, s, is32));
          if !r.0.Okay? then (r.0, r.1, th) else ExecSubs(t, r.1, th, b, end, is32)
  }

  /** A complete record has the effect of its fixups, in order. */
  lemma {:induction false} CompleteRecord(t: Tables, st: State, th: Threads, b: seq<byte>, pos: nat, is32: bool)
    requires Inv(st) && ValidThreads(th) && pos <= |b| && ParseSubs(b, pos, WordSize(is32)).Some?
    requires ValidSubs(ParseSubs(b, pos, WordSize(is32)).value)
    ensures var subs, r := ParseSubs(b, pos, WordSize(is32)).value, ExecSubs(t, st, th, b, pos, is32);
            (r.0, r.1) == Play(t, st, FixupEvents(FixupsOf(th, subs, is32))) && (r.0.Okay? ==> r.2 == ThreadsAfter(th, subs))
    decreases |b| - pos
  {
    hide FixupOf, SetThread, ValidSub, OmfWork.AddFixupp, Inv;
    if pos < |b| {
      var p := ParseSub(b, pos, WordSize(is32)).value;
      var subs := ParseSubs(b, pos, WordSize(is32)).value;
      var rest := ParseSubs(b, p.end, WordSize(is32)).value;
      assert subs[0] == p.sub && subs[1..] == rest;
      ParsedSubIsValid(b, pos, WordSize(is32));
      if p.sub.Thread? {
        CompleteRecord(t, st, SetThread(th, p.sub), b, p.end, is32);
      } else {
        var f := FixupOf(th, p.sub, is32);
        AddFixuppKeepsInv(t, st, f);
        var r := AddFixupp(t, st, f);
        assert FixupsOf(th, subs, is32) == [f] + FixupsOf(th, rest, is32);
        assert FixupEvents([f] + FixupsOf(th, rest, is32))[1..] == FixupEvents(FixupsOf(th, rest, is32));
        if r.0.Okay? {
          CompleteRecord(t, r.1, th, b, p.end, is32);
        }
      }
    }
  }

  /** loadIndex; ok is false when it would read past the record. */
  method LoadIndex(b: seq<byte>, pos: nat) returns (ok: bool, idx: nat, end: nat)
    ensures ParseIndex(b, pos) == if ok then Some(ParsedIndex(idx, end)) else None
  {
    if pos >= |b| || (b[pos] >= 128 && pos + 1 >= |b|) {
      return false, 0, pos;
    }
    var first: nat := b[pos];
    if first >= 128 {
      var second: nat := b[pos + 1];
      return true, (first - 128) * 256 + second, pos + 2;
    }
    return true, first, pos + 1;
  }

  const SAMPLE16: seq<byte> := [0xC4, 0x05, 0x50, 0x01, 0xFE, 0xFF]
  const SAMPLE32: seq<byte> := [0xE4, 0x05, 0x50, 0x01, 0xFE, 0xFF, 0xFF, 0xFF]

  /** Two subrecords: the offset 5 bytes into the record, relative to segment 1 with the
      frame of the target, displaced by -2; in 16 and in 32 bits. */
  lemma Samples()
    ensures ParseFix(SAMPLE16, 0, WordSize(false)) == Some(ParsedSub(Fix(true, 1, 5, Frame(5, 0), Target(0, 1), Some(-2)), 6))
    ensures ParseFix(SAMPLE32, 0, WordSize(true)) == Some(ParsedSub(Fix(true, 9, 5, Frame(5, 0), Target(0, 1), Some(-2)), 8))
  {
    assert SWord(SAMPLE16, 4, 2) == -2;
    assert Word16(SAMPLE32, 4) == 0xFFFE && Word16(SAMPLE32, 6) == 0xFFFF;
    assert SWord(SAMPLE32, 4, 4) == -2;
  }

  class Reader {
    const file: OmfFile
    const frameThred: array<ThreadReg>
    const targetThred: array<ThreadReg>

    ghost predicate Valid()
      reads file, file.segs, file.lidata, frameThred, targetThred
    {
      && frameThred != targetThred && frameThred.Length == 4 && targetThred.Length == 4
      && file.Valid() && ValidThreads(Regs())
    }

    function Regs(): Threads
      reads frameThred, targetThred
    {
      Threads(frameThred[..], targetThred[..])
    }

    /** A fresh file handle: its registers are zero. */
    constructor (file: OmfFile)
      requires file.Valid()
      ensures Valid() && this.file == file && fresh(frameThred) && fresh(targetThred)
    {
      hide OmfFile.Valid, ValidSub;
      this.file := file;
      frameThred := new ThreadReg[4](_ => ThreadReg(0, 0));
      targetThred := new ThreadReg[4](_ => ThreadReg(0, 0));
    }

    /** processThreadFixup. */
    method ProcessThreadFixup(b: seq<byte>, pos: nat) returns (ok: bool, end: nat)
      requires Valid() && pos < |b|
      modifies frameThred, targetThred
      ensures Valid() && (ok <==> ParseThread(b, pos).Some?) && (!ok ==> Regs() == old(Regs()))
      ensures ok ==> end == ParseThread(b, pos).value.end
      ensures ok ==> ValidSub(ParseThread(b, pos).value.sub) && Regs() == SetThread(old(Regs()), ParseThread(b, pos).value.sub)
    {
      hide OmfFile.Valid;
      var isFrame, meth, thred := b[pos] / 64 % 2 == 1, b[pos] / 4 % 8, b[pos] % 4;
      ghost var before := Regs();
      end := pos + 1;
      var i := (if isFrame then frameThred[thred] else targetThred[thred]).idx;
      if !isFrame || meth < 3 {
        ok, i, end := LoadIndex(b, pos + 1);
        if !ok {
          return;
        }
      }
      if isFrame {
        frameThred[thred] := ThreadReg(meth, i);
        assert Regs() == before.(frame := before.frame[thred := ThreadReg(meth, i)]);
      } else {
        targetThred[thred] := ThreadReg(meth, i);
        assert Regs() == before.(target := before.target[thred := ThreadReg(meth, i)]);
      }
      ok := true;
    }

    /** The frame part of a FIXUP subrecord: method and index, from a thread or from the record. */
    method LoadFrame(b: seq<byte>, pos: nat, datum: byte) returns (ok: bool, fmethod: nat, fidx: nat, end: nat)
      requires Valid()
      ensures ok <==> ParseFrame(b, pos, datum).Some?
      ensures ok ==> var (f, e) := ParseFrame(b, pos, datum).value;
                     end == e && ValidFrame(f)
                     && ThreadReg(fmethod, fidx) == match f case FrameThread(n) => Regs().frame[n] case Frame(m, i) => ThreadReg(m, i)
    {
      end := pos;
      if datum >= 128 {
        var thred := datum / 16 % 4;
        return true, frameThred[thred].meth, frameThred[thred].idx, end;
      }
      fmethod, fidx := datum / 16 % 8, 0;
      ok := true;
      if fmethod < 3 {
        ok, fidx, end := LoadIndex(b, pos);
      }
    }

    /** The target part; it also settles a frame that is the same as an explicit target. */
    method LoadTarget(b: seq<byte>, pos: nat, datum: byte, frame: ThreadReg)
      returns (ok: bool, fmethod: nat, fidx: nat, tmethod: nat, tidx: nat, end: nat)
      requires Valid()
      ensures ok <==> ParseTarget(b, pos, datum).Some?
      ensures ok ==> var (g, e) := ParseTarget(b, pos, datum).value;
                     end == e && ValidTarget(g)
                     && ThreadReg(tmethod, tidx) == (match g case TargetThread(n) => Regs().target[n] case Target(k, i) => ThreadReg(datum % 8, i))
                     && (g.Target? ==> g.kind == datum % 4)
                     && ThreadReg(fmethod, fidx) == if g.Target? && frame.meth == FRAME_TARG then ThreadReg(tmethod % 4, tidx) else frame
    {
      hide OmfFile.Valid;
      ok, fmethod, fidx, end := true, frame.meth, frame.idx, pos;
      if datum / 8 % 2 == 1 {
        tmethod, tidx := targetThred[datum % 4].meth, targetThred[datum % 4].idx;
      } else {
        tmethod := datum % 8;
        ok, tidx, end := LoadIndex(b, pos);
        if ok && fmethod == FRAME_TARG {
          fmethod := tmethod % 4;
          fidx := tidx;
        }
      }
    }

    /** The first part of processExplicitFixup: the arguments for OmfAddFixupp. */
    method DecodeFixup(is32: bool, b: seq<byte>, pos: nat) returns (ok: bool, f: Fixup, end: nat)
      requires Valid()
      ensures ok <==> ParseFix(b, pos, WordSize(is32)).Some?
      ensures ok ==> var p := ParseFix(b, pos, WordSize(is32)).value;
                     p.sub.Fix? && ValidSub(p.sub) && end == p.end && f == FixupOf(Regs(), p.sub, is32)
    {
      hide OmfFile.Valid, ParseFrame, ParseTarget, SWord;
      var wordsize := WordSize(is32);
      end := pos;
      f := Fixup(0, is32, false, 0, 0, 0, 0, 0, 0, 0);
      if pos + 3 > |b| {
        return false, f, end;
      }
      var first: nat, second: nat := b[pos], b[pos + 1];
      var mode, location, offset := first / 64 % 2 == 1, first / 4 % 16, first % 4 * 256 + second;
      var datum := b[pos + 2];
      var fmethod, fidx, tmethod, tidx;
      ok, fmethod, fidx, end := LoadFrame(b, pos + 3, datum);
      if !ok {
        return;
      }
      ok, fmethod, fidx, tmethod, tidx, end := LoadTarget(b, end, datum, ThreadReg(fmethod, fidx));
      if !ok {
        return;
      }
      var disp := 0;
      if datum / 4 % 2 == 0 {
        if end + wordsize > |b| {
          return false, f, end;
        }
        disp := SWord(b, end, wordsize);
        end := end + wordsize;
      }
      assert datum % 8 == datum % 4 + datum / 4 % 2 * 4;
      f := Fixup(0, is32, mode, location, offset, fmethod, fidx, tmethod, tidx, disp);
    }

    /** processExplicitFixup. */
    method ProcessExplicitFixup(is32: bool, b: seq<byte>, pos: nat) returns (r: OrlReturn, end: nat)
      requires Valid()
      modifies file`relocs, file.lidata
      ensures Valid() && Regs() == old(Regs())
      ensures match ParseFix(b, pos, WordSize(is32))
              case None => r.Undefined? && file.Abs() == old(file.Abs())
              case Some(p) =>
                && p.sub.Fix? && ValidSub(p.sub) && end == p.end
                && (r, file.Abs()) == OmfWork.AddFixupp(file.tables, old(file.Abs()), FixupOf(old(Regs()), p.sub, is32))
    {
      hide OmfFile.Valid, ParseFix, ValidThreads, FixupOf, ValidSub, OmfWork.AddFixupp;
      var ok, f;
      ok, f, end := DecodeFixup(is32, b, pos);
      if !ok {
        return Undefined, end;
      }
      r := file.AddFixupp(f);
    }

    /** doFIXUPP, from the record's first byte. A record that ends inside a subrecord is
        Undefined: the source reads on behind it. */
    method DoFIXUPP(is32: bool, b: seq<byte>) returns (r: OrlReturn)
      requires Valid()
      modifies file`relocs, file.lidata, frameThred, targetThred
      ensures Valid() && (r, file.Abs(), Regs()) == ExecSubs(file.tables, old(file.Abs()), old(Regs()), b, 0, is32)
    {
      hide ParseFix, ParseThread, OmfWork.AddFixupp, Inv, ValidSub, FixupOf, SetThread;
      ghost var goal := ExecSubs(file.tables, file.Abs(), Regs(), b, 0, is32);
      var pos: nat := 0;
      r := Okay;
      while pos < |b|
        invariant 0 <= pos <= |b| && Valid() && r.Okay? && goal == ExecSubs(file.tables, file.Abs(), Regs(), b, pos, is32)
        decreases |b| - pos
      {
        if b[pos] >= 128 {
          var end;
          r, end := ProcessExplicitFixup(is32, b, pos);
          if !r.Okay? {
            return;
          }
          pos := end;
        } else {
          var ok, end := ProcessThreadFixup(b, pos);
          if !ok {
            return Undefined;
          }
          pos := end;
        }
      }
    }
  }
}
