/** Rederiving single map entries from checkpoints: windows of the blob, one per pass, and a cache
    of the decoding state that the last lookup ended in. */
module V5MapLowRam {
  import opened Bits
  import opened BitstreamModule
  import opened HuffmanDecoderModule
  import opened V5Map
  import opened V5MapFull
  import opened V5MapWindows
  import opened ChdErrors

  /** The bytes of one bucket of one pass, as last read from the file. */
  class MapWindow {
    var data: seq<byte>
    var byteStart: nat
    /** The bucket the bytes belong to, or -1. */
    var checkpointIdx: int

    constructor ()
      ensures checkpointIdx == -1
    {
      data, byteStart, checkpointIdx := [], 0, -1;
    }

    /** The window holds what pass 1 is given for bucket `checkpointIdx`. */
    ghost predicate TypesOk(m: Source)
      reads this
    {
      checkpointIdx >= 0 ==>
        && STRIDE * checkpointIdx < m.par.hunkcount
        && byteStart == TypesFrom(m, checkpointIdx) && data == TypesWindow(m, checkpointIdx)
    }

    ghost predicate FieldsOk(m: Source)
      reads this
      requires m.par.unitbytes > 0
    {
      checkpointIdx >= 0 ==>
        && STRIDE * checkpointIdx < m.par.hunkcount
        && byteStart == FieldsFrom(m, checkpointIdx) && data == FieldsWindow(m, checkpointIdx)
    }

    /** Makes the window hold bytes start .. end of the blob for bucket c, unless it already does. The
        file is read exactly if there are bytes to fetch; a read that fails leaves the window alone. */
    method Ensure(blob: seq<byte>, start: nat, end: nat, c: nat, fails: bool) returns (ok: bool, fetched: bool)
      modifies this
      ensures fetched <==> old(checkpointIdx) != c && Cut(blob, start, end) != []
      ensures ok <==> !(fetched && fails)
      ensures checkpointIdx == if ok then c else old(checkpointIdx)
      ensures if ok && old(checkpointIdx) != c then data == Cut(blob, start, end) && byteStart == start
              else data == old(data) && byteStart == old(byteStart)
    {
      if checkpointIdx == c { return true, false; }
      var bytes := Cut(blob, start, end);
      fetched := |bytes| != 0;
      if fetched && fails { return false, fetched; }
      data := bytes;
      byteStart := start;
      checkpointIdx := c;
      ok := true;
    }
  }

  /** The number of checkpoints: one for every started stride. */
  function CheckpointCount(n: nat): nat {
    (n + STRIDE - 1) / STRIDE
  }

  /** A stream at a position of a window that starts at byte `start` stands before hunk k of pass 1. */
  ghost predicate BeforeType(m: Source, data: seq<byte>, bits: int, pos: nat, start: nat, b: nat, k: nat,
                             lastcomp: nat, repcount: nat)
  {
    && bits >= 0 && ServesTypes(m, data, start, b)
    && TypeState(pos + 8 * start, lastcomp, repcount) == Types(m, k)
  }

  /** A stream at a position of a window that starts at byte `start` stands before hunk k of pass 2. */
  ghost predicate BeforeField(m: Source, data: seq<byte>, pos: nat, start: nat, b: nat, k: nat,
                              curoffset: nat, lastSelf: nat, lastParent: nat)
    requires m.par.unitbytes > 0
  {
    && ServesFields(m, data, start, b)
    && FieldState(pos + 8 * start, curoffset, lastSelf, lastParent) == Fields(m, k)
  }

  ghost predicate AtType(m: Source, bs: Bitstream, start: nat, b: nat, k: nat, lastcomp: nat, repcount: nat)
    reads bs
  {
    bs.Valid() && BeforeType(m, bs.data, bs.bits, bs.Position(), start, b, k, lastcomp, repcount)
  }

  ghost predicate AtField(m: Source, bs: Bitstream, start: nat, b: nat, k: nat,
                          curoffset: nat, lastSelf: nat, lastParent: nat)
    reads bs
    requires m.par.unitbytes > 0
  {
    bs.Valid() && BeforeField(m, bs.data, bs.Position(), start, b, k, curoffset, lastSelf, lastParent)
  }

  /** The resume cache: the hunk decoding would go on with, the first hunk past its bucket, and the state
      of both passes. */
  datatype ResumeState = ResumeState(valid: bool, hunk: nat, boundary: nat, bs1: StreamState, bs2: StreamState,
                                     lastcomp: nat, repcount: nat, curoffset: nat, lastSelf: nat, lastParent: nat)

  ghost predicate ResumeFits(m: Source, r: ResumeState, data1: seq<byte>, start1: nat, data2: seq<byte>, start2: nat)
    requires m.par.unitbytes > 0
  {
    && r.hunk <= r.boundary <= m.par.hunkcount && r.lastcomp < 256
    && r.bs1.Valid() && r.bs2.Valid() && r.bs1.data == data1 && r.bs2.data == data2
    && BeforeType(m, data1, r.bs1.bits, r.bs1.Position(), start1, r.boundary, r.hunk, r.lastcomp, r.repcount)
    && BeforeField(m, data2, r.bs2.Position(), start2, r.boundary, r.hunk, r.curoffset, r.lastSelf, r.lastParent)
  }

  /** What fetching the two windows of a bucket comes to: whether both are there, whether the first is,
      and how many reads there have then been. */
  datatype Fetch = Fetch(ok: bool, first: bool, count: nat)

  /** The windows are fetched in order, each only if it is needed, and the second only after the first. */
  function FetchBoth(fails: nat -> bool, need1: bool, need2: bool, count: nat): (w: Fetch)
    ensures w.ok ==> w.first
    ensures (forall n :: !fails(n)) ==> w.ok
  {
    if need1 && fails(count) then Fetch(false, false, count + 1)
    else
      var next := if need1 then count + 1 else count;
      if need2 then Fetch(!fails(next), true, next + 1) else Fetch(true, true, next)
  }

  class LowRamMap {
    ghost const m: Source
    /** The compressed map in the file; only windows of it are ever held. */
    const blob: seq<byte>
    const par: Params
    const decoder: HuffmanDecoder
    const checkpoints: seq<Checkpoint>
    const pass1EndBitpos: nat
    const pass1Window: MapWindow
    const pass2Window: MapWindow
    /** Which reads of a window fail, counted from 0. */
    const fails: nat -> bool
    var fetches: nat
    /** The state the last lookup ended in. */
    var resume: ResumeState

    /** What building the map has established and nothing changes. */
    ghost predicate Built()
      reads decoder, decoder.numbits, decoder.lookup
    {
      && m.Valid() && m.blob == blob && m.par == par
      && TypeDecoder(decoder) && decoder.lowram && decoder.Lens() == m.lens
      && TypesInside(m, par.hunkcount)
      && |checkpoints| == CheckpointCount(par.hunkcount)
      && (forall c :: 0 <= c < |checkpoints| ==> checkpoints[c] == CheckpointAt(m, c))
      && pass1EndBitpos == Types(m, par.hunkcount).pos
      && pass1Window != pass2Window
    }

    /** The resume cache is the full decoder's state before its hunk, its streams read the windows now
        cached, and those windows serve every hunk below its boundary. */
    ghost predicate ResumeOk()
      reads this, pass1Window, pass2Window
      requires m.Valid() && m.par == par
    {
      resume.valid ==>
        ResumeFits(m, resume, pass1Window.data, pass1Window.byteStart, pass2Window.data, pass2Window.byteStart)
    }

    /** What the resume cache holds: the full decoder's state before its hunk, as it stood in the windows
        of the bucket of the hunk before. Failed lookups do not change it, nor the second window. */
    ghost predicate ResumeKept()
      reads this, pass1Window, pass2Window
      requires m.Valid() && m.par == par
    {
      resume.valid ==>
        && resume.hunk > 0 && pass1Window.checkpointIdx >= 0
        && var c := (resume.hunk - 1) / STRIDE;
           && pass2Window.checkpointIdx == c && STRIDE * c < par.hunkcount && resume.boundary == Boundary(m, c)
           && ResumeFits(m, resume, TypesWindow(m, c), TypesFrom(m, c), FieldsWindow(m, c), FieldsFrom(m, c))
    }

    /** What holds after every lookup, also one that could not read a window. */
    ghost predicate Sane()
      reads this, pass1Window, pass2Window, decoder, decoder.numbits, decoder.lookup
    {
      Built() && pass1Window.TypesOk(m) && pass2Window.FieldsOk(m) && ResumeKept()
    }

    ghost predicate Valid()
      reads this, pass1Window, pass2Window, decoder, decoder.numbits, decoder.lookup
    {
      Sane() && ResumeOk()
    }

    /** The first window still holds the bucket of the hunk that was looked up last. */
    predicate Current()
      reads this, pass1Window
    {
      resume.valid ==> pass1Window.checkpointIdx == (resume.hunk - 1) / STRIDE
    }

    /** The resume cache is right if and only if the first window has not been replaced since. */
    lemma ResumeOkIff()
      requires Sane()
      ensures ResumeOk() <==> Current()
    {
      hide Types, Fields, TypesFrom, FieldsFrom, TypesWindow, FieldsWindow, StreamState.Valid, StreamState.Position;
      if resume.valid {
        var c, d := (resume.hunk - 1) / STRIDE, pass1Window.checkpointIdx;
        if c < d { BucketsApart(m, c, d); } else if d < c { BucketsApart(m, d, c); }
      }
    }

    /** No lookup has been made. */
    predicate Untouched()
      reads this, pass1Window, pass2Window
    {
      fetches == 0 && !resume.valid && pass1Window.checkpointIdx == -1 && pass2Window.checkpointIdx == -1
    }

    /** Whether bucket c needs a read for its first window, and for its second. */
    ghost predicate NeedsTypes(c: nat)
      reads this, pass1Window
    {
      pass1Window.checkpointIdx != c && TypesWindow(m, c) != []
    }

    ghost predicate NeedsFields(c: nat)
      reads this, pass2Window
      requires m.par.unitbytes > 0
    {
      pass2Window.checkpointIdx != c && FieldsWindow(m, c) != []
    }

    /** What fetching the windows of bucket c will come to. */
    ghost function FetchOf(c: nat): Fetch
      reads this, pass1Window, pass2Window
      requires m.par.unitbytes > 0
    {
      FetchBoth(fails, NeedsTypes(c), NeedsFields(c), fetches)
    }

    /** Whether a lookup continues from the resume cache. */
    predicate Resumes(hunknum: nat)
      reads this
    {
      resume.valid && resume.hunk == hunknum && hunknum < resume.boundary
    }

    /** The bucket of the last lookup returns to the first window only in a lookup that succeeds, and so
        renews the cache: a cache that is current reads the very bytes it was saved from. */
    lemma ReturnsOnlyBySuccess()
      requires Sane() && resume.valid
      ensures var w := FetchOf((resume.hunk - 1) / STRIDE); w.ok <==> w.first
    {
      hide Types, Fields, TypesFrom, FieldsFrom, TypesWindow, FieldsWindow, ResumeFits;
    }

    /** The hunk after the last goes on from the resume cache, unless a bucket begins there. */
    lemma ResumesNext()
      requires Sane() && resume.valid && resume.hunk < par.hunkcount
      ensures Resumes(resume.hunk) <==> resume.hunk % STRIDE != 0
    {
      hide Types, Fields, TypesFrom, FieldsFrom, TypesWindow, FieldsWindow, ResumeFits, MapWindow.TypesOk, MapWindow.FieldsOk;
      NoneWithoutHunks();
      EndOfBucket(m, resume.hunk);
    }

    constructor (ghost m: Source, par: Params, blob: seq<byte>, decoder: HuffmanDecoder,
                 checkpoints: seq<Checkpoint>, pass1EndBitpos: nat, fails: nat -> bool)
      ensures this.m == m && this.par == par && this.blob == blob && this.decoder == decoder && this.fails == fails
      ensures this.checkpoints == checkpoints && this.pass1EndBitpos == pass1EndBitpos
      ensures m.Valid() && m.blob == blob && m.par == par && TypesInside(m, par.hunkcount)
              && TypeDecoder(decoder) && decoder.lowram && decoder.Lens() == m.lens
              && |checkpoints| == CheckpointCount(par.hunkcount)
              && (forall c :: 0 <= c < |checkpoints| ==> checkpoints[c] == CheckpointAt(m, c))
              && pass1EndBitpos == Types(m, par.hunkcount).pos
              ==> Valid()
      ensures fresh(pass1Window) && fresh(pass2Window) && Untouched()
    {
      this.m, this.par, this.blob, this.decoder, this.fails, fetches := m, par, blob, decoder, fails, 0;
      this.checkpoints, this.pass1EndBitpos := checkpoints, pass1EndBitpos;
      pass1Window := new MapWindow();
      pass2Window := new MapWindow();
      resume := ResumeState(false, 0, 0, StreamState([], 0, 0, 0), StreamState([], 0, 0, 0), 0, 0, 0, 0, 0);
    }

    /** The last checkpoint at or before a hunk. */
    method FindCheckpoint(hunknum: nat) returns (cpidx: nat)
      requires Built() && hunknum < par.hunkcount
      ensures cpidx < |checkpoints| && STRIDE * cpidx <= hunknum < Boundary(m, cpidx) && cpidx == hunknum / STRIDE
    {
      cpidx := 0;
      var i := 1;
      while i < |checkpoints| && checkpoints[i].hunknum <= hunknum
        invariant 1 <= i && cpidx == i - 1 < |checkpoints|
        invariant STRIDE * cpidx <= hunknum
      {
        assert checkpoints[i] == CheckpointAt(m, i);
        cpidx := i;
        i := i + 1;
      }
      assert i < |checkpoints| ==> checkpoints[i] == CheckpointAt(m, i);
    }

    /** Has both windows hold bucket c. A read that fails leaves its window as it was; if it is the
        second, the first is already replaced. */
    method OpenWindows(c: nat) returns (ok: bool)
      requires Sane() && c < |checkpoints|
      modifies this`fetches, pass1Window, pass2Window
      ensures Built() && pass1Window.TypesOk(m) && pass2Window.FieldsOk(m)
      ensures var w := old(FetchOf(c));
              && ok == w.ok && fetches == w.count
              && pass1Window.checkpointIdx == (if w.first then c else old(pass1Window.checkpointIdx))
              && pass2Window.checkpointIdx == if ok then c else old(pass2Window.checkpointIdx)
      ensures !ok ==> Sane()
    {
      hide Types, Fields, Cut, ResumeFits, LowRamMap.Built, TypesFrom, FieldsFrom, TypesWindow, FieldsWindow;
      TwoWindows();
      BucketBytes(c);
      var start1 := checkpoints[c].types.pos;
      var end1 := if c + 1 < |checkpoints| then checkpoints[c + 1].types.pos else pass1EndBitpos;
      var start2 := checkpoints[c].fields.pos;
      var end2 := if c + 1 < |checkpoints| then checkpoints[c + 1].fields.pos else 8 * |blob|;
      var fetched: bool;
      ok, fetched := pass1Window.Ensure(blob, start1 / 8, (end1 + 7) / 8, c, fails(fetches));
      if fetched { fetches := fetches + 1; }
      if !ok { return; }
      ok, fetched := pass2Window.Ensure(blob, start2 / 8, (end2 + 7) / 8, c, fails(fetches));
      if fetched { fetches := fetches + 1; }
    }

    /** Sets up both streams at the start of bucket c, in the windows. */
    method OpenBucket(c: nat) returns (bs1: Bitstream, bs2: Bitstream)
      requires Built() && pass1Window.TypesOk(m) && pass2Window.FieldsOk(m)
      requires c < |checkpoints| && pass1Window.checkpointIdx == c && pass2Window.checkpointIdx == c
      ensures fresh(bs1) && fresh(bs2) && bs1 != bs2
      ensures bs1.data == pass1Window.data && bs2.data == pass2Window.data
      ensures var cp := checkpoints[c];
              && AtType(m, bs1, pass1Window.byteStart, Boundary(m, c), cp.hunknum, cp.types.lastcomp, cp.types.repcount)
              && AtField(m, bs2, pass2Window.byteStart, Boundary(m, c), cp.hunknum,
                         cp.fields.curoffset, cp.fields.lastSelf, cp.fields.lastParent)
    {
      hide Types, Fields, ServesTypes, ServesFields, TypesWindow, FieldsWindow;
      BucketBytes(c);
      WindowsServe(m, c);
      bs1 := new Bitstream(pass1Window.data);
      bs1.SeekBits(checkpoints[c].types.pos - 8 * pass1Window.byteStart);
      bs2 := new Bitstream(pass2Window.data);
      bs2.SeekBits(checkpoints[c].fields.pos - 8 * pass2Window.byteStart);
    }

    /** The checkpoints tell where the windows of a bucket begin and end. */
    lemma BucketBytes(c: nat)
      requires Built() && c < |checkpoints|
      ensures checkpoints[c] == CheckpointAt(m, c) && STRIDE * c < par.hunkcount
      ensures var end1 := if c + 1 < |checkpoints| then checkpoints[c + 1].types.pos else pass1EndBitpos;
              && checkpoints[c].types.pos / 8 == TypesFrom(m, c)
              && Cut(blob, TypesFrom(m, c), (end1 + 7) / 8) == TypesWindow(m, c)
      ensures var end2 := if c + 1 < |checkpoints| then checkpoints[c + 1].fields.pos else 8 * |blob|;
              && checkpoints[c].fields.pos / 8 == FieldsFrom(m, c)
              && Cut(blob, FieldsFrom(m, c), (end2 + 7) / 8) == FieldsWindow(m, c)
    {
      hide Types, Fields, Cut;
      assert checkpoints[c] == CheckpointAt(m, c);
      assert c + 1 < |checkpoints| ==> checkpoints[c + 1] == CheckpointAt(m, c + 1);
    }

    /** Both passes over hunk k, from streams that stand before it. */
    method Step(bs1: Bitstream, bs2: Bitstream, ghost b: nat, k: nat, ghost start1: nat, ghost start2: nat,
                lastcomp: nat, repcount: nat, curoffset: nat, lastSelf: nat, lastParent: nat)
      returns (overflow: bool, e: Entry, lastcomp': nat, repcount': nat, curoffset': nat, lastSelf': nat, lastParent': nat)
      requires Built() && bs1 != bs2 && k < b <= par.hunkcount && lastcomp < 256
      requires AtType(m, bs1, start1, b, k, lastcomp, repcount)
      requires AtField(m, bs2, start2, b, k, curoffset, lastSelf, lastParent)
      modifies bs1, bs2
      ensures !overflow && e == EntryOf(m, k) && lastcomp' < 256
      ensures AtType(m, bs1, start1, b, k + 1, lastcomp', repcount')
      ensures AtField(m, bs2, start2, b, k + 1, curoffset', lastSelf', lastParent')
    {
      hide NextType, NextEntry, EntryOf, Fields, CoveredNext, ServesTypes, ServesFields;
      TypeInWindow(m, bs1.data, start1, b, k, bs1.Position());
      EntryInWindow(m, bs2.data, start2, b, k, bs2.Position());
      overflow, lastcomp', repcount' := ReadType(decoder, bs1, lastcomp, repcount);
      e, curoffset', lastSelf', lastParent' := ReadFields(par, bs2, k, lastcomp', curoffset, lastSelf, lastParent);
    }

    /** Streams and state to decode hunknum from: where the last lookup ended, or else the start of
        the hunk's bucket. */
    method Begin(hunknum: nat)
      returns (ok: bool, bs1: Bitstream, bs2: Bitstream, cur: nat, next: nat,
               lastcomp: nat, repcount: nat, curoffset: nat, lastSelf: nat, lastParent: nat)
      requires Sane() && hunknum < par.hunkcount && (Resumes(hunknum) ==> Current())
      modifies this`fetches, pass1Window, pass2Window
      ensures var c := hunknum / STRIDE;
              var w := if Resumes(hunknum) then Fetch(true, true, old(fetches)) else old(FetchOf(c));
              && ok == w.ok && fetches == w.count
              && pass1Window.checkpointIdx == (if w.first then c else old(pass1Window.checkpointIdx))
              && pass2Window.checkpointIdx == if ok then c else old(pass2Window.checkpointIdx)
      ensures !ok ==> Sane()
      ensures fresh(bs1) && fresh(bs2) && bs1 != bs2
      ensures ok ==>
              && Built() && pass1Window.TypesOk(m) && pass2Window.FieldsOk(m)
              && bs1.data == pass1Window.data && bs2.data == pass2Window.data
              && cur <= hunknum < next && next == Boundary(m, hunknum / STRIDE) && lastcomp < 256
              && AtType(m, bs1, pass1Window.byteStart, next, cur, lastcomp, repcount)
              && AtField(m, bs2, pass2Window.byteStart, next, cur, curoffset, lastSelf, lastParent)
    {
      hide Types, Fields, TypesFrom, FieldsFrom, TypesWindow, FieldsWindow, FetchBoth,
           ServesTypes, ServesFields, EntryOf, AtType, AtField, LowRamMap.Built, ResumeFits;
      NoneWithoutHunks();
      if resume.valid && resume.hunk == hunknum && hunknum < resume.boundary {
        ok, cur, next := true, hunknum, resume.boundary;
        ResumeOkIff();
        SameBucket(hunknum);
        bs1, bs2 := CopyStreams();
        lastcomp, repcount := resume.lastcomp, resume.repcount;
        curoffset, lastSelf, lastParent := resume.curoffset, resume.lastSelf, resume.lastParent;
      } else {
        ok, bs1, bs2, cur, next, lastcomp, repcount, curoffset, lastSelf, lastParent := FromCheckpoint(hunknum);
      }
    }

    /** The next hunk lies in the bucket of the last, as long as it lies before the bucket's end. */
    lemma SameBucket(hunknum: nat)
      requires Sane() && Resumes(hunknum)
      ensures (resume.hunk - 1) / STRIDE == hunknum / STRIDE && resume.boundary == Boundary(m, hunknum / STRIDE)
    {
      hide Types, Fields, TypesFrom, FieldsFrom, TypesWindow, FieldsWindow, ResumeFits;
    }

    /** The cached streams, copied. */
    method CopyStreams() returns (bs1: Bitstream, bs2: Bitstream)
      requires Built() && ResumeOk() && resume.valid
      ensures fresh(bs1) && fresh(bs2) && bs1 != bs2
      ensures bs1.data == pass1Window.data && bs2.data == pass2Window.data
      ensures resume.hunk <= resume.boundary <= par.hunkcount && resume.lastcomp < 256
      ensures AtType(m, bs1, pass1Window.byteStart, resume.boundary, resume.hunk, resume.lastcomp, resume.repcount)
      ensures AtField(m, bs2, pass2Window.byteStart, resume.boundary, resume.hunk,
                      resume.curoffset, resume.lastSelf, resume.lastParent)
    {
      hide Types, Fields, ServesTypes, ServesFields, LowRamMap.Built;
      NoneWithoutHunks();
      bs1 := new Bitstream.Resume(resume.bs1);
      bs2 := new Bitstream.Resume(resume.bs2);
    }

    /** The start of the bucket that hunknum lies in. */
    method FromCheckpoint(hunknum: nat)
      returns (ok: bool, bs1: Bitstream, bs2: Bitstream, cur: nat, next: nat,
               lastcomp: nat, repcount: nat, curoffset: nat, lastSelf: nat, lastParent: nat)
      requires Sane() && hunknum < par.hunkcount
      modifies this`fetches, pass1Window, pass2Window
      ensures var c := hunknum / STRIDE;
              var w := old(FetchOf(c));
              && ok == w.ok && fetches == w.count
              && pass1Window.checkpointIdx == (if w.first then c else old(pass1Window.checkpointIdx))
              && pass2Window.checkpointIdx == if ok then c else old(pass2Window.checkpointIdx)
      ensures !ok ==> Sane()
      ensures fresh(bs1) && fresh(bs2) && bs1 != bs2
      ensures ok ==>
              && Built() && pass1Window.TypesOk(m) && pass2Window.FieldsOk(m)
              && bs1.data == pass1Window.data && bs2.data == pass2Window.data
              && cur <= hunknum < next && next == Boundary(m, hunknum / STRIDE) && lastcomp < 256
              && AtType(m, bs1, pass1Window.byteStart, next, cur, lastcomp, repcount)
              && AtField(m, bs2, pass2Window.byteStart, next, cur, curoffset, lastSelf, lastParent)
    {
      hide AtType, AtField, LowRamMap.Built, ServesTypes, ServesFields, FetchBoth,
           TypesFrom, FieldsFrom, TypesWindow, FieldsWindow, ResumeFits;
      lastcomp, repcount, curoffset, lastSelf, lastParent, cur, next := 0, 0, 0, 0, 0, 0, 0;
      var c := FindCheckpoint(hunknum);
      ok := OpenWindows(c);
      if !ok {
        bs1 := new Bitstream([]);
        bs2 := new Bitstream([]);
        return;
      }
      bs1, bs2 := OpenBucket(c);
      var cp := checkpoints[c];
      CheckpointSmall(c);
      lastcomp, repcount := cp.types.lastcomp, cp.types.repcount;
      curoffset, lastSelf, lastParent := cp.fields.curoffset, cp.fields.lastSelf, cp.fields.lastParent;
      cur := cp.hunknum;
      next := if c + 1 < |checkpoints| then checkpoints[c + 1].hunknum else par.hunkcount;
      NextIsBoundary(c);
    }

    lemma NextIsBoundary(c: nat)
      requires Built() && c < |checkpoints|
      ensures (if c + 1 < |checkpoints| then checkpoints[c + 1].hunknum else par.hunkcount) == Boundary(m, c)
      ensures Boundary(m, c) <= par.hunkcount && checkpoints[c].hunknum == STRIDE * c
    {
      hide Types, Fields;
      assert checkpoints[c] == CheckpointAt(m, c);
      assert c + 1 < |checkpoints| ==> checkpoints[c + 1] == CheckpointAt(m, c + 1);
    }

    /** Decodes the hunks cur .. hunknum, keeping the entry of the last. */
    method CatchUp(bs1: Bitstream, bs2: Bitstream, hunknum: nat, cur0: nat, ghost b: nat,
                   ghost start1: nat, ghost start2: nat,
                   lastcomp0: nat, repcount0: nat, curoffset0: nat, lastSelf0: nat, lastParent0: nat)
      returns (err: Outcome, out: seq<byte>,
               lastcomp: nat, repcount: nat, curoffset: nat, lastSelf: nat, lastParent: nat)
      requires Built() && bs1 != bs2 && cur0 <= hunknum < b <= par.hunkcount && lastcomp0 < 256
      requires AtType(m, bs1, start1, b, cur0, lastcomp0, repcount0)
      requires AtField(m, bs2, start2, b, cur0, curoffset0, lastSelf0, lastParent0)
      modifies bs1, bs2
      ensures err == Ok && out == EntryBytes(EntryOf(m, hunknum)) && lastcomp < 256
      ensures AtType(m, bs1, start1, b, hunknum + 1, lastcomp, repcount)
      ensures AtField(m, bs2, start2, b, hunknum + 1, curoffset, lastSelf, lastParent)
    {
      hide Types, Fields, ServesTypes, ServesFields, EntryOf, EntryBytes, TypesInside;
      err, out := Ok, [];
      lastcomp, repcount, curoffset, lastSelf, lastParent := lastcomp0, repcount0, curoffset0, lastSelf0, lastParent0;
      var cur := cur0;
      while cur <= hunknum
        invariant cur <= hunknum + 1 && lastcomp < 256
        invariant AtType(m, bs1, start1, b, cur, lastcomp, repcount)
        invariant AtField(m, bs2, start2, b, cur, curoffset, lastSelf, lastParent)
        invariant cur == hunknum + 1 ==> out == EntryBytes(EntryOf(m, hunknum))
      {
        var overflow: bool;
        var e: Entry;
        overflow, e, lastcomp, repcount, curoffset, lastSelf, lastParent :=
          Step(bs1, bs2, b, cur, start1, start2, lastcomp, repcount, curoffset, lastSelf, lastParent);
        if overflow {
          err := Failed(DecompressionError);
          return;
        }
        if cur == hunknum {
          out := EntryBytes(e);
        }
        cur := cur + 1;
      }
    }

    method SaveTypes(bs: Bitstream, ghost start: nat, ghost b: nat, ghost k: nat, ghost lastcomp: nat, ghost repcount: nat)
      returns (s: StreamState)
      requires AtType(m, bs, start, b, k, lastcomp, repcount)
      ensures s.Valid() && s.data == bs.data
      ensures BeforeType(m, s.data, s.bits, s.Position(), start, b, k, lastcomp, repcount)
    {
      hide BeforeType;
      s := bs.Save();
    }

    method SaveFields(bs: Bitstream, ghost start: nat, ghost b: nat, ghost k: nat,
                      ghost curoffset: nat, ghost lastSelf: nat, ghost lastParent: nat)
      returns (s: StreamState)
      requires m.par.unitbytes > 0 && AtField(m, bs, start, b, k, curoffset, lastSelf, lastParent)
      ensures s.Valid() && s.data == bs.data
      ensures BeforeField(m, s.data, s.Position(), start, b, k, curoffset, lastSelf, lastParent)
    {
      hide BeforeField;
      s := bs.Save();
    }

    /** Caches the state before hunk k, in the windows of the bucket of the hunk before. */
    method Remember(k: nat, b: nat, bs1: Bitstream, bs2: Bitstream,
                    lastcomp: nat, repcount: nat, curoffset: nat, lastSelf: nat, lastParent: nat)
      requires Built() && pass1Window.TypesOk(m) && pass2Window.FieldsOk(m) && lastcomp < 256
      requires 0 < k <= b && pass1Window.checkpointIdx == pass2Window.checkpointIdx == (k - 1) / STRIDE
      requires b == Boundary(m, (k - 1) / STRIDE)
      requires bs1.data == pass1Window.data && bs2.data == pass2Window.data
      requires AtType(m, bs1, pass1Window.byteStart, b, k, lastcomp, repcount)
      requires AtField(m, bs2, pass2Window.byteStart, b, k, curoffset, lastSelf, lastParent)
      modifies this`resume
      ensures Valid() && resume.valid && resume.hunk == k
    {
      hide Types, Fields, ServesTypes, ServesFields, TypesInside, BeforeType, BeforeField, LowRamMap.Built,
           AtType, AtField, Bitstream.Valid, StreamState.Valid, StreamState.Position,
           TypesFrom, FieldsFrom, TypesWindow, FieldsWindow;
      NoneWithoutHunks();
      var s1 := SaveTypes(bs1, pass1Window.byteStart, b, k, lastcomp, repcount);
      var s2 := SaveFields(bs2, pass2Window.byteStart, b, k, curoffset, lastSelf, lastParent);
      resume := ResumeState(true, k, b, s1, s2, lastcomp, repcount, curoffset, lastSelf, lastParent);
    }

    /** The map entry of one hunk. In every state that lookups reach it is the entry that decoding the
        whole map yields, unless a window has to be read and cannot be. A lookup that succeeds leaves the
        resume cache right, whatever was before; one that fails spoils it exactly if it has replaced the
        first window, and then the cache may not be resumed from. */
    method GetEntry(hunknum: nat) returns (err: Outcome, out: seq<byte>)
      requires Sane() && (Resumes(hunknum) ==> Current())
      modifies this, pass1Window, pass2Window
      ensures Sane()
      ensures hunknum >= par.hunkcount ==>
              && err == Failed(InvalidParameter) && resume == old(resume) && fetches == old(fetches)
              && pass1Window.checkpointIdx == old(pass1Window.checkpointIdx)
      ensures hunknum < par.hunkcount ==>
              var c := hunknum / STRIDE;
              var w := if old(Resumes(hunknum)) then Fetch(true, true, old(fetches)) else old(FetchOf(c));
              && err == (if w.ok then Ok else Failed(ReadError)) && fetches == w.count
              && pass1Window.checkpointIdx == (if w.first then c else old(pass1Window.checkpointIdx))
              && pass2Window.checkpointIdx == (if w.ok then c else old(pass2Window.checkpointIdx))
      ensures err == Ok ==> Valid() && resume.valid && resume.hunk == hunknum + 1
      ensures err == Ok ==> out == EntryBytes(EntryOf(m, hunknum))
      ensures err == Failed(ReadError) ==> resume == old(resume)
      ensures err == Failed(ReadError) && old(Valid()) && resume.valid ==>
              (Valid() <==> pass1Window.checkpointIdx == old(pass1Window.checkpointIdx))
    {
      hide Types, Fields, ServesTypes, ServesFields, EntryOf, EntryBytes, TypesInside, AtType, AtField, LowRamMap.Built,
           TypesFrom, FieldsFrom, TypesWindow, FieldsWindow, FetchBoth, ResumeFits;
      NoneWithoutHunks();
      ResumeOkIff();
      out := [];
      if hunknum >= par.hunkcount || |checkpoints| == 0 {
        return Failed(InvalidParameter), out;
      }
      var ok, bs1, bs2, cur, next, lastcomp, repcount, curoffset, lastSelf, lastParent := Begin(hunknum);
      if !ok {
        ResumeOkIff();
        return Failed(ReadError), out;
      }
      assert next <= par.hunkcount;
      err, out, lastcomp, repcount, curoffset, lastSelf, lastParent :=
        CatchUp(bs1, bs2, hunknum, cur, next, pass1Window.byteStart, pass2Window.byteStart,
                lastcomp, repcount, curoffset, lastSelf, lastParent);
      Remember(hunknum + 1, next, bs1, bs2, lastcomp, repcount, curoffset, lastSelf, lastParent);
    }

    lemma TwoWindows()
      requires Built()
      ensures m.Valid() && m.par == par && pass1Window != pass2Window
    {
    }

    lemma NoneWithoutHunks()
      requires Built()
      ensures m.Valid() && m.par == par && (|checkpoints| == 0 ==> par.hunkcount == 0)
    {
    }

    lemma CheckpointSmall(c: nat)
      requires Built() && c < |checkpoints|
      ensures checkpoints[c] == CheckpointAt(m, c) && checkpoints[c].types.lastcomp < 256
      ensures c + 1 < |checkpoints| ==> checkpoints[c + 1] == CheckpointAt(m, c + 1)
    {
      TypesSmall(m, STRIDE * c);
    }
  }

  lemma EndOfBucket(m: Source, k: nat)
    requires 0 < k < m.par.hunkcount
    ensures k < Boundary(m, (k - 1) / STRIDE) <==> k % STRIDE != 0
  {
  }

  /** Every type is a symbol of the code. */
  lemma {:induction false} TypesSmall(m: Source, k: nat)
    requires m.Valid()
    ensures Types(m, k).lastcomp < 256
  {
    if k > 0 {
      TypesSmall(m, k - 1);
      SymSmall(m.lens, m.blob, Types(m, k - 1).pos);
    }
  }
}
