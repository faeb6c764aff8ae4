/** Reading parts of the image file: directly, from a copy of the whole file, or through a read-ahead
    window, which must not be visible in what is read. */
module ReadAhead {
  import opened Bits
  import opened Sequences

  datatype Fetched = Missing | Bytes(bytes: seq<byte>)

  /** What a read of the file itself yields; an empty read succeeds anywhere. */
  function Direct(file: seq<byte>, offset: nat, size: nat): Fetched {
    if size == 0 then Bytes([])
    else if offset + size <= |file| then Bytes(file[offset..offset + size])
    else Missing
  }

  /** What a compressed hunk's read yields: a copy of the file is bounded by the file alone, a direct
      read by the size of a hunk too. */
  function Compressed(file: seq<byte>, hunkbytes: nat, precached: bool, offset: nat, size: nat): Fetched {
    if precached then
      if offset + size <= |file| then Bytes(file[offset..offset + size]) else Missing
    else if size > hunkbytes then Missing
    else Direct(file, offset, size)
  }

  function Uncompressed(file: seq<byte>, precached: bool, offset: nat, size: nat): Fetched {
    if precached then
      if offset + size <= |file| then Bytes(file[offset..offset + size]) else Missing
    else Direct(file, offset, size)
  }

  /** Precaching is invisible exactly when a read is within the file and no longer than a hunk, or
      fails either way: it refuses empty reads past the end, and accepts oversized hunks. */
  lemma PrecacheInvisibleIff(file: seq<byte>, hunkbytes: nat, offset: nat, size: nat)
    ensures Compressed(file, hunkbytes, true, offset, size) == Compressed(file, hunkbytes, false, offset, size)
      <==> if offset + size <= |file| then size <= hunkbytes else size > 0
  {
    if size == 0 && offset <= |file| {
      assert file[offset..offset] == [];
    }
  }

  /** For an uncompressed hunk a copy refuses just the empty reads past the end. */
  lemma PrecacheInvisibleUncompressedIff(file: seq<byte>, offset: nat, size: nat)
    ensures Uncompressed(file, true, offset, size) == Uncompressed(file, false, offset, size)
      <==> offset + size <= |file| || size > 0
  {
    if size == 0 && offset <= |file| {
      assert file[offset..offset] == [];
    }
  }

  /** A read of the file that was attempted. */
  datatype Transfer = Transfer(at: nat, size: nat)

  /** The part of the file that the read-ahead buffer holds. */
  datatype Window = Window(off: nat, valid: nat)
  {
    function End(): nat { off + valid }

    predicate Holds(offset: nat, size: nat) {
      offset >= off && offset + size <= End()
    }
  }

  datatype Step = Step(window: Window, transfers: seq<Transfer>)

  /** What a compressed read does to a window of the given capacity over a file of `len` bytes. */
  function CompressedStep(w: Window, cap: nat, len: nat, offset: nat, size: nat, refillOk: bool): Step {
    var direct := [Transfer(offset, size)];
    if size > cap then Step(w, direct)
    else if w.Holds(offset, size) then Step(w, [])
    else if offset < w.off then Step(w, direct)
    else
      var keep := if offset < w.End() then w.End() - offset else 0;
      var at := offset + keep;
      if keep < cap && at < len then
        var avail := Min(len - at, cap - keep);
        var next := if refillOk then Window(offset, keep + avail) else w.(valid := 0);
        Step(next, [Transfer(at, avail)] + if refillOk && next.Holds(offset, size) then [] else direct)
      else
        Step(Window(offset, keep), if size <= keep then [] else direct)
  }

  function Min(a: nat, b: nat): nat {
    if a < b then a else b
  }

  lemma WholeFile(file: seq<byte>)
    ensures Direct(file, 0, |file|) == Bytes(file)
  {
    assert file[0..|file|] == file;
  }

  /** The buffer holds the window's part of the file at its front. */
  ghost predicate Shows(file: seq<byte>, buf: seq<byte>, w: Window) {
    && w.valid <= |buf|
    && (w.valid > 0 ==> w.End() <= |file| && buf[..w.valid] == file[w.off..w.End()])
  }

  lemma ShowsMore(file: seq<byte>, buf: seq<byte>, offset: nat, keep: nat, bytes: seq<byte>)
    requires offset + keep + |bytes| <= |file| && keep + |bytes| <= |buf| && |bytes| > 0
    requires Direct(file, offset + keep, |bytes|) == Bytes(bytes)
    requires buf[..keep + |bytes|] == file[offset..offset + keep] + bytes
    ensures Shows(file, buf, Window(offset, keep + |bytes|))
  {
    SliceJoin(file, offset, keep, |bytes|);
  }

  lemma ShowsNothing(file: seq<byte>, buf: seq<byte>, off: nat)
    ensures Shows(file, buf, Window(off, 0))
  {
  }

  lemma Slid(file: seq<byte>, before: seq<byte>, after: seq<byte>, w: Window, offset: nat, keep: nat)
    requires Shows(file, before, w) && offset >= w.off && 0 < keep && offset + keep == w.End()
    requires |after| == |before| && forall i :: 0 <= i < keep ==> after[i] == before[offset - w.off + i]
    ensures w.End() <= |file| && after[..keep] == file[offset..offset + keep]
  {
    var held, part, d := before[..w.valid], file[w.off..w.End()], offset - w.off;
    forall i | 0 <= i < keep ensures after[..keep][i] == file[offset..offset + keep][i] {
      assert held[d + i] == part[d + i];
    }
  }

  class FileReader {
    const file: seq<byte>
    const hunkbytes: nat
    /** Whether the n-th refill of the window fails. */
    const refillFails: nat -> bool
    var refills: nat
    /** A copy of the whole file. */
    var precached: bool
    var fileCache: seq<byte>
    // the read-ahead window
    var raBuf: array?<byte>
    var raOff: nat
    var raValid: nat
    /** Every read of the file so far. */
    ghost var trace: seq<Transfer>

    ghost predicate Valid()
      reads this, raBuf
    {
      && (precached ==> fileCache == file)
      && (raBuf != null ==> Shows(file, raBuf[..], WindowNow()))
    }

    function WindowNow(): Window
      reads this
    {
      Window(raOff, raValid)
    }

    constructor (file: seq<byte>, hunkbytes: nat, refillFails: nat -> bool)
      ensures Valid() && this.file == file && this.hunkbytes == hunkbytes && this.refillFails == refillFails
      ensures raBuf == null && !precached && WindowNow() == Window(0, 0) && trace == []
    {
      this.file, this.hunkbytes, this.refillFails := file, hunkbytes, refillFails;
      refills, precached, fileCache := 0, false, [];
      raBuf, raOff, raValid, trace := null, 0, 0, [];
    }

    /** Gives the window a budget of bytes; less than a hunk leaves it off. */
    method SetCacheBudget(bytes: nat)
      requires Valid()
      modifies this
      ensures Valid() && precached == old(precached) && trace == old(trace) && refills == old(refills)
      ensures if bytes == 0 || bytes < hunkbytes then raBuf == null
              else raBuf != null && fresh(raBuf) && raBuf.Length == bytes && WindowNow() == Window(0, 0)
    {
      raBuf, raOff, raValid := null, 0, 0;
      if bytes == 0 || bytes < hunkbytes { return; }
      raBuf := new byte[bytes];
    }

    /** Copies the whole file into memory, once; a read of the file that fails changes nothing. */
    method Precache(fails: bool) returns (ok: bool)
      requires Valid()
      modifies this`precached, this`fileCache, this`trace
      ensures Valid() && (ok <==> old(precached) || !fails)
      ensures precached <==> old(precached) || ok
      ensures trace == old(trace) + if old(precached) then [] else [Transfer(0, |file|)]
    {
      if precached { return true; }
      var read := SeekAndRead(0, |file|);
      if fails { return false; }
      WholeFile(file);
      precached, fileCache := true, read.bytes;
      ok := true;
    }

    method SeekAndRead(position: nat, size: nat) returns (r: Fetched)
      modifies this`trace
      ensures r == Direct(file, position, size) && trace == old(trace) + [Transfer(position, size)]
    {
      trace := trace + [Transfer(position, size)];
      r := Direct(file, position, size);
    }

    /** Moves what the window holds of bytes offset .. offset + keep to its front. */
    method SlideDown(offset: nat, keep: nat)
      requires Valid() && raBuf != null && offset >= raOff && keep <= raBuf.Length
      requires keep > 0 ==> offset + keep == raOff + raValid
      modifies raBuf
      ensures keep > 0 ==> raBuf[..keep] == file[offset..offset + keep]
    {
      var shift := offset - raOff;
      ghost var before := raBuf[..];
      forall i | 0 <= i < keep {
        raBuf[i] := raBuf[shift + i];
      }
      if keep > 0 {
        Slid(file, before, raBuf[..], WindowNow(), offset, keep);
      }
    }

    method Store(keep: nat, bytes: seq<byte>)
      requires raBuf != null && keep + |bytes| <= raBuf.Length
      modifies raBuf
      ensures raBuf[..keep + |bytes|] == old(raBuf[..keep]) + bytes
    {
      forall i | 0 <= i < |bytes| {
        raBuf[keep + i] := bytes[i];
      }
    }

    /** Slides `keep` bytes at `from` to the front of the window and reads `avail` more behind them. */
    method Refill(offset: nat, keep: nat, avail: nat) returns (ok: bool)
      requires Valid() && raBuf != null && offset >= raOff && avail > 0 && keep + avail <= raBuf.Length
      requires offset + keep + avail <= |file|
      requires keep > 0 ==> offset + keep == raOff + raValid
      modifies this`trace, this`raOff, this`raValid, this`refills, raBuf
      ensures Valid() && trace == old(trace) + [Transfer(offset + keep, avail)]
      ensures ok == !refillFails(old(refills)) && refills == old(refills) + 1
      ensures WindowNow() == if ok then Window(offset, keep + avail) else Window(old(raOff), 0)
    {
      hide Shows;
      SlideDown(offset, keep);
      ghost var kept := file[offset..offset + keep];
      assert raBuf[..keep] == kept;
      var read := SeekAndRead(offset + keep, avail);
      ok := !refillFails(refills);
      refills := refills + 1;
      if ok {
        Store(keep, read.bytes);
        raOff, raValid := offset, keep + avail;
        ShowsMore(file, raBuf[..], offset, keep, read.bytes);
      } else {
        raValid := 0;
        ShowsNothing(file, raBuf[..], raOff);
      }
    }

    /** Keeps what the window holds from `offset` on, when there is nothing to read behind it. */
    method Slide(offset: nat, keep: nat)
      requires Valid() && raBuf != null && offset >= raOff && keep <= raBuf.Length
      requires keep > 0 ==> offset + keep == raOff + raValid
      modifies this`raOff, this`raValid, raBuf
      ensures Valid() && WindowNow() == Window(offset, keep)
    {
      SlideDown(offset, keep);
      raOff, raValid := offset, keep;
    }

    /** Tries to have the window hold a request, and says whether it does. */
    method Fill(offset: nat, size: nat) returns (have: bool)
      requires Valid() && raBuf != null && size <= raBuf.Length
      modifies this`trace, this`raOff, this`raValid, this`refills, raBuf
      ensures Valid() && have == WindowNow().Holds(offset, size)
      ensures have ==> size > 0 ==> offset + size <= |file|
      ensures var s := CompressedStep(old(WindowNow()), raBuf.Length, |file|, offset, size, !refillFails(old(refills)));
              WindowNow() == s.window && old(trace) + s.transfers == trace + if have then [] else [Transfer(offset, size)]
    {
      have := WindowNow().Holds(offset, size);
      if !have && offset < raOff {
        // a read backwards leaves the window alone
      } else if !have {
        var keep := 0;
        if offset >= raOff && offset < raOff + raValid {
          keep := raOff + raValid - offset;
        }
        var want := raBuf.Length - keep;
        if want > 0 && offset + keep < |file| {
          var ok := Refill(offset, keep, Min(|file| - (offset + keep), want));
          have := ok && WindowNow().Holds(offset, size);
        } else {
          Slide(offset, keep);
          have := size <= keep;
        }
      }
    }

    /** Reads a compressed hunk's bytes. The window is invisible in the result. */
    method ReadCompressed(offset: nat, size: nat) returns (r: Fetched)
      requires Valid()
      modifies this`trace, this`raOff, this`raValid, this`refills, raBuf
      ensures Valid()
      ensures r == Compressed(file, hunkbytes, precached, offset, size)
      ensures !precached && size <= hunkbytes && raBuf != null ==>
                var s := CompressedStep(old(WindowNow()), raBuf.Length, |file|, offset, size, !refillFails(old(refills)));
                WindowNow() == s.window && trace == old(trace) + s.transfers
    {
      hide CompressedStep;
      if precached {
        return if offset + size > |file| then Missing else Bytes(fileCache[offset..offset + size]);
      }
      if size > hunkbytes { return Missing; }
      if raBuf != null {
        if size <= raBuf.Length {
          ghost var before := trace;
          var have := Fill(offset, size);
          if have {
            var at := offset - raOff;
            WindowSlice(offset, size);
            return Bytes(raBuf[at..at + size]);
          }
        } else {
          StepOversized(WindowNow(), raBuf.Length, offset, size, !refillFails(refills));
        }
      }
      r := SeekAndRead(offset, size);
    }

    lemma WindowSlice(offset: nat, size: nat)
      requires Valid() && raBuf != null && WindowNow().Holds(offset, size)
      requires size > 0 ==> offset + size <= |file|
      ensures offset - raOff + size <= raBuf.Length
      ensures Bytes(raBuf[offset - raOff..offset - raOff + size]) == Direct(file, offset, size)
    {
      if size > 0 {
        var at := offset - raOff;
        var buf := raBuf[..];
        assert buf[at..at + size] == buf[0..raValid][at..at + size] by { SliceSlice(buf, 0, raValid, at, size); }
        SliceSlice(file, raOff, raValid, at, size);
      }
    }

    lemma StepOversized(w: Window, cap: nat, offset: nat, size: nat, ok: bool)
      requires size > cap
      ensures CompressedStep(w, cap, |file|, offset, size, ok) == Step(w, [Transfer(offset, size)])
    {
    }

    /** Reads an uncompressed hunk's bytes, from the window if it has them all. */
    method ReadUncompressed(offset: nat, size: nat) returns (r: Fetched)
      requires Valid()
      modifies this`trace
      ensures Valid()
      ensures r == Uncompressed(file, precached, offset, size)
      ensures !precached ==>
                trace == old(trace) + if raBuf != null && WindowNow().Holds(offset, size) then [] else [Transfer(offset, size)]
    {
      if precached {
        return if offset + size > |file| then Missing else Bytes(fileCache[offset..offset + size]);
      }
      if raBuf != null && WindowNow().Holds(offset, size) {
        var at := offset - raOff;
        WindowSlice(offset, size);
        return Bytes(raBuf[at..at + size]);
      }
      r := SeekAndRead(offset, size);
    }
  }
}
