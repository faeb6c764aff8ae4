/** Whole runs of reads through the read-ahead window: when a byte of the file is read twice. */
module ReadAheadRuns {
  import opened ReadAhead

  datatype Request = Request(compressed: bool, offset: nat, size: nat)
  {
    function End(): nat { offset + size }
  }

  /** What one read does when no refill fails. */
  function RequestStep(w: Window, cap: nat, len: nat, r: Request): Step {
    if r.compressed then CompressedStep(w, cap, len, r.offset, r.size, true)
    else Step(w, if w.Holds(r.offset, r.size) then [] else [Transfer(r.offset, r.size)])
  }

  /** The window after a run of reads, and every transfer the run made. */
  function Run(cap: nat, len: nat, rs: seq<Request>): Step {
    if rs == [] then Step(Window(0, 0), [])
    else
      var before := Run(cap, len, rs[..|rs| - 1]);
      var s := RequestStep(before.window, cap, len, rs[|rs| - 1]);
      Step(s.window, before.transfers + s.transfers)
  }

  /** Reads inside the file, in file order, none larger than the window. */
  ghost predicate InOrder(cap: nat, len: nat, rs: seq<Request>) {
    && (forall i :: 0 <= i < |rs| ==> rs[i].size <= cap && rs[i].End() <= len)
    && (forall i, j :: 0 <= i < j < |rs| ==> rs[i].End() <= rs[j].offset)
  }

  /** An uncompressed read that the window holds a beginning of, but not all. */
  predicate Straddles(w: Window, r: Request) {
    !r.compressed && w.off <= r.offset < w.End() < r.End()
  }

  ghost predicate NoStraddle(cap: nat, len: nat, rs: seq<Request>) {
    forall i :: 0 <= i < |rs| ==> !Straddles(Run(cap, len, rs[..i]).window, rs[i])
  }

  /** Some byte of the file is part of two transfers. */
  ghost predicate ReadsTwice(ts: seq<Transfer>) {
    exists i, j, b: nat :: 0 <= i < j < |ts| && Covers(ts[i], b) && Covers(ts[j], b)
  }

  predicate Covers(t: Transfer, b: nat) {
    t.at <= b < t.at + t.size
  }

  ghost predicate Ascending(ts: seq<Transfer>) {
    forall i, j :: 0 <= i < j < |ts| ==> ts[i].at + ts[i].size <= ts[j].at
  }

  /** Where a run has got to: the furthest byte requested or held. */
  function Reached(w: Window, rs: seq<Request>): nat {
    var last := if rs == [] then 0 else rs[|rs| - 1].End();
    if w.End() < last then last else w.End()
  }

  lemma StepAdvances(w: Window, cap: nat, len: nat, r: Request, reached: nat)
    requires w.End() <= reached && w.off <= r.offset && r.size <= cap && r.End() <= len
    requires reached <= w.End() || reached <= r.offset
    requires !Straddles(w, r)
    ensures var s := RequestStep(w, cap, len, r);
            && |s.transfers| <= 1 && s.window.off <= r.offset
            && (forall t :: t in s.transfers ==> reached <= t.at)
            && EndBy(s.transfers, if s.window.End() < r.End() then r.End() else s.window.End())
            && (w.End() <= s.window.End() || w.End() <= r.offset)
  {
  }

  ghost predicate EndBy(ts: seq<Transfer>, reached: nat) {
    forall t :: t in ts ==> t.at + t.size <= reached
  }

  lemma AscendingAppend(ts: seq<Transfer>, us: seq<Transfer>, reached: nat, next: nat)
    requires Ascending(ts) && EndBy(ts, reached) && |us| <= 1 && EndBy(us, next) && reached <= next
    requires forall u :: u in us ==> reached <= u.at
    ensures Ascending(ts + us) && EndBy(ts + us, next)
  {
    forall i, j | 0 <= i < j < |ts + us| ensures (ts + us)[i].at + (ts + us)[i].size <= (ts + us)[j].at {
      assert ts[i] in ts;
      assert j >= |ts| ==> us[j - |ts|] in us;
    }
  }

  /** A run without its last read is orderly too, and the last read comes after it. */
  lemma OrderlyPrefix(cap: nat, len: nat, rs: seq<Request>)
    requires InOrder(cap, len, rs) && NoStraddle(cap, len, rs) && rs != []
    ensures InOrder(cap, len, rs[..|rs| - 1]) && NoStraddle(cap, len, rs[..|rs| - 1])
    ensures var n := |rs| - 1;
            && rs[n].size <= cap && rs[n].End() <= len && !Straddles(Run(cap, len, rs[..n]).window, rs[n])
            && (n > 0 ==> rs[..n][n - 1].End() <= rs[n].offset)
  {
    hide Run, Straddles;
    var n := |rs| - 1;
    forall i | 0 <= i < n ensures !Straddles(Run(cap, len, rs[..n][..i]).window, rs[..n][i]) {
      assert rs[..n][..i] == rs[..i];
    }
  }

  /** Without straddling reads the transfers of an orderly run follow one another in the file. */
  lemma {:induction false} RunAscends(cap: nat, len: nat, rs: seq<Request>)
    requires InOrder(cap, len, rs) && NoStraddle(cap, len, rs)
    ensures var s := Run(cap, len, rs);
            && Ascending(s.transfers) && EndBy(s.transfers, Reached(s.window, rs))
            && s.window.off <= if rs == [] then 0 else rs[|rs| - 1].offset
  {
    hide RequestStep, Ascending, EndBy, Straddles, InOrder, NoStraddle, Reached;
    if rs == [] {
      NothingYet();
    } else {
      var n := |rs| - 1;
      OrderlyPrefix(cap, len, rs);
      RunAscends(cap, len, rs[..n]);
      RunStep(Run(cap, len, rs[..n]), cap, len, rs, n);
    }
  }

  lemma NothingYet()
    ensures Ascending([]) && EndBy([], 0) && Reached(Window(0, 0), []) == 0
  {
  }

  lemma RunStep(before: Step, cap: nat, len: nat, rs: seq<Request>, n: nat)
    requires |rs| == n + 1 && rs[n].size <= cap && rs[n].End() <= len && !Straddles(before.window, rs[n])
    requires Ascending(before.transfers) && EndBy(before.transfers, Reached(before.window, rs[..n]))
    requires before.window.off <= if n == 0 then 0 else rs[n - 1].offset
    requires n > 0 ==> rs[n - 1].End() <= rs[n].offset
    ensures var s := RequestStep(before.window, cap, len, rs[n]);
            && Ascending(before.transfers + s.transfers)
            && EndBy(before.transfers + s.transfers, Reached(s.window, rs))
            && s.window.off <= rs[n].offset
  {
    hide RequestStep, Ascending, EndBy, Straddles;
    var r := rs[n];
    var reached := Reached(before.window, rs[..n]);
    StepAdvances(before.window, cap, len, r, reached);
    var s := RequestStep(before.window, cap, len, r);
    AscendingAppend(before.transfers, s.transfers, reached, Reached(s.window, rs));
  }

  /** Whatever the window holds, its last byte was transferred. */
  lemma {:induction false} WindowLoaded(cap: nat, len: nat, rs: seq<Request>)
    ensures var s := Run(cap, len, rs);
            s.window.valid > 0 ==> exists t :: t in s.transfers && Covers(t, s.window.End() - 1)
  {
    hide RequestStep, Covers;
    if rs == [] {
      NoRun(cap, len);
    } else {
      var n := |rs| - 1;
      WindowLoaded(cap, len, rs[..n]);
      var before := Run(cap, len, rs[..n]);
      var s := RequestStep(before.window, cap, len, rs[n]);
      StepLoads(before.window, cap, len, rs[n]);
      RunOf(cap, len, rs);
      var end := s.window.End() - 1;
      if s.window.valid > 0 {
        var t :| (t in before.transfers || t in s.transfers) && Covers(t, end);
        assert t in before.transfers + s.transfers;
      }
    }
  }

  lemma StepLoads(w: Window, cap: nat, len: nat, r: Request)
    ensures var s := RequestStep(w, cap, len, r);
            s.window.valid > 0 ==> (w.valid > 0 && s.window.End() == w.End())
                                   || exists t :: t in s.transfers && Covers(t, s.window.End() - 1)
  {
    var s := RequestStep(w, cap, len, r);
    if s.window.valid > 0 && s.transfers != [] && s.window.End() != w.End() {
      var t := s.transfers[0];
      assert t in s.transfers && Covers(t, s.window.End() - 1);
    }
  }

  lemma {:induction false} RunPrefix(cap: nat, len: nat, rs: seq<Request>, i: nat)
    requires i <= |rs|
    ensures Run(cap, len, rs[..i]).transfers <= Run(cap, len, rs).transfers
  {
    if i == |rs| {
      assert rs[..i] == rs;
    } else {
      assert rs[..|rs| - 1][..i] == rs[..i];
      RunPrefix(cap, len, rs[..|rs| - 1], i);
    }
  }

  lemma RunLast(cap: nat, len: nat, rs: seq<Request>)
    requires rs != []
    ensures var n := |rs| - 1;
            var before := Run(cap, len, rs[..n]);
            Run(cap, len, rs).transfers == before.transfers + RequestStep(before.window, cap, len, rs[n]).transfers
  {
    hide RequestStep;
  }

  lemma StraddleRepeats(cap: nat, len: nat, rs: seq<Request>, i: nat)
    requires i < |rs| && Straddles(Run(cap, len, rs[..i]).window, rs[i])
    ensures ReadsTwice(Run(cap, len, rs).transfers)
  {
    hide CompressedStep, Run;
    var before := Run(cap, len, rs[..i]);
    var b := before.window.End() - 1;
    WindowLoaded(cap, len, rs[..i]);
    var t :| t in before.transfers && Covers(t, b);
    var k :| 0 <= k < |before.transfers| && before.transfers[k] == t;
    var after := Run(cap, len, rs[..i + 1]);
    assert rs[..i + 1][..i] == rs[..i];
    RunLast(cap, len, rs[..i + 1]);
    RunPrefix(cap, len, rs, i + 1);
    var ts := Run(cap, len, rs).transfers;
    var j := |before.transfers|;
    assert after.transfers == before.transfers + [Transfer(rs[i].offset, rs[i].size)];
    assert ts[k] == after.transfers[k] == t && ts[j] == after.transfers[j];
    assert Covers(ts[k], b) && Covers(ts[j], b);
  }

  /** An orderly run reads a byte of the file twice exactly when some uncompressed read straddles the
      end of the window. */
  lemma ReadsTwiceIff(cap: nat, len: nat, rs: seq<Request>)
    requires InOrder(cap, len, rs)
    ensures ReadsTwice(Run(cap, len, rs).transfers) <==> !NoStraddle(cap, len, rs)
  {
    hide Run;
    if NoStraddle(cap, len, rs) {
      RunAscends(cap, len, rs);
    } else {
      var i :| 0 <= i < |rs| && Straddles(Run(cap, len, rs[..i]).window, rs[i]);
      StraddleRepeats(cap, len, rs, i);
    }
  }

  /** Orderly compressed reads transfer no byte twice. */
  lemma CompressedReadsOnce(cap: nat, len: nat, rs: seq<Request>)
    requires InOrder(cap, len, rs) && forall i :: 0 <= i < |rs| ==> rs[i].compressed
    ensures !ReadsTwice(Run(cap, len, rs).transfers)
  {
    ReadsTwiceIff(cap, len, rs);
  }

  // ---- how many transfers

  /** n times d. */
  function Times(n: nat, d: nat): nat {
    if n == 0 then 0 else Times(n - 1, d) + d
  }

  /** n transfers, each of which moved the window's end on by d, but the one that reached the end of the file. */
  ghost predicate Moved(n: nat, d: nat, end: nat, len: nat) {
    end <= len && (Times(n, d) <= end || (end == len && n > 0 && Times(n - 1, d) <= len))
  }

  /** A compressed read transfers nothing, or moves the window's end on by all it has room for. */
  lemma StepMoves(w: Window, cap: nat, len: nat, r: Request, m: nat)
    requires r.compressed && w.off <= r.offset && r.size <= m <= cap && r.End() <= len && w.End() <= len
    ensures var s := RequestStep(w, cap, len, r);
            && w.End() <= s.window.End() <= len && |s.transfers| <= 1
            && (s.transfers != [] ==> s.window.End() == len || w.End() + (cap - m + 1) <= s.window.End())
            && (w.End() == len ==> s.transfers == [])
  {
  }

  /** Compressed reads of at most m bytes. */
  ghost predicate AllCompressed(rs: seq<Request>, m: nat) {
    forall i :: 0 <= i < |rs| ==> rs[i].compressed && rs[i].size <= m
  }

  lemma MovedMore(n: nat, d: nat, end: nat, len: nat, next: nat, more: nat)
    requires Moved(n, d, end, len) && end <= next <= len && more <= 1
    requires more > 0 ==> end < len && (next == len || end + d <= next)
    ensures Moved(n + more, d, next, len)
  {
  }

  lemma LastCompressed(rs: seq<Request>, m: nat)
    requires AllCompressed(rs, m) && rs != []
    ensures var n := |rs| - 1; AllCompressed(rs[..n], m) && rs[n].compressed && rs[n].size <= m
  {
  }

  /** One read more. */
  lemma MovesOn(before: Step, cap: nat, len: nat, r: Request, m: nat)
    requires r.compressed && before.window.off <= r.offset && r.size <= m <= cap && r.End() <= len
    requires Moved(|before.transfers|, cap - m + 1, before.window.End(), len)
    ensures var s := RequestStep(before.window, cap, len, r);
            Moved(|before.transfers + s.transfers|, cap - m + 1, s.window.End(), len)
  {
    hide RequestStep, Moved;
    var s := RequestStep(before.window, cap, len, r);
    MovedInside(|before.transfers|, cap - m + 1, before.window.End(), len);
    StepMoves(before.window, cap, len, r, m);
    MovedMore(|before.transfers|, cap - m + 1, before.window.End(), len, s.window.End(), |s.transfers|);
  }

  lemma RunOf(cap: nat, len: nat, rs: seq<Request>)
    requires rs != []
    ensures var n := |rs| - 1;
            var before := Run(cap, len, rs[..n]);
            var s := RequestStep(before.window, cap, len, rs[n]);
            Run(cap, len, rs) == Step(s.window, before.transfers + s.transfers)
  {
    hide RequestStep;
  }

  lemma {:induction false} RunMoves(cap: nat, len: nat, rs: seq<Request>, m: nat)
    requires InOrder(cap, len, rs) && m <= cap && AllCompressed(rs, m)
    ensures var s := Run(cap, len, rs); Moved(|s.transfers|, cap - m + 1, s.window.End(), len)
  {
    hide Run, RequestStep, InOrder, NoStraddle, Straddles, Moved, Ascending, EndBy, AllCompressed, Reached;
    if rs == [] {
      NothingMoved(cap - m + 1, len);
      NoRun(cap, len);
    } else {
      var n := |rs| - 1;
      NoneStraddles(cap, len, rs, m);
      OrderlyPrefix(cap, len, rs);
      LastCompressed(rs, m);
      RunMoves(cap, len, rs[..n], m);
      RunAscends(cap, len, rs[..n]);
      MovesOn(Run(cap, len, rs[..n]), cap, len, rs[n], m);
      RunOf(cap, len, rs);
    }
  }

  lemma NoRun(cap: nat, len: nat)
    ensures Run(cap, len, []) == Step(Window(0, 0), [])
  {
  }

  lemma NothingMoved(d: nat, len: nat)
    ensures Moved(0, d, 0, len)
  {
  }

  lemma MovedInside(n: nat, d: nat, end: nat, len: nat)
    requires Moved(n, d, end, len)
    ensures end <= len
  {
  }

  lemma NoneStraddles(cap: nat, len: nat, rs: seq<Request>, m: nat)
    requires AllCompressed(rs, m)
    ensures NoStraddle(cap, len, rs)
  {
    hide Run;
  }

  lemma {:induction false} TimesIsProduct(n: nat, d: nat)
    ensures Times(n, d) == n * d
  {
    if n > 0 {
      TimesIsProduct(n - 1, d);
      assert n * d == (n - 1) * d + d;
    }
  }

  /** However small the reads, a window makes do with few transfers: orderly compressed reads of at most m bytes make
      at most one for every cap - m + 1 bytes of the file, and one more. */
  lemma FewTransfers(cap: nat, len: nat, rs: seq<Request>, m: nat)
    requires InOrder(cap, len, rs) && m <= cap && AllCompressed(rs, m)
    ensures var n := |Run(cap, len, rs).transfers|; n == 0 || (n - 1) * (cap - m + 1) <= len
  {
    hide Run;
    RunMoves(cap, len, rs, m);
    var n, d := |Run(cap, len, rs).transfers|, cap - m + 1;
    if n > 0 {
      TimesIsProduct(n - 1, d);
      assert Times(n - 1, d) <= Times(n, d);
    }
  }

  /** Uncompressed reads in file order can: the window is not refilled for them. */
  lemma UncompressedReadsTwice()
    ensures exists rs :: InOrder(10, 30, rs) && ReadsTwice(Run(10, 30, rs).transfers)
  {
    hide Run, RequestStep, InOrder, ReadsTwice;
    var r, u := Request(true, 0, 4), Request(false, 4, 8);
    var rs := [r, u];
    assert rs[..1] == [r];
    OneRead(10, 30, r);
    FirstStep(10, 30, 4);
    assert InOrder(10, 30, rs) by { SmallRun(); }
    assert Straddles(Run(10, 30, rs[..1]).window, rs[1]);
    StraddleRepeats(10, 30, rs, 1);
  }

  lemma SmallRun()
    ensures InOrder(10, 30, [Request(true, 0, 4), Request(false, 4, 8)])
  {
  }

  /** The first read at the start of the file fills the window. */
  lemma FirstStep(cap: nat, len: nat, size: nat)
    requires 0 < size <= cap <= len
    ensures RequestStep(Window(0, 0), cap, len, Request(true, 0, size)).window == Window(0, cap)
  {
    var w, r := Window(0, 0), Request(true, 0, size);
    assert !w.Holds(r.offset, r.size) && Min(len, cap) == cap;
    assert CompressedStep(w, cap, len, r.offset, r.size, true).window == Window(0, 0 + Min(len - 0, cap - 0));
  }

  lemma OneRead(cap: nat, len: nat, r: Request)
    ensures Run(cap, len, [r]).window == RequestStep(Window(0, 0), cap, len, r).window
  {
    hide RequestStep;
    assert [r][..0] == [];
  }
}
