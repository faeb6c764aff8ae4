/** A run of lookups after which the resume cache describes a window that is gone: a lookup in another
    bucket reads its first window, and fails to read its second. */
module V5MapStale {
  import opened Bits
  import opened HuffmanDecoderModule
  import opened V5Map
  import opened V5MapFull
  import opened V5MapWindows
  import opened V5MapChunks
  import opened V5MapAgreement
  import opened V5MapLowRam
  import opened V5MapBuild
  import opened V5MapOneBit
  import opened Crc16Module
  import opened ChdErrors

  const BYTES := 1024
  const HUNKS := 2 * STRIDE

  /** Building the map reads without fault; of the lookups' reads the fourth fails. */
  function Fails(stream: nat): ReadFaults {
    n => stream == 3 && n == 3
  }

  /** Each of the windows holds something. */
  lemma WindowsFilled(c: nat)
    requires c < 2
    ensures TypesWindow(Map(BYTES, HUNKS), c) != [] && FieldsWindow(Map(BYTES, HUNKS), c) != []
  {
    hide Types, Fields, Blob, LENGTHS;
    var m := Map(BYTES, HUNKS);
    TypesOf(BYTES, HUNKS, STRIDE * c);
    TypesOf(BYTES, HUNKS, Boundary(m, c));
    FieldsOf(BYTES, HUNKS, STRIDE * c);
    FieldsOf(BYTES, HUNKS, STRIDE * (c + 1));
  }

  /** The map builds, and as it fits one chunk is a valid lazy map. */
  lemma Builds()
    ensures Par(HUNKS).Valid() && ImportResult(Blob(BYTES), 0, NUMCODES, MAXBITS) == NoError
    ensures SourceOf(Blob(BYTES), Par(HUNKS)) == Map(BYTES, HUNKS) && BuildTold(Map(BYTES, HUNKS))
    ensures MapAccepted(Blob(BYTES), Par(HUNKS), Crc(0xffff, MapBytes(Map(BYTES, HUNKS), HUNKS)))
  {
    hide MapAccepted, ImportResult, MapBytes, Crc, Blob, LENGTHS, SourceOf, BuildTold;
    Imported(BYTES, HUNKS);
    Accepts(BYTES, HUNKS);
    MapValid(BYTES, HUNKS);
    OneChunkTold(Map(BYTES, HUNKS));
  }

  /** The lazy map of the blob. */
  ghost predicate TwoBuckets(lm: LowRamMap)
    reads lm
  {
    lm.m == Map(BYTES, HUNKS) && lm.par == Par(HUNKS) && lm.blob == Blob(BYTES) && lm.fails == Fails(3)
  }

  method BuildTwoBuckets(mapcrc: crc16) returns (lm: LowRamMap)
    requires MapAccepted(Blob(BYTES), Par(HUNKS), mapcrc)
    ensures fresh(lm) && fresh(lm.pass1Window) && fresh(lm.pass2Window)
    ensures TwoBuckets(lm) && lm.Valid() && lm.Untouched()
  {
    hide MapAccepted, BuildAccepted, ImportResult, SourceOf, BuildTold, Blob, LENGTHS, PointsOf, ChunkEnd,
         LowRamMap.Valid, LowRamMap.Untouched;
    Builds();
    var ok, built := BuildMapCheckpoints(Blob(BYTES), Par(HUNKS), mapcrc, Fails);
    assert ok;
    lm := built;
  }

  /** The first lookup reads both windows. */
  method FirstLookup(lm: LowRamMap)
    requires TwoBuckets(lm) && lm.Valid() && lm.Untouched()
    modifies lm, lm.pass1Window, lm.pass2Window
    ensures TwoBuckets(lm) && lm.Valid() && lm.fetches == 2 && lm.resume.valid && lm.resume.hunk == 1
    ensures lm.pass1Window.checkpointIdx == 0 && lm.pass2Window.checkpointIdx == 0
  {
    hide Blob, LENGTHS, TypesWindow, FieldsWindow, LowRamMap.Sane, LowRamMap.ResumeOk;
    WindowsFilled(0);
    var err, out := lm.GetEntry(0);
  }

  /** A lookup in the other bucket reads one, and fails to read the other. */
  method SecondLookup(lm: LowRamMap)
    requires TwoBuckets(lm) && lm.Valid() && lm.fetches == 2 && lm.resume.valid && lm.resume.hunk == 1
    requires lm.pass1Window.checkpointIdx == 0 && lm.pass2Window.checkpointIdx == 0
    modifies lm, lm.pass1Window, lm.pass2Window
    ensures TwoBuckets(lm) && lm.Sane() && lm.resume == old(lm.resume)
    ensures lm.pass1Window.checkpointIdx == 1 && lm.pass2Window.checkpointIdx == 0
  {
    hide Blob, LENGTHS, TypesWindow, FieldsWindow, LowRamMap.Sane, LowRamMap.ResumeOk;
    WindowsFilled(1);
    var err, out := lm.GetEntry(STRIDE);
    assert err == Failed(ReadError);
  }

  /** Two lookups after building: hunk 0 succeeds; the first hunk of the other bucket fails. Looking up
      hunk 1 would now go on from the resume cache, which is no longer right. */
  method FailedLookup(mapcrc: crc16) returns (lm: LowRamMap)
    requires MapAccepted(Blob(BYTES), Par(HUNKS), mapcrc)
    ensures fresh(lm) && TwoBuckets(lm)
    ensures lm.Sane() && lm.Resumes(1) && !lm.Current() && !lm.ResumeOk() && !lm.Valid()
  {
    hide MapAccepted, Blob, LENGTHS, LowRamMap.Sane, LowRamMap.ResumeOk, LowRamMap.Untouched;
    lm := BuildTwoBuckets(mapcrc);
    FirstLookup(lm);
    SecondLookup(lm);
    lm.ResumeOkIff();
    lm.ResumesNext();
  }
}
