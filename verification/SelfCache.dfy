/** The cache of decoded hunks that back-references are served from. */
module SelfCacheModule {
  import opened Bits
  import opened HunkImage

  /** Marks an empty slot; no hunk that can be referenced has this number. */
  const EMPTY := 0xffff_ffff

  datatype Found = NotFound | Found(bytes: seq<byte>)

  /** A buffer as a successful read of hunk h leaves it. */
  ghost predicate ReadAs(img: Image, h: nat, buffer: seq<byte>)
    requires img.Valid()
  {
    |buffer| == img.hunkbytes && Holds(Content(img, h), buffer)
  }

  class SelfCache {
    const hunkbytes: nat
    /** The bytes the cache may take. */
    const budget: nat
    /** Whether its memory can be had. */
    const available: bool
    var hunk: seq<nat>
    var data: seq<seq<byte>>
    var next: nat

    constructor (hunkbytes: nat, budget: nat, available: bool)
      ensures this.hunkbytes == hunkbytes && this.budget == budget && this.available == available
      ensures Valid() && hunk == []
    {
      this.hunkbytes, this.budget, this.available := hunkbytes, budget, available;
      hunk, data, next := [], [], 0;
    }

    /** No hunk is cached twice, and the ring's next slot exists. */
    ghost predicate Valid()
      reads this
    {
      && |hunk| == |data|
      && (|hunk| > 0 ==> next < |hunk|)
      && (forall i, j :: 0 <= i < j < |hunk| && hunk[i] == hunk[j] ==> hunk[i] == EMPTY)
    }

    /** Every slot in use holds what a read of its hunk delivers. */
    ghost predicate Sound(img: Image)
      reads this
      requires img.Valid()
    {
      |hunk| == |data| && forall i :: 0 <= i < |hunk| && hunk[i] != EMPTY ==> ReadAs(img, hunk[i], data[i])
    }

    /** Sets the cache up on first use; it may stay without slots. */
    method Ensure(ghost img: Image)
      requires img.Valid() && Valid() && Sound(img)
      modifies this
      ensures Valid() && Sound(img)
      ensures old(hunk) != [] ==> hunk == old(hunk) && data == old(data) && next == old(next)
      ensures old(hunk) == [] ==>
                if hunkbytes == 0 || !available then hunk == []
                else |hunk| == (if budget < hunkbytes then 1 else budget / hunkbytes) && forall h :: h in hunk ==> h == EMPTY
    {
      if |hunk| != 0 || hunkbytes == 0 { return; }
      var n := budget / hunkbytes;
      if n == 0 { n := 1; }
      if !available { return; }
      SlotCount();
      hunk := seq(n, _ => EMPTY);
      data := seq(n, _ => []);
      next := 0;
    }

    lemma SlotCount()
      requires hunkbytes > 0
      ensures budget / hunkbytes == 0 <==> budget < hunkbytes
    {
    }

    /** Finds a cached hunk, exactly if it is cached: what a read of it delivers. */
    method Lookup(h: nat, ghost img: Image) returns (r: Found)
      requires img.Valid() && Valid() && Sound(img) && h != EMPTY
      ensures r.Found? <==> h in hunk
      ensures r.Found? ==> ReadAs(img, h, r.bytes)
    {
      var i := 0;
      while i < |hunk|
        invariant 0 <= i <= |hunk| && h !in hunk[..i]
      {
        if hunk[i] == h {
          return Found(data[i]);
        }
        i := i + 1;
      }
      return NotFound;
    }

    /** Caches a hunk in the slot filled longest ago, unless it is cached already. */
    method Store(h: nat, bytes: seq<byte>, ghost img: Image)
      requires img.Valid() && Valid() && Sound(img) && h != EMPTY && ReadAs(img, h, bytes)
      modifies this
      ensures Valid() && Sound(img)
      ensures |hunk| == old(|hunk|) && (hunk != [] ==> h in hunk)
      ensures if old(hunk) == [] || h in old(hunk) then hunk == old(hunk) && next == old(next)
              else hunk == old(hunk)[old(next) := h] && next == (old(next) + 1) % |hunk|
    {
      if |hunk| == 0 { return; }
      var i := 0;
      while i < |hunk|
        invariant 0 <= i <= |hunk| && h !in hunk[..i]
      {
        if hunk[i] == h { return; }
        i := i + 1;
      }
      var slot := next;
      next := (slot + 1) % |hunk|;
      data := data[slot := bytes];
      hunk := hunk[slot := h];
      assert hunk[slot] == h;
    }
  }
}
