/** Which chunk serves a request: best fit for large requests, and the order of preference for small ones. */
module Choices {
  import opened Words
  import opened Layouts
  import opened BinMaps
  import opened Sizes
  import opened Views
  import opened SmallBins
  import opened Segments
  import opened Heaps
  import opened BestFits

  /** Some free chunk of size s is in a bin. */
  ghost predicate BinHas(v: View, s: int) {
    exists p {:trigger FreeAt(v.lay, p, s)} :: FreeAt(v.lay, p, s) && p !in v.out
  }

  /** No free chunk that can serve nb is smaller than s. */
  ghost predicate LeastFree(v: View, nb: int, s: int) {
    forall q, u {:trigger FreeAt(v.lay, q, u)} :: FreeAt(v.lay, q, u) && nb <= u ==> s <= u
  }

  ghost predicate NoFree(v: View, nb: int) {
    forall q, u {:trigger FreeAt(v.lay, q, u)} :: FreeAt(v.lay, q, u) ==> u < nb
  }

  /** No binned chunk that can serve nb is smaller than s. */
  ghost predicate LeastBinned(v: View, nb: int, s: int) {
    forall q, u {:trigger FreeAt(v.lay, q, u)} :: FreeAt(v.lay, q, u) && q !in v.out && nb <= u ==> s <= u
  }

  /** A small bin fits without remainder: exactly, or with one word to spare. */
  ghost predicate ExactFit(v: View, nb: int) {
    BinHas(v, nb) || (nb + 8 < MIN_LARGE_SIZE && BinHas(v, nb + 8))
  }

  ghost predicate ExactChosen(v: View, nb: int, p: int) {
    p !in v.out && (FreeAt(v.lay, p, nb) || (!BinHas(v, nb) && nb + 8 < MIN_LARGE_SIZE && FreeAt(v.lay, p, nb + 8)))
  }

  ghost predicate BinnedChosen(v: View, nb: int, p: int) {
    exists s {:trigger FreeAt(v.lay, p, s)} :: FreeAt(v.lay, p, s) && p !in v.out && nb <= s && LeastBinned(v, nb, s)
  }

  ghost predicate NoBinned(v: View, nb: int) {
    forall q, u {:trigger FreeAt(v.lay, q, u)} :: FreeAt(v.lay, q, u) && q !in v.out ==> u < nb
  }

  /**
   * A small request prefers an exact small bin, then the designated victim, then the smallest binned chunk, then top.
   */
  ghost predicate SmallChosen(v: View, h: Heads, nb: int, p: int) {
    if ExactFit(v, nb) then ExactChosen(v, nb, p)
    else if nb <= h.dvsize then p == h.dv
    else BinnedChosen(v, nb, p) || (NoBinned(v, nb) && p == h.top && nb < h.topsize)
  }

  /** What the search leaves for the designated victim: it is at least as good as anything binned. */
  ghost predicate DvFirst(v: View, h: Heads, nb: int) {
    if nb <= h.dvsize then LeastBinned(v, nb, h.dvsize) else NoBinned(v, nb)
  }

  /**
   * A large request prefers the designated victim where nothing binned fits better, then the smallest binned chunk,
   * then top.
   */
  ghost predicate LargeChosen(v: View, h: Heads, nb: int, p: int) {
    if !DvFirst(v, h, nb) then BinnedChosen(v, nb, p)
    else if nb <= h.dvsize then p == h.dv
    else p == h.top && nb < h.topsize
  }

  /** So it takes a smallest sufficient free chunk, binned or not, and the front of top only if there is none. */
  lemma LargeIsBest(v: View, h: Heads, segs: seq<Segment>, nb: int, p: int)
    requires HeapMid(v, h, segs, {}) && LargeChosen(v, h, nb, p) && 0 < nb
    ensures (exists s {:trigger FreeAt(v.lay, p, s)} :: FreeAt(v.lay, p, s) && nb <= s && LeastFree(v, nb, s))
      || (p == h.top && NoFree(v, nb) && nb < h.topsize)
    ensures nb <= h.dvsize && FreeAt(v.lay, p, h.dvsize) ==> p == h.dv
  {
    hide Base;
    if !DvFirst(v, h, nb) {
      BinnedBeatsDv(v, h, segs, nb, p);
    } else if nb <= h.dvsize {
      forall q, u | FreeAt(v.lay, q, u) && nb <= u ensures h.dvsize <= u {}
      assert LeastFree(v, nb, h.dvsize);
    } else {
      forall q, u | FreeAt(v.lay, q, u) ensures u < nb {}
    }
  }

  lemma BinnedBeatsDv(v: View, h: Heads, segs: seq<Segment>, nb: int, p: int)
    requires HeapMid(v, h, segs, {}) && !DvFirst(v, h, nb) && BinnedChosen(v, nb, p)
    ensures exists s {:trigger FreeAt(v.lay, p, s)} :: FreeAt(v.lay, p, s) && nb <= s && LeastFree(v, nb, s)
  {
    hide Base;
    var s :| FreeAt(v.lay, p, s) && p !in v.out && nb <= s && LeastBinned(v, nb, s);
    forall q, u | FreeAt(v.lay, q, u) && nb <= u ensures s <= u {
      if q in v.out {
        assert u == h.dvsize;
        assert u < s ==> LeastBinned(v, nb, u);
      }
    }
    assert LeastFree(v, nb, s);
  }

  /** The search result against the designated victim: one comparison that wraps when the victim is too small. */
  lemma FitBeatsDv(v: View, h: Heads, segs: seq<Segment>, nb: int, best: int, rsize: int)
    requires HeapMid(v, h, segs, {}) && MIN_LARGE_SIZE <= nb < TWO64 && LeastFit(v, nb, rsize)
      && 0 <= rsize <= TWO64 - nb
    requires if best != 0 then TreeFree(v, best, nb + rsize) else rsize == TWO64 - nb
    ensures var wins := best != 0 && rsize < Sub64(h.dvsize, nb);
      && (wins ==> LargeChosen(v, h, nb, best) && BinnedChosen(v, nb, best))
      && (wins <==> !DvFirst(v, h, nb))
  {
    hide Base;
    DvBelow(v, h, segs);
    TreeBelow(v, best, nb + rsize);
    var wins := best != 0 && rsize < Sub64(h.dvsize, nb);
    assert h.dvsize < nb ==> Sub64(h.dvsize, nb) == h.dvsize - nb + TWO64;
    assert nb <= h.dvsize ==> Sub64(h.dvsize, nb) == h.dvsize - nb;
    forall q, u | FreeAt(v.lay, q, u) && nb <= u
      ensures q !in v.out ==> nb + rsize <= u && u < TWO64
      ensures q in v.out ==> u == h.dvsize
    {
      if q !in v.out {
        assert TreeFree(v, q, u);
        TreeBelow(v, q, u);
      }
    }
    if wins {
      assert LeastBinned(v, nb, nb + rsize);
    }
  }

  lemma TreeBelow(v: View, p: int, s: int)
    requires Base(v)
    ensures TreeFree(v, p, s) ==> s < TWO64
  {
    if TreeFree(v, p, s) {
      TreeFreeHeld(v, p, s);
    }
  }

  lemma DvBelow(v: View, h: Heads, segs: seq<Segment>)
    requires HeapMid(v, h, segs, {})
    ensures 0 <= h.dvsize < TWO64
  {
    assert ChunkOk(v.lay, h.dv) || h.dv == 0;
  }

  lemma NoTrees(v: View, nb: int)
    requires Base(v) && v.treemap == 0
    ensures LeastFit(v, nb, TWO64 - nb)
  {
    hide Base, TreeIndex;
    forall p, s | TreeFree(v, p, s) ensures false {
      TreeFreeHeld(v, p, s);
    }
  }

  // ----- small bins

  /** A marked small bin: its first member is where its header points. */
  lemma SmallHas(v: View, i: int)
    requires Base(v) && 0 <= i < 32
    ensures |v.sb| == 32 && (Marked(v.smallmap, i) <==> v.sb[i] != []) && (Marked(v.smallmap, i) <==> BinHas(v, 8 * i))
    ensures v.sb[i] != [] ==> FreeAt(v.lay, v.sb[i][0], 8 * i) && v.sb[i][0] !in v.out
  {
    hide Marked;
    assert SmallAt(v, i);
    if v.sb[i] != [] {
      SmallMember(v, i, v.sb[i][0]);
    }
    if BinHas(v, 8 * i) {
      var p :| FreeAt(v.lay, p, 8 * i) && p !in v.out;
      SmallHeld(v, p, 8 * i);
    }
  }

  lemma SmallHeld(v: View, p: int, s: int)
    requires Base(v) && FreeAt(v.lay, p, s) && p !in v.out && s < MIN_LARGE_SIZE
    ensures |v.sb| == 32 && 4 <= s / 8 < 32 && s == 8 * (s / 8) && p in v.sb[s / 8] && Marked(v.smallmap, s / 8)
  {
    hide Marked;
    assert ChunkOk(v.lay, p) && IndexAt(v, p, s) && SmallAt(v, s / 8) && Binned(v.sb, v.tb, p, s);
  }

  /** The two low bits of the shifted map tell whether a bin fits without remainder, and which. */
  lemma ExactIndex(v: View, nb: int)
    requires Base(v) && MIN_CHUNK_SIZE <= nb < MIN_LARGE_SIZE && nb % 8 == 0
    ensures var idx := nb / 8;
      var bits := Shr(v.smallmap, idx);
      var i := idx + MissBit(bits);
      && (LowTwo(bits) <==> ExactFit(v, nb))
      && (LowTwo(bits) ==> i < 32 && Marked(v.smallmap, i) && (i == idx || !BinHas(v, nb)))
      && (i == idx || i == idx + 1) && |v.sb| == 32
  {
    hide Base, Marked, Shr;
    var idx := nb / 8;
    LowBits(Shr(v.smallmap, idx));
    ShrMarks(v.smallmap, idx, 0);
    SmallHas(v, idx);
    if idx < 31 {
      ShrMarks(v.smallmap, idx, 1);
      SmallHas(v, idx + 1);
    } else {
      ShrEnds(v.smallmap, idx, 1);
    }
  }

  lemma ExactTaken(v: View, nb: int, i: int, p: int)
    requires Base(v) && MIN_CHUNK_SIZE <= nb < MIN_LARGE_SIZE && nb % 8 == 0 && 0 <= i < 32 && Marked(v.smallmap, i)
    requires i == nb / 8 || (i == nb / 8 + 1 && !BinHas(v, nb))
    ensures |v.sb| == 32 && v.sb[i] != []
      && (p == v.sb[i][0] ==> ExactChosen(v, nb, p) && FreeAt(v.lay, p, 8 * i) && p !in v.out)
  {
    hide Base, Marked;
    SmallHas(v, i);
  }

  /** No small bin can serve nb. */
  ghost predicate NoSmall(v: View, nb: int) {
    forall q, u {:trigger FreeAt(v.lay, q, u)} :: FreeAt(v.lay, q, u) && q !in v.out && nb <= u ==> MIN_LARGE_SIZE <= u
  }

  lemma NoneAfter(v: View, nb: int)
    requires Base(v) && MIN_CHUNK_SIZE <= nb < MIN_LARGE_SIZE && nb % 8 == 0 && Shr(v.smallmap, nb / 8) == 0
    ensures NoSmall(v, nb)
  {
    hide Base, Marked, Shr;
    forall q, u | FreeAt(v.lay, q, u) && q !in v.out && nb <= u ensures MIN_LARGE_SIZE <= u {
      if u < MIN_LARGE_SIZE {
        SmallHeld(v, q, u);
        ShrMarks(v.smallmap, nb / 8, u / 8 - nb / 8);
        AnyMarked(Shr(v.smallmap, nb / 8));
      }
    }
  }

  /** The least bin after the exact one holds the smallest binned chunks that fit. */
  lemma NextBin(v: View, nb: int) returns (i: nat)
    requires Base(v) && MIN_CHUNK_SIZE <= nb < MIN_LARGE_SIZE && nb % 8 == 0
    requires Shr(v.smallmap, nb / 8) != 0 && !ExactFit(v, nb)
    ensures var bits := BinsAfter(v.smallmap, nb / 8);
      bits != 0 && i == Bit2Idx(LeastBit(bits)) && LeastBit(bits) == Idx2Bit(i)
    ensures nb / 8 + 1 < i < 32 && |v.sb| == 32 && v.sb[i] != [] && Marked(v.smallmap, i)
    ensures BinnedChosen(v, nb, v.sb[i][0]) && FreeAt(v.lay, v.sb[i][0], 8 * i) && v.sb[i][0] !in v.out
  {
    hide Base, Marked, Shr, Idx2Bit, BinsAfter, LeastBit, Bit2Idx;
    i := NextMark(v, nb);
    SmallHas(v, i);
    SmallHas(v, nb / 8 + 1);
    assert LeastBinned(v, nb, 8 * i) by {
      forall q, u | FreeAt(v.lay, q, u) && q !in v.out && nb <= u ensures 8 * i <= u {
        if u < MIN_LARGE_SIZE {
          SmallHeld(v, q, u);
          SmallHas(v, u / 8);
        }
      }
    }
  }

  lemma NextMark(v: View, nb: int) returns (i: nat)
    requires Base(v) && MIN_CHUNK_SIZE <= nb < MIN_LARGE_SIZE && nb % 8 == 0
    requires Shr(v.smallmap, nb / 8) != 0 && !ExactFit(v, nb)
    ensures var bits := BinsAfter(v.smallmap, nb / 8);
      bits != 0 && i == Bit2Idx(LeastBit(bits)) && LeastBit(bits) == Idx2Bit(i)
    ensures nb / 8 < i < 32 && Marked(v.smallmap, i) && !Marked(v.smallmap, nb / 8)
    ensures forall j {:trigger Marked(v.smallmap, j)} | nb / 8 < j < i :: !Marked(v.smallmap, j)
  {
    hide Base, Marked, Shr, Idx2Bit, BinsAfter, LeastBit, Bit2Idx;
    var idx := nb / 8;
    var bits := BinsAfter(v.smallmap, idx);
    SmallHas(v, idx);
    var k := LeastBitIsFirst(Shr(v.smallmap, idx));
    assert idx + k < 32 by {
      if idx + k >= 32 {
        ShrEnds(v.smallmap, idx, k);
      }
    }
    ShrMarks(v.smallmap, idx, k);
    BinsAfterMarks(v.smallmap, idx, idx + k);
    AnyMarked(bits);
    i := LeastBitIsFirst(bits);
    BinsAfterMarks(v.smallmap, idx, i);
    forall j | idx < j < i ensures !Marked(v.smallmap, j) {
      BinsAfterMarks(v.smallmap, idx, j);
    }
  }

  lemma TreeServes(v: View, nb: int, best: int, rsize: int)
    requires Base(v) && NoSmall(v, nb) && LeastFit(v, nb, rsize) && TreeFree(v, best, nb + rsize) && 0 <= rsize
    ensures BinnedChosen(v, nb, best)
  {
    hide Base;
    assert LeastBinned(v, nb, nb + rsize) by {
      forall q, u | FreeAt(v.lay, q, u) && q !in v.out && nb <= u ensures nb + rsize <= u {
        assert TreeFree(v, q, u);
      }
    }
  }

  lemma NothingBinned(v: View, nb: int)
    requires Base(v) && NoSmall(v, nb) && v.treemap == 0
    ensures NoBinned(v, nb)
  {
    hide Base;
    forall q, u | FreeAt(v.lay, q, u) && q !in v.out ensures u < nb {
      if nb <= u {
        assert TreeFree(v, q, u);
        TreeFreeHeld(v, q, u);
      }
    }
  }

  // ----- any request

  /** The chunk size of a request, as malloc computes it; an impossible size forces failure. */
  function ChunkRequest(bytes: int): int {
    if bytes <= MAX_SMALL_REQUEST then (if bytes < MIN_REQUEST then MIN_CHUNK_SIZE else PadRequest(bytes))
    else if bytes >= MAX_REQUEST then MAX_SIZE_T
    else PadRequest(bytes)
  }

  lemma ChunkRequestIs(bytes: int)
    requires 0 <= bytes < TWO64
    ensures bytes < MAX_REQUEST ==> ChunkRequest(bytes) == Request2Size(bytes)
    ensures var nb := ChunkRequest(bytes);
      if bytes < MAX_REQUEST then nb % 8 == 0 && MIN_CHUNK_SIZE <= nb < TWO64 && bytes + CHUNK_OVERHEAD <= nb
        && (bytes <= MAX_SMALL_REQUEST <==> nb < MIN_LARGE_SIZE)
      else nb == MAX_SIZE_T
  {
    if bytes < MAX_REQUEST {
      PaddingFits(bytes);
    }
  }

  ghost predicate Chosen(v: View, h: Heads, nb: int, p: int) {
    if nb < MIN_LARGE_SIZE then SmallChosen(v, h, nb, p) else LargeChosen(v, h, nb, p)
  }

  /** No bin is preferred to the designated victim or top. */
  ghost predicate Falls(v: View, h: Heads, nb: int) {
    if nb < MIN_LARGE_SIZE then !ExactFit(v, nb) && (h.dvsize < nb ==> NoBinned(v, nb)) else DvFirst(v, h, nb)
  }

  lemma FallsToDv(v: View, h: Heads, segs: seq<Segment>, nb: int)
    requires HeapMid(v, h, segs, {}) && Falls(v, h, nb) && 0 < nb <= h.dvsize
    ensures Chosen(v, h, nb, h.dv)
  {
    hide Base;
  }

  lemma FallsToTop(v: View, h: Heads, segs: seq<Segment>, nb: int)
    requires HeapMid(v, h, segs, {}) && Falls(v, h, nb) && h.dvsize < nb
    ensures NoFree(v, nb) && (nb < h.topsize ==> Chosen(v, h, nb, h.top))
  {
    hide Base;
    forall q, u | FreeAt(v.lay, q, u) ensures u < nb {}
  }

  /** No chunk serves a request too large to be one. */
  lemma TooLarge(v: View, h: Heads, segs: seq<Segment>)
    requires HeapMid(v, h, segs, {})
    ensures h.dvsize < MAX_SIZE_T && h.topsize < MAX_SIZE_T && Falls(v, h, MAX_SIZE_T)
  {
    hide Base;
    forall q, u | FreeAt(v.lay, q, u) ensures u < MAX_SIZE_T {
      SizeBelow(v, q, u);
    }
    TopBelow(v, h, segs);
  }

  lemma SizeBelow(v: View, q: int, u: int)
    requires Base(v) && FreeAt(v.lay, q, u)
    ensures u < MAX_SIZE_T
  {
    assert ChunkOk(v.lay, q);
  }

  lemma TopBelow(v: View, h: Heads, segs: seq<Segment>)
    requires HeapMid(v, h, segs, {})
    ensures 0 < h.topsize < MAX_SIZE_T
  {
    assert ChunkOk(v.lay, h.top);
  }

  lemma NoTreesFall(v: View, h: Heads, segs: seq<Segment>, nb: int)
    requires HeapMid(v, h, segs, {}) && v.treemap == 0 && MIN_LARGE_SIZE <= nb < TWO64
    ensures DvFirst(v, h, nb)
  {
    hide Base;
    NoTrees(v, nb);
    FitBeatsDv(v, h, segs, nb, 0, TWO64 - nb);
  }

  // ----- when malloc fails

  /** Neither a free chunk nor top can serve nb. */
  ghost predicate NoRoom(v: View, h: Heads, nb: int) {
    NoFree(v, nb) && h.topsize <= nb
  }

  /** The system gives no region for nb, or the size to ask for wraps. */
  ghost predicate Refused(region: int, nb: int) {
    region == 0 || MmapSize(nb) <= nb
  }

  /** malloc fails on a request that is too large, or when the space has no room for it and the system gives none. */
  ghost predicate MallocFails(v: View, h: Heads, bytes: int, region: int) {
    bytes >= MAX_REQUEST || (NoRoom(v, h, ChunkRequest(bytes)) && Refused(region, ChunkRequest(bytes)))
  }

  lemma ChosenHasRoom(v: View, h: Heads, segs: seq<Segment>, nb: int, p: int)
    requires HeapMid(v, h, segs, {}) && 0 < nb && Chosen(v, h, nb, p)
    ensures !NoRoom(v, h, nb)
  {
    hide Base;
    if nb >= MIN_LARGE_SIZE {
      LargeIsBest(v, h, segs, nb, p);
    } else if !ExactFit(v, nb) && nb <= h.dvsize {
      assert FreeAt(v.lay, h.dv, h.dvsize);
    }
  }
}
