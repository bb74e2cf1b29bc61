/** Freeing at the level of the whole space: designated victim, top, segments and arena. */
module Frees {
  import opened Words
  import opened Layouts
  import opened Canonical
  import opened Views
  import opened TagOps
  import opened FreeOps
  import opened Scratch
  import opened Segments
  import opened Areas
  import opened Frames
  import opened Heaps
  import opened Gains

  /** The designated victim and top after freeing p: either may absorb the coalesced chunk. */
  ghost function FreedHeads(L: Layout, h: Heads, p: int): Heads
    requires Freeable(L, p)
  {
    var lo, n, total := FreedStart(L, p), After(L, p), FreedSize(L, p);
    if L[n].kind.Top? then
      Heads(if lo == h.dv then 0 else h.dv, if lo == h.dv then 0 else h.dvsize, lo, total)
    else if lo == h.dv || n == h.dv then h.(dv := lo, dvsize := total)
    else h
  }

  /** The neighbours of p that had to leave their bins. */
  ghost function Unlinked(L: Layout, h: Heads, p: int): set<int>
    requires Freeable(L, p)
  {
    var lo, n := FreedStart(L, p), After(L, p);
    (if lo != p && lo != h.dv then {lo} else {}) + (if L[n].kind.Free? && n != h.dv then {n} else {})
  }

  /** The coalesced chunk, unless top or the designated victim absorbed it. */
  ghost function Unbinnable(L: Layout, h: Heads, p: int): set<int>
    requires Freeable(L, p)
  {
    var lo, n := FreedStart(L, p), After(L, p);
    if L[n].kind.Top? || lo == h.dv || n == h.dv then {} else {lo}
  }

  /** Chunk p is no longer in use; every other chunk in use, and its payload, is as it was. */
  ghost predicate Lost(v: View, h: Heads, v': View, h': Heads, p: int) {
    && v'.ms == v.ms && OneTop(v.lay, h.top) && OneTop(v'.lay, h'.top)
    && Freeable(v.lay, p) && v'.lay == Freed(v.lay, p) && UsedOf(v'.lay) == UsedOf(v.lay) - {p}
    && PayloadSame(UsedOf(v'.lay), v.ms, v.mem, v'.mem)
    && ArenaOf(v'.lay, h'.top) == ArenaOf(v.lay, h.top)
    && Frame(v.lay, v'.lay, v.mem, v'.mem)
  }

  lemma LostArena(v: View, h: Heads, v': View, h': Heads, p: int)
    requires Lost(v, h, v', h', p)
    ensures ArenaKept(v, h, v', h')
  {
    hide PayloadSame, Frame, Freed;
  }

  lemma LostAround(v0: View, h0: Heads, v1: View, h1: Heads, v2: View, h2: Heads, v3: View, h3: Heads, p: int)
    requires Rebinned(v0, v1) && Lost(v1, h1, v2, h2, p) && Rebinned(v2, v3)
    requires h0.top == h1.top && h2.top == h3.top
    ensures Lost(v0, h0, v3, h3, p)
  {
    hide PayloadSame, Frame;
    PayloadSub(UsedOf(v0.lay), UsedOf(v2.lay), v0.ms, v0.mem, v1.mem);
    PayloadTrans(UsedOf(v2.lay), v0.ms, v0.mem, v1.mem, v2.mem);
    PayloadTrans(UsedOf(v2.lay), v0.ms, v0.mem, v2.mem, v3.mem);
    FrameTrans(v0.lay, v1.lay, v2.lay, v0.mem, v1.mem, v2.mem);
    FrameTrans(v0.lay, v2.lay, v3.lay, v0.mem, v2.mem, v3.mem);
  }

  lemma FreedTop(L: Layout, p: int, top: int)
    requires FreeScope(L, p) && OneTop(L, top)
    ensures var top' := if L[After(L, p)].kind.Top? then FreedStart(L, p) else top; OneTop(Freed(L, p), top')
  {
    FreedNeighbours(L, p);
    forall q ensures q in Freed(L, p) && Freed(L, p)[q].kind.Top? <==>
      q == if L[After(L, p)].kind.Top? then FreedStart(L, p) else top {
      FreedChunk(L, p, q);
    }
  }

  lemma FreedArena(L: Layout, p: int, top: int)
    requires FreeScope(L, p) && OneTop(L, top)
    ensures var top' := if L[After(L, p)].kind.Top? then FreedStart(L, p) else top;
      OneTop(Freed(L, p), top') && ArenaOf(Freed(L, p), top') == ArenaOf(L, top)
  {
    FreedTop(L, p, top);
    FreedNeighbours(L, p);
    var top' := if L[After(L, p)].kind.Top? then FreedStart(L, p) else top;
    var A, B := ArenaOf(Freed(L, p), top'), ArenaOf(L, top);
    forall q
      ensures q in A.bases <==> q in B.bases
      ensures q in A.fences <==> q in B.fences
      ensures q in A.fences ==> A.fences[q] == B.fences[q]
    {
      FreedChunk(L, p, q);
    }
    FreedChunk(L, p, top');
  }

  ghost predicate FreeReady(v: View, h: Heads, segs: seq<Segment>, p: int) {
    Freeable(v.lay, p) && p != v.ms && HeapMid(v, h, segs, Unlinked(v.lay, h, p))
  }

  lemma FreeReleasable(v: View, h: Heads, segs: seq<Segment>, p: int)
    requires FreeReady(v, h, segs, p)
    ensures Releasable(v, p) && FreeScope(v.lay, p)
  {
    hide Base;
    LayoutOf(v);
    FreedNeighbours(v.lay, p);
  }

  lemma FreedDv(v: View, h: Heads, segs: seq<Segment>, p: int)
    requires FreeReady(v, h, segs, p)
    ensures var h' := FreedHeads(v.lay, h, p);
      && (h'.dv != 0 <==> h'.dvsize != 0) && (h'.dv != 0 ==> FreeAt(Freed(v.lay, p), h'.dv, h'.dvsize))
      && h'.dv !in Unbinnable(v.lay, h, p)
  {
    hide Base;
    FreeReleasable(v, h, segs, p);
    FreedNeighbours(v.lay, p);
    FreedChunk(v.lay, p, FreedStart(v.lay, p));
    FreedChunk(v.lay, p, h.dv);
    ZeroOut(v);
  }

  lemma FreedOut(v: View, mem': Mem, h: Heads, segs: seq<Segment>, p: int)
    requires FreeReady(v, h, segs, p)
    ensures Released(v, mem', p).out == DvSet(FreedHeads(v.lay, h, p)) + Unbinnable(v.lay, h, p)
  {
    hide Base;
    FreeReleasable(v, h, segs, p);
    FreedNeighbours(v.lay, p);
    ZeroOut(v);
    OutFree(v);
  }

  /** Freeing keeps the whole invariant, with at most the coalesced chunk left to bin. */
  lemma FreeHeap(v: View, mem': Mem, h: Heads, segs: seq<Segment>, p: int)
    requires FreeReady(v, h, segs, p) && FreeWritten(v, mem', p)
    ensures var v', h' := Released(v, mem', p), FreedHeads(v.lay, h, p);
      HeapMid(v', h', segs, Unbinnable(v.lay, h, p)) && Lost(v, h, v', h', p)
  {
    hide Base, PayloadSame, Frame, FreeWritten;
    FreeReleasable(v, h, segs, p);
    FreeKeeps(v, mem', p);
    FreedArena(v.lay, p, h.top);
    FreedSegments(v.lay, segs, p);
    FreedDv(v, h, segs, p);
    FreedOut(v, mem', h, segs, p);
    FreeFrame(v, mem', p);
    FreedNeighbours(v.lay, p);
    FreedChunk(v.lay, p, FreedHeads(v.lay, h, p).top);
  }

  // ----- what free reads and writes

  ghost predicate FreeStarts(v: View, h: Heads, segs: seq<Segment>, x: set<int>, p: int) {
    HeapMid(v, h, segs, x) && Freeable(v.lay, p) && p != v.ms
  }

  /** The head and foot words around p say which neighbours are vacant and how large they are. */
  lemma FreeReads(v: View, h: Heads, segs: seq<Segment>, x: set<int>, p: int)
    requires HeapMid(v, h, segs, x) && Freeable(v.lay, p)
    ensures var s, lo, n := v.lay[p].size, FreedStart(v.lay, p), After(v.lay, p);
      && ChunkSize(Rd(v.mem, p + 8)) == s && (Pinuse(Rd(v.mem, p + 8)) <==> lo == p)
      && (lo != p ==> lo in v.lay && FreeAt(v.lay, lo, Rd(v.mem, p)) && lo == p - Rd(v.mem, p))
      && (Cinuse(Rd(v.mem, n + 8)) <==> v.lay[n].kind.Used?) && (n == h.top <==> v.lay[n].kind.Top?)
      && Pinuse(Rd(v.mem, n + 8)) && ChunkSize(Rd(v.mem, n + 8)) == v.lay[n].size
      && FreeScope(v.lay, p)
      && lo > 0 && n > 0
  {
    hide Base;
    var lo, n := FreedStart(v.lay, p), After(v.lay, p);
    LayoutOf(v);
    FreedNeighbours(v.lay, p);
    SizeRead(v, p);
    SizeRead(v, n);
    if lo != p {
      FootRead(v, lo);
    }
  }

  lemma FootRead(v: View, p: int)
    requires Base(v) && p in v.lay && v.lay[p].kind.Free?
    ensures Rd(v.mem, p + v.lay[p].size) == v.lay[p].size
  {
    assert Tag(v.lay, v.mem, p);
  }

  /** The forms the final writes take: before top, before a chunk in use, before a free chunk. */
  lemma TopWrites(v: View, p: int)
    requires Steady(v) && Freeable(v.lay, p) && v.lay[After(v.lay, p)].kind.Top?
    ensures FreeWritten(v, v.mem[FreedStart(v.lay, p) + 8 := FreedSize(v.lay, p) + 1], p)
  {
    hide Base;
  }

  ghost function FreeMem(mem: Mem, lo: int, total: int): Mem {
    mem[lo + 8 := total + 1][lo + total := total]
  }

  ghost function FreeMemPin(mem: Mem, lo: int, total: int): Mem {
    mem[lo + total + 8 := ClearPinuse(Rd(mem, lo + total + 8))][lo + 8 := total + 1][lo + total := total]
  }

  lemma FreedSpan(v: View, p: int)
    requires Steady(v) && Freeable(v.lay, p) && !v.lay[After(v.lay, p)].kind.Top?
    ensures FreedStart(v.lay, p) + FreedSize(v.lay, p) == FreedEnd(v.lay, p) && MIN_CHUNK_SIZE <= FreedSize(v.lay, p)
    ensures var e := FreedEnd(v.lay, p);
      v.lay[After(v.lay, p)].kind.Free? ==> Rd(v.mem, e + 8) == ClearPinuse(Rd(v.mem, e + 8))
  {
    hide Base;
    LayoutOf(v);
    FreedNeighbours(v.lay, p);
    var n, e := After(v.lay, p), FreedEnd(v.lay, p);
    if v.lay[n].kind.Free? {
      SizeRead(v, e);
      HeadDecodes(v.lay[e].size, true, false);
      assert ChunkOk(v.lay, e);
    }
  }

  lemma UsedWrites(v: View, p: int)
    requires Steady(v) && Freeable(v.lay, p) && !v.lay[After(v.lay, p)].kind.Top?
    ensures FreeWritten(v, FreeMemPin(v.mem, FreedStart(v.lay, p), FreedSize(v.lay, p)), p)
  {
    hide Base;
    FreedSpan(v, p);
  }

  lemma MergeWrites(v: View, p: int)
    requires Steady(v) && Freeable(v.lay, p) && v.lay[After(v.lay, p)].kind.Free?
    ensures FreeWritten(v, FreeMem(v.mem, FreedStart(v.lay, p), FreedSize(v.lay, p)), p)
  {
    hide Base;
    FreedSpan(v, p);
  }

  lemma TopSizes(v: View, h: Heads, segs: seq<Segment>, p: int)
    requires FreeReady(v, h, segs, p) && v.lay[After(v.lay, p)].kind.Top?
    ensures After(v.lay, p) == h.top && FreedSize(v.lay, p) == h.top + h.topsize - FreedStart(v.lay, p)
  {
    hide Base;
  }

  lemma DvSizes(v: View, h: Heads, segs: seq<Segment>, p: int)
    requires FreeReady(v, h, segs, p) && After(v.lay, p) == h.dv && h.dv != 0
    ensures FreeAt(v.lay, h.dv, h.dvsize) && FreedSize(v.lay, p) == h.dv + h.dvsize - FreedStart(v.lay, p)
  {
    hide Base;
  }

  lemma FreedChunkAt(v: View, h: Heads, segs: seq<Segment>, p: int)
    requires FreeReady(v, h, segs, p) && !v.lay[After(v.lay, p)].kind.Top?
    ensures FreeAt(Freed(v.lay, p), FreedStart(v.lay, p), FreedSize(v.lay, p))
  {
    hide Base;
    FreeReleasable(v, h, segs, p);
    FreedNeighbours(v.lay, p);
    FreedChunk(v.lay, p, FreedStart(v.lay, p));
  }

  /** How the chunk after p is found in use, top, the designated victim, or free in its bin. */
  lemma ForwardReads(v: View, h: Heads, segs: seq<Segment>, p: int)
    requires Freeable(v.lay, p) && FreeStarts(v, h, segs, Unlinked(v.lay, h, p) - {After(v.lay, p)}, p)
    ensures var lo, n := FreedStart(v.lay, p), After(v.lay, p);
      && (Cinuse(Rd(v.mem, n + 8)) <==> v.lay[n].kind.Used?) && (n == h.top <==> v.lay[n].kind.Top?)
      && (n == h.dv ==> h.dv != 0 && v.lay[n].kind.Free?)
      && (if v.lay[n].kind.Free? && n != h.dv then
            Base(v) && n !in v.out && FreeAt(v.lay, n, ChunkSize(Rd(v.mem, n + 8)))
              && n + ChunkSize(Rd(v.mem, n + 8)) == FreedSize(v.lay, p) + lo
            && Unlinked(v.lay, h, p) - {n} + {n} == Unlinked(v.lay, h, p)
          else FreeReady(v, h, segs, p))
      && (v.lay[n].kind.Used? && (lo != h.dv || lo == p) ==>
         Unbinnable(v.lay, h, p) == {lo} && FreedHeads(v.lay, h, p) == h)
  {
    hide Base;
    var lo, n := FreedStart(v.lay, p), After(v.lay, p);
    FreeReads(v, h, segs, Unlinked(v.lay, h, p) - {n}, p);
    FreedNeighbours(v.lay, p);
    assert !(v.lay[n].kind.Free? && n != h.dv) ==> Unlinked(v.lay, h, p) - {n} == Unlinked(v.lay, h, p);
  }

  /** How the chunk before p is found in use, the designated victim, or free in its bin. */
  lemma BackwardReads(v: View, h: Heads, segs: seq<Segment>, p: int)
    requires FreeStarts(v, h, segs, {}, p)
    ensures var s, lo, n := v.lay[p].size, FreedStart(v.lay, p), After(v.lay, p);
      && ChunkSize(Rd(v.mem, p + 8)) == s && (Pinuse(Rd(v.mem, p + 8)) <==> lo == p)
      && (lo != p ==> lo == p - Rd(v.mem, p) && FreeAt(v.lay, lo, Rd(v.mem, p)))
      && (Cinuse(Rd(v.mem, n + 8)) <==> v.lay[n].kind.Used?) && Pinuse(Rd(v.mem, n + 8))
      && Base(v) && (lo != h.dv ==> lo !in v.out)
      && Unlinked(v.lay, h, p) - {n} == (if lo != p && lo != h.dv then {} + {lo} else {})
      && (lo == h.dv && v.lay[n].kind.Used? ==> FreeReady(v, h, segs, p) && Unbinnable(v.lay, h, p) == {})
      && (lo == h.dv && v.lay[n].kind.Used? ==> FreedHeads(v.lay, h, p) == h.(dvsize := n - lo))
  {
    hide Base;
    FreeReads(v, h, segs, {}, p);
    FreedNeighbours(v.lay, p);
  }

  lemma ReadySteady(v: View, h: Heads, segs: seq<Segment>, p: int)
    requires FreeReady(v, h, segs, p)
    ensures Steady(v)
  {
    hide Base;
  }
}
