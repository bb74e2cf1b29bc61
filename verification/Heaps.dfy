/** The whole space: bins, designated victim, top and segments together, and how one step changes them. */
module Heaps {
  import opened Words
  import opened Layouts
  import opened Canonical
  import opened Views
  import opened TagOps
  import opened Segments
  import opened Areas
  import opened Frames

  /** The designated victim and top, as the space caches them. */
  datatype Heads = Heads(dv: int, dvsize: int, top: int, topsize: int)

  ghost function DvSet(h: Heads): set<int> {
    if h.dv != 0 then {h.dv} else {}
  }

  /** The invariant of a space while the chunks in x are out of their bins. */
  ghost predicate HeapMid(v: View, h: Heads, segs: seq<Segment>, x: set<int>) {
    && Steady(v) && OneTop(v.lay, h.top) && v.lay[h.top].size == h.topsize
    && (h.dv != 0 <==> h.dvsize != 0) && (h.dv != 0 ==> FreeAt(v.lay, h.dv, h.dvsize) && h.dv !in x)
    && v.out == DvSet(h) + x
    && SegmentsOk(v.lay, segs)
  }

  /** One more chunk in use, of at least nb and less than a minimal chunk more; all else in use is as it was. */
  ghost predicate Gained(v: View, h: Heads, v': View, h': Heads, p: int, nb: int) {
    && v'.ms == v.ms && OneTop(v.lay, h.top) && OneTop(v'.lay, h'.top)
    && p in v'.lay && v'.lay[p].kind.Used? && p !in UsedOf(v.lay)
    && UsedOf(v'.lay) == UsedOf(v.lay)[p := v'.lay[p].size]
    && nb <= v'.lay[p].size < nb + MIN_CHUNK_SIZE
    && PayloadSame(UsedOf(v.lay), v.ms, v.mem, v'.mem)
    && ArenaOf(v'.lay, h'.top) == ArenaOf(v.lay, h.top)
    && Frame(v.lay, v'.lay, v.mem, v'.mem)
  }

  /** No memory has come from the system: the segments' bases, fenceposts and the end of top are the same. */
  ghost predicate ArenaKept(v: View, h: Heads, v': View, h': Heads) {
    && v'.ms == v.ms && OneTop(v.lay, h.top) && OneTop(v'.lay, h'.top)
    && ArenaOf(v'.lay, h'.top) == ArenaOf(v.lay, h.top)
  }

  lemma ArenaSelf(v: View, h: Heads, segs: seq<Segment>, x: set<int>)
    requires HeapMid(v, h, segs, x)
    ensures ArenaKept(v, h, v, h)
  {
    hide Base;
  }

  lemma GainedArena(v: View, h: Heads, v': View, h': Heads, p: int, nb: int)
    requires Gained(v, h, v', h', p, nb)
    ensures ArenaKept(v, h, v', h')
  {
    hide PayloadSame, Frame;
  }

  lemma ArenaTrans(v: View, h: Heads, v1: View, h1: Heads, v2: View, h2: Heads)
    requires ArenaKept(v, h, v1, h1) && ArenaKept(v1, h1, v2, h2)
    ensures ArenaKept(v, h, v2, h2)
  {}

  lemma WholeArena(L: Layout, p: int, top: int)
    requires OneTop(L, top) && p in L && L[p].kind.Free?
    ensures OneTop(SetKind(L, p, Used), top) && ArenaOf(SetKind(L, p, Used), top) == ArenaOf(L, top)
  {
    var M := SetKind(L, p, Used);
    assert ArenaOf(M, top).bases == ArenaOf(L, top).bases;
    assert ArenaOf(M, top).fences == ArenaOf(L, top).fences;
  }

  /** Taking a whole free chunk that is out of its bin, or the designated victim. */
  lemma WholeHeap(v: View, mem': Mem, h: Heads, segs: seq<Segment>, x: set<int>, p: int)
    requires HeapMid(v, h, segs, x) && p in v.out && WholeWritten(v, mem', p)
    ensures var h' := if p == h.dv then h.(dv := 0, dvsize := 0) else h;
      && HeapMid(WholeTaken(v, mem', p), h', segs, x - {p})
      && ArenaOf(WholeTaken(v, mem', p).lay, h'.top) == ArenaOf(v.lay, h.top)
    ensures PayloadSame(UsedOf(v.lay), v.ms, v.mem, mem')
    ensures UsedOf(SetKind(v.lay, p, Used)) == UsedOf(v.lay)[p := v.lay[p].size]
    ensures Frame(v.lay, SetKind(v.lay, p, Used), v.mem, mem')
  {
    hide Base, PayloadSame, Frame;
    UnbinnedOut(v, p);
    WholeKeeps(v, mem', p);
    WholeArena(v.lay, p, h.top);
    LayoutOf(v);
    SetKindSegments(v.lay, segs, p, Used);
    ZeroOut(v);
    WholeFrame(v, mem', p);
  }

  lemma UnbinnedOut(v: View, p: int)
    requires Base(v) && p in v.out
    ensures Unbinned(v, p)
  {}

  lemma LayoutOf(v: View)
    requires Base(v)
    ensures LayoutOk(v.lay) && v.ms in v.lay && v.lay[v.ms].kind.Used?
  {}

  lemma ZeroOut(v: View)
    requires Base(v)
    ensures 0 !in v.out && 0 !in v.lay
  {
    assert 0 in v.lay ==> ChunkOk(v.lay, 0);
  }

  lemma CutArena(L: Layout, p: int, n: int, top: int)
    requires LayoutOk(L) && OneTop(L, top) && Splittable(L, p, n) && !L[p].kind.Used?
    ensures var M, top' := Split(L, p, n, Used), if p == top then top + n else top;
      OneTop(M, top') && ArenaOf(M, top') == ArenaOf(L, top)
  {
    var M, top' := Split(L, p, n, Used), if p == top then top + n else top;
    SplitFresh(L, p, n);
    assert ChunkOk(L, p);
    assert ArenaOf(M, top').bases == ArenaOf(L, top).bases;
    assert ArenaOf(M, top').fences == ArenaOf(L, top).fences;
  }

  /** Cutting the front off a free chunk that is out of its bin; the remainder is out of its bin. */
  lemma CutHeap(v: View, mem': Mem, h: Heads, segs: seq<Segment>, x: set<int>, p: int, n: int)
    requires HeapMid(v, h, segs, x) && p in v.out && Splittable(v.lay, p, n) && CutWritten(v, mem', p, n)
    ensures var h' := if p == h.dv then h.(dv := p + n, dvsize := h.dvsize - n) else h;
      && HeapMid(Cut(v, mem', p, n), h', segs, if p == h.dv then x else x - {p} + {p + n})
      && ArenaOf(Cut(v, mem', p, n).lay, h'.top) == ArenaOf(v.lay, h.top)
    ensures PayloadSame(UsedOf(v.lay), v.ms, v.mem, mem')
    ensures UsedOf(Split(v.lay, p, n, Used)) == UsedOf(v.lay)[p := n]
    ensures Frame(v.lay, Split(v.lay, p, n, Used), v.mem, mem')
  {
    hide Base, PayloadSame, Frame;
    UnbinnedOut(v, p);
    CutKeeps(v, mem', p, n);
    LayoutOf(v);
    CutArena(v.lay, p, n, h.top);
    SplitSegments(v.lay, segs, p, n, Used);
    SplitFresh(v.lay, p, n);
    ZeroOut(v);
    ZeroOut(Cut(v, mem', p, n));
    OutFree(v);
    CutFrame(v, mem', p, n);
  }

  lemma OutFree(v: View)
    requires Base(v)
    ensures forall q {:trigger q in v.out} | q in v.out :: q in v.lay && v.lay[q].kind.Free?
  {}

  lemma CutTopHeap(v: View, mem': Mem, h: Heads, segs: seq<Segment>, x: set<int>, n: int)
    requires HeapMid(v, h, segs, x) && Splittable(v.lay, h.top, n) && CutWritten(v, mem', h.top, n)
    ensures var h' := h.(top := h.top + n, topsize := h.topsize - n);
      && HeapMid(Cut(v, mem', h.top, n), h', segs, x)
      && ArenaOf(Cut(v, mem', h.top, n).lay, h'.top) == ArenaOf(v.lay, h.top)
    ensures PayloadSame(UsedOf(v.lay), v.ms, v.mem, mem')
    ensures UsedOf(Split(v.lay, h.top, n, Used)) == UsedOf(v.lay)[h.top := n]
    ensures Frame(v.lay, Split(v.lay, h.top, n, Used), v.mem, mem')
  {
    hide Base, PayloadSame, Frame;
    CutKeeps(v, mem', h.top, n);
    LayoutOf(v);
    CutArena(v.lay, h.top, n, h.top);
    SplitSegments(v.lay, segs, h.top, n, Used);
    SplitFresh(v.lay, h.top, n);
    OutFree(v);
    CutFrame(v, mem', h.top, n);
  }
}
