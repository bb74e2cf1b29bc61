/**
 * A region that ends where a segment begins: its front serves the request, the rest joins the segment's first chunk.
 */
module Prepends {
  import opened Words
  import opened Layouts
  import opened Canonical
  import opened Views
  import opened TagOps
  import opened FreeOps
  import opened Scratch
  import opened Segments
  import opened Areas
  import opened Sizes
  import opened Heaps
  import opened Gains
  import opened Frees
  import opened Carves
  import opened Regions
  import opened Growth
  import opened Systems

  ghost predicate Prepending(v: View, h: Heads, segs: seq<Segment>, x: set<int>, i: int, base: int, size: int,
          nb: int) {
    && HeapMid(v, h, segs, x) && StartsAt(segs, i, base + size) && Fresh(segs, base, size)
    && nb % 8 == 0 && MIN_CHUNK_SIZE <= nb && MIN_CHUNK_SIZE <= size - nb
  }

  // The ghost steps: the region as one chunk in use, cut in two, the second freed.

  ghost function Joined(v: View, base: int, size: int): View
    requires base + size in v.lay
  {
    v.(mem := v.mem[base + 8 := size + 3], lay := Fronted(v.lay, base, size))
  }

  ghost function CutMemory(mem: Mem, base: int, size: int, nb: int): Mem {
    mem[base + 8 := nb + 3][base + nb + 8 := size - nb + 3]
  }

  ghost function Halved(v: View, base: int, size: int, nb: int): View
    requires base + size in v.lay
  {
    Carved(Joined(v, base, size), CutMemory(v.mem, base, size, nb), base, nb)
  }

  lemma JoinedCarves(v: View, h: Heads, segs: seq<Segment>, x: set<int>, i: int, base: int, size: int, nb: int)
    requires Prepending(v, h, segs, x, i, base, size, nb)
    ensures base + size in v.lay
    ensures var v1, m := Joined(v, base, size), CutMemory(v.mem, base, size, nb);
      && Carvable(v1, base, nb) && CarveWritten(v1, m, base, nb) && HeapMid(v1, h, Prepended(segs, i, base, size), x)
      && base in v1.lay && v1.lay[base] == Chunk(size, Used, 0) && Pin(v1.lay, base)
      && UsedOf(v1.lay) == UsedOf(v.lay)[base := size] && base !in UsedOf(v.lay) && base != v.ms && base != 0
      && PayloadSame(UsedOf(v.lay), v.ms, v.mem, v1.mem) && Frame(v.lay, v1.lay, v.mem, v1.mem)
  {
    hide Base, PayloadSame, Frame;
    FrontHeap(v, h, segs, x, i, base, size);
    var v1, m := Joined(v, base, size), CutMemory(v.mem, base, size, nb);
    ZeroOut(v1);
    assert m == v1.mem[base + 8 := nb + 3][base + nb + 8 := size - nb + 3];
  }

  lemma HalvedUsed(v: View, h: Heads, segs: seq<Segment>, x: set<int>, i: int, base: int, size: int, nb: int)
    requires Prepending(v, h, segs, x, i, base, size, nb)
    ensures base + size in v.lay
    ensures var v2, q := Halved(v, base, size, nb), base + nb;
      && HeapMid(v2, h, Prepended(segs, i, base, size), x)
      && UsedOf(v2.lay) == UsedOf(v.lay)[base := nb][q := size - nb] && base !in UsedOf(v.lay) && q !in UsedOf(v.lay)
      && PayloadSame(UsedOf(v.lay), v.ms, v.mem, v2.mem) && v2.mem == CutMemory(v.mem, base, size, nb) && v2.ms == v.ms
      && Frame(v.lay, v2.lay, v.mem, v2.mem)
  {
    hide Base, PayloadSame, Frame, HeapMid, Carvable, CarveWritten, Split, Fronted;
    JoinedCarves(v, h, segs, x, i, base, size, nb);
    var v1, m := Joined(v, base, size), CutMemory(v.mem, base, size, nb);
    CarveHeap(v1, m, h, Prepended(segs, i, base, size), x, base, nb);
    PayloadSub(UsedOf(v1.lay)[base := nb], UsedOf(v.lay), v.ms, v1.mem, m);
    PayloadTrans(UsedOf(v.lay), v.ms, v.mem, v1.mem, m);
    FrameTrans(v.lay, v1.lay, Halved(v, base, size, nb).lay, v.mem, v1.mem, m);
  }

  /** Around the cut: q is in use before the segment's old first chunk. */
  lemma HalvedChunks(v: View, h: Heads, segs: seq<Segment>, x: set<int>, i: int, base: int, size: int, nb: int)
    requires Prepending(v, h, segs, x, i, base, size, nb)
    ensures base + size in v.lay
    ensures var v2, q, e := Halved(v, base, size, nb), base + nb, base + size;
      && q in v2.lay && v2.lay[q].kind.Used? && v2.lay[q].size == size - nb && Pin(v2.lay, q) && q != v2.ms && q != 0
         && q != base
      && e in v2.lay && v2.lay[e].kind == v.lay[e].kind && v2.lay[e].size == v.lay[e].size && !v.lay[e].kind.Fence?
      && Freeable(v2.lay, q)
      && (forall p {:trigger FenceAt(v2.lay, p)} :: FenceAt(v2.lay, p) <==> FenceAt(v.lay, p))
  {
    hide Base, PayloadSame, Frame, HeapMid, CarveWritten;
    JoinedCarves(v, h, segs, x, i, base, size, nb);
    var v1 := Joined(v, base, size);
    MidBase(v, h, segs, x);
    LayoutOf(v);
    LayoutOf(v1);
    FrontStarts2(v, h, segs, x, i, base, size, nb);
    SplitFresh(v1.lay, base, nb);
    CarvePins(v1, base, nb, base);
    assert ChunkOk(v.lay, base + size);
  }

  lemma FrontStarts2(v: View, h: Heads, segs: seq<Segment>, x: set<int>, i: int, base: int, size: int, nb: int)
    requires Prepending(v, h, segs, x, i, base, size, nb)
    ensures Frontable(v.lay, base, size) && base !in v.lay && ChunkOk(v.lay, base + size) && 0 !in v.lay
    ensures forall p {:trigger Clear1(v.lay, p, base, size)} :: Clear1(v.lay, p, base, size)
    ensures base + nb != v.ms
  {
    hide Base, PayloadSame, Frame;
    LayoutOf(v);
    FrontStarts(v.lay, segs, i, base, size);
    FrontFresh(v.lay, base, size);
    assert Clear1(v.lay, v.ms, base, size) && ChunkOk(v.lay, v.ms);
  }

  ghost function Placed(v: View, mem': Mem, base: int, size: int, nb: int): View
    requires base + size in v.lay
  {
    var v2 := Halved(v, base, size, nb);
    if Freeable(v2.lay, base + nb) then Released(v2, mem', base + nb) else v2
  }

  /** Freeing q in a view where p and q are new leaves p as the one new chunk in use. */
  lemma FreeLeaves(v: View, v2: View, h: Heads, segs: seq<Segment>, mem': Mem, p: int, nb: int, q: int, s: int)
    requires Freeable(v2.lay, q) && FreeReady(v2, h, segs, q) && FreeWritten(v2, mem', q) && q == p + nb
    requires UsedOf(v2.lay) == UsedOf(v.lay)[p := nb][q := s] && p !in UsedOf(v.lay) && q !in UsedOf(v.lay)
      && v2.ms == v.ms
    requires PayloadSame(UsedOf(v.lay), v.ms, v.mem, v2.mem) && p != q && Frame(v.lay, v2.lay, v.mem, v2.mem)
    requires forall a {:trigger FenceAt(v2.lay, a)} :: FenceAt(v2.lay, a) <==> FenceAt(v.lay, a)
    ensures var v3, h3 := Released(v2, mem', q), FreedHeads(v2.lay, h, q);
      && HeapMid(v3, h3, segs, Unbinnable(v2.lay, h, q)) && ServedWith(v, v3, p, nb, 0)
      && (!v2.lay[After(v2.lay, q)].kind.Top? ==> FreeAt(v3.lay, FreedStart(v2.lay, q), FreedSize(v2.lay, q)))
  {
    hide Base, PayloadSame, Frame, FreeWritten, Freed, HeapMid;
    var v3, h3 := Released(v2, mem', q), FreedHeads(v2.lay, h, q);
    FreeHeap(v2, mem', h, segs, q);
    if !v2.lay[After(v2.lay, q)].kind.Top? {
      FreedChunkAt(v2, h, segs, q);
    }
    PayloadSub(UsedOf(v3.lay), UsedOf(v.lay), v.ms, v2.mem, mem');
    PayloadTrans(UsedOf(v.lay), v.ms, v.mem, v2.mem, mem');
    FrameTrans(v.lay, v2.lay, v3.lay, v.mem, v2.mem, mem');
    assert UsedOf(v3.lay) == UsedOf(v.lay)[p := nb];
    SameFences(v2.lay, v3.lay, h.top, h3.top);
    BaseFreeable(v2, h, segs, Unlinked(v2.lay, h, q), p, nb);
    MidBase(v3, h3, segs, Unbinnable(v2.lay, h, q));
    assert v3.lay[p].size == UsedOf(v3.lay)[p];
    PrependServes(v, v3, p, nb);
  }

  /** The rest of the region joins what follows; the front is a new chunk in use. */
  lemma PrependKeeps(v: View, h: Heads, segs: seq<Segment>, x: set<int>, i: nat, base: int, size: int, nb: int,
          mem': Mem)
    requires base + size in v.lay && Freeable(Halved(v, base, size, nb).lay, base + nb)
    requires Unlinked(Halved(v, base, size, nb).lay, h, base + nb) == x
    requires FreeWritten(Halved(v, base, size, nb), mem', base + nb)
    requires i < |segs| && Prepending(v, h, segs, x, i, base, size, nb)
    ensures var v2, v3, q := Halved(v, base, size, nb), Placed(v, mem', base, size, nb), base + nb;
      && HeapMid(v3, FreedHeads(v2.lay, h, q), Prepended(segs, i, base, size), Unbinnable(v2.lay, h, q))
      && ServedWith(v, v3, base, nb, 0)
      && (!v2.lay[After(v2.lay, q)].kind.Top? ==> FreeAt(v3.lay, FreedStart(v2.lay, q), FreedSize(v2.lay, q)))
  {
    hide Base, PayloadSame, Frame, HeapMid, FreeWritten, Freed, Halved, Prepending, ServedWith;
    JoinedCarves(v, h, segs, x, i, base, size, nb);
    HalvedUsed(v, h, segs, x, i, base, size, nb);
    HalvedChunks(v, h, segs, x, i, base, size, nb);
    FreeLeaves(v, Halved(v, base, size, nb), h, Prepended(segs, i, base, size), mem', base, nb, base + nb, size - nb);
  }

  lemma BaseFreeable(v: View, h: Heads, segs: seq<Segment>, x: set<int>, base: int, nb: int)
    requires HeapMid(v, h, segs, x) && Freeable(v.lay, base + nb) && base in UsedOf(v.lay) && UsedOf(v.lay)[base] == nb
    ensures Freeable(Freed(v.lay, base + nb), base)
  {
    hide Base;
    LayoutOf(v);
    var q := base + nb;
    assert ChunkOk(v.lay, base);
    FreedNeighbours(v.lay, q);
    FreedChunk(v.lay, q, base);
    FreedChunk(v.lay, q, q);
  }

  lemma PrependServes(v: View, v': View, base: int, nb: int)
    requires Base(v') && v'.ms == v.ms && Freeable(v'.lay, base) && v'.lay[base].size == nb && base !in UsedOf(v.lay)
    requires UsedOf(v'.lay) == UsedOf(v.lay)[base := nb] && PayloadSame(UsedOf(v.lay), v.ms, v.mem, v'.mem)
      && Frame(v.lay, v'.lay, v.mem, v'.mem)
    requires forall p {:trigger FenceAt(v'.lay, p)} :: FenceAt(v'.lay, p) <==> FenceAt(v.lay, p)
    ensures ServedWith(v, v', base, nb, 0)
  {
    hide Base, PayloadSame, Frame;
    LayoutOf(v');
    forall q | Freeable(v.lay, q) ensures Freeable(v'.lay, q) {
      assert q in UsedOf(v.lay);
      StillFreeable(v.lay, v'.lay, q);
    }
    forall p | FenceAt(v.lay, p) ensures FenceAt(v'.lay, p) {}
  }

  /** The old first chunk, when it is free and not the designated victim, is out of its bin. */
  ghost predicate FirstOut(v: View, h: Heads, x: set<int>, e: int) {
    e in v.lay && x == (if v.lay[e].kind.Free? && e != h.dv then {e} else {})
  }

  /** What the rest of the region is merged with. */
  lemma PrependMerges(v: View, h: Heads, segs: seq<Segment>, x: set<int>, i: nat, base: int, size: int, nb: int)
    requires i < |segs| && Prepending(v, h, segs, x, i, base, size, nb) && FirstOut(v, h, x, base + size)
    ensures var v2, q, e, qs := Halved(v, base, size, nb), base + nb, base + size, size - nb;
      && Freeable(v2.lay, q) && Unlinked(v2.lay, h, q) == x && FreedStart(v2.lay, q) == q
      && FreedSize(v2.lay, q) == qs + (if v.lay[e].kind.Vacant() then v.lay[e].size else 0)
      && After(v2.lay, q) == e && v2.lay[e].kind == v.lay[e].kind && Steady(v2)
      && (v.lay[e].kind.Top? ==>
         e == h.top && Unbinnable(v2.lay, h, q) == {}
           && FreedHeads(v2.lay, h, q) == h.(top := q, topsize := h.topsize + qs))
      && (e == h.dv ==>
         v.lay[e].kind.Free? && Unbinnable(v2.lay, h, q) == {}
           && FreedHeads(v2.lay, h, q) == h.(dv := q, dvsize := h.dvsize + qs))
      && (!v.lay[e].kind.Top? && e != h.dv ==> Unbinnable(v2.lay, h, q) == {q} && FreedHeads(v2.lay, h, q) == h)
  {
    hide Base, PayloadSame, Frame, HeapMid, Halved, Prepending;
    var v2, q, e := Halved(v, base, size, nb), base + nb, base + size;
    HalvedUsed(v, h, segs, x, i, base, size, nb);
    HalvedChunks(v, h, segs, x, i, base, size, nb);
    FirstKnown(v, h, segs, x, i, base, size, nb);
    HeadsKnown(v2, h, Prepended(segs, i, base, size), x);
    MidSteady(v2, h, Prepended(segs, i, base, size), x);
  }

  lemma FirstKnown(v: View, h: Heads, segs: seq<Segment>, x: set<int>, i: int, base: int, size: int, nb: int)
    requires Prepending(v, h, segs, x, i, base, size, nb)
    ensures base + size in v.lay && base + size > 0 && OneTop(v.lay, h.top) && v.lay[h.top].size == h.topsize
    ensures h.dv != 0 ==> FreeAt(v.lay, h.dv, h.dvsize)
  {
    hide Base;
    FrontHeap(v, h, segs, x, i, base, size);
  }

  lemma MidSteady(v: View, h: Heads, segs: seq<Segment>, x: set<int>)
    requires HeapMid(v, h, segs, x)
    ensures Steady(v)
  {
    hide Base;
  }

  /** The head given to the rest of the region only in the ghost step is overwritten. */
  lemma CutOverwritten(mem: Mem, base: int, size: int, nb: int, total: int)
    requires MIN_CHUNK_SIZE <= nb && MIN_CHUNK_SIZE <= total
    ensures var c, m, q := CutMemory(mem, base, size, nb), mem[base + 8 := nb + 3], base + nb;
      && c[q + 8 := total + 1] == m[q + 8 := total + 1] && FreeMem(c, q, total) == FreeMem(m, q, total)
      && FreeMemPin(c, q, total) == FreeMemPin(m, q, total)
  {
    var c, m, q := CutMemory(mem, base, size, nb), mem[base + 8 := nb + 3], base + nb;
    assert c[q + 8 := total + 1] == m[q + 8 := total + 1];
    assert Rd(c, q + total + 8) == Rd(m, q + total + 8);
  }

  /** The words prepending writes, in each case, are the words that freeing the rest would write. */
  lemma PrependWrites(v: View, h: Heads, segs: seq<Segment>, x: set<int>, i: nat, base: int, size: int, nb: int)
    requires i < |segs| && Prepending(v, h, segs, x, i, base, size, nb) && FirstOut(v, h, x, base + size)
    ensures var v2, q, e, m := Halved(v, base, size, nb), base + nb, base + size, v.mem[base + 8 := nb + 3];
      var total := size - nb + if v.lay[e].kind.Vacant() then v.lay[e].size else 0;
      && Freeable(v2.lay, q)
      && (v.lay[e].kind.Top? ==> FreeWritten(v2, m[q + 8 := total + 1], q))
      && (v.lay[e].kind.Free? ==> FreeWritten(v2, FreeMem(m, q, total), q))
      && (!v.lay[e].kind.Top? ==> FreeWritten(v2, FreeMemPin(m, q, total), q))
  {
    hide Base, PayloadSame, Frame, HeapMid, Halved, FreeWritten, Freed, FreedSize, Unlinked, FreedHeads, Unbinnable;
    hide CutMemory, FreeMem, FreeMemPin;
    HalvedUsed(v, h, segs, x, i, base, size, nb);
    PrependMerges(v, h, segs, x, i, base, size, nb);
    FirstKnown(v, h, segs, x, i, base, size, nb);
    var v2, q, e := Halved(v, base, size, nb), base + nb, base + size;
    var total := FreedSize(v2.lay, q);
    FirstSize(v, h, segs, x, i, base, size, nb);
    CutOverwritten(v.mem, base, size, nb, total);
    if v.lay[e].kind.Top? {
      TopWrites(v2, q);
    } else {
      UsedWrites(v2, q);
    }
    if v.lay[e].kind.Free? {
      MergeWrites(v2, q);
    }
  }

  lemma FirstSize(v: View, h: Heads, segs: seq<Segment>, x: set<int>, i: int, base: int, size: int, nb: int)
    requires Prepending(v, h, segs, x, i, base, size, nb)
    ensures base + size in v.lay && v.lay[base + size].size > 0
  {
    FrontStarts2(v, h, segs, x, i, base, size, nb);
  }

  lemma PlacedFrame(v: View, mem': Mem, base: int, size: int, nb: int)
    requires base + size in v.lay && Freeable(Halved(v, base, size, nb).lay, base + nb)
    ensures var v3 := Placed(v, mem', base, size, nb); v3 == v.(mem := mem', lay := v3.lay, out := v3.out)
  {
    hide Freed;
  }

  /** How the segment's first chunk is found to be top, the designated victim, in use, or free in its bin. */
  lemma FirstReads(v: View, h: Heads, segs: seq<Segment>, i: nat, base: int, size: int, nb: int)
    requires i < |segs| && Prepending(v, h, segs, {}, i, base, size, nb)
    ensures var e := base + size;
      && e in v.lay && (e == h.top <==> v.lay[e].kind.Top?) && (e == h.dv ==> FreeAt(v.lay, e, h.dvsize))
      && (Cinuse(Rd(v.mem, e + 8)) <==> v.lay[e].kind.Used?) && ChunkSize(Rd(v.mem, e + 8)) == v.lay[e].size
      && Base(v) && (v.lay[e].kind.Free? && e != h.dv ==> e !in v.out) && !v.lay[e].kind.Fence?
  {
    hide Base, PayloadSame, Frame;
    FirstKnown(v, h, segs, {}, i, base, size, nb);
    FrontStarts2(v, h, segs, {}, i, base, size, nb);
    NotFence(v, h, segs, {}, i, base, size, nb);
    SizeRead(v, base + size);
  }

  lemma NotFence(v: View, h: Heads, segs: seq<Segment>, x: set<int>, i: int, base: int, size: int, nb: int)
    requires Prepending(v, h, segs, x, i, base, size, nb)
    ensures base + size in v.lay && !v.lay[base + size].kind.Fence?
  {
    FrontStarts2(v, h, segs, x, i, base, size, nb);
  }

  lemma ServedAround(v: View, v1: View, v2: View, v3: View, p: int, nb: int)
    requires Rebinned(v, v1) && ServedWith(v1, v2, p, nb, 0) && Rebinned(v2, v3)
    ensures ServedWith(v, v3, p, nb, 0)
  {
    hide PayloadSame, Frame;
    PayloadSub(UsedOf(v2.lay), UsedOf(v.lay), v.ms, v2.mem, v3.mem);
    PayloadTrans(UsedOf(v.lay), v.ms, v.mem, v1.mem, v2.mem);
    PayloadTrans(UsedOf(v.lay), v.ms, v.mem, v2.mem, v3.mem);
    FrameTrans(v.lay, v1.lay, v2.lay, v.mem, v1.mem, v2.mem);
    FrameTrans(v.lay, v2.lay, v3.lay, v.mem, v2.mem, v3.mem);
  }

  /** What the system may return when asked for the region of a request. */
  ghost predicate Gives(segs: seq<Segment>, region: int, nb: int) {
    region != 0 && nb < MmapSize(nb) ==> Fresh(segs, region, MmapSize(nb))
  }

  /** The space owns what it did, or also the region of a request of nb. */
  ghost predicate Grew(segs: seq<Segment>, segs': seq<Segment>, region: int, nb: int) {
    segs' == segs || Joins(segs, segs', region, MmapSize(nb))
  }

  lemma GivesFresh(segs: seq<Segment>, region: int, nb: int)
    requires Gives(segs, region, nb) && region != 0 && nb < MmapSize(nb)
    ensures Fresh(segs, region, MmapSize(nb)) && region > 0
  {}

  lemma SteadyBoth(v: View, h: Heads, v': View, h': Heads, segs: seq<Segment>)
    requires HeapMid(v, h, segs, {}) && HeapMid(v', h', segs, {})
    ensures Steady(v) && Steady(v')
  {
    hide Base;
  }

  lemma LocalServes(v: View, h: Heads, v': View, h': Heads, segs: seq<Segment>, p: int, nb: int)
    requires HeapMid(v, h, segs, {}) && HeapMid(v', h', segs, {}) && Gained(v, h, v', h', p, nb)
    ensures Served(v, v', p, nb)
  {
    hide Base, HeapMid, Gained, PayloadSame;
    SteadyBoth(v, h, v', h', segs);
    GainedServes(v, h, v', h', p, nb);
    assert ServedWith(v, v', p, nb, 0);
  }

  lemma ServedAligned(v: View, v': View, h': Heads, segs: seq<Segment>, p: int, nb: int)
    requires HeapMid(v', h', segs, {}) && Served(v, v', p, nb)
    ensures p > 0 && p % 8 == 0
  {
    assert p in v'.lay && ChunkOk(v'.lay, p);
  }

  lemma ServedFrame(v: View, v': View, p: int, nb: int)
    requires Served(v, v', p, nb)
    ensures Frame(v.lay, v'.lay, v.mem, v'.mem) && v'.ms == v.ms
  {
    hide PayloadSame, Frame;
    var r :| ServedWith(v, v', p, nb, r);
  }
}
