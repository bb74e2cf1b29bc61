/** Growing an in-use chunk into the top chunk behind it. */
module Stretches {
  import opened Words
  import opened Layouts
  import opened Canonical
  import opened Chains
  import opened Views
  import opened Relayout
  import opened TagOps
  import opened FreeOps
  import opened Segments
  import opened Areas
  import opened Heaps

  ghost predicate Stretchable(L: Layout, p: int, t: int, nb: int) {
    && LayoutOk(L) && NoAdj(L) && OneTop(L, t) && p in L && L[p].kind.Used? && p + L[p].size == t
    && nb % 8 == 0 && L[p].size < nb < L[p].size + L[t].size
  }

  ghost function Stretched(L: Layout, p: int, nb: int): Layout
    requires p in L && p + L[p].size in L
  {
    Split(Join(L, p), p, nb, Used)
  }

  lemma StretchFacts(L: Layout, p: int, t: int, nb: int)
    requires Stretchable(L, p, t, nb)
    ensures ChunkOk(L, p) && ChunkOk(L, t) && p + nb !in L && t < p + nb < t + L[t].size && L[t].prev == p
      && MIN_CHUNK_SIZE <= nb
    ensures Joinable(L, p) && LayoutOk(Join(L, p)) && Splittable(Join(L, p), p, nb)
    ensures forall q {:trigger q in L} | q in L :: L[q].prev != t
  {
    assert ChunkOk(L, p) && ChunkOk(L, t);
    assert p + nb in L ==> ChunkOk(L, p + nb) && Apart(L, t, p + nb);
    JoinOk(L, p);
    forall q | q in L ensures L[q].prev != t {
      assert ChunkOk(L, q);
    }
  }

  lemma StretchedOk(L: Layout, p: int, t: int, nb: int)
    requires Stretchable(L, p, t, nb)
    ensures LayoutOk(Stretched(L, p, nb))
  {
    StretchFacts(L, p, t, nb);
    SplitOk(Join(L, p), p, nb, Used);
  }

  lemma StretchedSegments(L: Layout, segs: seq<Segment>, p: int, t: int, nb: int)
    requires Stretchable(L, p, t, nb) && SegmentsOk(L, segs)
    ensures SegmentsOk(Stretched(L, p, nb), segs)
  {
    StretchFacts(L, p, t, nb);
    JoinSegments(L, segs, p);
    SplitSegments(Join(L, p), segs, p, nb, Used);
  }

  lemma StretchedChunk(L: Layout, p: int, t: int, nb: int, q: int)
    requires Stretchable(L, p, t, nb)
    ensures var M := Stretched(L, p, nb);
      && M[p] == Chunk(nb, Used, L[p].prev) && p + nb in M && M[p + nb] == Chunk(L[p].size + L[t].size - nb, Top, p)
         && Pin(M, p + nb)
      && (q in L && q != p && q != t ==> q in M && M[q] == L[q])
      && (q in M && q != p && q != p + nb ==> q in L && q != t)
      && (q in L && q in M ==> (Pin(M, q) <==> Pin(L, q)))
  {
    StretchFacts(L, p, t, nb);
    assert q in L ==> ChunkOk(L, q);
  }

  lemma StretchedNoAdj(L: Layout, p: int, t: int, nb: int)
    requires Stretchable(L, p, t, nb)
    ensures NoAdj(Stretched(L, p, nb))
  {
    forall q ensures NoAdj1(Stretched(L, p, nb), q) {
      StretchedChunk(L, p, t, nb, q);
      assert NoAdj1(L, q);
    }
  }

  lemma StretchedUsed(L: Layout, p: int, t: int, nb: int)
    requires Stretchable(L, p, t, nb)
    ensures UsedOf(Stretched(L, p, nb)) == UsedOf(L)[p := nb]
  {
    StretchFacts(L, p, t, nb);
    var u, w := UsedOf(Stretched(L, p, nb)), UsedOf(L)[p := nb];
    forall q ensures q in u <==> q in w {}
  }

  lemma StretchedArena(L: Layout, p: int, t: int, nb: int)
    requires Stretchable(L, p, t, nb)
    ensures var M := Stretched(L, p, nb); OneTop(M, p + nb) && ArenaOf(M, p + nb) == ArenaOf(L, t)
  {
    var M := Stretched(L, p, nb);
    StretchFacts(L, p, t, nb);
    var A, B := ArenaOf(M, p + nb), ArenaOf(L, t);
    forall q
      ensures q in A.bases <==> q in B.bases
      ensures q in A.fences <==> q in B.fences
    {
      StretchedChunk(L, p, t, nb, q);
    }
  }

  ghost predicate StretchWritten(v: View, mem': Mem, p: int, t: int, nb: int) {
    && p in v.lay && t in v.lay && Touched(v.mem, mem', 0, 0, {p + 8, p + nb + 8})
    && Rd(mem', p + 8) == Head(nb, true, Pin(v.lay, p))
       && Rd(mem', p + nb + 8) == v.lay[p].size + v.lay[t].size - nb + 1
  }

  lemma StretchOwn(v: View, mem': Mem, p: int, t: int, nb: int)
    requires Stretchable(v.lay, p, t, nb) && StretchWritten(v, mem', p, t, nb)
    ensures OwnTouch(v.lay, v.mem, mem', {p, t})
  {
    StretchFacts(v.lay, p, t, nb);
    assert Own(v.lay, p, p + 8) && Own(v.lay, t, p + nb + 8);
  }

  lemma StretchTag(v: View, mem': Mem, p: int, t: int, nb: int, q: int)
    requires Base(v) && Stretchable(v.lay, p, t, nb) && StretchWritten(v, mem', p, t, nb)
    ensures Tag(Stretched(v.lay, p, nb), mem', q)
  {
    var L, M := v.lay, Stretched(v.lay, p, nb);
    StretchFacts(L, p, t, nb);
    StretchOwn(v, mem', p, t, nb);
    StretchedChunk(L, p, t, nb, q);
    assert Tag(L, v.mem, t) && Tag(L, v.mem, q);
    if q in M && q != p && q != p + nb {
      TagElsewhere(L, M, v.mem, mem', {p, t}, q);
    } else if q == p {
      StretchedPin(L, p, t, nb);
    }
  }

  lemma StretchedPin(L: Layout, p: int, t: int, nb: int)
    requires Stretchable(L, p, t, nb)
    ensures Pin(Stretched(L, p, nb), p) <==> Pin(L, p)
  {
    StretchedChunk(L, p, t, nb, p);
  }

  lemma StretchQuiet(v: View, mem': Mem, p: int, t: int, nb: int)
    requires Steady(v) && p != v.ms && Stretchable(v.lay, p, t, nb) && StretchWritten(v, mem', p, t, nb)
    ensures NotBins(v, mem') && PayloadSame(UsedOf(v.lay), v.ms, v.mem, mem')
  {
    StretchFacts(v.lay, p, t, nb);
    StretchOwn(v, mem', p, t, nb);
    OwnIsTagArea(v, mem', p, {p, t});
    TagTouchQuiet(v, mem', p);
    forall q, a | InPayload(UsedOf(v.lay), q, a) && q != v.ms ensures Rd(mem', a) == Rd(v.mem, a) {
      assert q != p ==> InPayload(UsedOf(v.lay) - {p}, q, a);
    }
  }

  lemma StretchFree(L: Layout, p: int, t: int, nb: int, q: int, s: int)
    requires Stretchable(L, p, t, nb)
    ensures FreeAt(Stretched(L, p, nb), q, s) <==> FreeAt(L, q, s)
  {
    StretchedChunk(L, p, t, nb, q);
  }

  lemma StretchKeeps(v: View, mem': Mem, p: int, t: int, nb: int)
    requires Steady(v) && p != v.ms && Stretchable(v.lay, p, t, nb) && StretchWritten(v, mem', p, t, nb)
    ensures Steady(v.(mem := mem', lay := Stretched(v.lay, p, nb)))
  {
    var v' := v.(mem := mem', lay := Stretched(v.lay, p, nb));
    StretchQuiet(v, mem', p, t, nb);
    StretchedOk(v.lay, p, t, nb);
    StretchedNoAdj(v.lay, p, t, nb);
    StretchedChunk(v.lay, p, t, nb, v.ms);
    forall q ensures Tag(v'.lay, mem', q) {
      StretchTag(v, mem', p, t, nb, q);
    }
    forall q, s ensures FreeAt(v'.lay, q, s) <==> FreeAt(v.lay, q, s) {
      StretchFree(v.lay, p, t, nb, q, s);
    }
    OutFree(v);
    forall q | q in v.out ensures q in v'.lay && v'.lay[q].kind.Free? {
      StretchedChunk(v.lay, p, t, nb, q);
    }
    assert Relaid(v, v');
    RelaidBase(v, v');
  }

  lemma StretchFrame(v: View, mem': Mem, p: int, t: int, nb: int)
    requires Stretchable(v.lay, p, t, nb) && StretchWritten(v, mem', p, t, nb)
    ensures Frame(v.lay, Stretched(v.lay, p, nb), v.mem, mem')
  {
    hide Touched, AreaWithin, Split, Join;
    StretchFacts(v.lay, p, t, nb);
    var L, M := v.lay, Stretched(v.lay, p, nb);
    assert Over(L, t, p + nb + 8);
    HeadIn(L, p);
    JoinArea(L, p);
    SplitArea(Join(L, p), p, nb, Used);
    AreaTrans(L, Join(L, p), M);
    TouchedFrame(L, M, v.mem, mem', {p + 8, p + nb + 8});
  }

  /** Growing into top keeps the whole invariant; top is what is left. */
  lemma StretchHeap(v: View, mem': Mem, h: Heads, segs: seq<Segment>, p: int, nb: int)
    requires HeapMid(v, h, segs, {}) && p != v.ms && Stretchable(v.lay, p, h.top, nb)
      && StretchWritten(v, mem', p, h.top, nb)
    ensures var v', h' := v.(mem := mem', lay := Stretched(v.lay, p, nb)),
      h.(top := p + nb, topsize := v.lay[p].size + h.topsize - nb);
      && HeapMid(v', h', segs, {}) && UsedOf(v'.lay) == UsedOf(v.lay)[p := nb]
         && ArenaOf(v'.lay, h'.top) == ArenaOf(v.lay, h.top)
      && PayloadSame(UsedOf(v.lay), v.ms, v.mem, mem') && Freeable(v'.lay, p) && v'.lay[p].size == nb
    ensures Frame(v.lay, Stretched(v.lay, p, nb), v.mem, mem')
  {
    hide Base, PayloadSame, Frame;
    StretchKeeps(v, mem', p, h.top, nb);
    StretchQuiet(v, mem', p, h.top, nb);
    StretchedSegments(v.lay, segs, p, h.top, nb);
    StretchedArena(v.lay, p, h.top, nb);
    StretchedUsed(v.lay, p, h.top, nb);
    StretchedChunk(v.lay, p, h.top, nb, h.dv);
    OutFree(v);
    StretchFrame(v, mem', p, h.top, nb);
  }
}
