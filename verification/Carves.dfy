/** Cutting an in-use chunk in two in-use chunks. */
module Carves {
  import opened Words
  import opened Layouts
  import opened Canonical
  import opened Chains
  import opened Views
  import opened Relayout
  import opened TagOps
  import opened FreeOps
  import opened Segments
  import opened Areas
  import opened Heaps

  ghost predicate Carvable(v: View, p: int, n: int) {
    Steady(v) && p != v.ms && Splittable(v.lay, p, n) && v.lay[p].kind.Used?
  }

  ghost predicate CarveWritten(v: View, mem': Mem, p: int, n: int) {
    && p in v.lay
    && Touched(v.mem, mem', 0, 0, {p + 8, p + n + 8})
    && Rd(mem', p + 8) == Head(n, true, Pin(v.lay, p)) && Rd(mem', p + n + 8) == Head(v.lay[p].size - n, true, true)
  }

  ghost function Carved(v: View, mem': Mem, p: int, n: int): View
    requires p in v.lay
  {
    v.(mem := mem', lay := Split(v.lay, p, n, Used))
  }

  lemma CarvePins(v: View, p: int, n: int, q: int)
    requires Carvable(v, p, n) && q in v.lay
    ensures var L' := Split(v.lay, p, n, Used);
      q in L' && Pin(L', p + n) && L'[p + n].kind.Used? && (Pin(L', q) <==> Pin(v.lay, q))
  {
    SplitFresh(v.lay, p, n);
    assert ChunkOk(v.lay, p) && ChunkOk(v.lay, q);
  }

  lemma CarveTag(v: View, mem': Mem, p: int, n: int, q: int)
    requires Carvable(v, p, n) && CarveWritten(v, mem', p, n)
    ensures Tag(Split(v.lay, p, n, Used), mem', q)
  {
    var L, L' := v.lay, Split(v.lay, p, n, Used);
    SplitFresh(L, p, n);
    CarvePins(v, p, n, if q in L then q else p);
    assert Tag(L, v.mem, q) && ChunkOk(L, p);
    assert Own(L, p, p + 8) && Own(L, p, p + n + 8);
    if q in L && q != p {
      TagElsewhere(L, L', v.mem, mem', {p}, q);
    }
  }

  lemma CarveQuiet(v: View, mem': Mem, p: int, n: int)
    requires Carvable(v, p, n) && CarveWritten(v, mem', p, n)
    ensures NotBins(v, mem') && PayloadSame(UsedOf(v.lay) - {p}, v.ms, v.mem, mem')
    ensures PayloadSame(UsedOf(v.lay)[p := n], v.ms, v.mem, mem')
  {
    assert ChunkOk(v.lay, p);
    assert Own(v.lay, p, p + 8) && Own(v.lay, p, p + n + 8);
    assert OwnTouch(v.lay, v.mem, mem', {p});
    OwnIsTagArea(v, mem', p, {p});
    TagTouchQuiet(v, mem', p);
    var w := UsedOf(v.lay)[p := n];
    forall q, a | InPayload(w, q, a) && q != v.ms ensures Rd(mem', a) == Rd(v.mem, a) {
      assert q != p ==> InPayload(UsedOf(v.lay) - {p}, q, a);
    }
  }

  lemma CarveUsed(L: Layout, p: int, n: int)
    requires LayoutOk(L) && Splittable(L, p, n) && L[p].kind.Used?
    ensures UsedOf(Split(L, p, n, Used)) == UsedOf(L)[p := n][p + n := L[p].size - n] && p + n !in UsedOf(L)
  {
    SplitFresh(L, p, n);
    var u, w := UsedOf(Split(L, p, n, Used)), UsedOf(L)[p := n][p + n := L[p].size - n];
    forall q ensures q in u <==> q in w {}
  }

  lemma CarveFree(v: View, mem': Mem, p: int, n: int, q: int, s: int)
    requires Carvable(v, p, n)
    ensures FreeAt(Split(v.lay, p, n, Used), q, s) <==> FreeAt(v.lay, q, s)
  {
    SplitFresh(v.lay, p, n);
  }

  lemma CarveNoAdj(v: View, p: int, n: int)
    requires Carvable(v, p, n)
    ensures NoAdj(Split(v.lay, p, n, Used))
  {
    var L' := Split(v.lay, p, n, Used);
    SplitFresh(v.lay, p, n);
    forall q ensures NoAdj1(L', q) {
      CarvePins(v, p, n, if q in v.lay then q else p);
      assert NoAdj1(v.lay, q);
    }
  }

  lemma CarveKeeps(v: View, mem': Mem, p: int, n: int)
    requires Carvable(v, p, n) && CarveWritten(v, mem', p, n)
    ensures Steady(Carved(v, mem', p, n))
    ensures PayloadSame(UsedOf(v.lay)[p := n], v.ms, v.mem, mem')
  {
    var v' := Carved(v, mem', p, n);
    CarveQuiet(v, mem', p, n);
    SplitOk(v.lay, p, n, Used);
    SplitFresh(v.lay, p, n);
    forall q ensures Tag(v'.lay, mem', q) {
      CarveTag(v, mem', p, n, q);
    }
    forall q, s ensures FreeAt(v'.lay, q, s) && q !in v'.out <==> FreeAt(v.lay, q, s) && q !in v.out {
      CarveFree(v, mem', p, n, q, s);
    }
    assert Relaid(v, v');
    RelaidBase(v, v');
    CarveNoAdj(v, p, n);
  }

  lemma CarveArena(L: Layout, p: int, n: int, top: int)
    requires LayoutOk(L) && OneTop(L, top) && Splittable(L, p, n) && L[p].kind.Used?
    ensures var M := Split(L, p, n, Used);
      && OneTop(M, top) && ArenaOf(M, top) == ArenaOf(L, top) && M[top].size == L[top].size
      && (Freeable(L, p) ==> Freeable(M, p) && Freeable(M, p + n))
  {
    var M := Split(L, p, n, Used);
    SplitFresh(L, p, n);
    assert ChunkOk(L, p);
    assert ArenaOf(M, top).bases == ArenaOf(L, top).bases;
    assert ArenaOf(M, top).fences == ArenaOf(L, top).fences;
  }

  lemma CarveFrame(v: View, mem': Mem, p: int, n: int)
    requires LayoutOk(v.lay) && Splittable(v.lay, p, n) && CarveWritten(v, mem', p, n)
    ensures Frame(v.lay, Split(v.lay, p, n, Used), v.mem, mem')
  {
    hide Touched, AreaWithin, Split;
    assert ChunkOk(v.lay, p) && Over(v.lay, p, p + n + 8);
    HeadIn(v.lay, p);
    SplitArea(v.lay, p, n, Used);
    TouchedFrame(v.lay, Split(v.lay, p, n, Used), v.mem, mem', {p + 8, p + n + 8});
  }

  /** Both pieces are in use and nothing else changes. */
  lemma CarveHeap(v: View, mem': Mem, h: Heads, segs: seq<Segment>, x: set<int>, p: int, n: int)
    requires HeapMid(v, h, segs, x) && Carvable(v, p, n) && CarveWritten(v, mem', p, n)
    ensures HeapMid(Carved(v, mem', p, n), h, segs, x)
    ensures ArenaOf(Carved(v, mem', p, n).lay, h.top) == ArenaOf(v.lay, h.top)
    ensures PayloadSame(UsedOf(v.lay)[p := n], v.ms, v.mem, mem')
    ensures UsedOf(Split(v.lay, p, n, Used)) == UsedOf(v.lay)[p := n][p + n := v.lay[p].size - n]
      && p + n !in UsedOf(v.lay)
    ensures Freeable(v.lay, p) ==> Freeable(Split(v.lay, p, n, Used), p + n)
    ensures Frame(v.lay, Split(v.lay, p, n, Used), v.mem, mem')
  {
    hide Base, PayloadSame, Frame;
    CarveKeeps(v, mem', p, n);
    LayoutOf(v);
    CarveUsed(v.lay, p, n);
    CarveArena(v.lay, p, n, h.top);
    SplitSegments(v.lay, segs, p, n, Used);
    SplitFresh(v.lay, p, n);
    OutFree(v);
    CarveFrame(v, mem', p, n);
  }
}
