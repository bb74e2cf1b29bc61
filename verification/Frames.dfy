/** The words that taking, cutting and freeing a chunk write lie in the chunks of the space. */
module Frames {
  import opened Words
  import opened Layouts
  import opened Chains
  import opened Views
  import opened TagOps
  import opened FreeOps
  import opened Areas

  lemma OwnIn(L: Layout, p: int, a: int)
    requires LayoutOk(L) && Own(L, p, a)
    ensures InChunk(L, a)
  {
    assert ChunkOk(L, p);
    if L[p].kind.Ordinary() && a >= p + L[p].size {
      assert ChunkOk(L, p + L[p].size) && Over(L, p + L[p].size, a);
    } else {
      assert Over(L, p, a);
    }
  }

  lemma FreedArea(L: Layout, p: int)
    requires FreeScope(L, p)
    ensures AreaWithin(L, Freed(L, p))
  {
    hide AreaWithin;
    FreedNeighbours(L, p);
    JoinedNextOk(L, p);
    var M := SetKind(L, p, Free);
    SetKindOk(L, p, Free);
    SetKindArea(L, p, Free);
    if L[After(L, p)].kind.Vacant() {
      JoinArea(M, p);
      AreaTrans(L, M, JoinedNext(L, p));
    }
    var lo := FreedStart(L, p);
    if lo != p {
      JoinArea(JoinedNext(L, p), lo);
      AreaTrans(L, JoinedNext(L, p), Freed(L, p));
    }
  }

  // ----- the words of each operation

  lemma WholeFrame(v: View, mem': Mem, p: int)
    requires LayoutOk(v.lay) && p in v.lay && v.lay[p].kind.Ordinary() && WholeWritten(v, mem', p)
    ensures Frame(v.lay, SetKind(v.lay, p, Used), v.mem, mem')
  {
    hide Touched, AreaWithin, InChunk;
    var n := p + v.lay[p].size;
    assert ChunkOk(v.lay, p);
    HeadIn(v.lay, p);
    HeadIn(v.lay, n);
    SetKindArea(v.lay, p, Used);
    TouchedFrame(v.lay, SetKind(v.lay, p, Used), v.mem, mem', {p + 8, n + 8});
  }

  lemma CutFrame(v: View, mem': Mem, p: int, n: int)
    requires LayoutOk(v.lay) && Splittable(v.lay, p, n) && CutWritten(v, mem', p, n)
    ensures Frame(v.lay, Split(v.lay, p, n, Used), v.mem, mem')
  {
    hide Touched, AreaWithin, Split;
    var L, c := v.lay, v.lay[p];
    assert ChunkOk(L, p) && Over(L, p, p + n + 8);
    HeadIn(L, p);
    SplitArea(L, p, n, Used);
    if c.kind.Top? {
      TouchedFrame(L, Split(L, p, n, Used), v.mem, mem', {p + 8, p + n + 8});
    } else {
      HeadIn(L, p + c.size);
      TouchedFrame(L, Split(L, p, n, Used), v.mem, mem', {p + 8, p + n + 8, p + c.size});
    }
  }

  lemma FreeFrame(v: View, mem': Mem, p: int)
    requires FreeScope(v.lay, p) && FreeWritten(v, mem', p)
    ensures Frame(v.lay, Freed(v.lay, p), v.mem, mem')
  {
    hide Touched, AreaWithin, Freed, InChunk;
    var L, lo, e := v.lay, FreedStart(v.lay, p), FreedEnd(v.lay, p);
    FreedNeighbours(L, p);
    FreedArea(L, p);
    HeadIn(L, lo);
    if L[After(L, p)].kind.Top? {
      TouchedFrame(L, Freed(L, p), v.mem, mem', {lo + 8});
    } else {
      HeadIn(L, e);
      TouchedFrame(L, Freed(L, p), v.mem, mem', {lo + 8, e, e + 8});
    }
  }
}
