/** Freeing a chunk: coalescing with vacant neighbours in the layout, and the tag writes that record it. */
module FreeOps {
  import opened Words
  import opened Layouts
  import opened Chains
  import opened Views
  import opened Relayout
  import opened TagOps

  /** The chunk after p. */
  ghost function After(L: Layout, p: int): int
    requires p in L
  {
    p + L[p].size
  }

  /** An in-use chunk that may be freed: it is not the one that holds a segment record before the fenceposts. */
  ghost predicate Freeable(L: Layout, p: int) {
    p in L && L[p].kind.Used? && After(L, p) in L && !L[After(L, p)].kind.Fence?
  }

  /** Where the coalesced chunk starts. */
  ghost function FreedStart(L: Layout, p: int): int
    requires p in L
  {
    if Pin(L, p) then p else L[p].prev
  }

  ghost function JoinedNext(L: Layout, p: int): Layout
    requires Freeable(L, p)
  {
    var M := SetKind(L, p, Free);
    if L[After(L, p)].kind.Vacant() then Join(M, p) else M
  }

  /** The layout after freeing p: one chunk in place of p and its vacant neighbours. */
  ghost function Freed(L: Layout, p: int): Layout
    requires Freeable(L, p)
  {
    var M := JoinedNext(L, p);
    var lo := FreedStart(L, p);
    if lo != p && lo in M && After(M, lo) in M then Join(M, lo) else M
  }

  /** The chunk after the coalesced one, when there is one. */
  ghost function FreedEnd(L: Layout, p: int): int
    requires Freeable(L, p)
  {
    var n := After(L, p);
    if L[n].kind.Vacant() then After(L, n) else n
  }

  ghost predicate FreeScope(L: Layout, p: int) {
    LayoutOk(L) && NoAdj(L) && Freeable(L, p)
  }

  /** The neighbours of p, and what lies beyond a vacant one. */
  lemma FreedNeighbours(L: Layout, p: int)
    requires FreeScope(L, p)
    ensures var lo, n, e := FreedStart(L, p), After(L, p), FreedEnd(L, p);
      && ChunkOk(L, p) && ChunkOk(L, n) && lo in L && ChunkOk(L, lo) && n != p && n != lo && L[n].prev == p
         && Pin(L, lo)
      && (lo != p ==> L[lo].kind.Free? && After(L, lo) == p && lo < p)
      && (!L[n].kind.Top? ==> e in L && ChunkOk(L, e) && L[e].kind.Used? && e != lo && e != p)
      && (L[n].kind.Free? ==> e != n && L[e].prev == n) && L[p].prev == (if lo == p then L[p].prev else lo)
  {
    var lo, n, e := FreedStart(L, p), After(L, p), FreedEnd(L, p);
    assert ChunkOk(L, p) && ChunkOk(L, n) && ChunkOk(L, lo);
    assert NoAdj1(L, lo) && (lo != p ==> NoAdj1(L, p));
    if L[n].kind.Free? {
      assert ChunkOk(L, e) && NoAdj1(L, e);
    }
    assert lo == p ==> Pin(L, p);
  }

  lemma JoinedNextOk(L: Layout, p: int)
    requires FreeScope(L, p)
    ensures LayoutOk(JoinedNext(L, p))
  {
    FreedNeighbours(L, p);
    SetKindOk(L, p, Free);
    if L[After(L, p)].kind.Vacant() {
      JoinOk(SetKind(L, p, Free), p);
    }
  }

  lemma FreedOk(L: Layout, p: int)
    requires FreeScope(L, p)
    ensures LayoutOk(Freed(L, p))
  {
    FreedNeighbours(L, p);
    JoinedNextOk(L, p);
    var lo := FreedStart(L, p);
    if lo != p {
      JoinOk(JoinedNext(L, p), lo);
    }
  }

  /** Chunk by chunk: the coalesced chunk, its successor, and everything else unchanged. */
  lemma FreedChunk(L: Layout, p: int, q: int)
    requires FreeScope(L, p)
    ensures var L', lo, n, e := Freed(L, p), FreedStart(L, p), After(L, p), FreedEnd(L, p);
      && lo in L' && L'[lo].prev == L[lo].prev && L'[lo].kind == (if L[n].kind.Top? then Top else Free)
      && L'[lo].size == (if L[n].kind.Vacant() then n + L[n].size else n) - lo
      && (q in L' <==> q in L && (q == p ==> lo == p) && (q == n ==> !L[n].kind.Vacant()))
      && (q in L' && q != lo ==> L'[q] == if q == e && !L[n].kind.Top? then L[q].(prev := lo) else L[q])
  {
    FreedNeighbours(L, p);
  }

  lemma FreedPin(L: Layout, p: int, q: int)
    requires FreeScope(L, p) && q in Freed(L, p)
    ensures q in L
    ensures q != FreedEnd(L, p) || L[After(L, p)].kind.Top? ==> (Pin(Freed(L, p), q) <==> Pin(L, q))
    ensures q == FreedEnd(L, p) && !L[After(L, p)].kind.Top? ==> !Pin(Freed(L, p), q)
  {
    FreedNeighbours(L, p);
    FreedChunk(L, p, q);
    FreedChunk(L, p, L[q].prev);
    assert ChunkOk(L, q);
    assert L[q].prev in L ==> ChunkOk(L, L[q].prev);
  }

  lemma FreedNoAdj(L: Layout, p: int)
    requires FreeScope(L, p)
    ensures NoAdj(Freed(L, p))
  {
    FreedNeighbours(L, p);
    forall q ensures NoAdj1(Freed(L, p), q) {
      if q in Freed(L, p) {
        FreedPin(L, p, q);
        FreedChunk(L, p, q);
        assert NoAdj1(L, q);
      }
    }
  }

  lemma FreedUsed(L: Layout, p: int)
    requires FreeScope(L, p)
    ensures UsedOf(Freed(L, p)) == UsedOf(L) - {p}
  {
    FreedNeighbours(L, p);
    forall q
      ensures q in UsedOf(Freed(L, p)) <==> q in UsedOf(L) - {p}
      ensures q in UsedOf(Freed(L, p)) ==> UsedOf(Freed(L, p))[q] == UsedOf(L)[q]
    {
      FreedChunk(L, p, q);
    }
  }

  // ----- the tag writes

  ghost predicate Releasable(v: View, p: int) {
    && Steady(v) && Freeable(v.lay, p) && p != v.ms
    && (FreedStart(v.lay, p) != p ==> FreedStart(v.lay, p) in v.out)
    && (v.lay[After(v.lay, p)].kind.Free? ==> After(v.lay, p) in v.out)
  }

  ghost function FreedSize(L: Layout, p: int): int
    requires Freeable(L, p)
  {
    var n := After(L, p);
    (if L[n].kind.Vacant() then n + L[n].size else n) - FreedStart(L, p)
  }

  /** The coalesced chunk's head, and, unless it became top, its foot and its successor's pinuse bit. */
  ghost predicate FreeWritten(v: View, mem': Mem, p: int)
    requires Freeable(v.lay, p)
  {
    var lo, e, total := FreedStart(v.lay, p), FreedEnd(v.lay, p), FreedSize(v.lay, p);
    if v.lay[After(v.lay, p)].kind.Top? then
      Touched(v.mem, mem', 0, 0, {lo + 8}) && Rd(mem', lo + 8) == total + 1
    else
      && Touched(v.mem, mem', 0, 0, {lo + 8, e, e + 8})
      && Rd(mem', lo + 8) == total + 1 && Rd(mem', e) == total && Rd(mem', e + 8) == ClearPinuse(Rd(v.mem, e + 8))
  }

  ghost function Released(v: View, mem': Mem, p: int): View
    requires Freeable(v.lay, p)
  {
    var lo, n := FreedStart(v.lay, p), After(v.lay, p);
    v.(mem := mem', lay := Freed(v.lay, p), out := (v.out - {lo, n}) + if v.lay[n].kind.Top? then {} else {lo})
  }

  lemma ReleasedFields(v: View, mem': Mem, p: int)
    requires Freeable(v.lay, p)
    ensures var w := Released(v, mem', p); w == v.(mem := mem', lay := Freed(v.lay, p), out := w.out)
  {
    hide Freed;
  }

  /** The words written belong to the chunks coalesced, and to the head of the successor. */
  lemma FreeOwn(v: View, mem': Mem, p: int)
    requires Releasable(v, p) && FreeWritten(v, mem', p)
    ensures var lo, n, e := FreedStart(v.lay, p), After(v.lay, p), FreedEnd(v.lay, p);
      OwnTouch(v.lay, v.mem, mem', if v.lay[n].kind.Top? then {lo} else {lo, p, n, e})
  {
    var lo, n, e := FreedStart(v.lay, p), After(v.lay, p), FreedEnd(v.lay, p);
    FreedNeighbours(v.lay, p);
    OwnHead(v.lay, lo);
    if !v.lay[n].kind.Top? {
      OwnHead(v.lay, e);
      assert Own(v.lay, if v.lay[n].kind.Free? then n else p, e);
    }
  }

  lemma FreeRoles(v: View, mem': Mem, p: int, c: int)
    requires Releasable(v, p) && FreeWritten(v, mem', p)
    requires c == FreedStart(v.lay, p) || c == p || c == After(v.lay, p) || c == FreedEnd(v.lay, p)
    ensures TagRole(v, mem', p, c)
  {
    FreedNeighbours(v.lay, p);
    var lo, n, e := FreedStart(v.lay, p), After(v.lay, p), FreedEnd(v.lay, p);
    if c == e && !v.lay[n].kind.Top? {
      assert Apart(v.lay, lo, e) && Apart(v.lay, p, e);
    }
  }

  lemma FreeQuiet(v: View, mem': Mem, p: int)
    requires Releasable(v, p) && FreeWritten(v, mem', p)
    ensures NotBins(v, mem') && PayloadSame(UsedOf(v.lay) - {p}, v.ms, v.mem, mem')
  {
    var lo, n, e := FreedStart(v.lay, p), After(v.lay, p), FreedEnd(v.lay, p);
    var S := if v.lay[n].kind.Top? then {lo} else {lo, p, n, e};
    FreeOwn(v, mem', p);
    forall c | c in S ensures TagRole(v, mem', p, c) {
      FreeRoles(v, mem', p, c);
    }
    OwnIsTagArea(v, mem', p, S);
    TagTouchQuiet(v, mem', p);
  }

  lemma FreeTag(v: View, mem': Mem, p: int, q: int)
    requires Releasable(v, p) && FreeWritten(v, mem', p) && q in Freed(v.lay, p)
    ensures Tag(Freed(v.lay, p), mem', q)
  {
    var L, L' := v.lay, Freed(v.lay, p);
    var lo, n, e := FreedStart(L, p), After(L, p), FreedEnd(L, p);
    FreedNeighbours(L, p);
    FreedChunk(L, p, q);
    FreedPin(L, p, q);
    if q == lo {
      FreeTagStart(v, mem', p);
    } else if q == e && !L[n].kind.Top? {
      FreeTagEnd(v, mem', p);
    } else {
      assert Tag(L, v.mem, q);
      FreeOwn(v, mem', p);
      TagElsewhere(L, L', v.mem, mem', if L[n].kind.Top? then {lo} else {lo, p, n, e}, q);
    }
  }

  lemma FreeTagStart(v: View, mem': Mem, p: int)
    requires Releasable(v, p) && FreeWritten(v, mem', p)
    ensures Tag(Freed(v.lay, p), mem', FreedStart(v.lay, p))
  {
    var L, lo, n, e := v.lay, FreedStart(v.lay, p), After(v.lay, p), FreedEnd(v.lay, p);
    FreedNeighbours(L, p);
    FreedChunk(L, p, lo);
    FreedPin(L, p, lo);
    assert Tag(L, v.mem, n);
  }

  lemma FreeTagEnd(v: View, mem': Mem, p: int)
    requires Releasable(v, p) && FreeWritten(v, mem', p) && !v.lay[After(v.lay, p)].kind.Top?
    ensures Tag(Freed(v.lay, p), mem', FreedEnd(v.lay, p))
  {
    var L, lo, n, e := v.lay, FreedStart(v.lay, p), After(v.lay, p), FreedEnd(v.lay, p);
    FreedNeighbours(L, p);
    FreedChunk(L, p, e);
    FreedPin(L, p, e);
    assert Tag(L, v.mem, e);
    HeadDecodes(L[e].size, true, Pin(L, e));
    assert Apart(L, lo, e);
  }

  lemma ReleasedFree(v: View, mem': Mem, p: int, q: int, s: int)
    requires Releasable(v, p)
    ensures var v' := Released(v, mem', p);
      && (FreeAt(v'.lay, q, s) && q !in v'.out <==> FreeAt(v.lay, q, s) && q !in v.out)
      && (q in v'.out && Base(v) ==> q in v'.lay && v'.lay[q].kind.Free?)
  {
    FreedNeighbours(v.lay, p);
    FreedChunk(v.lay, p, q);
  }

  /** Freeing a chunk whose vacant neighbours are out of their bins keeps the invariant. */
  lemma FreeKeeps(v: View, mem': Mem, p: int)
    requires Releasable(v, p) && FreeWritten(v, mem', p)
    ensures Steady(Released(v, mem', p))
    ensures PayloadSame(UsedOf(v.lay) - {p}, v.ms, v.mem, mem')
    ensures UsedOf(Freed(v.lay, p)) == UsedOf(v.lay) - {p}
  {
    var v' := Released(v, mem', p);
    FreeQuiet(v, mem', p);
    FreedOk(v.lay, p);
    FreedNoAdj(v.lay, p);
    FreedUsed(v.lay, p);
    FreedNeighbours(v.lay, p);
    FreedChunk(v.lay, p, v.ms);
    forall q ensures Tag(v'.lay, mem', q) {
      if q in v'.lay {
        FreeTag(v, mem', p, q);
      }
    }
    forall q, s ensures FreeAt(v'.lay, q, s) && q !in v'.out <==> FreeAt(v.lay, q, s) && q !in v.out {
      ReleasedFree(v, mem', p, q, s);
    }
    forall q | q in v'.out ensures q in v'.lay && v'.lay[q].kind.Free? {
      ReleasedFree(v, mem', p, q, 0);
    }
    assert Relaid(v, v');
    RelaidBase(v, v');
  }
}
