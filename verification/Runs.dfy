/** What an allocation and a free mean for the layout and for the other blocks. */
module Runs {
  import opened Words
  import opened Layouts
  import opened Canonical
  import opened Views
  import opened TagOps
  import opened FreeOps
  import opened Segments
  import opened Areas
  import opened Heaps
  import opened Frees
  import opened Systems

  // ----- the layout is canonical

  /** Freeing what was just allocated restores every extent, whatever bins and victims did meanwhile. */
  lemma FreeUndoesMalloc(v: View, h: Heads, v1: View, h1: Heads, v2: View, h2: Heads, p: int, nb: int)
    requires Steady(v) && Steady(v2) && Gained(v, h, v1, h1, p, nb) && Lost(v1, h1, v2, h2, p)
    ensures v2.lay == v.lay && h2.top == h.top
  {
    hide Base, PayloadSame, Frame, Freed;
    SettledOf(v);
    SettledOf(v2);
    assert UsedOf(v2.lay) == UsedOf(v.lay);
    UsedDetermines(v.lay, v2.lay, h.top, h2.top);
  }

  lemma FreedSettled(L: Layout, p: int, top: int) returns (t: int)
    requires FreeScope(L, p) && OneTop(L, top)
    ensures Settled(Freed(L, p)) && OneTop(Freed(L, p), t) && ArenaOf(Freed(L, p), t) == ArenaOf(L, top)
    ensures UsedOf(Freed(L, p)) == UsedOf(L) - {p}
    ensures forall q {:trigger Freeable(Freed(L, p), q)} :: Freeable(L, q) && q != p ==> Freeable(Freed(L, p), q)
  {
    hide Freed;
    FreedOk(L, p);
    FreedNoAdj(L, p);
    FreedArena(L, p, top);
    FreedUsed(L, p);
    t := if L[After(L, p)].kind.Top? then FreedStart(L, p) else top;
    SameFences(L, Freed(L, p), top, t);
    forall q | Freeable(L, q) && q != p ensures Freeable(Freed(L, p), q) {
      assert q in UsedOf(L);
      StillFreeable(L, Freed(L, p), q);
    }
  }

  /** Two frees commute on the layout. */
  lemma FreesCommute(L: Layout, top: int, p: int, q: int)
    requires Settled(L) && OneTop(L, top) && Freeable(L, p) && Freeable(L, q) && p != q
    ensures Freeable(Freed(L, p), q) && Freeable(Freed(L, q), p)
    ensures Freed(Freed(L, p), q) == Freed(Freed(L, q), p)
  {
    hide Freed;
    var t1 := FreedSettled(L, p, top);
    var t2 := FreedSettled(L, q, top);
    var u1 := FreedSettled(Freed(L, p), q, t1);
    var u2 := FreedSettled(Freed(L, q), p, t2);
    assert UsedOf(L) - {p} - {q} == UsedOf(L) - {q} - {p};
    UsedDetermines(Freed(Freed(L, p), q), Freed(Freed(L, q), p), u1, u2);
  }

  // ----- the other blocks

  /** A space between two operations. */
  datatype Moment = Moment(v: View, h: Heads)

  /** Every word of the payload of a chunk at p of size s. */
  ghost predicate SameBlock(mem: Mem, mem': Mem, p: int, s: int) {
    forall k {:trigger Rd(mem', k)} | p + 16 <= k <= p + s :: Rd(mem', k) == Rd(mem, k)
  }

  /** Freeing c leaves every other block alone. */
  lemma LostKeepsBlock(a: Moment, b: Moment, c: int, p: int, s: int)
    requires Steady(a.v) && Steady(b.v) && Lost(a.v, a.h, b.v, b.h, c)
    requires p != c && Freeable(a.v.lay, p) && a.v.lay[p].size == s && p != a.v.ms
    ensures Freeable(b.v.lay, p) && b.v.lay[p].size == s
    ensures SameBlock(a.v.mem, b.v.mem, p, s)
  {
    hide Base, Freed, Frame;
    SettledOf(b.v);
    SameFences(a.v.lay, b.v.lay, a.h.top, b.h.top);
    assert p in UsedOf(a.v.lay) && UsedOf(a.v.lay)[p] == s;
    assert p in UsedOf(b.v.lay) && UsedOf(b.v.lay)[p] == s;
    StillFreeable(a.v.lay, b.v.lay, p);
    forall k | p + 16 <= k <= p + s ensures Rd(b.v.mem, k) == Rd(a.v.mem, k) {
      assert InPayload(UsedOf(b.v.lay), p, k);
    }
  }

  // ----- no overlap

  /** The chunk an allocation returns lies within bounds, is aligned, and overlaps no other chunk in use. */
  lemma ServedApart(v: View, v': View, h': Heads, segs: seq<Segment>, p: int, nb: int, q: int)
    requires HeapMid(v', h', segs, {}) && Served(v, v', p, nb) && q in UsedOf(v'.lay) && q != p
    ensures p % 8 == 0 && p + v'.lay[p].size <= TWO64
    ensures p + v'.lay[p].size <= q || q + UsedOf(v'.lay)[q] <= p
  {
    hide Base, PayloadSame, Frame;
    LayoutOf(v');
    assert ChunkOk(v'.lay, p) && Apart(v'.lay, p, q);
  }
}
