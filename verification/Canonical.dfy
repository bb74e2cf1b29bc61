/** With no two vacant chunks adjacent, the in-use chunks alone determine the whole layout. */
module Canonical {
  import opened Layouts

  ghost predicate Anchored(L: Layout, M: Layout, p: int) {
    p in L ==>
      && (L[p].kind.Used? || L[p].kind.Fence? ==> p in M && M[p].kind == L[p].kind && M[p].size == L[p].size)
      && (L[p].prev == 0 ==> p in M && M[p].prev == 0)
      && (L[p].kind.Top? ==> forall t | t in M && M[t].kind.Top? :: t + M[t].size == p + L[p].size)
  }

  /** The same segment bases, fences, end of top and in-use chunks. */
  ghost predicate SameArena(L: Layout, M: Layout) {
    forall p {:trigger Anchored(L, M, p)} {:trigger Anchored(M, L, p)} :: Anchored(L, M, p) && Anchored(M, L, p)
  }

  ghost predicate Settled(L: Layout) {
    LayoutOk(L) && NoAdj(L)
  }

  lemma VacantStarts(L: Layout, M: Layout, p: int)
    requires Settled(L) && Settled(M) && SameArena(L, M) && p in L && L[p].kind.Vacant()
    ensures p in M && M[p].kind.Vacant()
  {
    assert ChunkOk(L, p) && NoAdj1(L, p) && Anchored(L, M, p);
    var q := L[p].prev;
    assert Anchored(L, M, q) && (q in M ==> ChunkOk(M, q));
    assert Anchored(M, L, p);
  }

  lemma FreeAgrees(L: Layout, M: Layout, p: int)
    requires Settled(L) && Settled(M) && SameArena(L, M) && p in L && L[p].kind.Free?
    requires p in M && M[p].kind.Free?
    ensures L[p].size <= M[p].size
  {
    var n := p + M[p].size;
    assert ChunkOk(M, p) && NoAdj1(M, n) && Anchored(M, L, n);
    assert Apart(L, p, n) && (n in L ==> ChunkOk(L, n));
  }

  lemma FreeNotTop(L: Layout, M: Layout, t: int, p: int)
    requires Settled(L) && Settled(M) && SameArena(L, M) && p in L && L[p].kind.Free?
    requires t in L && L[t].kind.Top?
    ensures p in M && M[p].kind.Free?
  {
    VacantStarts(L, M, p);
    assert ChunkOk(L, p) && ChunkOk(L, t) && ChunkOk(M, p);
    var n := p + L[p].size;
    assert NoAdj1(L, n) && Anchored(L, M, n) && Anchored(L, M, t);
    assert Apart(L, p, t) && Apart(M, p, n) && (n in M ==> ChunkOk(M, n));
  }

  lemma TopAgrees(L: Layout, M: Layout, t: int, u: int)
    requires Settled(L) && Settled(M) && SameArena(L, M)
    requires t in L && L[t].kind.Top? && u in M && M[u].kind.Top?
    ensures u in L && L[u].kind.Top?
  {
    VacantStarts(M, L, u);
    if L[u].kind.Free? {
      FreeNotTop(L, M, t, u);
    }
  }

  ghost predicate OneTop(L: Layout, t: int) {
    t in L && L[t].kind.Top? && forall u | u in L && L[u].kind.Top? :: u == t
  }

  lemma ChunkAgrees(L: Layout, M: Layout, t: int, u: int, p: int)
    requires Settled(L) && Settled(M) && SameArena(L, M) && OneTop(L, t) && OneTop(M, u) && p in L
    ensures p in M && M[p].kind == L[p].kind && M[p].size == L[p].size
  {
    assert Anchored(L, M, p);
    if L[p].kind.Free? {
      FreeNotTop(L, M, t, p);
      FreeAgrees(L, M, p);
      FreeAgrees(M, L, p);
    } else if L[p].kind.Top? {
      TopAgrees(L, M, t, u);
    }
  }

  /** Two settled layouts of one arena with the same in-use chunks are the same layout. */
  lemma {:induction false} LayoutIsCanonical(L: Layout, M: Layout, t: int, u: int)
    requires Settled(L) && Settled(M) && SameArena(L, M) && OneTop(L, t) && OneTop(M, u)
    ensures L == M
  {
    forall p | p in L ensures p in M && M[p] == L[p] {
      ChunkAgrees(L, M, t, u, p);
      assert ChunkOk(L, p) && Anchored(L, M, p) && Anchored(M, L, p);
      var q := L[p].prev;
      if q != 0 {
        ChunkAgrees(L, M, t, u, q);
        assert ChunkOk(M, q);
      }
    }
    forall p | p in M ensures p in L {
      ChunkAgrees(M, L, u, t, p);
    }
  }

  /** What malloc and free never change while no memory comes from or goes to the system. */
  datatype Arena = Arena(bases: set<int>, fences: map<int, int>, topEnd: int)

  ghost function ArenaOf(L: Layout, top: int): Arena
    requires top in L
  {
    Arena((set p | p in L && L[p].prev == 0), SizesOf(L, Fence), top + L[top].size)
  }

  lemma ArenaAnchors(L: Layout, M: Layout, t: int, u: int, p: int)
    requires OneTop(L, t) && OneTop(M, u) && ArenaOf(L, t) == ArenaOf(M, u) && UsedOf(L) == UsedOf(M)
    ensures Anchored(L, M, p)
  {
    if p in L {
      assert p in UsedOf(L) <==> p in UsedOf(M);
      assert p in ArenaOf(L, t).fences <==> p in ArenaOf(M, u).fences;
      assert p in ArenaOf(L, t).bases <==> p in ArenaOf(M, u).bases;
    }
  }

  /** The in-use chunks and the arena determine the layout: every extent, in use or vacant. */
  lemma UsedDetermines(L: Layout, M: Layout, t: int, u: int)
    requires Settled(L) && Settled(M) && OneTop(L, t) && OneTop(M, u)
    requires ArenaOf(L, t) == ArenaOf(M, u) && UsedOf(L) == UsedOf(M)
    ensures L == M
  {
    forall p ensures Anchored(L, M, p) && Anchored(M, L, p) {
      ArenaAnchors(L, M, t, u, p);
      ArenaAnchors(M, L, u, t, p);
    }
    LayoutIsCanonical(L, M, t, u);
  }
}
