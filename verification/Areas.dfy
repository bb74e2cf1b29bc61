/** Which words an operation may change at all: those of the chunks of a space, and no others. */
module Areas {
  import opened Words
  import opened Layouts
  import opened Chains
  import opened Views

  ghost predicate Over(L: Layout, p: int, a: int) {
    p in L && p <= a < p + L[p].Extent()
  }

  ghost predicate InChunk(L: Layout, a: int) {
    exists p {:trigger Over(L, p, a)} :: Over(L, p, a)
  }

  ghost predicate AreaWithin(L: Layout, L': Layout) {
    forall a {:trigger InChunk(L', a)} :: InChunk(L, a) ==> InChunk(L', a)
  }

  /** Every word outside the chunks is unchanged. */
  ghost predicate Stays(L: Layout, mem: Mem, mem': Mem) {
    forall a {:trigger Rd(mem', a)} :: Rd(mem', a) == Rd(mem, a) || InChunk(L, a)
  }

  /** The chunks cover at least what they did, and no word that they do not cover has changed. */
  ghost predicate Frame(L: Layout, L': Layout, mem: Mem, mem': Mem) {
    AreaWithin(L, L') && Stays(L', mem, mem')
  }

  lemma FrameTrans(L: Layout, L1: Layout, L2: Layout, mem: Mem, mem1: Mem, mem2: Mem)
    requires Frame(L, L1, mem, mem1) && Frame(L1, L2, mem1, mem2)
    ensures Frame(L, L2, mem, mem2)
  {
    forall a | InChunk(L, a) ensures InChunk(L2, a) {
      assert InChunk(L1, a);
    }
    forall a ensures Rd(mem2, a) == Rd(mem, a) || InChunk(L2, a) {
      assert Rd(mem1, a) == Rd(mem, a) || InChunk(L1, a);
    }
  }

  lemma HeadIn(L: Layout, p: int)
    requires LayoutOk(L) && p in L
    ensures InChunk(L, p) && InChunk(L, p + 8)
  {
    assert ChunkOk(L, p) && Over(L, p, p) && Over(L, p, p + 8);
  }

  lemma LinksFrame(v: View, mem': Mem)
    requires LayoutOk(v.lay) && StateChunk(v) && OnlyLinks(v.lay, v.ms, v.mem, mem')
    ensures Frame(v.lay, v.lay, v.mem, mem')
  {
    var L := v.lay;
    forall a ensures Rd(mem', a) == Rd(v.mem, a) || InChunk(L, a) {
      if BinArray(v.ms, a) {
        assert Over(L, v.ms, a);
      } else if LinkArea(L, v.ms, a) {
        var q :| Interior(L, q, a);
        assert Over(L, q, a);
      }
    }
  }

  lemma TouchedStays(L: Layout, mem: Mem, mem': Mem, W: set<int>)
    requires Touched(mem, mem', 0, 0, W) && forall a {:trigger InChunk(L, a)} :: a in W ==> InChunk(L, a)
    ensures Stays(L, mem, mem')
  {
    forall a ensures Rd(mem', a) == Rd(mem, a) || InChunk(L, a) {
      assert a !in W ==> Rd(mem', a) == Rd(mem, a);
    }
  }

  // ----- what each change of the layout covers

  lemma SetKindArea(L: Layout, p: int, k: Kind)
    requires p in L && L[p].kind.Ordinary() && k.Ordinary()
    ensures AreaWithin(L, SetKind(L, p, k))
  {
    forall a | InChunk(L, a) ensures InChunk(SetKind(L, p, k), a) {
      var q :| Over(L, q, a);
      assert Over(SetKind(L, p, k), q, a);
    }
  }

  lemma SplitArea(L: Layout, p: int, n: int, k: Kind)
    requires LayoutOk(L) && Splittable(L, p, n) && k.Ordinary()
    ensures AreaWithin(L, Split(L, p, n, k))
  {
    var M := Split(L, p, n, k);
    SplitFresh(L, p, n);
    forall a | InChunk(L, a) ensures InChunk(M, a) {
      var q :| Over(L, q, a);
      assert ChunkOk(L, q);
      assert Over(M, if q == p && p + n <= a then p + n else q, a);
    }
  }

  lemma JoinArea(L: Layout, p: int)
    requires LayoutOk(L) && Joinable(L, p)
    ensures AreaWithin(L, Join(L, p))
  {
    var M, n := Join(L, p), p + L[p].size;
    assert ChunkOk(L, p) && ChunkOk(L, n);
    forall a | InChunk(L, a) ensures InChunk(M, a) {
      var q :| Over(L, q, a);
      assert Over(M, if q == n then p else q, a);
    }
  }

  lemma AreaTrans(L: Layout, L1: Layout, L2: Layout)
    requires AreaWithin(L, L1) && AreaWithin(L1, L2)
    ensures AreaWithin(L, L2)
  {
    forall a | InChunk(L, a) ensures InChunk(L2, a) {
      assert InChunk(L1, a);
    }
  }

  /** Words inside the old chunks are inside the new ones. */
  lemma TouchedFrame(L: Layout, L': Layout, mem: Mem, mem': Mem, W: set<int>)
    requires AreaWithin(L, L') && Touched(mem, mem', 0, 0, W)
    requires forall a {:trigger InChunk(L, a)} :: a in W ==> InChunk(L, a)
    ensures Frame(L, L', mem, mem')
  {
    TouchedStays(L, mem, mem', W);
    forall a ensures Rd(mem', a) == Rd(mem, a) || InChunk(L', a) {
      assert InChunk(L, a) ==> InChunk(L', a);
    }
  }
}
