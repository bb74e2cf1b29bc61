/** Rewriting heads and feet: what a change of layout must establish to keep the invariant. */
module Relayout {
  import opened Words
  import opened Layouts
  import opened Tries
  import opened TrieLinks
  import opened Views
  import opened SmallBins

  /** A word that some bin reads. */
  ghost predicate BinWord(v: View, a: int) {
    BinArray(v.ms, a) || exists p, s {:trigger Binned(v.sb, v.tb, p, s)} ::
      Binned(v.sb, v.tb, p, s) && p + 16 <= a < p + s
  }

  ghost predicate NotBins(v: View, mem': Mem) {
    forall a {:trigger Rd(mem', a)} :: Rd(mem', a) == Rd(v.mem, a) || !BinWord(v, a)
  }

  ghost predicate SameBins(v: View, v': View) {
    v'.ms == v.ms && v'.smallmap == v.smallmap && v'.treemap == v.treemap && v'.sb == v.sb && v'.tb == v.tb
  }

  lemma SmallUndisturbed(v: View, v': View, i: int)
    requires Base(v) && SameBins(v, v') && NotBins(v, v'.mem)
    ensures SmallAt(v', i)
  {
    assert SmallAt(v, i);
    if 0 <= i < 32 {
      assert BinWord(v, Header(v.ms, i) + 16) && BinWord(v, Header(v.ms, i) + 24);
      forall p | p in v.sb[i]
        ensures Rd(v'.mem, p + 16) == Rd(v.mem, p + 16) && Rd(v'.mem, p + 24) == Rd(v.mem, p + 24)
      {
        SmallMember(v, i, p);
        assert Binned(v.sb, v.tb, p, 8 * i);
        assert BinWord(v, p + 16) && BinWord(v, p + 24);
      }
      SmallAtFrame(v, v', i);
    }
  }

  lemma TreeUndisturbed(v: View, v': View, i: int)
    requires Base(v) && SameBins(v, v') && NotBins(v, v'.mem)
    ensures TreeAt(v', i)
  {
    assert TreeAt(v, i);
    if 0 <= i < 32 {
      assert BinWord(v, TreeSlot(v.ms, i));
      forall p, s | Holds(v.tb[i], p, s) ensures SameLinks(v.mem, v'.mem, p) {
        TreeMember(v, i, p, s);
        assert Binned(v.sb, v.tb, p, s);
        forall a | p + 16 <= a < p + 64 ensures Rd(v'.mem, a) == Rd(v.mem, a) {
          assert BinWord(v, a);
        }
      }
      TreeAtFrame(v, v', i);
    }
  }

  /** A new layout whose binned chunks are the old ones, laid over memory that left the bins alone. */
  ghost predicate Relaid(v: View, v': View) {
    && SameBins(v, v') && NotBins(v, v'.mem) && LayoutOk(v'.lay) && TagsOk(v'.lay, v'.mem) && StateChunk(v')
    && (forall p, s {:trigger FreeAt(v'.lay, p, s)} {:trigger FreeAt(v.lay, p, s)} ::
          FreeAt(v'.lay, p, s) && p !in v'.out <==> FreeAt(v.lay, p, s) && p !in v.out)
    && (forall p {:trigger p in v'.out} | p in v'.out :: p in v'.lay && v'.lay[p].kind.Free?)
  }

  lemma RelaidBase(v: View, v': View)
    requires Base(v) && Relaid(v, v')
    ensures Base(v')
  {
    forall i ensures SmallAt(v', i) {
      SmallUndisturbed(v, v', i);
    }
    forall i ensures TreeAt(v', i) {
      TreeUndisturbed(v, v', i);
    }
    forall p, s ensures IndexAt(v', p, s) {
      assert IndexAt(v, p, s);
    }
  }

  /**
   * The words a change of layout around chunk u may write: heads, and the words of u, of top and of free chunks in no
   * bin.
   */
  ghost predicate TagArea(v: View, u: int, q: int, a: int) {
    q in v.lay && (a == q + 8 || (((q == u && v.lay[q].kind.Used?) || q in v.out || v.lay[q].kind.Top?)
      && q + 8 <= a < q + (if v.lay[q].kind.Top? then v.lay[q].Extent() else v.lay[q].size + 8)))
  }

  ghost predicate TagTouch(v: View, mem': Mem, u: int) {
    forall a {:trigger Rd(mem', a)} :: Rd(mem', a) == Rd(v.mem, a) || exists q {:trigger TagArea(v, u, q, a)} ::
      TagArea(v, u, q, a)
  }

  lemma TagAreaClear(v: View, u: int, q: int, a: int)
    requires Base(v) && TagArea(v, u, q, a) && u != v.ms
    ensures !BinWord(v, a)
  {
    StateOwn(v, u, q, a);
    forall p, s | Binned(v.sb, v.tb, p, s) ensures !(p + 16 <= a < p + s) {
      assert IndexAt(v, p, s) && Apart(v.lay, p, q) && ChunkOk(v.lay, q) && ChunkOk(v.lay, p);
    }
  }

  lemma StateOwn(v: View, u: int, q: int, a: int)
    requires Base(v) && TagArea(v, u, q, a) && u != v.ms
    ensures !BinArray(v.ms, a)
  {
    assert Apart(v.lay, v.ms, q) && ChunkOk(v.lay, q);
  }

  lemma TagAreaPayload(v: View, u: int, q: int, a: int, p: int)
    requires Base(v) && TagArea(v, u, q, a) && p in v.lay && v.lay[p].kind.Used? && p != u
    ensures !(p + 16 <= a <= p + v.lay[p].size)
  {
    assert Apart(v.lay, p, q) && ChunkOk(v.lay, q) && ChunkOk(v.lay, p);
  }

  /** Tag writes disturb neither the bins nor the payload of any other in-use chunk. */
  lemma TagTouchQuiet(v: View, mem': Mem, u: int)
    requires Base(v) && TagTouch(v, mem', u) && u != v.ms
    ensures NotBins(v, mem') && PayloadSame(UsedOf(v.lay) - {u}, v.ms, v.mem, mem')
  {
    forall a ensures Rd(mem', a) == Rd(v.mem, a) || !BinWord(v, a) {
      if Rd(mem', a) != Rd(v.mem, a) {
        var q :| TagArea(v, u, q, a);
        TagAreaClear(v, u, q, a);
      }
    }
    forall p, a | InPayload(UsedOf(v.lay) - {u}, p, a) && p != v.ms ensures Rd(mem', a) == Rd(v.mem, a) {
      if Rd(mem', a) != Rd(v.mem, a) {
        var q :| TagArea(v, u, q, a);
        TagAreaPayload(v, u, q, a, p);
      }
    }
  }
}
