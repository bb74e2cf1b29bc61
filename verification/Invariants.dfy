/** What a valid space promises, read off the invariant that every operation keeps. */
module Invariants {
  import opened Words
  import opened Layouts
  import opened BinMaps
  import opened Tries
  import opened Sizes
  import opened Views
  import opened SmallBins
  import opened Scratch
  import opened Segments
  import opened Heaps

  ghost predicate Covers(L: Layout, p: int, a: int) {
    p in L && p <= a < p + L[p].Extent()
  }

  lemma {:induction false} TiledFrom(L: Layout, segs: seq<Segment>, i: int, p: int, a: int) returns (q: int)
    requires LayoutOk(L) && SegmentsOk(L, segs) && Hosts(L, segs, i, p) && p <= a < segs[i].End()
    ensures Hosts(L, segs, i, q) && Covers(L, q, a)
    decreases segs[i].End() - p
  {
    q := p;
    assert ChunkOk(L, p);
    if p + L[p].Extent() <= a {
      HostsNext(L, segs, i, p);
      q := TiledFrom(L, segs, i, p + L[p].size, a);
    }
  }

  /**
   * Every address of a segment lies in exactly one chunk: the chunks tile the segment up to top's overhead or the
   * fenceposts.
   */
  lemma SegmentTiled(v: View, h: Heads, segs: seq<Segment>, i: int, a: int) returns (p: int)
    requires HeapMid(v, h, segs, {}) && 0 <= i < |segs| && segs[i].First() <= a < segs[i].End()
    ensures Hosts(v.lay, segs, i, p) && Covers(v.lay, p, a)
    ensures forall q {:trigger Covers(v.lay, q, a)} :: Covers(v.lay, q, a) ==> q == p
  {
    hide Base;
    LayoutOf(v);
    assert SegmentAt(v.lay, segs, i);
    var b := segs[i].First();
    assert Hosted(v.lay, segs, b) && ChunkOk(v.lay, b);
    var j :| Hosts(v.lay, segs, j, b);
    assert Disjoint(segs, i, j) && SegmentAt(v.lay, segs, j);
    p := TiledFrom(v.lay, segs, i, b, a);
    forall q | Covers(v.lay, q, a) ensures q == p {
      assert Apart(v.lay, p, q);
    }
  }

  ghost predicate EndsAt(L: Layout, q: int, p: int) {
    q in L && L[q].kind.Ordinary() && q + L[q].size == p
  }

  /**
   * The words of a chunk tell its size, its own state and its predecessor's, and a free chunk repeats its size at its
   * end.
   */
  lemma TagsTell(v: View, h: Heads, segs: seq<Segment>, p: int)
    requires HeapMid(v, h, segs, {}) && p in v.lay && !v.lay[p].kind.Fence?
    ensures ChunkSize(Rd(v.mem, p + 8)) == v.lay[p].size
    ensures Cinuse(Rd(v.mem, p + 8)) <==> v.lay[p].kind.Used?
    ensures Pinuse(Rd(v.mem, p + 8)) <==> forall q {:trigger EndsAt(v.lay, q, p)} :: EndsAt(v.lay, q, p) ==>
      v.lay[q].kind.Used?
    ensures v.lay[p].kind.Free? ==> Rd(v.mem, p + v.lay[p].size) == v.lay[p].size
  {
    hide Base;
    LayoutOf(v);
    SizeRead(v, p);
    TagOf(v, p);
    assert ChunkOk(v.lay, p);
    ZeroOut(v);
    forall q | EndsAt(v.lay, q, p) ensures v.lay[p].prev == q {
      assert ChunkOk(v.lay, q);
    }
    assert v.lay[p].prev in v.lay ==> EndsAt(v.lay, v.lay[p].prev, p);
  }

  lemma TagOf(v: View, p: int)
    requires Base(v)
    ensures Tag(v.lay, v.mem, p)
  {}

  /** No two chunks that are free, top included, are adjacent. */
  lemma NoVacantNeighbours(v: View, h: Heads, segs: seq<Segment>, p: int)
    requires HeapMid(v, h, segs, {}) && p in v.lay && v.lay[p].kind.Free?
    ensures p + v.lay[p].size in v.lay && v.lay[p + v.lay[p].size].kind.Used?
  {
    hide Base;
    LayoutOf(v);
    assert ChunkOk(v.lay, p) && NoAdj1(v.lay, p + v.lay[p].size);
  }

  ghost predicate InBin(v: View, small: bool, i: int, p: int, s: int) {
    && 0 <= i < 32 && |v.sb| == 32 && |v.tb| == 32
    && if small then p in v.sb[i] && s == 8 * i else Holds(v.tb[i], p, s)
  }

  /**
   * A chunk is in a bin exactly when it is free and not the designated victim, and then in the one bin its size
   * selects.
   */
  lemma IndexExact(v: View, h: Heads, segs: seq<Segment>, small: bool, i: int, p: int, s: int)
    requires HeapMid(v, h, segs, {}) && 0 <= i < 32
    ensures InBin(v, small, i, p, s) <==>
      FreeAt(v.lay, p, s) && p != h.dv && small == (s < MIN_LARGE_SIZE)
        && (if small then i == s / 8 else i == TreeIndex(s))
  {
    hide TreeIndex;
    BinnedExact(v, p, s);
    BinnedSmall(v, i, p, s);
    BinnedTree(v, i, p, s);
    ZeroOut(v);
    if FreeAt(v.lay, p, s) {
      assert ChunkOk(v.lay, p);
    }
  }

  lemma BinnedExact(v: View, p: int, s: int)
    requires Base(v)
    ensures |v.sb| == 32 && |v.tb| == 32 && (Binned(v.sb, v.tb, p, s) <==> FreeAt(v.lay, p, s) && p !in v.out)
    ensures FreeAt(v.lay, p, s) ==> 0 <= s / 8 && s % 8 == 0
  {
    assert SmallAt(v, 0) && TreeAt(v, 0) && IndexAt(v, p, s);
    if FreeAt(v.lay, p, s) {
      assert ChunkOk(v.lay, p);
    }
  }

  lemma BinnedSmall(v: View, i: int, p: int, s: int)
    requires Base(v) && 0 <= i < 32
    ensures |v.sb| == 32 && (p in v.sb[i] && s == 8 * i ==>
      FreeAt(v.lay, p, s) && p !in v.out && s < MIN_LARGE_SIZE && i == s / 8)
  {
    assert SmallAt(v, i);
    if p in v.sb[i] {
      SmallMember(v, i, p);
    }
  }

  lemma BinnedTree(v: View, i: int, p: int, s: int)
    requires Base(v) && 0 <= i < 32
    ensures |v.tb| == 32 && (Holds(v.tb[i], p, s) ==>
      FreeAt(v.lay, p, s) && p !in v.out && MIN_LARGE_SIZE <= s && TreeIndex(s) == i)
  {
    assert TreeAt(v, i);
    if Holds(v.tb[i], p, s) {
      TreeMember(v, i, p, s);
    }
  }

  /** A map bit is set exactly when its bin holds a chunk. */
  lemma MapsExact(v: View, h: Heads, segs: seq<Segment>, i: int)
    requires HeapMid(v, h, segs, {}) && 0 <= i < 32
    ensures Marked(v.smallmap, i) <==> exists p {:trigger InBin(v, true, i, p, 8 * i)} :: InBin(v, true, i, p, 8 * i)
    ensures Marked(v.treemap, i) <==> exists p, s {:trigger InBin(v, false, i, p, s)} :: InBin(v, false, i, p, s)
  {
    hide Marked, TreeIndex;
    assert SmallAt(v, i) && TreeAt(v, i);
    if v.sb[i] != [] {
      assert InBin(v, true, i, v.sb[i][0], 8 * i);
    }
    if v.tb[i].Node? {
      assert Holds(v.tb[i], v.tb[i].ring[0], v.tb[i].size);
      assert InBin(v, false, i, v.tb[i].ring[0], v.tb[i].size);
    }
  }
}
