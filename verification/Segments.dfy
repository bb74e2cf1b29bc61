/** Segments of system memory, and the chunks they host. */
module Segments {
  import opened Words
  import opened Layouts
  import opened FreeOps

  datatype Segment = Segment(base: int, size: int, mmapped: bool, extern: bool) {
    function End(): int { base + size }

    /** Where the first chunk starts: the first aligned address. */
    function First(): int { base + AlignOffset(base + 16) }
  }

  /**
   * Segment i hosts chunk p: it starts the segment iff nothing precedes it, and ends it iff it is top or fenceposts.
   */
  ghost predicate Hosts(L: Layout, segs: seq<Segment>, i: int, p: int) {
    && 0 <= i < |segs| && p in L
    && segs[i].base <= p && p + L[p].Extent() <= segs[i].End()
    && (L[p].prev == 0 <==> p == segs[i].First())
    && (!L[p].kind.Ordinary() <==> p + L[p].Extent() == segs[i].End())
  }

  ghost predicate Hosted(L: Layout, segs: seq<Segment>, p: int) {
    p in L ==> exists i {:trigger Hosts(L, segs, i, p)} :: Hosts(L, segs, i, p)
  }

  ghost predicate SegmentAt(L: Layout, segs: seq<Segment>, i: int) {
    0 <= i < |segs| ==>
      && 0 < segs[i].base && 0 < segs[i].size && segs[i].End() % 8 == 0 && segs[i].End() <= TWO64
      && segs[i].First() in L && segs[i].First() < segs[i].End()
  }

  ghost predicate Disjoint(segs: seq<Segment>, i: int, j: int) {
    0 <= i < |segs| && 0 <= j < |segs| && i != j ==> segs[i].End() <= segs[j].base || segs[j].End() <= segs[i].base
  }

  ghost predicate SegmentsOk(L: Layout, segs: seq<Segment>) {
    && (forall p {:trigger Hosted(L, segs, p)} :: Hosted(L, segs, p))
    && (forall i {:trigger SegmentAt(L, segs, i)} :: SegmentAt(L, segs, i))
    && (forall i, j {:trigger Disjoint(segs, i, j)} :: Disjoint(segs, i, j))
  }

  ghost predicate Spans(segs: seq<Segment>, i: int, a: int) {
    0 <= i < |segs| && segs[i].base <= a < segs[i].End()
  }

  /** An address that the space owns. */
  ghost predicate Within(segs: seq<Segment>, a: int) {
    exists i {:trigger Spans(segs, i, a)} :: Spans(segs, i, a)
  }

  /** No word that the space does not own has changed. */
  ghost predicate Confined(segs: seq<Segment>, mem: Mem, mem': Mem) {
    forall a {:trigger Rd(mem', a)} :: Rd(mem', a) == Rd(mem, a) || Within(segs, a)
  }

  /** The space owns what it did and the region of size bytes at base. */
  ghost predicate Joins(segs: seq<Segment>, segs': seq<Segment>, base: int, size: int) {
    forall a {:trigger Within(segs', a)} :: Within(segs', a) <==> Within(segs, a) || base <= a < base + size
  }

  function TotalSize(segs: seq<Segment>): int {
    if segs == [] then 0 else segs[0].size + TotalSize(segs[1..])
  }

  /** A segment that hosts an ordinary chunk hosts its successor. */
  lemma HostsNext(L: Layout, segs: seq<Segment>, i: int, p: int)
    requires LayoutOk(L) && SegmentsOk(L, segs) && Hosts(L, segs, i, p) && L[p].kind.Ordinary()
    ensures Hosts(L, segs, i, p + L[p].size)
  {
    var n := p + L[p].size;
    assert ChunkOk(L, p) && Hosted(L, segs, n) && ChunkOk(L, n);
    var j :| Hosts(L, segs, j, n);
    assert Disjoint(segs, i, j);
  }

  lemma SetKindSegments(L: Layout, segs: seq<Segment>, p: int, k: Kind)
    requires SegmentsOk(L, segs) && p in L && L[p].kind.Ordinary() && k.Ordinary()
    ensures SegmentsOk(SetKind(L, p, k), segs)
  {
    var M := SetKind(L, p, k);
    forall q ensures Hosted(M, segs, q) {
      assert Hosted(L, segs, q);
      if q in M {
        var i :| Hosts(L, segs, i, q);
        assert Hosts(M, segs, i, q);
      }
    }
    forall i ensures SegmentAt(M, segs, i) {
      assert SegmentAt(L, segs, i);
    }
  }

  lemma SplitHosted(L: Layout, segs: seq<Segment>, p: int, n: int, k: Kind, q: int)
    requires LayoutOk(L) && SegmentsOk(L, segs) && Splittable(L, p, n) && k.Ordinary()
    ensures Hosted(Split(L, p, n, k), segs, q)
  {
    var M := Split(L, p, n, k);
    SplitFresh(L, p, n);
    assert ChunkOk(L, p);
    var q' := if q == p + n then p else q;
    assert Hosted(L, segs, q');
    if q in M {
      var i :| Hosts(L, segs, i, q');
      assert Hosts(M, segs, i, q);
    }
  }

  lemma SplitSegments(L: Layout, segs: seq<Segment>, p: int, n: int, k: Kind)
    requires LayoutOk(L) && SegmentsOk(L, segs) && Splittable(L, p, n) && k.Ordinary()
    ensures SegmentsOk(Split(L, p, n, k), segs)
  {
    var M := Split(L, p, n, k);
    forall q ensures Hosted(M, segs, q) {
      SplitHosted(L, segs, p, n, k, q);
    }
    forall i ensures SegmentAt(M, segs, i) {
      assert SegmentAt(L, segs, i);
    }
  }

  lemma JoinHosted(L: Layout, segs: seq<Segment>, p: int, q: int)
    requires LayoutOk(L) && SegmentsOk(L, segs) && Joinable(L, p)
    ensures Hosted(Join(L, p), segs, q)
  {
    var M := Join(L, p);
    assert ChunkOk(L, p) && ChunkOk(L, p + L[p].size) && Hosted(L, segs, q) && Hosted(L, segs, p);
    if q in M {
      var i :| Hosts(L, segs, i, q);
      if q == p {
        HostsNext(L, segs, i, p);
      }
      assert Hosts(M, segs, i, q);
    }
  }

  lemma JoinSegments(L: Layout, segs: seq<Segment>, p: int)
    requires LayoutOk(L) && SegmentsOk(L, segs) && Joinable(L, p)
    ensures SegmentsOk(Join(L, p), segs)
  {
    var M := Join(L, p);
    forall q ensures Hosted(M, segs, q) {
      JoinHosted(L, segs, p, q);
    }
    forall i ensures SegmentAt(M, segs, i) {
      assert SegmentAt(L, segs, i);
      if 0 <= i < |segs| {
        JoinKeepsBase(L, segs, p, i);
      }
    }
  }

  lemma JoinKeepsBase(L: Layout, segs: seq<Segment>, p: int, i: int)
    requires LayoutOk(L) && SegmentsOk(L, segs) && Joinable(L, p) && 0 <= i < |segs|
    ensures segs[i].First() in Join(L, p)
  {
    assert ChunkOk(L, p) && Hosted(L, segs, p) && SegmentAt(L, segs, i) && Hosted(L, segs, segs[i].First());
    var j :| Hosts(L, segs, j, p);
    HostsNext(L, segs, j, p);
    assert Disjoint(segs, i, j);
  }

  lemma FreedSegments(L: Layout, segs: seq<Segment>, p: int)
    requires FreeScope(L, p) && SegmentsOk(L, segs)
    ensures SegmentsOk(Freed(L, p), segs)
  {
    FreedNeighbours(L, p);
    JoinedNextOk(L, p);
    var M := SetKind(L, p, Free);
    SetKindOk(L, p, Free);
    SetKindSegments(L, segs, p, Free);
    if L[After(L, p)].kind.Vacant() {
      JoinSegments(M, segs, p);
    }
    var lo := FreedStart(L, p);
    if lo != p {
      JoinSegments(JoinedNext(L, p), segs, lo);
    }
  }
}
