/** Growing the space: segments, heads and totals when a region joins. */
module Growth {
  import opened Words
  import opened Layouts
  import opened Canonical
  import opened Views
  import opened Segments
  import opened Areas
  import opened Heaps
  import opened Regions

  lemma {:induction false} TotalUpdates(segs: seq<Segment>, i: nat, s: Segment)
    requires i < |segs|
    ensures TotalSize(segs[i := s]) == TotalSize(segs) - segs[i].size + s.size
  {
    if i > 0 {
      TotalUpdates(segs[1..], i - 1, s);
      assert segs[i := s][1..] == segs[1..][i - 1 := s];
    }
  }

  lemma TotalAdds(segs: seq<Segment>, s: Segment)
    ensures TotalSize([s] + segs) == TotalSize(segs) + s.size
  {
    assert ([s] + segs)[1..] == segs;
  }

  /** Segment i with `size` more bytes at its end, or at its front. */
  ghost function Appended(segs: seq<Segment>, i: nat, size: int): seq<Segment>
    requires i < |segs|
  {
    segs[i := segs[i].(size := segs[i].size + size)]
  }

  ghost function Prepended(segs: seq<Segment>, i: nat, base: int, size: int): seq<Segment>
    requires i < |segs|
  {
    segs[i := segs[i].(base := base, size := segs[i].size + size)]
  }

  // ----- appending to the segment of top

  ghost predicate HoldsTop(segs: seq<Segment>, i: int, t: int) {
    0 <= i < |segs| && segs[i].base <= t < segs[i].End()
  }

  lemma TopHosted(L: Layout, segs: seq<Segment>, i: int, t: int)
    requires LayoutOk(L) && SegmentsOk(L, segs) && OneTop(L, t) && HoldsTop(segs, i, t)
    ensures Hosts(L, segs, i, t) && t + L[t].Extent() == segs[i].End() && ChunkOk(L, t) && SegmentAt(L, segs, i)
  {
    assert ChunkOk(L, t) && Hosted(L, segs, t);
    var j :| Hosts(L, segs, j, t);
    assert Disjoint(segs, i, j);
  }

  /** A segment that a chunk overlaps is the one that hosts it. */
  lemma EndsAlone(L: Layout, segs: seq<Segment>, i: int, t: int, p: int)
    requires LayoutOk(L) && SegmentsOk(L, segs) && Hosts(L, segs, i, t) && !L[t].kind.Ordinary() && p in L && p != t
    ensures Hosts(L, segs, i, p) ==> L[p].kind.Ordinary() && p + L[p].Extent() < segs[i].End()
  {
    assert Apart(L, t, p) && ChunkOk(L, p) && ChunkOk(L, t);
  }

  lemma ExtendedHosted(L: Layout, segs: seq<Segment>, i: int, t: int, size: int, p: int)
    requires Extendable(L, t, size) && SegmentsOk(L, segs) && HoldsTop(segs, i, t)
    ensures Hosted(Extended(L, t, size), Appended(segs, i, size), p)
  {
    hide AlignOffset;
    var M, ss := Extended(L, t, size), Appended(segs, i, size);
    TopHosted(L, segs, i, t);
    assert Hosted(L, segs, p);
    if p == t {
      assert Hosts(M, ss, i, t);
    } else if p in L {
      var j :| Hosts(L, segs, j, p);
      EndsAlone(L, segs, i, t, p);
      assert Hosts(M, ss, j, p);
    }
  }

  lemma ExtendedSegments(L: Layout, segs: seq<Segment>, i: int, t: int, size: int)
    requires Extendable(L, t, size) && SegmentsOk(L, segs) && HoldsTop(segs, i, t) && Fresh(segs, segs[i].End(), size)
    ensures SegmentsOk(Extended(L, t, size), Appended(segs, i, size))
  {
    hide AlignOffset;
    var M, ss := Extended(L, t, size), Appended(segs, i, size);
    forall p ensures Hosted(M, ss, p) {
      ExtendedHosted(L, segs, i, t, size, p);
    }
    forall j ensures SegmentAt(M, ss, j) {
      assert SegmentAt(L, segs, j) && SegmentAt(L, segs, i);
    }
    forall j, k ensures Disjoint(ss, j, k) {
      assert Disjoint(segs, j, k) && Beside(segs, j, segs[i].End(), size) && Beside(segs, k, segs[i].End(), size);
      assert SegmentAt(L, segs, j) && SegmentAt(L, segs, k);
    }
  }

  lemma ExtendHeap(v: View, h: Heads, segs: seq<Segment>, i: int, size: int)
    requires HeapMid(v, h, segs, {}) && HoldsTop(segs, i, h.top) && Fresh(segs, segs[i].End(), size)
      && TOP_FOOT_SIZE <= size
    ensures var n := h.topsize + size;
      var v' := v.(mem := ExtendMem(v.mem, h.top, n), lay := Extended(v.lay, h.top, size));
      && HeapMid(v', h.(topsize := n), Appended(segs, i, size), {})
      && PayloadSame(UsedOf(v.lay), v.ms, v.mem, v'.mem) && UsedOf(v'.lay) == UsedOf(v.lay)
      && Frame(v.lay, v'.lay, v.mem, v'.mem)
  {
    hide Base, PayloadSame, Frame;
    LayoutOf(v);
    TopHosted(v.lay, segs, i, h.top);
    FreshClear(v.lay, segs, segs[i].End(), size);
    assert Extendable(v.lay, h.top, size);
    ExtendKeeps(v, h.top, size);
    ExtendedOk(v.lay, h.top, size);
    ExtendedNoAdj(v.lay, h.top, size);
    ExtendedSegments(v.lay, segs, i, h.top, size);
    ExtendFrame(v.lay, v.mem, h.top, size);
    OutFree(v);
  }

  lemma AppendFits(v: View, h: Heads, segs: seq<Segment>, i: int, size: int)
    requires HeapMid(v, h, segs, {}) && HoldsTop(segs, i, h.top) && Fresh(segs, segs[i].End(), size)
    ensures 0 < h.top && h.top % 8 == 0 && 0 < h.topsize && h.topsize % 8 == 0 && size % 8 == 0
    ensures h.top + h.topsize + size + TOP_FOOT_SIZE <= TWO64
  {
    hide Base;
    LayoutOf(v);
    TopHosted(v.lay, segs, i, h.top);
  }

  // ----- prepending to a segment

  ghost predicate StartsAt(segs: seq<Segment>, i: int, a: int) {
    0 <= i < |segs| && segs[i].base == a
  }

  lemma AlignedFirst(s: Segment)
    requires s.base % 8 == 0
    ensures s.First() == s.base
  {}

  lemma FrontStarts(L: Layout, segs: seq<Segment>, i: int, base: int, size: int)
    requires LayoutOk(L) && SegmentsOk(L, segs) && StartsAt(segs, i, base + size) && Fresh(segs, base, size)
      && MIN_CHUNK_SIZE <= size
    ensures Frontable(L, base, size) && Hosts(L, segs, i, base + size) && SegmentAt(L, segs, i)
      && ChunkOk(L, base + size)
  {
    hide AlignOffset, ClearOf;
    var b := base + size;
    FreshClear(L, segs, base, size);
    AlignedFirst(segs[i]);
    assert SegmentAt(L, segs, i) && Hosted(L, segs, b) && ChunkOk(L, b);
    var j :| Hosts(L, segs, j, b);
    assert Disjoint(segs, i, j);
  }

  lemma FrontedHosted(L: Layout, segs: seq<Segment>, i: int, base: int, size: int, p: int)
    requires LayoutOk(L) && SegmentsOk(L, segs) && StartsAt(segs, i, base + size) && Fresh(segs, base, size)
      && MIN_CHUNK_SIZE <= size
    ensures base + size in L && Hosted(Fronted(L, base, size), Prepended(segs, i, base, size), p)
  {
    FrontStarts(L, segs, i, base, size);
    FrontFresh(L, base, size);
    var M, ss := Fronted(L, base, size), Prepended(segs, i, base, size);
    assert Hosted(L, segs, p);
    if p == base {
      assert Hosts(M, ss, i, p);
    } else if p in L {
      var j :| Hosts(L, segs, j, p);
      assert ChunkOk(L, p) && Disjoint(segs, i, j);
      assert Hosts(M, ss, j, p);
    }
  }

  lemma FrontedSegments(L: Layout, segs: seq<Segment>, i: int, base: int, size: int)
    requires LayoutOk(L) && SegmentsOk(L, segs) && StartsAt(segs, i, base + size) && Fresh(segs, base, size)
      && MIN_CHUNK_SIZE <= size
    ensures base + size in L && SegmentsOk(Fronted(L, base, size), Prepended(segs, i, base, size))
  {
    FrontStarts(L, segs, i, base, size);
    var M, ss := Fronted(L, base, size), Prepended(segs, i, base, size);
    forall p ensures Hosted(M, ss, p) {
      FrontedHosted(L, segs, i, base, size, p);
    }
    forall j ensures SegmentAt(M, ss, j) {
      assert SegmentAt(L, segs, j);
    }
    forall j, k ensures Disjoint(ss, j, k) {
      assert Disjoint(segs, j, k) && Beside(segs, j, base, size) && Beside(segs, k, base, size);
      assert SegmentAt(L, segs, j) && SegmentAt(L, segs, k);
    }
  }

  lemma FrontHeap(v: View, h: Heads, segs: seq<Segment>, x: set<int>, i: int, base: int, size: int)
    requires HeapMid(v, h, segs, x) && StartsAt(segs, i, base + size) && Fresh(segs, base, size)
      && MIN_CHUNK_SIZE <= size
    ensures base + size in v.lay
    ensures var v' := v.(mem := v.mem[base + 8 := size + 3], lay := Fronted(v.lay, base, size));
      && HeapMid(v', h, Prepended(segs, i, base, size), x) && v'.lay[base] == Chunk(size, Used, 0)
      && PayloadSame(UsedOf(v.lay), v.ms, v.mem, v'.mem) && UsedOf(v'.lay) == UsedOf(v.lay)[base := size]
      && base !in UsedOf(v.lay) && base != v.ms && Frame(v.lay, v'.lay, v.mem, v'.mem)
  {
    hide Base, PayloadSame, Frame;
    LayoutOf(v);
    FrontStarts(v.lay, segs, i, base, size);
    FrontFresh(v.lay, base, size);
    FrontKeeps(v, h.top, base, size);
    FrontedUsed(v.lay, base, size);
    FrontedSegments(v.lay, segs, i, base, size);
    FrontFrame(v.lay, v.mem, base, size);
    OutFree(v);
  }

  // ----- a new segment of its own

  lemma RetiredHosted(L: Layout, segs: seq<Segment>, i: int, s: Segment, t: int, k: int, p: int)
    requires Retirable(L, t, s.base, s.size, k) && SegmentsOk(L, segs) && Hosts(L, segs, i, t)
    ensures Hosted(Retired(L, t, s.base, s.size, k), [s] + segs, p)
  {
    var M, ss := Retired(L, t, s.base, s.size, k), [s] + segs;
    RetireFresh(L, t, s.base, s.size, k);
    assert Hosted(L, segs, p);
    if p == s.base {
      assert Hosts(M, ss, 0, p);
    } else if p == t || p == t + k {
      assert Hosts(M, ss, i + 1, p);
    } else if p in L {
      var j :| Hosts(L, segs, j, p);
      assert Hosts(M, ss, j + 1, p);
    }
  }

  lemma RetiredSegments(L: Layout, segs: seq<Segment>, i: int, s: Segment, t: int, k: int)
    requires Retirable(L, t, s.base, s.size, k) && SegmentsOk(L, segs) && Hosts(L, segs, i, t)
      && Fresh(segs, s.base, s.size)
    ensures SegmentsOk(Retired(L, t, s.base, s.size, k), [s] + segs)
  {
    var M, ss := Retired(L, t, s.base, s.size, k), [s] + segs;
    forall p ensures Hosted(M, ss, p) {
      RetiredHosted(L, segs, i, s, t, k, p);
    }
    forall j ensures SegmentAt(M, ss, j) {
      assert SegmentAt(L, segs, j - 1);
    }
    forall j, l ensures Disjoint(ss, j, l) {
      assert Disjoint(segs, j - 1, l - 1) && Beside(segs, j - 1, s.base, s.size) && Beside(segs, l - 1, s.base, s.size);
    }
  }

  lemma RetireTouches(v: View, mem': Mem, t: int, base: int, size: int, k: int)
    requires RetireWritten(v, mem', t, base, size, k)
    ensures RegionTouch(v.lay, v.mem, mem', base, size, t)
  {}

  lemma RetireHeap(v: View, mem': Mem, h: Heads, segs: seq<Segment>, s: Segment, k: int)
    requires HeapMid(v, h, segs, {}) && Fresh(segs, s.base, s.size) && TOP_FOOT_SIZE < s.size
    requires k % 8 == 0 && MIN_CHUNK_SIZE <= k <= h.topsize + TOP_FOOT_SIZE - 16
    requires RetireWritten(v, mem', h.top, s.base, s.size, k)
    ensures var v', h' := v.(mem := mem', lay := Retired(v.lay, h.top, s.base, s.size, k)),
      h.(top := s.base, topsize := s.size - TOP_FOOT_SIZE);
      && HeapMid(v', h', [s] + segs, {})
      && PayloadSame(UsedOf(v.lay), v.ms, v.mem, mem') && UsedOf(v'.lay) == UsedOf(v.lay)[h.top := k]
         && h.top !in UsedOf(v.lay)
      && h.top != v.ms && v'.lay[h.top].kind.Used? && v'.lay[h.top].size == k && Frame(v.lay, v'.lay, v.mem, v'.mem)
  {
    hide Base, PayloadSame, RetireWritten, Frame;
    LayoutOf(v);
    FreshClear(v.lay, segs, s.base, s.size);
    RetireFresh(v.lay, h.top, s.base, s.size, k);
    RetireKeeps(v, mem', h.top, s.base, s.size, k);
    RetiredOk(v.lay, h.top, s.base, s.size, k);
    RetiredUsed(v.lay, h.top, s.base, s.size, k);
    assert Hosted(v.lay, segs, h.top);
    var i :| Hosts(v.lay, segs, i, h.top);
    RetiredSegments(v.lay, segs, i, s, h.top, k);
    RetireTouches(v, mem', h.top, s.base, s.size, k);
    RetireFrame(v, mem', h.top, s.base, s.size, k);
    OutFree(v);
  }

  // ----- what the space owns afterwards

  lemma ReplaceJoins(segs: seq<Segment>, i: nat, s: Segment, base: int, size: int)
    requires i < |segs| && 0 <= size && 0 <= segs[i].size && s.size == segs[i].size + size
    requires (s.base == segs[i].base && base == segs[i].End()) || (s.base == base && base + size == segs[i].base)
    ensures Joins(segs, segs[i := s], base, size)
  {
    var ss := segs[i := s];
    forall a ensures Within(ss, a) <==> Within(segs, a) || base <= a < base + size {
      if Within(ss, a) {
        var j :| Spans(ss, j, a);
        assert Spans(segs, j, a) || base <= a < base + size;
      } else if Within(segs, a) {
        var j :| Spans(segs, j, a);
        assert Spans(ss, j, a);
      } else if base <= a < base + size {
        assert Spans(ss, i, a);
      }
    }
  }

  lemma AppendJoins(v: View, h: Heads, segs: seq<Segment>, x: set<int>, i: nat, size: int)
    requires HeapMid(v, h, segs, x) && i < |segs| && 0 <= size
    ensures Joins(segs, Appended(segs, i, size), segs[i].End(), size)
  {
    hide Base, Joins;
    assert SegmentAt(v.lay, segs, i);
    ReplaceJoins(segs, i, segs[i].(size := segs[i].size + size), segs[i].End(), size);
  }

  lemma PrependJoins(v: View, h: Heads, segs: seq<Segment>, x: set<int>, i: nat, base: int, size: int)
    requires HeapMid(v, h, segs, x) && i < |segs| && 0 <= size && base + size == segs[i].base
    ensures Joins(segs, Prepended(segs, i, base, size), base, size)
  {
    hide Base, Joins;
    assert SegmentAt(v.lay, segs, i);
    ReplaceJoins(segs, i, segs[i].(base := base, size := segs[i].size + size), base, size);
  }

  lemma AddJoins(segs: seq<Segment>, s: Segment)
    ensures Joins(segs, [s] + segs, s.base, s.size)
  {
    var ss := [s] + segs;
    forall a ensures Within(ss, a) <==> Within(segs, a) || s.base <= a < s.base + s.size {
      if Within(ss, a) {
        var j :| Spans(ss, j, a);
        assert j == 0 || Spans(segs, j - 1, a);
      }
      if Within(segs, a) {
        var j :| Spans(segs, j, a);
        assert Spans(ss, j + 1, a);
      }
      if s.base <= a < s.base + s.size {
        assert Spans(ss, 0, a);
      }
    }
  }

  lemma ConfinedSelf(segs: seq<Segment>, mem: Mem)
    ensures Confined(segs, mem, mem)
  {}

  /** The chunks of a space lie in its segments, so a framed operation is confined to them. */
  lemma FrameConfined(v: View, v': View, h': Heads, segs': seq<Segment>, x: set<int>)
    requires HeapMid(v', h', segs', x) && Frame(v.lay, v'.lay, v.mem, v'.mem)
    ensures Confined(segs', v.mem, v'.mem)
  {
    hide Base;
    LayoutOf(v');
    forall a ensures Rd(v'.mem, a) == Rd(v.mem, a) || Within(segs', a) {
      if InChunk(v'.lay, a) {
        var p :| Over(v'.lay, p, a);
        assert Hosted(v'.lay, segs', p);
        var i :| Hosts(v'.lay, segs', i, p);
        assert Spans(segs', i, a);
      }
    }
  }
}
