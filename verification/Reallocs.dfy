/** Resizing a chunk: giving back its tail, growing it into top, or moving its contents. */
module Reallocs {
  import opened Words
  import opened Layouts
  import opened Canonical
  import opened Views
  import opened TagOps
  import opened FreeOps
  import opened Scratch
  import opened Segments
  import opened Areas
  import opened Heaps
  import opened Gains
  import opened Choices
  import opened Frees
  import opened Carves
  import opened Systems
  import opened Payloads
  import opened Stretches

  /** set_inuse: size and cinuse into the head, pinuse kept; pinuse into the next head. */
  ghost function SetInuseMem(mem: Mem, p: int, s: int): Mem {
    var m := mem[p + 8 := Head(s, true, Pinuse(Rd(mem, p + 8)))];
    m[p + s + 8 := SetPinuse(Rd(m, p + s + 8))]
  }

  /** The chunk after an in-use chunk records it. */
  lemma NextPinned(v: View, p: int)
    requires Steady(v) && p in v.lay && v.lay[p].kind.Used?
    ensures var n := p + v.lay[p].size;
      n in v.lay && Rd(v.mem, n + 8) == SetPinuse(Rd(v.mem, n + 8))
  {
    var n := p + v.lay[p].size;
    assert ChunkOk(v.lay, p) && ChunkOk(v.lay, n) && Tag(v.lay, v.mem, n);
    if v.lay[n].kind.Fence? {
      assert (n + 8) % 8 == 0;
      assert FenceHead(v.mem, n + 8);
    } else {
      HeadDecodes(v.lay[n].size, v.lay[n].kind.Used?, true);
    }
  }

  /** Marking both pieces in use, in either order. */
  lemma CarveWrites(v: View, p: int, n: int)
    requires Carvable(v, p, n)
    ensures var r := v.lay[p].size - n;
      && CarveWritten(v, SetInuseMem(SetInuseMem(v.mem, p, n), p + n, r), p, n)
      && CarveWritten(v, SetInuseMem(SetInuseMem(v.mem, p + n, r), p, n), p, n)
  {
    hide Base;
    NextPinned(v, p);
    SizeRead(v, p);
    PinuseSets(v.mem, p, n);
  }

  lemma PinuseSets(mem: Mem, p: int, n: int)
    ensures Pinuse(SetPinuse(Rd(mem, p + n + 8)))
  {}

  /** The contents of oldp are now those of p, which serves nb; every other in-use chunk is as it was. */
  ghost predicate MovedWith(v: View, v': View, oldp: int, p: int, nb: int, r: int) {
    && v'.ms == v.ms && Freeable(v'.lay, p) && nb <= v'.lay[p].size < nb + MIN_CHUNK_SIZE
    && p !in UsedOf(v.lay) - {oldp} && UsedOf(v'.lay) == Recorded(UsedOf(v.lay) - {oldp}, r)[p := v'.lay[p].size]
    && (r != 0 ==> r !in UsedOf(v.lay) && r != p && FenceAt(v'.lay, r + SEGMENT_CHUNK_SIZE))
    && PayloadSame(UsedOf(v.lay) - {oldp}, v.ms, v.mem, v'.mem)
    && KeepsFreeableBut(v.lay, v'.lay, oldp) && KeepsFences(v.lay, v'.lay)
    && Frame(v.lay, v'.lay, v.mem, v'.mem)
  }

  ghost predicate KeepsFreeableBut(L: Layout, L': Layout, p: int) {
    forall q {:trigger Freeable(L, q)} {:trigger Freeable(L', q)} :: Freeable(L, q) && q != p ==> Freeable(L', q)
  }

  /** The old block is gone or resized, p serves nb, and the first n bytes are the old ones. */
  ghost predicate Moved(v: View, v': View, oldp: int, p: int, nb: int, n: int) {
    (exists r {:trigger MovedWith(v, v', oldp, p, nb, r)} :: MovedWith(v, v', oldp, p, nb, r))
    && SameBytes(v.mem, oldp + 16, v'.mem, p + 16, n)
  }

  /** The chunk is large enough already, or reaches into top with the room it needs. */
  ghost predicate FitsInPlace(v: View, h: Heads, p: int, nb: int) {
    p in v.lay && (nb <= v.lay[p].size || (p + v.lay[p].size == h.top && nb < v.lay[p].size + h.topsize))
  }

  lemma MovedFrame(v: View, v': View, oldp: int, p: int, nb: int, n: int)
    requires Moved(v, v', oldp, p, nb, n)
    ensures Frame(v.lay, v'.lay, v.mem, v'.mem) && v'.ms == v.ms
  {
    hide PayloadSame, Frame;
    var r :| MovedWith(v, v', oldp, p, nb, r);
  }

  /** realloc fails on a request that is too large, or when the block must move and malloc fails. */
  ghost predicate ReallocFails(v: View, h: Heads, p: int, bytes: int, region: int) {
    bytes >= MAX_REQUEST || (!FitsInPlace(v, h, p, ChunkRequest(bytes)) && MallocFails(v, h, bytes, region))
  }

  /** Bytes of a payload that both sides share. */
  lemma BytesKept(used: map<int, int>, ms: int, mem: Mem, mem': Mem, p: int, n: int)
    requires PayloadSame(used, ms, mem, mem') && p in used && p != ms && n <= used[p] - CHUNK_OVERHEAD
      && used[p] % 8 == 0
    ensures SameBytes(mem, p + 16, mem', p + 16, n)
  {
    var m := p + 16;
    forall k ensures SameAt(mem, m, mem', m, n, k) {
      if 0 <= k < n && k % 8 == 0 {
        WordEnds(m, n, m + k, used[p] - CHUNK_OVERHEAD);
        assert InPayload(used, p, m + k);
      }
    }
  }

  /** A chunk resized where it is, with the same fences, may still be freed, and so may all others. */
  lemma InPlaceFreeable(L: Layout, L': Layout, p: int, n: int)
    requires LayoutOk(L') && Freeable(L', p) && p in UsedOf(L) && UsedOf(L') == UsedOf(L)[p := n]
    requires forall q {:trigger FenceAt(L, q)} {:trigger FenceAt(L', q)} :: FenceAt(L, q) <==> FenceAt(L', q)
    ensures KeepsFreeableBut(L, L', p) && KeepsFences(L, L')
  {
    forall q | Freeable(L, q) && q != p ensures Freeable(L', q) {
      assert q in UsedOf(L);
      StillFreeable(L, L', q);
    }
  }

  lemma InPlaceMoved(v: View, v': View, h: Heads, h': Heads, segs: seq<Segment>, p: int, nb: int, n: int, m: int)
    requires HeapMid(v, h, segs, {}) && HeapMid(v', h', segs, {}) && v'.ms == v.ms && Freeable(v'.lay, p)
      && Freeable(v.lay, p) && p != v.ms
    requires nb <= v'.lay[p].size < nb + MIN_CHUNK_SIZE && UsedOf(v'.lay) == UsedOf(v.lay)[p := v'.lay[p].size]
    requires ArenaOf(v'.lay, h'.top) == ArenaOf(v.lay, h.top) && Frame(v.lay, v'.lay, v.mem, v'.mem)
    requires PayloadSame(UsedOf(v.lay)[p := m], v.ms, v.mem, v'.mem) && n <= m - CHUNK_OVERHEAD && m % 8 == 0
    ensures Moved(v, v', p, p, nb, n)
  {
    hide Base, PayloadSame, Frame;
    BytesKept(UsedOf(v.lay)[p := m], v.ms, v.mem, v'.mem, p, n);
    PayloadSub(UsedOf(v.lay)[p := m], UsedOf(v.lay) - {p}, v.ms, v.mem, v'.mem);
    LayoutOf(v');
    SameFences(v.lay, v'.lay, h.top, h'.top);
    assert p in UsedOf(v.lay);
    InPlaceFreeable(v.lay, v'.lay, p, v'.lay[p].size);
    assert MovedWith(v, v', p, p, nb, 0);
  }

  /** Chunk p has been cut in two in-use chunks, the first of n bytes. */
  ghost predicate CutTo(v: View, v': View, h: Heads, p: int, n: int) {
    && v'.ms == v.ms && p in v.lay && n < v.lay[p].size && Freeable(v'.lay, p) && Freeable(v'.lay, p + n)
       && p + n !in UsedOf(v.lay)
    && UsedOf(v'.lay) == UsedOf(v.lay)[p := n][p + n := v.lay[p].size - n] && v'.lay[p].size == n
    && PayloadSame(UsedOf(v.lay)[p := n], v.ms, v.mem, v'.mem)
    && OneTop(v.lay, h.top) && OneTop(v'.lay, h.top) && ArenaOf(v'.lay, h.top) == ArenaOf(v.lay, h.top)
    && 0 < p && 0 < n && p + n != v.ms
    && Frame(v.lay, v'.lay, v.mem, v'.mem)
  }

  lemma CutKept(v: View, v': View, h: Heads, p: int, n: int)
    requires CutTo(v, v', h, p, n)
    ensures ArenaKept(v, h, v', h)
  {
    hide PayloadSame, Frame;
  }

  lemma CutDone(v: View, mem': Mem, h: Heads, segs: seq<Segment>, p: int, n: int)
    requires HeapMid(v, h, segs, {}) && Freeable(v.lay, p) && p != v.ms && Splittable(v.lay, p, n)
    requires CarveWritten(v, mem', p, n)
    ensures var v' := Carved(v, mem', p, n); HeapMid(v', h, segs, {}) && CutTo(v, v', h, p, n)
  {
    hide Base, PayloadSame, Frame, CarveWritten;
    CarveHeap(v, mem', h, segs, {}, p, n);
    LayoutOf(v);
    CarveArena(v.lay, p, n, h.top);
    assert ChunkOk(v.lay, p);
    SplitFresh(v.lay, p, n);
  }

  lemma CutWrites(v: View, h: Heads, segs: seq<Segment>, p: int, n: int)
    requires HeapMid(v, h, segs, {}) && Freeable(v.lay, p) && p != v.ms && Splittable(v.lay, p, n)
    ensures var r := v.lay[p].size - n;
      && CarveWritten(v, SetInuseMem(SetInuseMem(v.mem, p, n), p + n, r), p, n)
      && CarveWritten(v, SetInuseMem(SetInuseMem(v.mem, p + n, r), p, n), p, n)
  {
    hide Base, PayloadSame, Frame, CarveWritten;
    CarveWrites(v, p, n);
  }

  /** A chunk cut and its tail freed. */
  lemma TrimDone(v: View, h: Heads, v1: View, v2: View, h2: Heads, segs: seq<Segment>, p: int, n: int)
    requires HeapMid(v2, h2, segs, {}) && CutTo(v, v1, h, p, n) && Lost(v1, h, v2, h2, p + n)
    ensures UsedOf(v2.lay) == UsedOf(v.lay)[p := n] && Freeable(v2.lay, p) && v2.lay[p].size == n && v2.ms == v.ms
    ensures PayloadSame(UsedOf(v.lay)[p := n], v.ms, v.mem, v2.mem) && ArenaOf(v2.lay, h2.top) == ArenaOf(v.lay, h.top)
    ensures Frame(v.lay, v2.lay, v.mem, v2.mem)
  {
    hide Base, PayloadSame, Frame, Freed;
    assert UsedOf(v2.lay) == UsedOf(v.lay)[p := n];
    PayloadTrans(UsedOf(v.lay)[p := n], v.ms, v.mem, v1.mem, v2.mem);
    FrameTrans(v.lay, v1.lay, v2.lay, v.mem, v1.mem, v2.mem);
    LayoutOf(v2);
    SameFences(v1.lay, v2.lay, h.top, h2.top);
    StillFreeable(v1.lay, v2.lay, p);
    assert UsedOf(v2.lay)[p] == n;
  }

  lemma UsedMoves(used: map<int, int>, r: int, p: int, s: int, oldp: int)
    requires oldp in used && p != oldp && (r == 0 || r != oldp)
    ensures Recorded(used, r)[p := s] - {oldp} == Recorded(used - {oldp}, r)[p := s]
  {}

  lemma TouchKeeps(L: Layout, ms: int, mem: Mem, mem': Mem, p: int)
    requires LayoutOk(L) && PayloadTouch(L, mem, mem', p)
    ensures PayloadSame(UsedOf(L) - {p}, ms, mem, mem')
  {
    var u := UsedOf(L) - {p};
    forall q, a | InPayload(u, q, a) && q != ms ensures Rd(mem', a) == Rd(mem, a) {
      assert Apart(L, p, q) && ChunkOk(L, p) && ChunkOk(L, q);
    }
  }

  /** Freeing oldp leaves every other chunk's right to be freed, and the fences. */
  lemma LostKeeps(v: View, h: Heads, v': View, h': Heads, segs: seq<Segment>, oldp: int)
    requires HeapMid(v', h', segs, {}) && Lost(v, h, v', h', oldp)
    ensures KeepsFreeableBut(v.lay, v'.lay, oldp) && KeepsFences(v.lay, v'.lay)
  {
    hide Base, PayloadSame, Frame, Freed;
    LayoutOf(v');
    SameFences(v.lay, v'.lay, h.top, h'.top);
    forall q | Freeable(v.lay, q) && q != oldp ensures Freeable(v'.lay, q) {
      assert q in UsedOf(v.lay);
      StillFreeable(v.lay, v'.lay, q);
    }
  }

  /** The state between copying and freeing. */
  ghost predicate Copied(v: View, v1: View, m2: Mem, h2: Heads, v3: View, h3: Heads, oldp: int, p: int, nb: int, n: int,
          r: int) {
    && Base(v) && Base(v1) && ServedWith(v, v1, p, nb, r) && Freeable(v.lay, oldp) && oldp != v.ms
    && WordsTouch(v1.mem, m2, p + 16, n) && SameBytes(v1.mem, oldp + 16, m2, p + 16, n)
    && n <= v.lay[oldp].size - CHUNK_OVERHEAD && n <= nb - CHUNK_OVERHEAD
    && Lost(v1.(mem := m2), h2, v3, h3, oldp)
  }

  lemma MoveKept(v: View, v1: View, m2: Mem, h2: Heads, v3: View, h3: Heads, oldp: int, p: int, nb: int, n: int, r: int)
    requires Copied(v, v1, m2, h2, v3, h3, oldp, p, nb, n, r)
    ensures PayloadSame(UsedOf(v.lay) - {oldp}, v.ms, v.mem, v3.mem)
    ensures PayloadSame(UsedOf(v3.lay), v.ms, m2, v3.mem) && oldp in UsedOf(v.lay) && p in UsedOf(v3.lay)
      && UsedOf(v3.lay)[p] == v1.lay[p].size
  {
    hide Base, PayloadSame, Frame, SameBytes, WordsTouch, Freed;
    LayoutOf(v1);
    var w := UsedOf(v.lay) - {oldp};
    WordsInPayload(v1.lay, v1.mem, m2, p, n);
    TouchKeeps(v1.lay, v.ms, v1.mem, m2, p);
    PayloadSub(UsedOf(v1.lay) - {p}, w, v.ms, v1.mem, m2);
    PayloadSub(UsedOf(v.lay), w, v.ms, v.mem, v1.mem);
    PayloadTrans(w, v.ms, v.mem, v1.mem, m2);
    PayloadSub(UsedOf(v3.lay), w, v.ms, m2, v3.mem);
    PayloadTrans(w, v.ms, v.mem, m2, v3.mem);
    assert oldp in UsedOf(v.lay);
    assert p in UsedOf(v1.lay) && p != oldp;
  }

  lemma MoveBytes(v: View, v1: View, m2: Mem, h2: Heads, v3: View, h3: Heads, oldp: int, p: int, nb: int, n: int,
          r: int)
    requires Copied(v, v1, m2, h2, v3, h3, oldp, p, nb, n, r) && p != v.ms
    ensures SameBytes(v.mem, oldp + 16, v3.mem, p + 16, n)
  {
    hide Base, PayloadSame, Frame, SameBytes, WordsTouch, Freed, KeepsFreeable, KeepsFences;
    MoveKept(v, v1, m2, h2, v3, h3, oldp, p, nb, n, r);
    SizeAligned(v, oldp);
    SizeAligned(v1, p);
    BytesKept(UsedOf(v.lay), v.ms, v.mem, v1.mem, oldp, n);
    BytesKept(UsedOf(v3.lay), v.ms, m2, v3.mem, p, n);
    BytesTrans(v.mem, oldp + 16, v1.mem, oldp + 16, m2, p + 16, n, n);
    BytesTrans(v.mem, oldp + 16, m2, p + 16, v3.mem, p + 16, n, n);
  }

  lemma SizeAligned(v: View, p: int)
    requires Base(v) && p in v.lay
    ensures v.lay[p].size % 8 == 0
  {
    assert ChunkOk(v.lay, p);
  }

  lemma NotState(v: View, p: int)
    requires Base(v) && p !in UsedOf(v.lay)
    ensures p != v.ms
  {
    LayoutOf(v);
    assert v.ms in UsedOf(v.lay);
  }

  lemma MoveFrame(v: View, v1: View, m2: Mem, h2: Heads, v3: View, h3: Heads, oldp: int, p: int, nb: int, n: int,
          r: int)
    requires Copied(v, v1, m2, h2, v3, h3, oldp, p, nb, n, r)
    ensures Frame(v.lay, v3.lay, v.mem, v3.mem)
  {
    hide Base, PayloadSame, SameBytes, WordsTouch, Freed, Frame, PayloadTouch;
    LayoutOf(v1);
    WordsInPayload(v1.lay, v1.mem, m2, p, n);
    PayloadFrame(v1.lay, v1.mem, m2, p);
    FrameTrans(v.lay, v1.lay, v1.lay, v.mem, v1.mem, m2);
    FrameTrans(v.lay, v1.lay, v3.lay, v.mem, m2, v3.mem);
  }

  /** Allocated, copied, and the old block freed. */
  lemma MoveDone(v: View, v1: View, m2: Mem, h2: Heads, v3: View, h3: Heads, segs: seq<Segment>, oldp: int, p: int,
          nb: int, n: int, r: int)
    requires HeapMid(v3, h3, segs, {}) && Copied(v, v1, m2, h2, v3, h3, oldp, p, nb, n, r)
    ensures Moved(v, v3, oldp, p, nb, n)
  {
    hide Base, PayloadSame, Frame, HeapMid, SameBytes, WordsTouch, Freed;
    var v2, s := v1.(mem := m2), v1.lay[p].size;
    NotState(v, p);
    MoveKept(v, v1, m2, h2, v3, h3, oldp, p, nb, n, r);
    MoveBytes(v, v1, m2, h2, v3, h3, oldp, p, nb, n, r);
    LostKeeps(v2, h2, v3, h3, segs, oldp);
    UsedMoves(UsedOf(v.lay), r, p, s, oldp);
    KeptBoth(v.lay, v1.lay, v3.lay, oldp);
    MoveFrame(v, v1, m2, h2, v3, h3, oldp, p, nb, n, r);
    assert Freeable(v3.lay, p) && p in UsedOf(v3.lay);
    assert r != 0 ==> FenceAt(v3.lay, r + SEGMENT_CHUNK_SIZE);
    assert MovedWith(v, v3, oldp, p, nb, r);
  }

  lemma KeptBoth(L: Layout, L1: Layout, L2: Layout, p: int)
    requires KeepsFreeable(L, L1) && KeepsFences(L, L1) && KeepsFreeableBut(L1, L2, p) && KeepsFences(L1, L2)
    ensures KeepsFreeableBut(L, L2, p) && KeepsFences(L, L2)
  {
    forall q | Freeable(L, q) && q != p ensures Freeable(L2, q) {
      assert Freeable(L1, q);
    }
    forall q | FenceAt(L, q) ensures FenceAt(L2, q) {
      assert FenceAt(L1, q);
    }
  }

  lemma StretchReady(v: View, h: Heads, segs: seq<Segment>, p: int, nb: int)
    requires HeapMid(v, h, segs, {}) && Freeable(v.lay, p) && p + v.lay[p].size == h.top && nb % 8 == 0
    requires v.lay[p].size < nb < v.lay[p].size + h.topsize
    ensures Stretchable(v.lay, p, h.top, nb) && OneTop(v.lay, h.top)
    ensures StretchWritten(v, SetInuseMem(v.mem, p, nb)[p + nb + 8 := v.lay[p].size + h.topsize - nb + 1], p, h.top, nb)
  {
    hide Base;
    LayoutOf(v);
    SizeRead(v, p);
    StretchFacts(v.lay, p, h.top, nb);
  }

  ghost function Least(a: int, b: int): int {
    if a < b then a else b
  }

  /** What realloc reads of the chunk and its successor. */
  lemma ResizeReads(v: View, h: Heads, segs: seq<Segment>, p: int)
    requires HeapMid(v, h, segs, {}) && Freeable(v.lay, p)
    ensures ChunkSize(Rd(v.mem, p + 8)) == v.lay[p].size && v.lay[p].size % 8 == 0 && MIN_CHUNK_SIZE <= v.lay[p].size
      && p > 0
    ensures 0 < h.topsize && h.topsize % 8 == 0 && p in UsedOf(v.lay) && UsedOf(v.lay)[p] == v.lay[p].size && Base(v)
    ensures OneTop(v.lay, h.top)
  {
    hide Base;
    LayoutOf(v);
    SizeRead(v, p);
    TopNonzero(v, h, segs, {});
    assert ChunkOk(v.lay, p);
  }

  /** The old block, kept whole. */
  lemma KeepMoved(v: View, h: Heads, segs: seq<Segment>, p: int, nb: int, n: int)
    requires HeapMid(v, h, segs, {}) && Freeable(v.lay, p) && p != v.ms && nb <= v.lay[p].size < nb + MIN_CHUNK_SIZE
    requires n <= v.lay[p].size - CHUNK_OVERHEAD
    ensures Moved(v, v, p, p, nb, n)
  {
    hide Base;
    ResizeReads(v, h, segs, p);
    assert UsedOf(v.lay)[p := v.lay[p].size] == UsedOf(v.lay);
    InPlaceMoved(v, v, h, h, segs, p, nb, n, v.lay[p].size);
  }

  /** The two blocks do not overlap. */
  lemma BlocksApart(v: View, oldp: int, p: int, n: int, nb: int)
    requires Base(v) && oldp in v.lay && p in v.lay && oldp != p && v.lay[oldp].kind.Used? && v.lay[p].kind.Used?
    requires n <= v.lay[oldp].size - CHUNK_OVERHEAD && n <= v.lay[p].size - CHUNK_OVERHEAD
    ensures oldp + 16 + n <= p + 16 || p + 16 + n <= oldp + 16
  {
    assert Apart(v.lay, oldp, p);
  }

  lemma CopyReady(v: View, v1: View, oldp: int, p: int, nb: int, n: int, r: int)
    requires Base(v) && Base(v1) && ServedWith(v, v1, p, nb, r) && Freeable(v.lay, oldp) && oldp != v.ms
    requires n <= v.lay[oldp].size - CHUNK_OVERHEAD && n <= nb - CHUNK_OVERHEAD
    ensures oldp + 16 + n <= p + 16 || p + 16 + n <= oldp + 16
    ensures Freeable(v1.lay, oldp) && Freeable(v1.lay, p) && oldp != p && v1.ms == v.ms
  {
    hide Base, PayloadSame, Frame;
    assert oldp in UsedOf(v.lay);
    assert oldp in UsedOf(v1.lay) && UsedOf(v1.lay)[oldp] == v.lay[oldp].size;
    BlocksApart(v1, oldp, p, n, nb);
  }
}
