/** What an allocation gives its caller, and the ghost steps behind growing the space. */
module Systems {
  import opened Words
  import opened Layouts
  import opened Canonical
  import opened Views
  import opened TagOps
  import opened FreeOps
  import opened Scratch
  import opened Segments
  import opened Areas
  import opened Sizes
  import opened Heaps
  import opened Gains
  import opened Frees
  import opened Carves
  import opened Regions
  import opened Growth

  /** The in-use chunks, with a segment record r unless it is 0. */
  ghost function Recorded(used: map<int, int>, r: int): map<int, int> {
    if r == 0 then used else used[r := SEGMENT_CHUNK_SIZE]
  }

  ghost predicate KeepsFreeable(L: Layout, L': Layout) {
    forall q {:trigger Freeable(L, q)} {:trigger Freeable(L', q)} :: Freeable(L, q) ==> Freeable(L', q)
  }

  ghost predicate FenceAt(L: Layout, p: int) {
    p in L && L[p].kind.Fence?
  }

  ghost predicate KeepsFences(L: Layout, L': Layout) {
    forall p {:trigger FenceAt(L, p)} {:trigger FenceAt(L', p)} :: FenceAt(L, p) ==> FenceAt(L', p)
  }

  /** The space has grown by system memory; r is the segment record this took, if any. */
  ghost predicate Grown(v: View, v': View, r: int) {
    && v'.ms == v.ms && UsedOf(v'.lay) == Recorded(UsedOf(v.lay), r)
    && (r != 0 ==> r !in UsedOf(v.lay) && FenceAt(v'.lay, r + SEGMENT_CHUNK_SIZE))
    && PayloadSame(UsedOf(v.lay), v.ms, v.mem, v'.mem) && KeepsFreeable(v.lay, v'.lay) && KeepsFences(v.lay, v'.lay)
    && Frame(v.lay, v'.lay, v.mem, v'.mem)
  }

  /**
   * A new chunk p in use serves nb; apart from it and at most one segment record, the in-use chunks are as they were.
   */
  ghost predicate ServedWith(v: View, v': View, p: int, nb: int, r: int) {
    && v'.ms == v.ms && Freeable(v'.lay, p) && p !in UsedOf(v.lay)
    && UsedOf(v'.lay) == Recorded(UsedOf(v.lay), r)[p := v'.lay[p].size]
    && (r != 0 ==> r !in UsedOf(v.lay) && r != p && FenceAt(v'.lay, r + SEGMENT_CHUNK_SIZE))
    && nb <= v'.lay[p].size < nb + MIN_CHUNK_SIZE
    && PayloadSame(UsedOf(v.lay), v.ms, v.mem, v'.mem) && KeepsFreeable(v.lay, v'.lay) && KeepsFences(v.lay, v'.lay)
    && Frame(v.lay, v'.lay, v.mem, v'.mem)
  }

  ghost predicate Served(v: View, v': View, p: int, nb: int) {
    exists r {:trigger ServedWith(v, v', p, nb, r)} :: ServedWith(v, v', p, nb, r)
  }

  // ----- which chunks may be freed

  lemma SameFences(L: Layout, L': Layout, t: int, t': int)
    requires t in L && t' in L' && ArenaOf(L, t) == ArenaOf(L', t')
    ensures forall p {:trigger FenceAt(L, p)} {:trigger FenceAt(L', p)} :: FenceAt(L, p) <==> FenceAt(L', p)
  {
    forall p ensures FenceAt(L, p) <==> FenceAt(L', p) {
      assert p in ArenaOf(L, t).fences <==> p in ArenaOf(L', t').fences;
    }
  }

  /** A chunk still in use before the same fences may still be freed. */
  lemma StillFreeable(L: Layout, L': Layout, q: int)
    requires Freeable(L, q) && LayoutOk(L') && q in UsedOf(L') && UsedOf(L')[q] == L[q].size
    requires FenceAt(L', q + L[q].size) ==> FenceAt(L, q + L[q].size)
    ensures Freeable(L', q)
  {
    assert ChunkOk(L', q);
  }

  /** Fences are preceded by in-use chunks, so a chunk newly in use is not followed by one. */
  lemma NewFreeable(L: Layout, L': Layout, t: int, t': int, p: int)
    requires Settled(L) && Settled(L') && t in L && t' in L' && ArenaOf(L, t) == ArenaOf(L', t')
    requires p in L' && L'[p].kind.Used? && UsedOf(L') == UsedOf(L)[p := L'[p].size] && p !in UsedOf(L)
    ensures Freeable(L', p)
  {
    var n := p + L'[p].size;
    assert ChunkOk(L', p) && ChunkOk(L', n);
    SameFences(L, L', t, t');
    if FenceAt(L', n) {
      assert FenceAt(L, n) && ChunkOk(L, n) && NoAdj1(L, n);
      assert n in ArenaOf(L, t).bases <==> n in ArenaOf(L', t').bases;
      var r := L[n].prev;
      assert r in UsedOf(L) && r in UsedOf(L') && r + L[r].size == n;
      EndsDiffer(L', p, r);
    }
  }

  lemma EndsDiffer(L: Layout, p: int, r: int)
    requires LayoutOk(L) && p in L && r in L && p != r && L[p].kind.Used? && L[r].kind.Used?
    ensures p + L[p].size != r + L[r].size
  {
    assert Apart(L, p, r) && ChunkOk(L, p) && ChunkOk(L, r);
  }

  lemma GainedServes(v: View, h: Heads, v': View, h': Heads, p: int, nb: int)
    requires Steady(v) && Steady(v') && Gained(v, h, v', h', p, nb)
    ensures ServedWith(v, v', p, nb, 0)
  {
    hide PayloadSame, Frame;
    SettledOf(v);
    SettledOf(v');
    NewFreeable(v.lay, v'.lay, h.top, h'.top, p);
    SameFences(v.lay, v'.lay, h.top, h'.top);
    forall q | Freeable(v.lay, q) ensures Freeable(v'.lay, q) {
      assert q in UsedOf(v.lay);
      StillFreeable(v.lay, v'.lay, q);
    }
  }

  lemma SettledOf(v: View)
    requires Steady(v)
    ensures Settled(v.lay)
  {}

  /** Growing and then taking a chunk of the grown space. */
  lemma GrownServes(v: View, v1: View, v2: View, p: int, nb: int, r: int)
    requires Grown(v, v1, r) && ServedWith(v1, v2, p, nb, 0)
    ensures ServedWith(v, v2, p, nb, r)
  {
    hide PayloadSame, Frame;
    PayloadSub(UsedOf(v1.lay), UsedOf(v.lay), v.ms, v1.mem, v2.mem);
    PayloadTrans(UsedOf(v.lay), v.ms, v.mem, v1.mem, v2.mem);
    FrameTrans(v.lay, v1.lay, v2.lay, v.mem, v1.mem, v2.mem);
    if r != 0 {
      assert r in UsedOf(v1.lay) && UsedOf(v1.lay)[r] == SEGMENT_CHUNK_SIZE;
      assert r in UsedOf(v2.lay);
    }
  }

  // ----- appending to top's segment

  lemma ExtendGrown(v: View, h: Heads, segs: seq<Segment>, i: int, size: int)
    requires HeapMid(v, h, segs, {}) && HoldsTop(segs, i, h.top) && Fresh(segs, segs[i].End(), size)
      && TOP_FOOT_SIZE <= size
    ensures var n := h.topsize + size;
      var v' := v.(mem := ExtendMem(v.mem, h.top, n), lay := Extended(v.lay, h.top, size));
      HeapMid(v', h.(topsize := n), Appended(segs, i, size), {}) && Grown(v, v', 0)
  {
    hide Base, PayloadSame, Frame;
    ExtendHeap(v, h, segs, i, size);
  }

  // ----- a segment of its own: old top becomes a record, fenceposts and, if large enough, a free chunk

  /** Where the segment record goes: the last bytes before the fenceposts, or old top itself when that is too small. */
  ghost function RecordChunk(h: Heads): int {
    if h.topsize < MIN_CHUNK_SIZE then h.top else h.top + h.topsize
  }

  /** The new top, the record's head and the fenceposts. */
  ghost predicate AddWritten(v: View, mem': Mem, h: Heads, s: Segment) {
    var t, csp := h.top, RecordChunk(h);
    && t in v.lay && RegionTouch(v.lay, v.mem, mem', s.base, s.size, t)
    && Rd(mem', csp + 8) == SEGMENT_CHUNK_SIZE + 3
    && (forall a {:trigger FenceHead(mem', a)} | csp + SEGMENT_CHUNK_SIZE + 8 <= a < t + v.lay[t].Extent()
       && a % 8 == 0 :: FenceHead(mem', a))
    && Rd(mem', s.base + 8) == s.size - TOP_FOOT_SIZE + 1
       && Rd(mem', s.base + s.size - TOP_FOOT_SIZE + 8) == TOP_FOOT_SIZE
  }

  ghost predicate Adding(v: View, mem': Mem, h: Heads, segs: seq<Segment>, s: Segment) {
    HeapMid(v, h, segs, {}) && Fresh(segs, s.base, s.size) && TOP_FOOT_SIZE < s.size && AddWritten(v, mem', h, s)
  }

  ghost function NewHeads(h: Heads, s: Segment): Heads {
    h.(top := s.base, topsize := s.size - TOP_FOOT_SIZE)
  }

  /** The fences added are behind the record, so only the record loses the right to be freed. */
  lemma RetiredKeeps(L: Layout, L': Layout, t: int, s: Segment, k: int, r: int)
    requires Retirable(L, t, s.base, s.size, k) && LayoutOk(L') && r in UsedOf(L') && r !in UsedOf(L)
    requires r + UsedOf(L')[r] == t + k
    requires forall p {:trigger FenceAt(L', p)} :: FenceAt(L', p) <==> FenceAt(Retired(L, t, s.base, s.size, k), p)
    requires forall q {:trigger q in UsedOf(L)} :: q in UsedOf(L) ==> q in UsedOf(L') && UsedOf(L')[q] == UsedOf(L)[q]
    ensures KeepsFreeable(L, L') && KeepsFences(L, L') && FenceAt(L', t + k)
  {
    RetireFresh(L, t, s.base, s.size, k);
    forall q | Freeable(L, q) ensures Freeable(L', q) {
      assert q in UsedOf(L);
      EndsDiffer(L', q, r);
      StillFreeable(L, L', q);
    }
    forall p | FenceAt(L, p) ensures FenceAt(L', p) {
      assert FenceAt(Retired(L, t, s.base, s.size, k), p);
    }
  }

  /** Old top is too small to be a chunk beside the record: the record takes its place. */
  lemma AddShort(v: View, mem': Mem, h: Heads, segs: seq<Segment>, s: Segment)
    requires Adding(v, mem', h, segs, s) && h.topsize < MIN_CHUNK_SIZE
    ensures var v' := v.(mem := mem', lay := Retired(v.lay, h.top, s.base, s.size, SEGMENT_CHUNK_SIZE));
      HeapMid(v', NewHeads(h, s), [s] + segs, {}) && Grown(v, v', h.top)
  {
    hide Base, PayloadSame, Frame;
    var k := SEGMENT_CHUNK_SIZE;
    TopNonzero(v, h, segs, {});
    RetireHeap(v, mem', h, segs, s, k);
    LayoutOf(v);
    FreshClear(v.lay, segs, s.base, s.size);
    var v' := v.(mem := mem', lay := Retired(v.lay, h.top, s.base, s.size, k));
    LayoutOf(v');
    RetiredKeeps(v.lay, v'.lay, h.top, s, k, h.top);
  }

  // The ghost steps when old top is large enough: one chunk in use, cut in two, the first freed.

  ghost function Step1(v: View, mem': Mem, h: Heads, s: Segment): View
    requires h.top in v.lay
  {
    var k := h.topsize + SEGMENT_CHUNK_SIZE;
    v.(mem := mem'[h.top + 8 := k + 3], lay := Retired(v.lay, h.top, s.base, s.size, k))
  }

  ghost function Step2(v: View, mem': Mem, h: Heads, s: Segment): View
    requires h.top in v.lay
  {
    var v1 := Step1(v, mem', h, s);
    if h.top in v1.lay then Carved(v1, v1.mem[h.top + 8 := h.topsize + 3], h.top, h.topsize) else v1
  }

  lemma Step1Written(v: View, mem': Mem, h: Heads, segs: seq<Segment>, s: Segment)
    requires Adding(v, mem', h, segs, s) && MIN_CHUNK_SIZE <= h.topsize
    ensures var t, k := h.top, h.topsize + SEGMENT_CHUNK_SIZE;
      RetireWritten(v, mem'[t + 8 := k + 3], t, s.base, s.size, k)
  {
    hide Base, PayloadSame, Frame;
    var t, k := h.top, h.topsize + SEGMENT_CHUNK_SIZE;
    LayoutOf(v);
    FreshClear(v.lay, segs, s.base, s.size);
    assert Clear1(v.lay, t, s.base, s.size);
    var m := mem'[t + 8 := k + 3];
    forall a | t + k + 8 <= a < t + v.lay[t].Extent() && a % 8 == 0 ensures FenceHead(m, a) {
      assert FenceHead(mem', a);
    }
    assert Own(v.lay, t, t + 8);
    forall a ensures Rd(m, a) == Rd(v.mem, a) || s.base + 8 <= a < s.base + s.size || Own(v.lay, t, a) {
      assert a != t + 8 ==> Rd(m, a) == Rd(mem', a);
    }
    assert Rd(m, s.base + 8) == s.size - TOP_FOOT_SIZE + 1;
    assert Rd(m, s.base + s.size - TOP_FOOT_SIZE + 8) == TOP_FOOT_SIZE;
  }

  lemma AddStep1(v: View, mem': Mem, h: Heads, segs: seq<Segment>, s: Segment)
    requires Adding(v, mem', h, segs, s) && MIN_CHUNK_SIZE <= h.topsize
    ensures var v1, t, k := Step1(v, mem', h, s), h.top, h.topsize + SEGMENT_CHUNK_SIZE;
      && HeapMid(v1, NewHeads(h, s), [s] + segs, {}) && t in v1.lay && v1.lay[t].kind.Used? && v1.lay[t].size == k
      && UsedOf(v1.lay) == UsedOf(v.lay)[t := k] && t !in UsedOf(v.lay) && t != v.ms
      && PayloadSame(UsedOf(v.lay), v.ms, v.mem, v1.mem) && Frame(v.lay, v1.lay, v.mem, v1.mem)
      && 0 < t && t % 8 == 0 && h.topsize % 8 == 0 && Pin(v1.lay, t)
         && Rd(v1.mem, t + h.topsize + 8) == SEGMENT_CHUNK_SIZE + 3
      && Retirable(v.lay, t, s.base, s.size, k)
  {
    hide Base, PayloadSame, Frame;
    var t, k := h.top, h.topsize + SEGMENT_CHUNK_SIZE;
    TopNonzero(v, h, segs, {});
    LayoutOf(v);
    FreshClear(v.lay, segs, s.base, s.size);
    assert NoAdj1(v.lay, t);
    RetiredPin(v.lay, t, s.base, s.size, k, t);
    RetireFresh(v.lay, t, s.base, s.size, k);
    var m := mem'[t + 8 := k + 3];
    Step1Written(v, mem', h, segs, s);
    RetireHeap(v, m, h, segs, s, k);
  }

  lemma Step1Carves(v: View, mem': Mem, h: Heads, segs: seq<Segment>, s: Segment)
    requires h.top in v.lay && Adding(v, mem', h, segs, s) && MIN_CHUNK_SIZE <= h.topsize
    ensures var v1, t, n := Step1(v, mem', h, s), h.top, h.topsize;
      && t in v1.lay && v1.mem[t + 8 := n + 3] == mem'[t + 8 := n + 3]
      && Carvable(v1, t, n) && CarveWritten(v1, mem'[t + 8 := n + 3], t, n) && v1.lay[t].size == n + SEGMENT_CHUNK_SIZE
  {
    hide Base, PayloadSame, Frame, Retirable, Adding;
    AddStep1(v, mem', h, segs, s);
    var v1, t, n := Step1(v, mem', h, s), h.top, h.topsize;
    assert v1.mem[t + 8 := n + 3] == mem'[t + 8 := n + 3];
  }

  /** Where the second step leaves memory, the chunks in use and the heads. */
  lemma AddStep2(v: View, mem': Mem, h: Heads, segs: seq<Segment>, s: Segment)
    requires h.top in v.lay && Adding(v, mem', h, segs, s) && MIN_CHUNK_SIZE <= h.topsize
    ensures var v1, v2, t, n := Step1(v, mem', h, s), Step2(v, mem', h, s), h.top, h.topsize;
      && t in v1.lay && v2 == Carved(v1, mem'[t + 8 := n + 3], t, n)
      && HeapMid(v2, NewHeads(h, s), [s] + segs, {})
      && UsedOf(v2.lay) == UsedOf(v.lay)[t := n][t + n := SEGMENT_CHUNK_SIZE] && t + n !in UsedOf(v1.lay)
      && PayloadSame(UsedOf(v.lay), v.ms, v.mem, v2.mem) && Frame(v.lay, v2.lay, v.mem, v2.mem)
      && s.base in v2.lay && s.base in v1.lay && ArenaOf(v2.lay, s.base) == ArenaOf(v1.lay, s.base)
  {
    hide Base, PayloadSame, Frame, Retirable, HeapMid, Adding, Carvable, CarveWritten, Split;
    var t, n, v1 := h.top, h.topsize, Step1(v, mem', h, s);
    var m := mem'[t + 8 := n + 3];
    AddStep1(v, mem', h, segs, s);
    Step1Carves(v, mem', h, segs, s);
    CarveHeap(v1, m, NewHeads(h, s), [s] + segs, {}, t, n);
    PayloadSub(UsedOf(v1.lay)[t := n], UsedOf(v.lay), v.ms, v1.mem, m);
    PayloadTrans(UsedOf(v.lay), v.ms, v.mem, v1.mem, m);
    FrameTrans(v.lay, v1.lay, Step2(v, mem', h, s).lay, v.mem, v1.mem, m);
    HeadsKnown(v1, NewHeads(h, s), [s] + segs, {});
    HeadsKnown(Step2(v, mem', h, s), NewHeads(h, s), [s] + segs, {});
  }

  lemma HeadsKnown(v: View, h: Heads, segs: seq<Segment>, x: set<int>)
    requires HeapMid(v, h, segs, x)
    ensures OneTop(v.lay, h.top) && (h.dv != 0 ==> FreeAt(v.lay, h.dv, h.dvsize))
  {
    hide Base;
  }

  /** What the second step leaves where old top was. */
  lemma Step2Chunks(v: View, mem': Mem, h: Heads, segs: seq<Segment>, s: Segment)
    requires h.top in v.lay && Adding(v, mem', h, segs, s) && MIN_CHUNK_SIZE <= h.topsize
    ensures var v2, t, n := Step2(v, mem', h, s), h.top, h.topsize;
      && t in v2.lay && v2.lay[t].kind.Used? && v2.lay[t].size == n && Pin(v2.lay, t) && v2.ms == v.ms && t != v.ms
      && t + n in v2.lay && v2.lay[t + n].kind.Used? && t > 0
  {
    hide Base, PayloadSame, Frame, Retirable, HeapMid, Adding, CarveWritten;
    var t, n, v1 := h.top, h.topsize, Step1(v, mem', h, s);
    AddStep1(v, mem', h, segs, s);
    Step1Carves(v, mem', h, segs, s);
    LayoutOf(v1);
    SplitFresh(v1.lay, t, n);
    CarvePins(v1, t, n, t);
  }

  ghost function Step3(v: View, mem': Mem, h: Heads, s: Segment): View
    requires h.top in v.lay
  {
    var v2 := Step2(v, mem', h, s);
    if Freeable(v2.lay, h.top) then Released(v2, FreeMemPin(mem', h.top, h.topsize), h.top) else v2
  }

  /** Freeing a chunk between two in-use chunks merges nothing. */
  lemma LoneFree(v: View, h: Heads, p: int, n: int)
    requires p in v.lay && v.lay[p].kind.Used? && v.lay[p].size == n && Pin(v.lay, p) && p + n in v.lay
      && v.lay[p + n].kind.Used?
    requires h.dv != 0 ==> FreeAt(v.lay, h.dv, h.dvsize)
    requires p != 0 && p + n != 0
    ensures Freeable(v.lay, p) && Unlinked(v.lay, h, p) == {} && Unbinnable(v.lay, h, p) == {p}
    ensures FreedHeads(v.lay, h, p) == h && FreedStart(v.lay, p) == p && FreedSize(v.lay, p) == n
  {}

  lemma LoneWrites(v: View, p: int, n: int)
    requires p in v.lay && v.lay[p].kind.Used? && v.lay[p].size == n && Pin(v.lay, p) && p + n in v.lay
      && v.lay[p + n].kind.Used?
    requires n >= MIN_CHUNK_SIZE
    ensures Freeable(v.lay, p)
    ensures FreeWritten(v, FreeMemPin(v.mem, p, n), p)
  {}

  lemma Step2Ready(v: View, mem': Mem, h: Heads, segs: seq<Segment>, s: Segment)
    requires h.top in v.lay && Adding(v, mem', h, segs, s) && MIN_CHUNK_SIZE <= h.topsize
    ensures var v2, t, h2 := Step2(v, mem', h, s), h.top, NewHeads(h, s);
      && FreeReady(v2, h2, [s] + segs, t)
      && Unbinnable(v2.lay, h2, t) == {t} && FreedHeads(v2.lay, h2, t) == h2 && FreedStart(v2.lay, t) == t
         && FreedSize(v2.lay, t) == h.topsize
  {
    hide Base, PayloadSame, Frame, Retirable, HeapMid, Adding, Step2, Step1;
    var v2, t, n, h2 := Step2(v, mem', h, s), h.top, h.topsize, NewHeads(h, s);
    AddStep2(v, mem', h, segs, s);
    Step2Chunks(v, mem', h, segs, s);
    HeadsKnown(v2, h2, [s] + segs, {});
    LoneFree(v2, h2, t, n);
  }

  lemma Step2Written(v: View, mem': Mem, h: Heads, segs: seq<Segment>, s: Segment)
    requires h.top in v.lay && Adding(v, mem', h, segs, s) && MIN_CHUNK_SIZE <= h.topsize
    ensures var v2 := Step2(v, mem', h, s);
      Freeable(v2.lay, h.top) && FreeWritten(v2, FreeMemPin(mem', h.top, h.topsize), h.top)
  {
    hide Base, PayloadSame, Frame, Retirable, HeapMid, Adding, Step2, Step1, FreeWritten, FreeMemPin;
    var v2, t, n := Step2(v, mem', h, s), h.top, h.topsize;
    AddStep2(v, mem', h, segs, s);
    Step2Chunks(v, mem', h, segs, s);
    LoneWrites(v2, t, n);
    HeadOverwritten(mem', t, n, n + 3);
  }

  lemma HeadOverwritten(mem: Mem, t: int, n: int, w: int)
    requires n >= MIN_CHUNK_SIZE
    ensures FreeMemPin(mem[t + 8 := w], t, n) == FreeMemPin(mem, t, n)
  {
    assert Rd(mem[t + 8 := w], t + n + 8) == Rd(mem, t + n + 8);
  }

  lemma Step3Used(v: View, mem': Mem, h: Heads, segs: seq<Segment>, s: Segment)
    requires h.top in v.lay && Adding(v, mem', h, segs, s) && MIN_CHUNK_SIZE <= h.topsize
    ensures var v2, v3, csp := Step2(v, mem', h, s), Step3(v, mem', h, s), h.top + h.topsize;
      && HeapMid(v3, NewHeads(h, s), [s] + segs, {h.top}) && FreeAt(v3.lay, h.top, h.topsize)
      && v3.mem == FreeMemPin(mem', h.top, h.topsize) && v3.ms == v.ms
      && UsedOf(v3.lay) == UsedOf(v.lay)[csp := SEGMENT_CHUNK_SIZE] && csp !in UsedOf(v.lay)
      && PayloadSame(UsedOf(v.lay), v.ms, v.mem, v3.mem) && Frame(v.lay, v3.lay, v.mem, v3.mem)
      && s.base in Step1(v, mem', h, s).lay && s.base in v3.lay
         && ArenaOf(v3.lay, s.base) == ArenaOf(Step1(v, mem', h, s).lay, s.base)
  {
    hide Base, PayloadSame, Frame, Retirable, FreeWritten, Freed, HeapMid, Adding, Step2, Step1;
    var v2, v3, t, n, h2 := Step2(v, mem', h, s), Step3(v, mem', h, s), h.top, h.topsize, NewHeads(h, s);
    AddStep1(v, mem', h, segs, s);
    AddStep2(v, mem', h, segs, s);
    Step2Ready(v, mem', h, segs, s);
    Step2Written(v, mem', h, segs, s);
    Step2Chunks(v, mem', h, segs, s);
    FreeHeap(v2, FreeMemPin(mem', h.top, h.topsize), h2, [s] + segs, t);
    FreedChunkAt(v2, h2, [s] + segs, t);
    assert UsedOf(v3.lay) == UsedOf(v.lay)[t + n := SEGMENT_CHUNK_SIZE];
    PayloadSub(UsedOf(v3.lay), UsedOf(v.lay), v.ms, v2.mem, v3.mem);
    PayloadTrans(UsedOf(v.lay), v.ms, v.mem, v2.mem, v3.mem);
    FrameTrans(v.lay, v2.lay, v3.lay, v.mem, v2.mem, v3.mem);
  }

  lemma Step3Frame(v: View, mem': Mem, h: Heads, s: Segment)
    requires h.top in v.lay
    ensures var v3 := Step3(v, mem', h, s); v3 == v.(mem := v3.mem, lay := v3.lay, out := v3.out)
  {
    hide Retired, Split, Freed;
  }

  /** Old top is large enough: its front becomes a free chunk, yet to be binned. */
  lemma AddLong(v: View, mem': Mem, h: Heads, segs: seq<Segment>, s: Segment)
    requires h.top in v.lay && Adding(v, mem', h, segs, s) && MIN_CHUNK_SIZE <= h.topsize
    ensures var v3 := Step3(v, mem', h, s);
      && HeapMid(v3, NewHeads(h, s), [s] + segs, {h.top}) && FreeAt(v3.lay, h.top, h.topsize)
      && v3.mem == FreeMemPin(mem', h.top, h.topsize) && Grown(v, v3, h.top + h.topsize)
  {
    hide Base, PayloadSame, Frame, Retirable, HeapMid, Adding, Step3;
    var v3, t, n := Step3(v, mem', h, s), h.top, h.topsize;
    AddStep1(v, mem', h, segs, s);
    Step3Used(v, mem', h, segs, s);
    MidBase(v3, NewHeads(h, s), [s] + segs, {t});
    LayoutOf(v3);
    SameFences(Step1(v, mem', h, s).lay, v3.lay, s.base, s.base);
    RetiredKeeps(v.lay, v3.lay, t, s, n + SEGMENT_CHUNK_SIZE, t + n);
  }

  /** Where top ends, and the segment that holds it. */
  lemma TopPlace(v: View, h: Heads, segs: seq<Segment>, i: nat)
    requires HeapMid(v, h, segs, {}) && i <= |segs|
    requires i < |segs| ==> segs[i].base <= h.top < segs[i].End()
    requires forall j {:trigger segs[j]} | 0 <= j < i :: !(segs[j].base <= h.top < segs[j].End())
    ensures i < |segs| && HoldsTop(segs, i, h.top) && segs[i].End() == h.top + h.topsize + TOP_FOOT_SIZE
    ensures 0 < h.top && h.top % 8 == 0 && 0 < h.topsize && h.topsize % 8 == 0
  {
    hide Base;
    LayoutOf(v);
    TopNonzero(v, h, segs, {});
    assert Hosted(v.lay, segs, h.top);
    var j :| Hosts(v.lay, segs, j, h.top);
    assert segs[j].base <= h.top < segs[j].End();
    TopHosted(v.lay, segs, i, h.top);
  }

  /** The writes of adding a segment, up to the fenceposts. */
  lemma AddWrites(v: View, m1: Mem, m2: Mem, h: Heads, segs: seq<Segment>, s: Segment)
    requires HeapMid(v, h, segs, {}) && Fresh(segs, s.base, s.size) && TOP_FOOT_SIZE < s.size
    requires m1 == ExtendMem(v.mem, s.base, s.size - TOP_FOOT_SIZE)[RecordChunk(h) + 8 := SEGMENT_CHUNK_SIZE + 3]
    requires FencesWritten(m1, m2, RecordChunk(h) + SEGMENT_CHUNK_SIZE + 8, h.top + h.topsize + TOP_FOOT_SIZE)
    ensures h.top in v.lay && Adding(v, m2, h, segs, s)
  {
    hide Base;
    LayoutOf(v);
    TopNonzero(v, h, segs, {});
    FreshClear(v.lay, segs, s.base, s.size);
    assert Clear1(v.lay, h.top, s.base, s.size);
    forall a ensures Rd(m2, a) == Rd(v.mem, a) || s.base + 8 <= a < s.base + s.size || Own(v.lay, h.top, a) {}
  }

  lemma GrownAround(v: View, v1: View, v2: View, r: int)
    requires Grown(v, v1, r) && v2.lay == v1.lay && v2.ms == v1.ms && PayloadSame(UsedOf(v1.lay), v1.ms, v1.mem, v2.mem)
      && Frame(v1.lay, v1.lay, v1.mem, v2.mem)
    ensures Grown(v, v2, r)
  {
    hide PayloadSame, Frame;
    PayloadSub(UsedOf(v1.lay), UsedOf(v.lay), v.ms, v1.mem, v2.mem);
    PayloadTrans(UsedOf(v.lay), v.ms, v.mem, v1.mem, v2.mem);
    FrameTrans(v.lay, v1.lay, v2.lay, v.mem, v1.mem, v2.mem);
  }

  /** The place the padded record gets: as close to the end of the segment as fenceposts allow. */
  lemma RecordPlace(h: Heads)
    requires h.top % 8 == 0 && h.topsize % 8 == 0 && 0 < h.topsize
    ensures PadRequest(32) == SEGMENT_CHUNK_SIZE
    ensures var end := h.top + h.topsize + TOP_FOOT_SIZE;
      var rawsp := end - (SEGMENT_CHUNK_SIZE + 4 * 8 + 7);
      var asp := rawsp + AlignOffset(rawsp + 16);
      && RecordChunk(h) == (if asp < h.top + MIN_CHUNK_SIZE then h.top else asp)
      && end % 8 == 0 && (RecordChunk(h) + SEGMENT_CHUNK_SIZE) % 8 == 0
         && RecordChunk(h) + SEGMENT_CHUNK_SIZE + 24 <= end
  {
    PadRecord();
    AlignDown(h.top + h.topsize);
  }

  lemma PadRecord()
    ensures PadRequest(32) == SEGMENT_CHUNK_SIZE
  {}

  /** Seven bytes below a multiple of eight, aligning goes up to it. */
  lemma AlignDown(e: int)
    requires e % 8 == 0
    ensures AlignOffset(e - 7 + 16) == 7
  {}
}
