/**
 * What decides the answers of a space: its layout, its heads, its bins in order, and its segments; and what each
 * operation makes of them.
 */
module Pools {
  import opened Words
  import opened Layouts
  import opened Tries
  import opened Sizes
  import opened Keys
  import opened Views
  import opened FreeOps
  import opened Segments
  import opened Heaps
  import opened Frees
  import opened Regions
  import opened Growth
  import opened Canonical
  import opened Carves
  import opened Systems
  import opened Prepends
  import opened Memaligns
  import opened Stretches

  /** The binned chunks, in the order the bins keep them. */
  datatype Bins = Bins(sb: seq<seq<int>>, tb: seq<Tree>)

  datatype Pool = Pool(lay: Layout, h: Heads, bins: Bins, segs: seq<Segment>)

  // ----- one bin

  /** The tree bin of a size. */
  ghost predicate TrieAt(b: Bins, s: int) {
    0 <= TreeIndex(s) < |b.tb| && WF(b.tb[TreeIndex(s)], TreeLo(TreeIndex(s)), TreeBit(TreeIndex(s)))
  }

  /** Chunk p of s bytes goes into its bin: a small one to the front, a large one into the trie. */
  ghost function Filed(b: Bins, p: int, s: int): Bins {
    var i, j := s / 8, TreeIndex(s);
    if s < MIN_LARGE_SIZE then if 0 <= i < |b.sb| then b.(sb := b.sb[i := [p] + b.sb[i]]) else b
    else if TrieAt(b, s) then b.(tb := b.tb[j := Insert(b.tb[j], p, s, TreeLo(j), TreeBit(j))])
    else b
  }

  /** Chunk p of s bytes comes out of its bin. */
  ghost function Drawn(b: Bins, p: int, s: int): Bins {
    var i, j := s / 8, TreeIndex(s);
    if s < MIN_LARGE_SIZE then
      if 0 <= i < |b.sb| && p in b.sb[i] then b.(sb := b.sb[i := DropAt(b.sb[i], IndexOf(b.sb[i], p))]) else b
    else if TrieAt(b, s) then b.(tb := b.tb[j := Remove(b.tb[j], p, s, TreeLo(j), TreeBit(j))])
    else b
  }

  /** Chunk p is the one its bin offers among those of s bytes: the first of a small bin, or a node of a trie. */
  ghost predicate Front(b: Bins, p: int, s: int) {
    if s < MIN_LARGE_SIZE then 0 <= s / 8 < |b.sb| && b.sb[s / 8] != [] && b.sb[s / 8][0] == p
    else 0 <= TreeIndex(s) < |b.tb| && Leads(b.tb[TreeIndex(s)], p, s)
  }

  // ----- taking a chunk

  /** The front nb bytes of chunk p, or all of it when less than a minimal chunk would be left. */
  ghost function TakenLayout(L: Layout, h: Heads, nb: int, p: int): Layout
    requires p in L
  {
    if p == h.top || MIN_CHUNK_SIZE <= L[p].size - nb then Split(L, p, nb, Used) else SetKind(L, p, Used)
  }

  /** A remainder of the victim stays the victim; one of a small request becomes it; one of top stays top. */
  ghost function TakenHeads(L: Layout, h: Heads, nb: int, p: int): Heads
    requires p in L
  {
    var r := L[p].size - nb;
    if p == h.top then h.(top := p + nb, topsize := r)
    else if MIN_CHUNK_SIZE <= r && (nb < MIN_LARGE_SIZE || p == h.dv) then h.(dv := p + nb, dvsize := r)
    else if p == h.dv then h.(dv := 0, dvsize := 0)
    else h
  }

  /** The chunk leaves its bin; a replaced victim, or the remainder of a large request, goes to its own. */
  ghost function TakenBins(b: Bins, h: Heads, nb: int, p: int, s: int): Bins {
    if p == h.top || p == h.dv then b
    else if s - nb < MIN_CHUNK_SIZE then Drawn(b, p, s)
    else if nb >= MIN_LARGE_SIZE then Filed(Drawn(b, p, s), p + nb, s - nb)
    else if h.dvsize != 0 then Filed(Drawn(b, p, s), h.dv, h.dvsize)
    else Drawn(b, p, s)
  }

  ghost function Taken(P: Pool, nb: int, p: int): Pool
    requires p in P.lay
  {
    Pool(TakenLayout(P.lay, P.h, nb, p), TakenHeads(P.lay, P.h, nb, p),
      TakenBins(P.bins, P.h, nb, p, P.lay[p].size), P.segs)
  }

  // ----- giving a chunk back

  /** A free neighbour that is not the victim leaves its bin: the one before p, and the one behind. */
  ghost function BackDrawn(L: Layout, b: Bins, h: Heads, p: int): Bins
    requires Freeable(L, p)
  {
    var lo := FreedStart(L, p);
    if lo != p && lo != h.dv && lo in L then Drawn(b, lo, L[lo].size) else b
  }

  ghost function NextDrawn(L: Layout, b: Bins, h: Heads, p: int): Bins
    requires Freeable(L, p)
  {
    var n := After(L, p);
    if L[n].kind.Free? && n != h.dv then Drawn(b, n, L[n].size) else b
  }

  /** The coalesced chunk goes to its bin, unless top or the victim took it. */
  ghost function GivenBins(L: Layout, b: Bins, h: Heads, p: int): Bins
    requires Freeable(L, p)
  {
    if Unbinnable(L, h, p) == {} then b else Filed(b, FreedStart(L, p), FreedSize(L, p))
  }

  ghost function Given(P: Pool, p: int): Pool
    requires Freeable(P.lay, p)
  {
    Pool(Freed(P.lay, p), FreedHeads(P.lay, P.h, p),
      GivenBins(P.lay, NextDrawn(P.lay, BackDrawn(P.lay, P.bins, P.h, p), P.h, p), P.h, p), P.segs)
  }

  ghost function GivenIf(P: Pool, p: int): Pool {
    if Freeable(P.lay, p) then Given(P, p) else P
  }

  /** An in-use chunk cut in two in-use chunks. */
  ghost function CutAt(P: Pool, p: int, n: int): Pool
    requires p in P.lay
  {
    P.(lay := Split(P.lay, p, n, Used))
  }

  /** Chunk p at nb bytes where it is: its tail given back if that is a chunk, or its end moved into top. */
  ghost function InPlace(P: Pool, p: int, nb: int): Pool
    requires p in P.lay
  {
    var s := P.lay[p].size;
    if s < nb && p + s in P.lay then
      P.(lay := Stretched(P.lay, p, nb), h := P.h.(top := p + nb, topsize := s + P.h.topsize - nb))
    else if MIN_CHUNK_SIZE <= s - nb then GivenIf(CutAt(P, p, nb), p + nb)
    else P
  }

  lemma InPlaceKept(P: Pool, p: int, nb: int)
    requires p in P.lay && nb <= P.lay[p].size < nb + MIN_CHUNK_SIZE
    ensures InPlace(P, p, nb) == P
  {}

  /** Chunk p0 cut to nb bytes from its aligned spot; a leader and a trailer are given back. */
  ghost function Trimmed(P: Pool, p0: int, a: int, nb: int): Pool
    requires p0 in P.lay
  {
    var p := AlignedSpot(p0, a);
    var P1 := if p == p0 then P else CutAt(P, p0, p - p0);
    var tail := p in P1.lay && nb + MIN_CHUNK_SIZE < P1.lay[p].size;
    var P2 := if tail then CutAt(P1, p, nb) else P1;
    var P3 := if p == p0 then P2 else GivenIf(P2, p0);
    if tail then GivenIf(P3, p + nb) else P3
  }

  /** The trimming, step by step. */
  lemma TrimmedIs(P: Pool, P1: Pool, P2: Pool, P3: Pool, P4: Pool, p0: int, a: int, nb: int, p: int, tail: bool)
    requires p0 in P.lay && p == AlignedSpot(p0, a) && p in P1.lay && (tail <==> nb + MIN_CHUNK_SIZE < P1.lay[p].size)
    requires P1 == if p == p0 then P else CutAt(P, p0, p - p0)
    requires P2 == if tail then CutAt(P1, p, nb) else P1
    requires P3 == if p == p0 then P2 else GivenIf(P2, p0)
    requires P4 == if tail then GivenIf(P3, p + nb) else P3
    ensures P4 == Trimmed(P, p0, a, nb)
  {
    hide AlignedSpot, GivenIf, CutAt;
  }

  /** A chunk of the pool is taken for a request of nb; a binned one is the one its bin offers. */
  ghost predicate Took(P: Pool, P': Pool, nb: int, p: int) {
    && p in P.lay && P' == Taken(P, nb, p)
    && (p != P.h.top && p != P.h.dv ==> Front(P.bins, p, P.lay[p].size))
  }

  /**
   * The heads alone: what is left of the victim, or of a chunk cut for a small request, is the victim afterwards, and
   * what is left of top is top.
   */
  ghost predicate HeadsMove(L: Layout, h: Heads, h': Heads, nb: int, p: int) {
    && p in L
    && var r := L[p].size - nb;
    && h'.top == (if p == h.top then h.top + nb else h.top)
    && h'.topsize == (if p == h.top then h.topsize - nb else h.topsize)
    && (L[p].kind.Free? && 32 <= r && (nb < 256 || p == h.dv) ==> h'.dv == p + nb && h'.dvsize == r)
    && (L[p].kind.Free? && !(32 <= r && (nb < 256 || p == h.dv)) && p == h.dv ==> h'.dv == 0 && h'.dvsize == 0)
    && (L[p].kind.Free? && !(32 <= r && (nb < 256 || p == h.dv)) && p != h.dv ==>
       h'.dv == h.dv && h'.dvsize == h.dvsize)
    && (L[p].kind.Top? ==> h'.dv == h.dv && h'.dvsize == h.dvsize)
  }

  lemma TookHeads(v: View, h: Heads, segs: seq<Segment>, P': Pool, nb: int, p: int)
    requires HeapMid(v, h, segs, {}) && Took(PoolOf(v, h, segs), P', nb, p)
    ensures HeadsMove(v.lay, h, P'.h, nb, p)
  {
    hide Base, SegmentsOk;
  }

  /** A victim that is replaced goes to its bin. */
  ghost predicate OldVictimBinned(v: View, h: Heads, v': View, h': Heads, p: int) {
    h.dv != 0 && h.dv != p && h'.dv != h.dv ==> FreeAt(v'.lay, h.dv, h.dvsize) && Binned(v'.sb, v'.tb, h.dv, h.dvsize)
  }

  lemma ReplacedBinned(v: View, h: Heads, v': View, h': Heads, segs: seq<Segment>, nb: int, p: int)
    requires HeapMid(v, h, segs, {}) && HeapMid(v', h', segs, {}) && 0 < nb
    requires Took(PoolOf(v, h, segs), PoolOf(v', h', segs), nb, p)
    ensures OldVictimBinned(v, h, v', h', p)
  {
    hide Base, SegmentsOk, Front;
    if h.dv != 0 && h.dv != p && h'.dv != h.dv {
      LayoutOf(v);
      SplitFresh(v.lay, p, nb);
      InBin(v', h.dv, h.dvsize);
    }
  }

  lemma TookVictim(v: View, h: Heads, v': View, h': Heads, segs: seq<Segment>, nb: int, p: int)
    requires HeapMid(v, h, segs, {}) && HeapMid(v', h', segs, {}) && 0 < nb
    requires Took(PoolOf(v, h, segs), PoolOf(v', h', segs), nb, p)
    ensures HeadsMove(v.lay, h, h', nb, p) && OldVictimBinned(v, h, v', h', p)
  {
    hide HeapMid, Took, HeadsMove, OldVictimBinned;
    TookHeads(v, h, segs, PoolOf(v', h', segs), nb, p);
    ReplacedBinned(v, h, v', h', segs, nb, p);
  }

  lemma InBin(v: View, p: int, s: int)
    requires Base(v) && FreeAt(v.lay, p, s) && p !in v.out
    ensures Binned(v.sb, v.tb, p, s)
  {
    assert IndexAt(v, p, s);
  }

  /** A binned chunk is neither top nor the designated victim. */
  lemma BinnedOnly(v: View, h: Heads, segs: seq<Segment>, p: int, s: int)
    requires HeapMid(v, h, segs, {}) && FreeAt(v.lay, p, s) && p !in v.out
    ensures p != h.top && p != h.dv
  {
    hide Base;
    ZeroOut(v);
  }

  /** A binned chunk taken out of its bin and cut for a request. */
  lemma TookBinned(P: Pool, P': Pool, nb: int, p: int, s: int)
    requires FreeAt(P.lay, p, s) && p != P.h.top && p != P.h.dv && Front(P.bins, p, s)
    requires P'.segs == P.segs
    requires P'.lay == if s - nb < MIN_CHUNK_SIZE then SetKind(P.lay, p, Used) else Split(P.lay, p, nb, Used)
    requires P'.h == if s - nb < MIN_CHUNK_SIZE || nb >= MIN_LARGE_SIZE then P.h
      else P.h.(dv := p + nb, dvsize := s - nb)
    requires P'.bins ==
      (if s - nb < MIN_CHUNK_SIZE then Drawn(P.bins, p, s)
       else if nb >= MIN_LARGE_SIZE then Filed(Drawn(P.bins, p, s), p + nb, s - nb)
       else if P.h.dvsize != 0 then Filed(Drawn(P.bins, p, s), P.h.dv, P.h.dvsize)
       else Drawn(P.bins, p, s))
    ensures Took(P, P', nb, p)
  {
    hide Filed, Drawn, Front;
  }

  /** Removing from the trie is drawing from the bin. */
  lemma LargeDrawn(v: View, p: int, s: int)
    requires Base(v) && MIN_LARGE_SIZE <= s && FreeAt(v.lay, p, s)
    ensures var b, j := Bins(v.sb, v.tb), TreeIndex(s);
      && 0 <= j < |v.tb| && WF(v.tb[j], TreeLo(j), TreeBit(j))
      && Drawn(b, p, s) == b.(tb := v.tb[j := Remove(v.tb[j], p, s, TreeLo(j), TreeBit(j))])
  {
    hide TreeIndex;
    assert ChunkOk(v.lay, p);
    SizeFitsBin(s);
    assert TreeAt(v, TreeIndex(s));
  }

  /** Drawing the chunk before p or not, and the whole change from what is known of it. */
  lemma GivenSteps(P: Pool, p: int)
    requires Freeable(P.lay, p)
    ensures var L, lo, b1 := P.lay, FreedStart(P.lay, p), BackDrawn(P.lay, P.bins, P.h, p);
      && (lo == p || lo == P.h.dv ==> b1 == P.bins)
      && (lo != p && lo != P.h.dv && lo in L ==> b1 == Drawn(P.bins, lo, L[lo].size))
      && (L[After(L, p)].kind.Used? ==> NextDrawn(L, b1, P.h, p) == b1)
      && (Unbinnable(L, P.h, p) == {} ==>
         GivenBins(L, NextDrawn(L, b1, P.h, p), P.h, p) == NextDrawn(L, b1, P.h, p))
      && Given(P, p) ==
         Pool(Freed(L, p), FreedHeads(L, P.h, p), GivenBins(L, NextDrawn(L, b1, P.h, p), P.h, p), P.segs)
  {
    hide Filed, Drawn, Freed, FreedHeads;
  }

  // ----- growing

  /** Top's segment, and top with it, longer by the region behind it. */
  ghost function AppendedPool(P: Pool, i: nat, size: int): Pool
    requires i < |P.segs| && P.h.top in P.lay
  {
    Pool(Extended(P.lay, P.h.top, size), P.h.(topsize := P.h.topsize + size), P.bins, Appended(P.segs, i, size))
  }

  /** The region before segment i: nb bytes in use, and the rest given back, which merges it with what follows. */
  ghost function FrontedPool(P: Pool, i: nat, base: int, size: int, nb: int): Pool
    requires i < |P.segs| && base + size in P.lay
  {
    var Q := P.(lay := Split(Fronted(P.lay, base, size), base, nb, Used), segs := Prepended(P.segs, i, base, size));
    if Freeable(Q.lay, base + nb) then Given(Q, base + nb) else Q
  }

  /**
   * The old top in use up to a segment record and fenceposts, and its front, if a chunk, given back; s is the new top.
   */
  ghost function AddedPool(P: Pool, s: Segment): Pool
    requires P.h.top in P.lay
  {
    var t, n := P.h.top, P.h.topsize;
    if n < MIN_CHUNK_SIZE then
      Pool(Retired(P.lay, t, s.base, s.size, SEGMENT_CHUNK_SIZE), NewHeads(P.h, s), P.bins, [s] + P.segs)
    else
      var Q := Pool(Split(Retired(P.lay, t, s.base, s.size, n + SEGMENT_CHUNK_SIZE), t, n, Used), NewHeads(P.h, s),
        P.bins, [s] + P.segs);
      if Freeable(Q.lay, t) then Given(Q, t) else Q
  }

  /** A segment that the space may grow, and that a region at base continues behind top. */
  ghost predicate Appends(segs: seq<Segment>, h: Heads, i: int, base: int) {
    HoldsTop(segs, i, h.top) && segs[i].End() == base && segs[i].mmapped && !segs[i].extern
  }

  /** A segment that the space may grow, and that a region ending at `end` precedes. */
  ghost predicate Precedes(segs: seq<Segment>, j: int, end: int) {
    StartsAt(segs, j, end) && segs[j].mmapped && !segs[j].extern
  }

  ghost predicate AppendsTo(P: Pool, P': Pool, i: int, base: int, size: int, nb: int, p: int) {
    && Appends(P.segs, P.h, i, base) && P.h.top in P.lay && p == P.h.top
    && P' == Taken(AppendedPool(P, i, size), nb, p)
  }

  ghost predicate PrecedesTo(P: Pool, P': Pool, j: int, base: int, size: int, nb: int, p: int) {
    && Precedes(P.segs, j, base + size) && base + size in P.lay && p == base
    && P' == FrontedPool(P, j, base, size, nb)
  }

  ghost predicate AddsTo(P: Pool, P': Pool, base: int, size: int, nb: int, p: int) {
    && P.h.top in P.lay && p == base && base in AddedPool(P, Segment(base, size, true, false)).lay
    && P' == Taken(AddedPool(P, Segment(base, size, true, false)), nb, base)
  }

  ghost predicate CanAppend(segs: seq<Segment>, h: Heads, base: int) {
    exists i {:trigger Appends(segs, h, i, base)} :: Appends(segs, h, i, base)
  }

  ghost predicate CanPrecede(segs: seq<Segment>, end: int) {
    exists j {:trigger Precedes(segs, j, end)} :: Precedes(segs, j, end)
  }

  /** Where a region of size bytes joins the space, and what serving nb from it leaves. */
  ghost predicate GrownTo(P: Pool, P': Pool, base: int, size: int, nb: int, p: int) {
    if CanAppend(P.segs, P.h, base) then
      exists i {:trigger AppendsTo(P, P', i, base, size, nb, p)} :: AppendsTo(P, P', i, base, size, nb, p)
    else if CanPrecede(P.segs, base + size) then
      exists j {:trigger PrecedesTo(P, P', j, base, size, nb, p)} :: PrecedesTo(P, P', j, base, size, nb, p)
    else AddsTo(P, P', base, size, nb, p)
  }

  ghost predicate AppendsSegs(segs: seq<Segment>, h: Heads, segs': seq<Segment>, i: int, base: int, size: int) {
    Appends(segs, h, i, base) && segs' == Appended(segs, i, size)
  }

  ghost predicate PrecedesSegs(segs: seq<Segment>, segs': seq<Segment>, j: int, base: int, size: int) {
    Precedes(segs, j, base + size) && segs' == Prepended(segs, j, base, size)
  }

  /**
   * The segments and heads alone: a region behind top's segment makes top longer, one before a segment makes that
   * segment longer and is itself used from its start, and only one that adjoins neither is a segment of its own.
   */
  ghost predicate Merged(segs: seq<Segment>, h: Heads, segs': seq<Segment>, h': Heads, base: int, size: int, nb: int,
          p: int) {
    if CanAppend(segs, h, base) then
      && p == h.top && |segs'| == |segs| && h' == h.(top := h.top + nb, topsize := h.topsize + size - nb)
      && exists i {:trigger AppendsSegs(segs, h, segs', i, base, size)} :: AppendsSegs(segs, h, segs', i, base, size)
    else if CanPrecede(segs, base + size) then
      && p == base && |segs'| == |segs| && h' == FrontHeads(h, base + size, base + nb, size - nb)
      && exists j {:trigger PrecedesSegs(segs, segs', j, base, size)} :: PrecedesSegs(segs, segs', j, base, size)
    else
      && p == base && segs' == [Segment(base, size, true, false)] + segs
      && h' == h.(top := base + nb, topsize := size - TOP_FOOT_SIZE - nb)
  }

  /** The r bytes at q join the chunk e behind them: top, the designated victim, or one that is neither. */
  ghost function FrontHeads(h: Heads, e: int, q: int, r: int): Heads {
    if e == h.top then h.(top := q, topsize := h.topsize + r)
    else if e == h.dv then h.(dv := q, dvsize := h.dvsize + r)
    else h
  }

  /** Two segments of a space do not end, nor start, at the same address. */
  lemma OneSegment(L: Layout, segs: seq<Segment>, i: nat, j: nat)
    requires SegmentsOk(L, segs) && i < |segs| && j < |segs|
    ensures segs[i].End() == segs[j].End() || segs[i].base == segs[j].base ==> i == j
  {
    assert SegmentAt(L, segs, i) && SegmentAt(L, segs, j) && Disjoint(segs, i, j);
  }

  /** A chunk between two in-use chunks is given back alone. */
  lemma LoneGiven(P: Pool, p: int, n: int)
    requires p in P.lay && P.lay[p].kind.Used? && P.lay[p].size == n && Pin(P.lay, p) && p + n in P.lay
      && P.lay[p + n].kind.Used? && p != 0 && p + n != 0
    requires P.h.dv != 0 ==> FreeAt(P.lay, P.h.dv, P.h.dvsize)
    ensures Freeable(P.lay, p) && Given(P, p) == Pool(Freed(P.lay, p), P.h, Filed(P.bins, p, n), P.segs)
  {
    hide Filed, Drawn, Freed;
  }

  ghost function PoolOf(v: View, h: Heads, segs: seq<Segment>): Pool {
    Pool(v.lay, h, Bins(v.sb, v.tb), segs)
  }

  lemma SegmentsOf(v: View, h: Heads, segs: seq<Segment>, x: set<int>)
    requires HeapMid(v, h, segs, x)
    ensures SegmentsOk(v.lay, segs) && OneTop(v.lay, h.top) && v.lay[h.top].size == h.topsize
  {
    hide Base;
  }

  lemma ByAppending(v: View, h: Heads, segs: seq<Segment>, P1: Pool, P': Pool, i: nat, base: int, size: int, nb: int)
    requires HeapMid(v, h, segs, {}) && Appends(segs, h, i, base) && h.top in v.lay
    requires P1 == AppendedPool(PoolOf(v, h, segs), i, size) && Took(P1, P', nb, h.top)
    ensures GrownTo(PoolOf(v, h, segs), P', base, size, nb, h.top)
    ensures Merged(segs, h, P'.segs, P'.h, base, size, nb, h.top)
  {
    hide HeapMid;
    SegmentsOf(v, h, segs, {});
    assert AppendsTo(PoolOf(v, h, segs), P', i, base, size, nb, h.top);
    assert AppendsSegs(segs, h, P'.segs, i, base, size);
  }

  /** The first segment that ends where the region starts, if any, tells whether the region continues top. */
  lemma NoAppend(v: View, h: Heads, segs: seq<Segment>, i: nat, base: int)
    requires HeapMid(v, h, segs, {}) && i <= |segs|
    requires i < |segs| ==> segs[i].End() == base && !Appends(segs, h, i, base)
    requires forall k {:trigger segs[k]} | 0 <= k < i :: segs[k].End() != base
    ensures !CanAppend(segs, h, base)
  {
    hide HeapMid;
    SegmentsOf(v, h, segs, {});
    forall k | Appends(segs, h, k, base) ensures false {
      if i < |segs| {
        OneSegment(v.lay, segs, i, k);
      }
    }
  }

  lemma NoPrecede(v: View, h: Heads, segs: seq<Segment>, j: nat, end: int)
    requires HeapMid(v, h, segs, {}) && j <= |segs|
    requires j < |segs| ==> segs[j].base == end && !Precedes(segs, j, end)
    requires forall k {:trigger segs[k]} | 0 <= k < j :: segs[k].base != end
    ensures !CanPrecede(segs, end)
  {
    hide HeapMid;
    SegmentsOf(v, h, segs, {});
    forall k | Precedes(segs, k, end) ensures false {
      if j < |segs| {
        OneSegment(v.lay, segs, j, k);
      }
    }
  }

  lemma ByPrepending(v: View, h: Heads, segs: seq<Segment>, P': Pool, j: nat, base: int, size: int, nb: int)
    requires !CanAppend(segs, h, base) && Precedes(segs, j, base + size) && base + size in v.lay
    requires P' == FrontedPool(PoolOf(v, h, segs), j, base, size, nb)
    requires P'.h == FrontHeads(h, base + size, base + nb, size - nb)
    ensures GrownTo(PoolOf(v, h, segs), P', base, size, nb, base)
    ensures Merged(segs, h, P'.segs, P'.h, base, size, nb, base)
  {
    hide Freed, FreedHeads, GivenBins, CanAppend;
    assert PrecedesTo(PoolOf(v, h, segs), P', j, base, size, nb, base);
    assert PrecedesSegs(segs, P'.segs, j, base, size);
  }

  lemma ByAdding(v: View, h: Heads, segs: seq<Segment>, P1: Pool, P': Pool, base: int, size: int, nb: int)
    requires !CanAppend(segs, h, base) && !CanPrecede(segs, base + size) && h.top in v.lay
    requires P1 == AddedPool(PoolOf(v, h, segs), Segment(base, size, true, false)) && Took(P1, P', nb, base)
    requires P1.h == h.(top := base, topsize := size - TOP_FOOT_SIZE) && P1.lay[base].size == size - TOP_FOOT_SIZE
    ensures GrownTo(PoolOf(v, h, segs), P', base, size, nb, base)
    ensures Merged(segs, h, P'.segs, P'.h, base, size, nb, base)
  {
    hide Freed, FreedHeads, GivenBins, CanAppend, CanPrecede, Retired;
  }

  // ----- the steps of growing

  lemma AddedShort(v: View, h: Heads, segs: seq<Segment>, s: Segment)
    requires h.top in v.lay && h.topsize < MIN_CHUNK_SIZE
    ensures AddedPool(PoolOf(v, h, segs), s) ==
      Pool(Retired(v.lay, h.top, s.base, s.size, SEGMENT_CHUNK_SIZE), NewHeads(h, s), Bins(v.sb, v.tb), [s] + segs)
  {}

  lemma AddedLong(v: View, mem': Mem, h: Heads, segs: seq<Segment>, s: Segment)
    requires h.top in v.lay && Adding(v, mem', h, segs, s) && MIN_CHUNK_SIZE <= h.topsize
    ensures AddedPool(PoolOf(v, h, segs), s) ==
      Pool(Step3(v, mem', h, s).lay, NewHeads(h, s), Filed(Bins(v.sb, v.tb), h.top, h.topsize), [s] + segs)
  {
    hide Base, PayloadSame, HeapMid, Adding, Retired, Freed, Filed, Split, Given, CarveWritten;
    var v2, t, n, h2 := Step2(v, mem', h, s), h.top, h.topsize, NewHeads(h, s);
    AddStep2(v, mem', h, segs, s);
    Step2Chunks(v, mem', h, segs, s);
    Step2Ready(v, mem', h, segs, s);
    HeadsKnown(v2, h2, [s] + segs, {});
    LoneGiven(Pool(v2.lay, h2, Bins(v.sb, v.tb), [s] + segs), t, n);
  }

  /** The rest of a region whose front is in use has been given back, bins apart. */
  ghost predicate RestGiven(v: View, h: Heads, L': Layout, h': Heads, base: int, size: int, nb: int, binned: bool) {
    && base + size in v.lay
    && var L := Halved(v, base, size, nb).lay;
    && Freeable(L, base + nb) && L' == Freed(L, base + nb) && h' == FreedHeads(L, h, base + nb)
    && (binned <==> Unbinnable(L, h, base + nb) == {})
  }

  lemma PlacedGives(v: View, mem': Mem, h: Heads, h': Heads, base: int, size: int, nb: int, binned: bool)
    requires base + size in v.lay && Freeable(Halved(v, base, size, nb).lay, base + nb)
    requires h' == FreedHeads(Halved(v, base, size, nb).lay, h, base + nb)
    requires binned <==> Unbinnable(Halved(v, base, size, nb).lay, h, base + nb) == {}
    ensures RestGiven(v, h, Placed(v, mem', base, size, nb).lay, h', base, size, nb, binned)
  {
    hide Freed, FreedHeads, Unbinnable, Halved;
  }

  /** Prepending gives back the rest of the region, and with it the segment's old first chunk when that is free. */
  lemma FrontedIs(v: View, h: Heads, segs: seq<Segment>, x: set<int>, i: nat, base: int, size: int, nb: int, b: Bins,
          L': Layout, h': Heads, binned: bool)
    requires i < |segs| && Prepending(v, h, segs, x, i, base, size, nb) && FirstOut(v, h, x, base + size)
    requires RestGiven(v, h, L', h', base, size, nb, binned)
    ensures var q, e := base + nb, base + size;
      var joins := v.lay[e].kind.Free? && e != h.dv;
      var b1 := if joins then Drawn(b, e, v.lay[e].size) else b;
      var rest := size - nb + if joins then v.lay[e].size else 0;
      FrontedPool(Pool(v.lay, h, b, segs), i, base, size, nb) ==
        Pool(L', h', if binned then b1 else Filed(b1, q, rest), Prepended(segs, i, base, size))
  {
    hide Base, PayloadSame, HeapMid, Prepending, Freed, FreedHeads, Filed, Drawn, Unbinnable, FreedSize, Split;
    PrependMerges(v, h, segs, x, i, base, size, nb);
    HalvedChunks(v, h, segs, x, i, base, size, nb);
  }
}
