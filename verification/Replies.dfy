/**
 * Complete answers: what each public operation returns and what it makes of the pool, as functions of the pool alone.
 */
module Replies {
  import opened Words
  import opened Layouts
  import opened Tries
  import opened Sizes
  import opened Keys
  import opened Views
  import opened TagOps
  import opened FreeOps
  import opened Segments
  import opened Heaps
  import opened Choices
  import opened Frees
  import opened Reallocs
  import opened Alignments
  import opened Memaligns
  import opened Pools

  /** A space at one moment. */
  datatype Space = Space(v: View, h: Heads, segs: seq<Segment>)

  ghost function PoolAt(a: Space): Pool {
    PoolOf(a.v, a.h, a.segs)
  }

  ghost predicate Whole(a: Space) {
    HeapMid(a.v, a.h, a.segs, {})
  }

  // ----- malloc

  /**
   * malloc fails exactly when MallocFails says so and then changes nothing; otherwise it takes the preferred chunk, or,
   * when there is none, grows by the region.
   */
  ghost predicate MallocReply(a: Space, bytes: int, region: int, m: int, b: Space) {
    var nb, p := ChunkRequest(bytes), m - 16;
    && (m == 0 <==> MallocFails(a.v, a.h, bytes, region))
    && (m == 0 ==> PoolAt(b) == PoolAt(a))
    && (m != 0 && !NoRoom(a.v, a.h, nb) ==>
       && Chosen(a.v, a.h, nb, p) && Took(PoolAt(a), PoolAt(b), nb, p)
       && HeadsMove(a.v.lay, a.h, b.h, nb, p) && OldVictimBinned(a.v, a.h, b.v, b.h, p))
    && (m != 0 && NoRoom(a.v, a.h, nb) ==>
       && GrownTo(PoolAt(a), PoolAt(b), region, MmapSize(nb), nb, p)
       && Merged(a.segs, a.h, b.segs, b.h, region, MmapSize(nb), nb, p))
  }

  /** The pool does not depend on what the caller's blocks hold. */
  lemma ReplyStays(a: Space, bytes: int, region: int, m: int, b: Space, mem': Mem)
    requires MallocReply(a, bytes, region, m, b)
    ensures MallocReply(a, bytes, region, m, b.(v := b.v.(mem := mem')))
  {
    hide Took, GrownTo, Merged, HeadsMove, NoRoom, Chosen, MallocFails;
  }

  /** Every impossible size gets the same answer. */
  lemma ReplyCapped(a: Space, req: int, bytes: int, region: int, m: int, b: Space)
    requires MallocReply(a, req, region, m, b) && (req == bytes || (MAX_REQUEST <= req && MAX_REQUEST <= bytes))
    ensures MallocReply(a, bytes, region, m, b)
  {
    hide Took, GrownTo, Merged, HeadsMove, OldVictimBinned, NoRoom, Chosen;
  }

  // ----- free

  /**
   * The heads alone: the victim changes only if it is next to the chunk given back; then it is the coalesced chunk, or
   * none if top took it.
   */
  ghost predicate VictimGrows(L: Layout, h: Heads, L': Layout, h': Heads, p: int) {
    && p in L
    && var e := p + L[p].size;
    var beside := h.dv != 0 && (h.dv + h.dvsize == p || e == h.dv);
    && (!beside ==> h'.dv == h.dv && h'.dvsize == h.dvsize)
    && (beside && e == h.top ==> h'.dv == 0 && h'.dvsize == 0)
    && (beside && e != h.top ==> FreeAt(L', h'.dv, h'.dvsize) && h'.dv <= p < h'.dv + h'.dvsize)
    && (e != h.top ==> h'.top == h.top && h'.topsize == h.topsize)
    && (e == h.top ==> h'.top <= p && h'.top + h'.topsize == h.top + h.topsize)
  }

  ghost predicate FreeReply(a: Space, m: int, b: Space) {
    if m == 0 then PoolAt(b) == PoolAt(a)
    else
      && Freeable(a.v.lay, m - 16) && PoolAt(b) == Given(PoolAt(a), m - 16)
      && VictimGrows(a.v.lay, a.h, b.v.lay, b.h, m - 16)
  }

  lemma FreedScope(v: View, p: int)
    requires Steady(v) && Freeable(v.lay, p)
    ensures FreeScope(v.lay, p)
  {}

  lemma GivenHeads(a: Space, p: int)
    requires Whole(a) && Freeable(a.v.lay, p)
    ensures VictimGrows(a.v.lay, a.h, Freed(a.v.lay, p), FreedHeads(a.v.lay, a.h, p), p)
  {
    hide Base, SegmentsOk, Freed, FreeScope;
    var L, h := a.v.lay, a.h;
    FreedScope(a.v, p);
    LayoutOf(a.v);
    FreedNeighbours(L, p);
    FreedChunk(L, p, FreedStart(L, p));
    assert h.dv != 0 ==> ChunkOk(L, h.dv);
    assert ChunkOk(L, p) && ChunkOk(L, h.top);
  }

  // ----- realloc

  /** Malloc's answer, and then the old chunk given back; c is the space between. */
  ghost predicate MovedVia(a: Space, c: Space, p: int, bytes: int, region: int, m: int, b: Space) {
    && MallocReply(a, bytes, region, m, c)
    && (m == 0 ==> PoolAt(b) == PoolAt(a))
    && (m != 0 ==> Freeable(c.v.lay, p) && PoolAt(b) == Given(PoolAt(c), p))
  }

  ghost predicate MoveReply(a: Space, p: int, bytes: int, region: int, m: int, b: Space) {
    exists c {:trigger MovedVia(a, c, p, bytes, region, m, b)} :: MovedVia(a, c, p, bytes, region, m, b)
  }

  ghost predicate ReallocReply(a: Space, oldmem: int, bytes: int, region: int, m: int, b: Space) {
    if oldmem == 0 then MallocReply(a, bytes, region, m, b)
    else
      var p, nb := oldmem - 16, ChunkRequest(bytes);
      if bytes >= MAX_REQUEST then m == 0 && PoolAt(b) == PoolAt(a)
      else if FitsInPlace(a.v, a.h, p, nb) then m == oldmem && PoolAt(b) == InPlace(PoolAt(a), p, nb)
      else MoveReply(a, p, bytes, region, m, b)
  }

  // ----- memalign

  /** Malloc's answer u for the padded request, and then everything but nb aligned bytes given back. */
  ghost predicate AlignedVia(a: Space, c: Space, u: int, align: int, nb: int, req: int, region: int, m: int, b: Space) {
    && MallocReply(a, req, region, u, c)
    && (u == 0 ==> m == 0 && PoolAt(b) == PoolAt(a))
    && (u != 0 ==> u - 16 in c.v.lay && m == AlignedSpot(u - 16, align) + 16)
    && (u != 0 ==> u - 16 in c.v.lay && PoolAt(b) == Trimmed(PoolAt(c), u - 16, align, nb))
  }

  ghost predicate AlignReply(a: Space, align: int, nb: int, req: int, region: int, m: int, b: Space) {
    exists c, u {:trigger AlignedVia(a, c, u, align, nb, req, region, m, b)} ::
      AlignedVia(a, c, u, align, nb, req, region, m, b)
  }

  ghost predicate MemalignReply(a: Space, alignment: int, bytes: int, region: int, m: int, b: Space) {
    if alignment <= 8 then MallocReply(a, bytes, region, m, b)
    else if bytes >= MAX_REQUEST - Rounded(alignment) then m == 0 && PoolAt(b) == PoolAt(a)
    else
      AlignReply(a, Rounded(alignment), Request2Size(bytes), MemalignBytes(alignment, bytes), region, m, b)
  }

  // ----- the answers are determined

  /** A bin offers one chunk of a size. */
  lemma FrontUnique(v: View, p: int, q: int, s: int)
    requires Base(v) && Front(Bins(v.sb, v.tb), p, s) && Front(Bins(v.sb, v.tb), q, s)
    ensures p == q
  {
    hide TreeIndex;
    if s >= MIN_LARGE_SIZE {
      var i := TreeIndex(s);
      assert TreeAt(v, i);
      LeadsUnique(v.tb[i], TreeLo(i), TreeBit(i), p, q, s);
    }
  }

  ghost predicate Offered(a: Space, p: int) {
    p in a.v.lay && (p != a.h.top && p != a.h.dv ==> Front(PoolAt(a).bins, p, a.v.lay[p].size))
  }

  /** Which chunk is preferred depends on the pool alone. */
  lemma ChosenSame(a: Space, b: Space, nb: int, p: int)
    requires Whole(a) && Whole(b) && PoolAt(a) == PoolAt(b)
    ensures Chosen(a.v, a.h, nb, p) <==> Chosen(b.v, b.h, nb, p)
    ensures NoRoom(a.v, a.h, nb) <==> NoRoom(b.v, b.h, nb)
  {
    hide Base;
    var v, w := a.v, b.v;
    assert v.lay == w.lay && v.out == w.out && a.h == b.h;
    assert forall s :: BinHas(v, s) <==> BinHas(w, s);
    assert forall s :: LeastBinned(v, nb, s) <==> LeastBinned(w, nb, s);
    assert NoBinned(v, nb) <==> NoBinned(w, nb);
    assert DvFirst(v, a.h, nb) <==> DvFirst(w, a.h, nb);
  }

  lemma BothBinned(a: Space, p: int, q: int, s: int)
    requires Whole(a) && Offered(a, p) && Offered(a, q) && FreeAt(a.v.lay, p, s) && FreeAt(a.v.lay, q, s)
    requires p !in a.v.out && q !in a.v.out
    ensures p == q
  {
    hide Base, SegmentsOk, Front;
    BinnedOnly(a.v, a.h, a.segs, p, s);
    BinnedOnly(a.v, a.h, a.segs, q, s);
    FrontUnique(a.v, p, q, s);
  }

  lemma BinnedUnique(a: Space, nb: int, p: int, q: int)
    requires Whole(a) && BinnedChosen(a.v, nb, p) && Offered(a, p)
    ensures !NoBinned(a.v, nb)
    ensures BinnedChosen(a.v, nb, q) && Offered(a, q) ==> p == q
  {
    hide HeapMid, Offered;
    var s :| FreeAt(a.v.lay, p, s) && p !in a.v.out && nb <= s && LeastBinned(a.v, nb, s);
    if BinnedChosen(a.v, nb, q) && Offered(a, q) {
      var u :| FreeAt(a.v.lay, q, u) && q !in a.v.out && nb <= u && LeastBinned(a.v, nb, u);
      BothBinned(a, p, q, s);
    }
  }

  lemma ExactUnique(a: Space, nb: int, p: int, q: int)
    requires Whole(a) && ExactChosen(a.v, nb, p) && ExactChosen(a.v, nb, q) && Offered(a, p) && Offered(a, q)
    ensures p == q
  {
    hide HeapMid, Offered;
    BothBinned(a, p, q, a.v.lay[p].size);
  }

  /** And it is one chunk. */
  lemma ChosenUnique(a: Space, nb: int, p: int, q: int)
    requires Whole(a) && Chosen(a.v, a.h, nb, p) && Chosen(a.v, a.h, nb, q) && Offered(a, p) && Offered(a, q)
    ensures p == q
  {
    hide HeapMid, Offered, BinnedChosen, ExactChosen, ExactFit, DvFirst, NoBinned;
    if BinnedChosen(a.v, nb, p) {
      BinnedUnique(a, nb, p, q);
    } else if BinnedChosen(a.v, nb, q) {
      BinnedUnique(a, nb, q, p);
    }
    if nb < MIN_LARGE_SIZE && ExactFit(a.v, nb) {
      ExactUnique(a, nb, p, q);
    }
  }

  // ----- the reply to every request is determined by the pool

  lemma SameGrown(P: Pool, base: int, size: int, nb: int, P1: Pool, p1: int, P2: Pool, p2: int)
    requires SegmentsApart(P) && GrownTo(P, P1, base, size, nb, p1) && GrownTo(P, P2, base, size, nb, p2)
    ensures p1 == p2 && P1 == P2
  {
    hide AppendedPool, AddedPool, FrontedPool, Taken, CanAppend, CanPrecede;
    if CanAppend(P.segs, P.h, base) {
      var i :| AppendsTo(P, P1, i, base, size, nb, p1);
      var j :| AppendsTo(P, P2, j, base, size, nb, p2);
      OneSegment(P.lay, P.segs, i, j);
    } else if CanPrecede(P.segs, base + size) {
      var i :| PrecedesTo(P, P1, i, base, size, nb, p1);
      var j :| PrecedesTo(P, P2, j, base, size, nb, p2);
      OneSegment(P.lay, P.segs, i, j);
    }
  }

  ghost predicate SegmentsApart(P: Pool) {
    SegmentsOk(P.lay, P.segs)
  }

  lemma MallocSame(a: Space, a': Space, bytes: int, region: int, m: int, b: Space, m': int, b': Space)
    requires Whole(a) && Whole(a') && PoolAt(a) == PoolAt(a')
    requires MallocReply(a, bytes, region, m, b) && MallocReply(a', bytes, region, m', b')
    ensures m == m' && PoolAt(b) == PoolAt(b')
  {
    hide HeapMid, Chosen, NoRoom, Taken, GrownTo, Merged, HeadsMove, OldVictimBinned, Front, ChunkRequest;
    var nb := ChunkRequest(bytes);
    ChosenSame(a, a', nb, m' - 16);
    if m != 0 && m' != 0 {
      if NoRoom(a.v, a.h, nb) {
        SegmentsOf(a.v, a.h, a.segs, {});
        SameGrown(PoolAt(a), region, MmapSize(nb), nb, PoolAt(b), m - 16, PoolAt(b'), m' - 16);
      } else {
        ChosenUnique(a, nb, m - 16, m' - 16);
      }
    }
  }

  lemma MoveSame(a: Space, a': Space, p: int, bytes: int, region: int, m: int, b: Space, m': int, b': Space)
    requires Whole(a) && Whole(a') && PoolAt(a) == PoolAt(a')
    requires MoveReply(a, p, bytes, region, m, b) && MoveReply(a', p, bytes, region, m', b')
    ensures m == m' && PoolAt(b) == PoolAt(b')
  {
    hide HeapMid, MallocReply, Given;
    var c :| MovedVia(a, c, p, bytes, region, m, b);
    var c' :| MovedVia(a', c', p, bytes, region, m', b');
    MallocSame(a, a', bytes, region, m, c, m', c');
  }

  lemma AlignSame(a: Space, a': Space, align: int, nb: int, req: int, region: int, m: int, b: Space, m': int, b': Space)
    requires Whole(a) && Whole(a') && PoolAt(a) == PoolAt(a')
    requires AlignReply(a, align, nb, req, region, m, b) && AlignReply(a', align, nb, req, region, m', b')
    ensures m == m' && PoolAt(b) == PoolAt(b')
  {
    hide HeapMid, MallocReply, Trimmed, AlignedSpot;
    var c, u :| AlignedVia(a, c, u, align, nb, req, region, m, b);
    var c', u' :| AlignedVia(a', c', u', align, nb, req, region, m', b');
    MallocSame(a, a', req, region, u, c, u', c');
  }

  // ----- whole sessions

  /** What a caller asks; `region` is what the system would give. calloc asks what malloc does. */
  datatype Ask =
    | Malloc(bytes: int, region: int) | Free(m: int) | Realloc(m: int, bytes: int, region: int)
    | Memalign(alignment: int, bytes: int, region: int) | Write

  /** The reply to one request, as the contracts of the operations give it; a write changes only payloads. */
  ghost predicate Reply(a: Space, q: Ask, m: int, b: Space) {
    match q
    case Malloc(bytes, region) => MallocReply(a, bytes, region, m, b)
    case Free(u) => m == 0 && FreeReply(a, u, b)
    case Realloc(u, bytes, region) => ReallocReply(a, u, bytes, region, m, b)
    case Memalign(alignment, bytes, region) => MemalignReply(a, alignment, bytes, region, m, b)
    case Write => m == 0 && PoolAt(b) == PoolAt(a)
  }

  /** A request has one answer, and one pool afterwards. */
  lemma ReplySame(a: Space, a': Space, q: Ask, m: int, b: Space, m': int, b': Space)
    requires Whole(a) && Whole(a') && PoolAt(a) == PoolAt(a') && Reply(a, q, m, b) && Reply(a', q, m', b')
    ensures m == m' && PoolAt(b) == PoolAt(b')
  {
    hide HeapMid, MallocReply, MoveReply, AlignReply, Given, InPlace, VictimGrows;
    match q
    case Malloc(bytes, region) =>
      MallocSame(a, a', bytes, region, m, b, m', b');
    case Realloc(u, bytes, region) =>
      if u == 0 {
        MallocSame(a, a', bytes, region, m, b, m', b');
      } else if bytes < MAX_REQUEST && !FitsInPlace(a.v, a.h, u - 16, ChunkRequest(bytes)) {
        MoveSame(a, a', u - 16, bytes, region, m, b, m', b');
      }
    case Memalign(alignment, bytes, region) =>
      if alignment <= 8 {
        MallocSame(a, a', bytes, region, m, b, m', b');
      } else if bytes < MAX_REQUEST - Rounded(alignment) {
        AlignSame(a, a', Rounded(alignment), Request2Size(bytes), MemalignBytes(alignment, bytes), region, m, b, m',
          b');
      }
    case _ =>
  }

  ghost predicate ReplyAt(r: seq<Space>, qs: seq<Ask>, ms: seq<int>, i: int) {
    0 <= i < |qs| && i < |ms| && i + 1 < |r| ==> Whole(r[i]) && Reply(r[i], qs[i], ms[i], r[i + 1])
  }

  /** A session: its requests, the replies, and the space between them. */
  ghost predicate Replied(r: seq<Space>, qs: seq<Ask>, ms: seq<int>) {
    |r| == |qs| + 1 && |ms| == |qs| && forall i {:trigger ReplyAt(r, qs, ms, i)} :: ReplyAt(r, qs, ms, i)
  }

  /**
   * Two sessions that start with equal pools and ask the same get the same addresses, and have equal pools throughout,
   * whatever the memory and the blocks hold.
   */
  lemma {:induction false} SameAnswers(r: seq<Space>, ms: seq<int>, s: seq<Space>, ns: seq<int>, qs: seq<Ask>, i: nat)
    requires Replied(r, qs, ms) && Replied(s, qs, ns) && PoolAt(r[0]) == PoolAt(s[0]) && i <= |qs|
    ensures PoolAt(r[i]) == PoolAt(s[i]) && ms[..i] == ns[..i]
  {
    hide HeapMid, Reply;
    if i > 0 {
      SameAnswers(r, ms, s, ns, qs, i - 1);
      assert ReplyAt(r, qs, ms, i - 1) && ReplyAt(s, qs, ns, i - 1);
      ReplySame(r[i - 1], s[i - 1], qs[i - 1], ms[i - 1], r[i], ns[i - 1], s[i]);
      assert ms[..i] == ms[..i - 1] + [ms[i - 1]] && ns[..i] == ns[..i - 1] + [ns[i - 1]];
    }
  }
}
