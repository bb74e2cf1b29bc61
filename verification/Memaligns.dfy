/** Aligned allocation: a larger chunk is cut, and its ends are given back. */
module Memaligns {
  import opened Words
  import opened Layouts
  import opened Tries
  import opened Sizes
  import opened Views
  import opened FreeOps
  import opened Scratch
  import opened Segments
  import opened Heaps
  import opened Gains
  import opened Areas
  import opened Frees
  import opened Choices
  import opened Systems
  import opened Reallocs
  import opened Alignments

  /**
   * The chunks newly in use, with their sizes, are P; apart from them and at most one record r nothing in use has
   * changed.
   */
  ghost predicate Pieces(v: View, v': View, P: map<int, int>, r: int) {
    && v'.ms == v.ms && UsedOf(v'.lay) == Recorded(UsedOf(v.lay), r) + P
    && (forall p {:trigger p in P} :: p in P ==> p !in UsedOf(v.lay) && Freeable(v'.lay, p))
    && (r != 0 ==> r !in UsedOf(v.lay) && r !in P && FenceAt(v'.lay, r + SEGMENT_CHUNK_SIZE))
    && PayloadSame(UsedOf(v.lay), v.ms, v.mem, v'.mem) && KeepsFreeable(v.lay, v'.lay) && KeepsFences(v.lay, v'.lay)
    && Frame(v.lay, v'.lay, v.mem, v'.mem)
  }

  /** One new chunk p of at least nb and at most nb and a minimal chunk. */
  ghost predicate AlignedWith(v: View, v': View, p: int, nb: int, r: int) {
    p in v'.lay && nb <= v'.lay[p].size <= nb + MIN_CHUNK_SIZE && Pieces(v, v', map[p := v'.lay[p].size], r)
  }

  ghost predicate Aligned(v: View, v': View, p: int, nb: int) {
    exists r {:trigger AlignedWith(v, v', p, nb, r)} :: AlignedWith(v, v', p, nb, r)
  }

  lemma ServedPieces(v: View, v': View, p: int, nb: int, r: int)
    requires ServedWith(v, v', p, nb, r)
    ensures Pieces(v, v', map[p := v'.lay[p].size], r)
  {
    hide PayloadSame, Frame;
    assert Recorded(UsedOf(v.lay), r)[p := v'.lay[p].size] == Recorded(UsedOf(v.lay), r) + map[p := v'.lay[p].size];
  }

  lemma CutMerges(u: map<int, int>, P: map<int, int>, q: int, n: int, m: int)
    requires q in P
    ensures (u + P)[q := n][q + n := m] == u + P[q := n][q + n := m]
  {}

  /** Fences are the same, so the same chunks may be freed. */
  lemma CutKeeps2(v1: View, v2: View, h: Heads, p: int, n: int)
    requires LayoutOk(v2.lay) && CutTo(v1, v2, h, p, n)
    ensures forall q {:trigger Freeable(v1.lay, q)} {:trigger Freeable(v2.lay, q)} :: Freeable(v1.lay, q) ==>
      Freeable(v2.lay, q)
    ensures KeepsFences(v1.lay, v2.lay)
  {
    hide PayloadSame, Frame;
    SameFences(v1.lay, v2.lay, h.top, h.top);
    forall q | Freeable(v1.lay, q) ensures Freeable(v2.lay, q) {
      if q != p {
        assert q in UsedOf(v1.lay);
        assert q in UsedOf(v2.lay);
        StillFreeable(v1.lay, v2.lay, q);
      }
    }
  }

  lemma PieceSize(v: View, v1: View, P: map<int, int>, r: int, p: int)
    requires Pieces(v, v1, P, r) && p in P
    ensures p in UsedOf(v1.lay) && p in v1.lay && v1.lay[p].size == P[p]
  {
    hide PayloadSame, Frame;
    assert p in UsedOf(v1.lay) && UsedOf(v1.lay)[p] == P[p];
  }

  lemma CutKeys(v: View, v1: View, v2: View, h: Heads, P: map<int, int>, r: int, p: int, n: int, P': map<int, int>)
    requires Pieces(v, v1, P, r) && p in P && CutTo(v1, v2, h, p, n) && P' == P[p := n][p + n := P[p] - n]
    requires forall q {:trigger Freeable(v2.lay, q)} :: Freeable(v1.lay, q) ==> Freeable(v2.lay, q)
    ensures forall q {:trigger q in P'} :: q in P' ==> q !in UsedOf(v.lay) && Freeable(v2.lay, q)
  {
    hide PayloadSame, Frame, Freeable, UsedOf, Recorded;
    PieceRest(v, v1, P, r, p + n);
    forall q | q in P' ensures q !in UsedOf(v.lay) && Freeable(v2.lay, q) {
      assert q == p || q == p + n || q in P;
    }
  }

  /** Cutting a piece gives two. */
  lemma CutPieces(v: View, v1: View, v2: View, h: Heads, segs: seq<Segment>, P: map<int, int>, r: int, p: int, n: int)
    requires Pieces(v, v1, P, r) && p in P && CutTo(v1, v2, h, p, n) && HeapMid(v2, h, segs, {})
    ensures v1.lay[p].size == P[p]
    ensures Pieces(v, v2, P[p := n][p + n := P[p] - n], r)
  {
    hide Base, PayloadSame, Frame, HeapMid, Freeable, UsedOf, Recorded, KeepsFences;
    MidBase(v2, h, segs, {});
    LayoutOf(v2);
    CutKeeps2(v1, v2, h, p, n);
    PieceSize(v, v1, P, r, p);
    CutMerges(Recorded(UsedOf(v.lay), r), P, p, n, P[p] - n);
    PieceRest(v, v1, P, r, p + n);
    FencesCarry(v.lay, v1.lay, v2.lay, r + SEGMENT_CHUNK_SIZE);
    CutPayload(v, v1, v2, h, P, r, p, n);
    FrameTrans(v.lay, v1.lay, v2.lay, v.mem, v1.mem, v2.mem);
    CutKeys(v, v1, v2, h, P, r, p, n, P[p := n][p + n := P[p] - n]);
    assert KeepsFreeable(v.lay, v2.lay) by {
      forall q | Freeable(v.lay, q) ensures Freeable(v2.lay, q) {
        assert Freeable(v1.lay, q);
      }
    }
  }

  lemma FencesCarry(L: Layout, L1: Layout, L2: Layout, a: int)
    requires KeepsFences(L, L1) && KeepsFences(L1, L2)
    ensures KeepsFences(L, L2) && (FenceAt(L1, a) ==> FenceAt(L2, a))
  {
    KeepsFencesTrans(L, L1, L2);
  }

  lemma CutPayload(v: View, v1: View, v2: View, h: Heads, P: map<int, int>, r: int, p: int, n: int)
    requires Pieces(v, v1, P, r) && p in P && CutTo(v1, v2, h, p, n)
    ensures PayloadSame(UsedOf(v.lay), v.ms, v.mem, v2.mem)
  {
    hide PayloadSame, Frame;
    PayloadSub(UsedOf(v1.lay)[p := n], UsedOf(v.lay), v.ms, v1.mem, v2.mem);
    PayloadTrans(UsedOf(v.lay), v.ms, v.mem, v1.mem, v2.mem);
  }

  lemma PieceRest(v: View, v1: View, P: map<int, int>, r: int, q: int)
    requires Pieces(v, v1, P, r) && q !in UsedOf(v1.lay)
    ensures q !in UsedOf(v.lay) && (r != 0 ==> q != r)
  {
    hide PayloadSame, Frame;
    assert q in UsedOf(v.lay) ==> q in Recorded(UsedOf(v.lay), r);
  }

  lemma DropMerges(u: map<int, int>, P: map<int, int>, q: int)
    requires q !in u
    ensures u + P - {q} == u + (P - {q})
  {}

  /** Freeing a piece leaves the others. */
  lemma FreePieces(v: View, v1: View, h1: Heads, v2: View, h2: Heads, segs: seq<Segment>, P: map<int, int>, r: int,
          p: int)
    requires Pieces(v, v1, P, r) && p in P && Lost(v1, h1, v2, h2, p) && HeapMid(v2, h2, segs, {})
    ensures Pieces(v, v2, P - {p}, r)
  {
    hide Base, PayloadSame, Frame, Freed;
    LostKeeps(v1, h1, v2, h2, segs, p);
    assert p !in Recorded(UsedOf(v.lay), r);
    DropMerges(Recorded(UsedOf(v.lay), r), P, p);
    PayloadSub(UsedOf(v2.lay), UsedOf(v.lay), v.ms, v1.mem, v2.mem);
    PayloadTrans(UsedOf(v.lay), v.ms, v.mem, v1.mem, v2.mem);
    FrameTrans(v.lay, v1.lay, v2.lay, v.mem, v1.mem, v2.mem);
    forall q | Freeable(v.lay, q) ensures Freeable(v2.lay, q) {
      assert q in UsedOf(v.lay) && Freeable(v1.lay, q);
    }
    KeepsFencesTrans(v.lay, v1.lay, v2.lay);
  }

  lemma KeepsFencesTrans(L: Layout, L1: Layout, L2: Layout)
    requires KeepsFences(L, L1) && KeepsFences(L1, L2)
    ensures KeepsFences(L, L2)
  {
    forall q | FenceAt(L, q) ensures FenceAt(L2, q) {
      assert FenceAt(L1, q);
    }
  }

  // ----- where the aligned chunk goes

  predicate OnBoundary(m: int, a: int) {
    a != 0 && m % a == 0
  }

  /** The chunk whose payload is the first aligned address that leaves room for a leading chunk, or p itself. */
  function AlignedSpot(p: int, a: int): int {
    if !OnBoundary(p + 16, a) then
      var br := AlignUp(p + 16, a) - 16;
      if br - p >= MIN_CHUNK_SIZE then br else br + a
    else p
  }

  lemma ModShift(u: int, a: int)
    requires a > 0 && u % a == 0
    ensures (u + a) % a == 0
  {
    var q := u / a;
    assert u == q * a;
    assert u + a == (q + 1) * a + 0;
    DivisionIs(u + a, q + 1, a, 0);
  }

  lemma Eights(p: int, u: int, a: int)
    requires p % 8 == 0 && u % 8 == 0 && a % 8 == 0 && p + 16 <= u < p + 16 + a
    ensures (u - 16) % 8 == 0 && (u - 16 + a) % 8 == 0 && (u - 16 - p < MIN_CHUNK_SIZE ==> u - 16 + a - p <= a + 24)
  {}

  /** The spot is aligned, leaves a whole chunk in front or nothing, and never takes the room that nb needs. */
  lemma SpotIs(p: int, a: int)
    requires PowerOfTwo(a) && MIN_CHUNK_SIZE <= a <= TWO63 && 0 < p && p % 8 == 0 && p + 16 + a <= TWO64
    ensures var s := AlignedSpot(p, a);
      && OnBoundary(s + 16, a) && s % 8 == 0 && (s == p || MIN_CHUNK_SIZE <= s - p <= a + 24)
  {
    hide AlignUp, And, Pow2, PowerOfTwo;
    AlignUpIs(p + 16, a);
    EightDivides(AlignUp(p + 16, a), a);
    Eights(p, AlignUp(p + 16, a), a);
    ModShift(AlignUp(p + 16, a), a);
  }

  lemma NextMultiple(x: int, u: int, a: int)
    requires a > 0 && x % a == 0 && u % a == 0
    ensures x < u ==> x + a <= u
  {
    var i, j := x / a, u / a;
    assert x == i * a && u == j * a;
    assert (j - i) * a == u - x;
    StepApart(j - i, a);
  }

  /** No lower spot is aligned and leaves a whole chunk in front or nothing. */
  lemma SpotLeast(p: int, a: int, u: int)
    requires PowerOfTwo(a) && MIN_CHUNK_SIZE <= a <= TWO63 && 0 < p && p % 8 == 0 && p + 16 + a <= TWO64
    requires OnBoundary(u + 16, a) && (u == p || p + MIN_CHUNK_SIZE <= u)
    ensures AlignedSpot(p, a) <= u
  {
    hide AlignUp, And, Pow2, PowerOfTwo;
    AlignUpIs(p + 16, a);
    NextMultiple(AlignUp(p + 16, a), u + 16, a);
    NextMultiple(u + 16, AlignUp(p + 16, a), a);
  }

  /** The bytes memalign asks of malloc: room for the aligned chunk and a leading one. */
  ghost function MemalignBytes(alignment: int, bytes: int): int {
    if alignment <= 8 then bytes
    else if bytes >= MAX_REQUEST - Rounded(alignment) then 0
    else Request2Size(bytes) + Rounded(alignment) + MIN_CHUNK_SIZE - CHUNK_OVERHEAD
  }

  /** memalign fails where malloc does on the padded request, or when there is no size left to pad. */
  ghost predicate MemalignFails(v: View, h: Heads, alignment: int, bytes: int, region: int) {
    if alignment <= 8 then MallocFails(v, h, bytes, region)
    else bytes >= MAX_REQUEST - Rounded(alignment) || MallocFails(v, h, MemalignBytes(alignment, bytes), region)
  }

  lemma RequestRoom(bytes: int, a: int)
    requires 0 <= bytes < MAX_REQUEST - a && MIN_CHUNK_SIZE <= a <= TWO63
    ensures var nb := Request2Size(bytes);
      var req := nb + a + MIN_CHUNK_SIZE - CHUNK_OVERHEAD;
      && nb % 8 == 0 && MIN_CHUNK_SIZE <= nb && nb == ChunkRequest(bytes) && 0 <= req < TWO64
      && (req < MAX_REQUEST ==> nb + a + MIN_CHUNK_SIZE <= ChunkRequest(req))
  {
    hide Request2Size, ChunkRequest;
    ChunkRequestIs(bytes);
    PaddingFits(bytes);
    SmallPad(bytes);
    var req := Request2Size(bytes) + a + MIN_CHUNK_SIZE - CHUNK_OVERHEAD;
    if 0 <= req < MAX_REQUEST {
      ChunkRequestIs(req);
    }
  }

  /** The padded request takes exactly the chunk, the alignment and a minimal chunk, and so fits any larger top. */
  lemma PaddedChunk(alignment: int, bytes: int)
    requires 8 < alignment <= TWO63 && 0 <= bytes < MAX_REQUEST - Rounded(alignment)
    ensures var req, most := MemalignBytes(alignment, bytes), Request2Size(bytes) + Rounded(alignment) + 32;
      && (req < MAX_REQUEST <==> most < MAX_REQUEST + 8)
      && (req < MAX_REQUEST ==> ChunkRequest(req) == most)
  {
    hide Request2Size, ChunkRequest, Rounded, PowerOfTwo;
    RoundedIs(alignment);
    RoundedFits(alignment);
    var a := Rounded(alignment);
    EightDivides(a, a);
    RequestRoom(bytes, a);
    var req := MemalignBytes(alignment, bytes);
    if req < MAX_REQUEST {
      PadTight(req, Request2Size(bytes) + a + 32);
    }
  }

  lemma PadTight(req: int, n: int)
    requires 0 <= req < MAX_REQUEST && n % 8 == 0 && req + 8 == n && 32 <= n
    ensures ChunkRequest(req) == n
  {}

  lemma TopBounded(v: View, h: Heads, segs: seq<Segment>)
    requires HeapMid(v, h, segs, {})
    ensures h.topsize + TOP_FOOT_SIZE + STATE_CHUNK_SIZE < TWO64
  {
    assert ChunkOk(v.lay, h.top) && ChunkOk(v.lay, v.ms) && Apart(v.lay, v.ms, h.top);
  }

  /** memalign does not fail while top exceeds the chunk asked for, the alignment and a minimal chunk. */
  lemma TopSuffices(v: View, h: Heads, segs: seq<Segment>, alignment: int, bytes: int, region: int)
    requires HeapMid(v, h, segs, {}) && 8 < alignment <= TWO63 && 0 <= bytes < MAX_REQUEST - Rounded(alignment)
    requires Request2Size(bytes) + Rounded(alignment) + 32 < h.topsize
    ensures !MemalignFails(v, h, alignment, bytes, region)
  {
    hide Request2Size, ChunkRequest, Rounded, HeapMid, MemalignBytes;
    TopBounded(v, h, segs);
    PaddedChunk(alignment, bytes);
  }

  lemma SmallPad(bytes: int)
    ensures bytes < MIN_REQUEST ==> Request2Size(bytes) == MIN_CHUNK_SIZE
  {}

  /** Where chunk p and its pieces lie. */
  lemma PieceExtent(v: View, v1: View, P: map<int, int>, r: int, p: int)
    requires Base(v1) && Base(v) && Pieces(v, v1, P, r) && p in P
    ensures p in v1.lay && v1.lay[p].size == P[p] && Freeable(v1.lay, p) && p != v1.ms
    ensures 0 < p && p % 8 == 0 && P[p] % 8 == 0 && p + P[p] <= TWO64 && ChunkSize(Rd(v1.mem, p + 8)) == P[p]
  {
    hide Base, PayloadSame, Frame;
    assert p in UsedOf(v1.lay);
    NotState(v, p);
    SizeRead(v1, p);
    LayoutOf(v1);
    assert ChunkOk(v1.lay, p);
  }

  lemma CutFresh(v: View, v1: View, v2: View, h: Heads, P: map<int, int>, r: int, p: int, n: int)
    requires Pieces(v, v1, P, r) && CutTo(v1, v2, h, p, n)
    ensures p + n !in P && p + n != 0
  {
    hide PayloadSame, Frame;
  }

  lemma ServedRoom(v: View, v': View, p: int, nb: int) returns (r: int)
    requires Served(v, v', p, nb)
    ensures Freeable(v'.lay, p) && nb <= v'.lay[p].size && Pieces(v, v', map[p := v'.lay[p].size], r)
  {
    hide PayloadSame, Frame;
    r :| ServedWith(v, v', p, nb, r);
    ServedPieces(v, v', p, nb, r);
  }

  lemma AlignedNonzero(v: View, v': View, p: int, nb: int, r: int)
    requires Base(v') && AlignedWith(v, v', p, nb, r)
    ensures p > 0
  {
    assert ChunkOk(v'.lay, p);
  }

  lemma AlignedFrame(v: View, v': View, p: int, nb: int)
    requires Aligned(v, v', p, nb)
    ensures Frame(v.lay, v'.lay, v.mem, v'.mem) && v'.ms == v.ms
  {
    hide PayloadSame, Frame;
    var r :| AlignedWith(v, v', p, nb, r);
  }

  /** With leader and trailer gone, the aligned piece is the only one. */
  lemma OneLeft(p: int, size: int, leader: int, leadsize: int, trailer: int, nb: int, tailsize: int)
    requires (leader == 0 || leader != p) && (trailer == 0 || (trailer != p && (leader == 0 || trailer != leader)))
    ensures var P := if leader == 0 then map[p := size] else map[leader := leadsize][p := size];
      var Q := if trailer == 0 then P else P[p := nb][trailer := tailsize];
      var R := if leader == 0 then Q else Q - {leader};
      (if trailer == 0 then R else R - {trailer}) == map[p := if trailer == 0 then size else nb]
  {}
}
