/** The physical layout of a space: which chunks tile the segments, and how chunks split and join. */
module Layouts {
  import opened Words

  datatype Kind = Used | Free | Top | Fence {
    predicate Ordinary() { Used? || Free? }
    predicate Vacant() { Free? || Top? }
  }

  /** A chunk by size and kind; `prev` is the chunk that ends where this one starts, 0 at the base of a segment. */
  datatype Chunk = Chunk(size: int, kind: Kind, prev: int) {
    function Extent(): int { if kind.Top? then size + TOP_FOOT_SIZE else size }
  }

  type Layout = map<int, Chunk>

  ghost predicate ChunkOk(L: Layout, p: int) {
    p in L &&
    var c := L[p];
    && 0 < p && p % 8 == 0 && 0 < c.size && c.size % 8 == 0 && p + c.Extent() <= TWO64
    && (c.kind.Ordinary() ==> MIN_CHUNK_SIZE <= c.size && p + c.size in L && L[p + c.size].prev == p)
    && (c.prev != 0 ==> c.prev in L && L[c.prev].kind.Ordinary() && c.prev + L[c.prev].size == p)
    && (c.kind.Fence? ==> c.prev != 0 && 16 <= c.size)
  }

  ghost predicate Apart(L: Layout, p: int, q: int) {
    p in L && q in L && p != q ==> p + L[p].Extent() <= q || q + L[q].Extent() <= p
  }

  /** Every chunk ends where its successor begins, and no two chunks overlap. */
  ghost predicate LayoutOk(L: Layout) {
    && (forall p {:trigger ChunkOk(L, p)} | p in L :: ChunkOk(L, p))
    && (forall p, q {:trigger Apart(L, p, q)} :: Apart(L, p, q))
  }

  /** The in-use state of the predecessor, as the pinuse bit of p records it. */
  ghost predicate Pin(L: Layout, p: int) {
    p in L && L[p].prev in L ==> L[L[p].prev].kind.Used?
  }

  ghost predicate NoAdj1(L: Layout, p: int) {
    p in L && !L[p].kind.Used? ==> Pin(L, p)
  }

  /** Only an in-use chunk may follow a free one. */
  ghost predicate NoAdj(L: Layout) {
    forall p {:trigger NoAdj1(L, p)} :: NoAdj1(L, p)
  }

  ghost predicate FreeAt(L: Layout, p: int, s: int) {
    p in L && L[p].kind.Free? && L[p].size == s
  }

  /** The chunks of one kind, with their sizes. */
  ghost function SizesOf(L: Layout, k: Kind): (m: map<int, int>)
    ensures forall p {:trigger p in m} :: p in m <==> p in L && L[p].kind == k
    ensures forall p {:trigger m[p]} | p in m :: m[p] == L[p].size
    decreases |L|
  {
    if forall p: int {:trigger p in L} :: p !in L then map[] else
      var p: int :| p in L;
      var rest := L - {p};
      assert L == rest[p := L[p]];
      assert |rest| < |L|;
      if L[p].kind == k then SizesOf(rest, k)[p := L[p].size] else SizesOf(rest, k)
  }

  ghost function UsedOf(L: Layout): map<int, int> {
    SizesOf(L, Used)
  }

  ghost function SetKind(L: Layout, p: int, k: Kind): Layout
    requires p in L
  {
    L[p := L[p].(kind := k)]
  }

  ghost function SetPrev(L: Layout, p: int, q: int): Layout {
    if p in L then L[p := L[p].(prev := q)] else L
  }

  /** Cut p after n bytes: the front has kind k, the rest keeps the kind of p. */
  ghost function Split(L: Layout, p: int, n: int, k: Kind): Layout
    requires p in L
  {
    var c := L[p];
    var M := L[p := Chunk(n, k, c.prev)][p + n := Chunk(c.size - n, c.kind, p)];
    if c.kind.Ordinary() then SetPrev(M, p + c.size, p + n) else M
  }

  /** Merge p with the chunk after it; the result has the kind of the second. */
  ghost function Join(L: Layout, p: int): Layout
    requires p in L && p + L[p].size in L
  {
    var q := p + L[p].size;
    var M := (L - {q})[p := Chunk(L[p].size + L[q].size, L[q].kind, L[p].prev)];
    if L[q].kind.Ordinary() then SetPrev(M, q + L[q].size, p) else M
  }

  lemma SetKindOk(L: Layout, p: int, k: Kind)
    requires LayoutOk(L) && p in L && L[p].kind.Ordinary() && k.Ordinary()
    ensures LayoutOk(SetKind(L, p, k))
  {
    var M := SetKind(L, p, k);
    forall q | q in M ensures ChunkOk(M, q) {
      assert ChunkOk(L, q);
    }
    forall q, r ensures Apart(M, q, r) {
      assert Apart(L, q, r);
    }
  }

  lemma SplitFresh(L: Layout, p: int, n: int)
    requires LayoutOk(L) && p in L && 0 < n < L[p].size
    ensures p + n !in L
  {
    assert p + n in L ==> ChunkOk(L, p + n) && Apart(L, p, p + n);
  }

  ghost predicate Splittable(L: Layout, p: int, n: int) {
    && p in L && L[p].kind != Fence && n % 8 == 0 && MIN_CHUNK_SIZE <= n < L[p].size
    && (L[p].kind.Ordinary() ==> MIN_CHUNK_SIZE <= L[p].size - n)
  }

  lemma SplitPieces(L: Layout, p: int, n: int, k: Kind)
    requires LayoutOk(L) && Splittable(L, p, n) && k.Ordinary()
    ensures ChunkOk(Split(L, p, n, k), p) && ChunkOk(Split(L, p, n, k), p + n)
  {
    SplitFresh(L, p, n);
    assert ChunkOk(L, p);
  }

  lemma SplitChunkOk(L: Layout, p: int, n: int, k: Kind, q: int)
    requires LayoutOk(L) && Splittable(L, p, n) && k.Ordinary() && q in L && q != p
    ensures ChunkOk(Split(L, p, n, k), q)
  {
    SplitFresh(L, p, n);
    assert ChunkOk(L, p) && ChunkOk(L, q);
  }

  lemma SplitApart(L: Layout, p: int, n: int, k: Kind, q: int, r: int)
    requires LayoutOk(L) && Splittable(L, p, n) && k.Ordinary()
    ensures Apart(Split(L, p, n, k), q, r)
  {
    SplitFresh(L, p, n);
    var q', r' := if q == p + n then p else q, if r == p + n then p else r;
    assert Apart(L, q', r');
  }

  lemma SplitOk(L: Layout, p: int, n: int, k: Kind)
    requires LayoutOk(L) && Splittable(L, p, n) && k.Ordinary()
    ensures LayoutOk(Split(L, p, n, k))
  {
    SplitPieces(L, p, n, k);
    forall q | q in Split(L, p, n, k) ensures ChunkOk(Split(L, p, n, k), q) {
      if q in L && q != p {
        SplitChunkOk(L, p, n, k, q);
      }
    }
    forall q, r ensures Apart(Split(L, p, n, k), q, r) {
      SplitApart(L, p, n, k, q, r);
    }
  }

  ghost predicate Joinable(L: Layout, p: int) {
    && p in L && L[p].kind.Ordinary()
    && p + L[p].size in L && L[p + L[p].size].kind != Fence
  }

  lemma JoinChunkOk(L: Layout, p: int, r: int)
    requires LayoutOk(L) && Joinable(L, p) && r in Join(L, p)
    ensures ChunkOk(Join(L, p), r)
  {
    assert ChunkOk(L, p) && ChunkOk(L, p + L[p].size) && ChunkOk(L, r);
  }

  lemma JoinApart(L: Layout, p: int, r: int, s: int)
    requires LayoutOk(L) && Joinable(L, p)
    ensures Apart(Join(L, p), r, s)
  {
    var q := p + L[p].size;
    assert ChunkOk(L, p) && ChunkOk(L, q);
    assert (r in L ==> ChunkOk(L, r)) && (s in L ==> ChunkOk(L, s));
    assert Apart(L, r, s) && Apart(L, r, q) && Apart(L, q, s);
  }

  lemma JoinOk(L: Layout, p: int)
    requires LayoutOk(L) && Joinable(L, p)
    ensures LayoutOk(Join(L, p))
  {
    forall r | r in Join(L, p) ensures ChunkOk(Join(L, p), r) {
      JoinChunkOk(L, p, r);
    }
    forall r, s ensures Apart(Join(L, p), r, s) {
      JoinApart(L, p, r, s);
    }
  }
}
