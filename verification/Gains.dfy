/** Taking one chunk: the words written, and what the space gained by it. */
module Gains {
  import opened Words
  import opened Layouts
  import opened Chains
  import opened Views
  import opened TagOps
  import opened Scratch
  import opened Areas
  import opened Segments
  import opened Heaps

  /** Same layout, segments and payloads: only bins and the set of unbinned chunks may differ. */
  ghost predicate Rebinned(v: View, v': View) {
    v'.lay == v.lay && v'.ms == v.ms && PayloadSame(UsedOf(v.lay), v.ms, v.mem, v'.mem)
    && Frame(v.lay, v.lay, v.mem, v'.mem)
  }

  lemma MidMoves(v: View, v': View, h: Heads, h': Heads, segs: seq<Segment>, x: set<int>, x': set<int>)
    requires HeapMid(v, h, segs, x) && Base(v') && v'.lay == v.lay && v'.out == DvSet(h') + x'
    requires h'.top == h.top && h'.topsize == h.topsize && h'.dv !in x'
    requires (h'.dv != 0 <==> h'.dvsize != 0) && (h'.dv != 0 ==> FreeAt(v.lay, h'.dv, h'.dvsize))
    ensures HeapMid(v', h', segs, x')
  {}

  lemma MidBase(v: View, h: Heads, segs: seq<Segment>, x: set<int>)
    requires HeapMid(v, h, segs, x)
    ensures Base(v) && v.out == DvSet(h) + x
  {
    hide Base;
  }

  /** A chunk goes into its bin, or comes out of it. */
  lemma MidBins(v: View, v': View, h: Heads, segs: seq<Segment>, x: set<int>, p: int)
    requires HeapMid(v, h, segs, x) && Base(v') && v'.lay == v.lay && v'.ms == v.ms
    ensures p in x && v'.out == v.out - {p} ==> HeapMid(v', h, segs, x - {p})
    ensures p !in v.out && v'.out == v.out + {p} ==> HeapMid(v', h, segs, x + {p})
  {
    hide Base;
    assert p in x && v'.out == v.out - {p} ==> v'.out == DvSet(h) + (x - {p});
    assert p !in v.out && v'.out == v.out + {p} ==> v'.out == DvSet(h) + (x + {p});
  }

  /** Rebinning before and after leaves what was gained. */
  lemma GainedAround(v0: View, h0: Heads, v1: View, h1: Heads, v2: View, h2: Heads, v3: View, h3: Heads, p: int,
          nb: int)
    requires Rebinned(v0, v1) && Gained(v1, h1, v2, h2, p, nb) && Rebinned(v2, v3)
    requires h0.top == h1.top && h2.top == h3.top
    ensures Gained(v0, h0, v3, h3, p, nb)
  {
    hide PayloadSame, Frame;
    PayloadSub(UsedOf(v2.lay), UsedOf(v0.lay), v0.ms, v2.mem, v3.mem);
    PayloadTrans(UsedOf(v0.lay), v0.ms, v0.mem, v1.mem, v2.mem);
    PayloadTrans(UsedOf(v0.lay), v0.ms, v0.mem, v2.mem, v3.mem);
    FrameTrans(v0.lay, v1.lay, v2.lay, v0.mem, v1.mem, v2.mem);
    FrameTrans(v0.lay, v2.lay, v3.lay, v0.mem, v2.mem, v3.mem);
  }

  lemma RebinnedRefl(v: View)
    ensures Rebinned(v, v)
  {}

  /** set_inuse_and_pinuse on a whole chunk. */
  lemma WholeGains(v: View, h: Heads, segs: seq<Segment>, x: set<int>, p: int, s: int, nb: int)
    requires HeapMid(v, h, segs, x) && p in x && FreeAt(v.lay, p, s) && nb <= s < nb + MIN_CHUNK_SIZE
    ensures 0 < s
    ensures var mem' := v.mem[p + 8 := s + 3][p + s + 8 := SetPinuse(Rd(v.mem, p + s + 8))];
      && HeapMid(WholeTaken(v, mem', p), h, segs, x - {p})
      && Gained(v, h, WholeTaken(v, mem', p), h, p, nb)
  {
    hide Base, PayloadSame, Frame;
    var mem' := v.mem[p + 8 := s + 3][p + s + 8 := SetPinuse(Rd(v.mem, p + s + 8))];
    FreeSize(v, p, s);
    assert WholeWritten(v, mem', p);
    WholeHeap(v, mem', h, segs, x, p);
  }

  lemma FreeSize(v: View, p: int, s: int)
    requires Base(v) && FreeAt(v.lay, p, s)
    ensures 0 < p && p % 8 == 0 && MIN_CHUNK_SIZE <= s && s % 8 == 0 && p + s <= TWO64
  {
    assert ChunkOk(v.lay, p);
  }

  ghost function CutMem(mem: Mem, p: int, n: int, r: int): Mem {
    mem[p + 8 := n + 3][p + n + 8 := r + 1][p + n + r := r]
  }

  lemma CutWords(mem: Mem, p: int, n: int, r: int)
    requires MIN_CHUNK_SIZE <= n && MIN_CHUNK_SIZE <= r
    ensures CutMem(mem, p, n, r) == mem[p + n + 8 := r + 1][p + n + r := r][p + 8 := n + 3]
    ensures var mem' := CutMem(mem, p, n, r);
      && Touched(mem, mem', 0, 0, {p + 8, p + n + 8, p + n + r})
      && Rd(mem', p + 8) == n + 3 && Rd(mem', p + n + 8) == r + 1 && Rd(mem', p + n + r) == r
  {
    assert CutMem(mem, p, n, r) == mem[p + n + 8 := r + 1][p + n + r := r][p + 8 := n + 3];
  }

  /** Splitting a free chunk that is out of its bin. */
  lemma CutGains(v: View, h: Heads, segs: seq<Segment>, x: set<int>, p: int, n: int, r: int)
    requires HeapMid(v, h, segs, x) && p in v.out && FreeAt(v.lay, p, n + r) && MIN_CHUNK_SIZE <= n && n % 8 == 0
      && MIN_CHUNK_SIZE <= r
    ensures var v', h' := Cut(v, CutMem(v.mem, p, n, r), p, n), if p == h.dv then h.(dv := p + n, dvsize := r) else h;
      && HeapMid(v', h', segs, if p == h.dv then x else x - {p} + {p + n})
      && Gained(v, h, v', h', p, n) && FreeAt(v'.lay, p + n, r) && p + n > 0
  {
    hide Base, PayloadSame, Frame;
    FreeSize(v, p, n + r);
    CutWords(v.mem, p, n, r);
    assert CutWritten(v, CutMem(v.mem, p, n, r), p, n);
    CutHeap(v, CutMem(v.mem, p, n, r), h, segs, x, p, n);
    LayoutOf(v);
    SplitFresh(v.lay, p, n);
  }

  /** The chunk split is not the designated victim. */
  lemma FrontTaken(v: View, h: Heads, segs: seq<Segment>, x: set<int>, p: int, n: int, r: int)
    requires HeapMid(v, h, segs, x) && p in x && FreeAt(v.lay, p, n + r) && MIN_CHUNK_SIZE <= n && n % 8 == 0
      && MIN_CHUNK_SIZE <= r
    ensures var v' := Cut(v, CutMem(v.mem, p, n, r), p, n);
      && HeapMid(v', h, segs, x - {p} + {p + n}) && Gained(v, h, v', h, p, n) && FreeAt(v'.lay, p + n, r) && p + n > 0
      && v'.out == v.out - {p} + {p + n}
  {
    hide Base, PayloadSame, Frame, Gained;
    FreeSize(v, p, n + r);
    CutGains(v, h, segs, x, p, n, r);
  }

  /** Splitting top; a remainder that small may still be top. */
  lemma TopGains(v: View, h: Heads, segs: seq<Segment>, x: set<int>, n: int)
    requires HeapMid(v, h, segs, x) && MIN_CHUNK_SIZE <= n < h.topsize && n % 8 == 0
    ensures var r := h.topsize - n;
      var v', h' := Cut(v, v.mem[h.top + n + 8 := r + 1][h.top + 8 := n + 3], h.top, n),
        h.(top := h.top + n, topsize := r);
      && HeapMid(v', h', segs, x) && Gained(v, h, v', h', h.top, n)
  {
    hide Base, PayloadSame, Frame;
    var r := h.topsize - n;
    var mem' := v.mem[h.top + n + 8 := r + 1][h.top + 8 := n + 3];
    assert Splittable(v.lay, h.top, n);
    assert CutWritten(v, mem', h.top, n);
    CutTopHeap(v, mem', h, segs, x, n);
  }

  lemma TopNonzero(v: View, h: Heads, segs: seq<Segment>, x: set<int>)
    requires HeapMid(v, h, segs, x)
    ensures 0 < h.top && h.top % 8 == 0 && 0 < h.topsize && h.topsize % 8 == 0
      && h.top + h.topsize + TOP_FOOT_SIZE <= TWO64
    ensures Rd(v.mem, h.top + 8) == h.topsize + 1
  {
    assert ChunkOk(v.lay, h.top) && Tag(v.lay, v.mem, h.top) && NoAdj1(v.lay, h.top);
  }

  /** The designated victim, when there is one. */
  lemma DvFree(v: View, h: Heads, segs: seq<Segment>, x: set<int>)
    requires HeapMid(v, h, segs, x) && h.dvsize != 0
    ensures h.dv > 0 && FreeAt(v.lay, h.dv, h.dvsize) && h.dv in v.out && h.dv !in x
    ensures HeapMid(v, h.(dv := 0, dvsize := 0), segs, x + {h.dv})
  {
    FreeSize(v, h.dv, h.dvsize);
    ZeroOut(v);
    MidMoves(v, v, h, h.(dv := 0, dvsize := 0), segs, x, x + {h.dv});
  }

  /** Splitting the designated victim, remainder first. */
  lemma DvGains(v: View, h: Heads, segs: seq<Segment>, n: int, r: int)
    requires HeapMid(v, h, segs, {}) && MIN_CHUNK_SIZE <= n && n % 8 == 0 && MIN_CHUNK_SIZE <= r && n + r == h.dvsize
    ensures var p, h' := h.dv, h.(dv := h.dv + n, dvsize := r);
      var v' := Cut(v, v.mem[p + n + 8 := r + 1][p + n + r := r][p + 8 := n + 3], p, n);
      && HeapMid(v', h', segs, {}) && Gained(v, h, v', h', p, n) && v'.out == v.out - {p} + {p + n}
  {
    hide Base, PayloadSame, Frame, Gained;
    CutGains(v, h, segs, {}, h.dv, n, r);
    CutWords(v.mem, h.dv, n, r);
  }
}
