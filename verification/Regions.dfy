/** Memory obtained from the system: how a new region joins the layout. */
module Regions {
  import opened Words
  import opened Layouts
  import opened Canonical
  import opened Views
  import opened Relayout
  import opened TagOps
  import opened Segments
  import opened Areas
  import opened Frames

  ghost predicate Beside(segs: seq<Segment>, i: int, base: int, size: int) {
    0 <= i < |segs| ==> segs[i].End() <= base || base + size <= segs[i].base
  }

  /** What the system promises of a region: aligned, within the address space, and apart from all segments. */
  ghost predicate Fresh(segs: seq<Segment>, base: int, size: int) {
    && 0 < base && base % 8 == 0 && 0 < size && size % 8 == 0 && base + size <= TWO64
    && forall i {:trigger Beside(segs, i, base, size)} :: Beside(segs, i, base, size)
  }

  ghost predicate Clear1(L: Layout, p: int, base: int, size: int) {
    p in L ==> p + L[p].Extent() <= base || base + size <= p
  }

  ghost predicate ClearOf(L: Layout, base: int, size: int) {
    0 < size && forall p {:trigger Clear1(L, p, base, size)} :: Clear1(L, p, base, size)
  }

  lemma FreshClear(L: Layout, segs: seq<Segment>, base: int, size: int)
    requires SegmentsOk(L, segs) && Fresh(segs, base, size)
    ensures ClearOf(L, base, size)
  {
    forall p ensures Clear1(L, p, base, size) {
      assert Hosted(L, segs, p);
      if p in L {
        var i :| Hosts(L, segs, i, p);
        assert Beside(segs, i, base, size);
      }
    }
  }

  /** Words changed lie in the new region or belong to the old top t. */
  ghost predicate RegionTouch(L: Layout, mem: Mem, mem': Mem, base: int, size: int, t: int) {
    forall a {:trigger Rd(mem', a)} :: Rd(mem', a) == Rd(mem, a) || base + 8 <= a < base + size || Own(L, t, a)
  }

  lemma RegionBinWord(v: View, base: int, size: int, a: int)
    requires Base(v) && ClearOf(v.lay, base, size) && base + 8 <= a <= base + size
    ensures !BinWord(v, a)
  {
    assert Clear1(v.lay, v.ms, base, size);
    forall p, s | Binned(v.sb, v.tb, p, s) ensures !(p + 16 <= a < p + s) {
      assert IndexAt(v, p, s) && Clear1(v.lay, p, base, size);
    }
  }

  lemma RegionQuiet(v: View, mem': Mem, base: int, size: int, t: int)
    requires Base(v) && ClearOf(v.lay, base, size) && t in v.lay && v.lay[t].kind.Top?
    requires RegionTouch(v.lay, v.mem, mem', base, size, t)
    ensures NotBins(v, mem') && PayloadSame(UsedOf(v.lay), v.ms, v.mem, mem')
  {
    assert 0 in v.lay ==> ChunkOk(v.lay, 0);
    assert ChunkOk(v.lay, v.ms);
    forall a ensures Rd(mem', a) == Rd(v.mem, a) || !BinWord(v, a) {
      if base + 8 <= a <= base + size {
        RegionBinWord(v, base, size, a);
      } else if Own(v.lay, t, a) {
        TagAreaClear(v, 0, t, a);
      }
    }
    forall q, a | InPayload(UsedOf(v.lay), q, a) && q != v.ms ensures Rd(mem', a) == Rd(v.mem, a) {
      assert Clear1(v.lay, q, base, size);
      if Own(v.lay, t, a) {
        TagAreaPayload(v, 0, t, a, q);
      }
    }
  }

  /** Chunks other than t keep their tags. */
  lemma RegionTag(L: Layout, L': Layout, mem: Mem, mem': Mem, base: int, size: int, t: int, q: int)
    requires LayoutOk(L) && Carried(L, L', q) && Tag(L, mem, q) && q != t
    requires ClearOf(L, base, size) && RegionTouch(L, mem, mem', base, size, t)
    ensures Tag(L', mem', q)
  {
    assert Clear1(L, q, base, size);
    forall a | Own(L, q, a) ensures Rd(mem', a) == Rd(mem, a) {
      if Own(L, t, a) {
        OwnApart(L, t, q, a);
      }
    }
    TagCarried(L, L', mem, mem', q);
  }

  // ----- top grows into a region that follows it

  ghost function Extended(L: Layout, t: int, size: int): Layout
    requires t in L
  {
    L[t := L[t].(size := L[t].size + size)]
  }

  ghost predicate Extendable(L: Layout, t: int, size: int) {
    LayoutOk(L) && OneTop(L, t) && size % 8 == 0 && TOP_FOOT_SIZE <= size && t + L[t].Extent() + size <= TWO64
    && ClearOf(L, t + L[t].Extent(), size)
  }

  lemma ExtendedOk(L: Layout, t: int, size: int)
    requires Extendable(L, t, size)
    ensures LayoutOk(Extended(L, t, size)) && OneTop(Extended(L, t, size), t)
  {
    var M := Extended(L, t, size);
    forall p | p in M ensures ChunkOk(M, p) {
      assert ChunkOk(L, p);
    }
    forall p, q ensures Apart(M, p, q) {
      assert Apart(L, p, q) && Clear1(L, p, t + L[t].Extent(), size) && Clear1(L, q, t + L[t].Extent(), size);
      assert p in L ==> ChunkOk(L, p);
      assert q in L ==> ChunkOk(L, q);
    }
  }

  lemma ExtendedNoAdj(L: Layout, t: int, size: int)
    requires Extendable(L, t, size) && NoAdj(L)
    ensures NoAdj(Extended(L, t, size)) && UsedOf(Extended(L, t, size)) == UsedOf(L)
  {
    forall p ensures NoAdj1(Extended(L, t, size), p) {
      assert NoAdj1(L, p);
    }
  }

  /** init_top on the longer top. */
  ghost function ExtendMem(mem: Mem, t: int, newsize: int): Mem {
    mem[t + 8 := newsize + 1][t + newsize + 8 := TOP_FOOT_SIZE]
  }

  lemma ExtendTag(v: View, t: int, size: int, q: int)
    requires Base(v) && NoAdj(v.lay) && Extendable(v.lay, t, size)
    ensures Tag(Extended(v.lay, t, size), ExtendMem(v.mem, t, v.lay[t].size + size), q)
  {
    var L, L' := v.lay, Extended(v.lay, t, size);
    assert ChunkOk(L, t) && NoAdj1(L, t) && Tag(L, v.mem, q) && (q in L ==> ChunkOk(L, q));
    if q in L && q != t {
      RegionTag(L, L', v.mem, ExtendMem(v.mem, t, L[t].size + size), t + L[t].Extent(), size, t, q);
    }
  }

  lemma ExtendKeeps(v: View, t: int, size: int)
    requires Steady(v) && Extendable(v.lay, t, size)
    ensures var mem' := ExtendMem(v.mem, t, v.lay[t].size + size);
      Steady(v.(mem := mem', lay := Extended(v.lay, t, size))) && PayloadSame(UsedOf(v.lay), v.ms, v.mem, mem')
  {
    var mem' := ExtendMem(v.mem, t, v.lay[t].size + size);
    var v' := v.(mem := mem', lay := Extended(v.lay, t, size));
    assert ChunkOk(v.lay, t);
    RegionQuiet(v, mem', t + v.lay[t].Extent(), size, t);
    ExtendedOk(v.lay, t, size);
    ExtendedNoAdj(v.lay, t, size);
    forall q ensures Tag(v'.lay, mem', q) {
      ExtendTag(v, t, size, q);
    }
    assert Relaid(v, v');
    RelaidBase(v, v');
  }

  lemma ExtendFrame(L: Layout, mem: Mem, t: int, size: int)
    requires Extendable(L, t, size)
    ensures Frame(L, Extended(L, t, size), mem, ExtendMem(mem, t, L[t].size + size))
  {
    var M := Extended(L, t, size);
    assert ChunkOk(L, t);
    forall a | InChunk(L, a) ensures InChunk(M, a) {
      var q :| Over(L, q, a);
      assert Over(M, q, a);
    }
    assert Over(M, t, t + 8) && Over(M, t, t + L[t].size + size + 8);
  }

  // ----- a region in front of a segment, as one chunk in use

  ghost predicate Frontable(L: Layout, base: int, size: int) {
    && LayoutOk(L) && base > 0 && base % 8 == 0 && size % 8 == 0 && MIN_CHUNK_SIZE <= size && ClearOf(L, base, size)
    && base + size in L && L[base + size].prev == 0
  }

  ghost function Fronted(L: Layout, base: int, size: int): Layout
    requires base + size in L
  {
    L[base + size := L[base + size].(prev := base)][base := Chunk(size, Used, 0)]
  }

  lemma FrontFresh(L: Layout, base: int, size: int)
    requires Frontable(L, base, size)
    ensures base !in L && ChunkOk(L, base + size) && 0 !in L
  {
    assert Clear1(L, base, base, size);
    assert base in L ==> ChunkOk(L, base);
    assert 0 in L ==> ChunkOk(L, 0);
  }

  lemma FrontedOk(L: Layout, base: int, size: int)
    requires Frontable(L, base, size)
    ensures LayoutOk(Fronted(L, base, size))
  {
    var M := Fronted(L, base, size);
    FrontFresh(L, base, size);
    forall p | p in M ensures ChunkOk(M, p) {
      assert p != base ==> ChunkOk(L, p);
    }
    forall p, q ensures Apart(M, p, q) {
      assert Apart(L, p, q) && Clear1(L, p, base, size) && Clear1(L, q, base, size);
    }
  }

  lemma FrontedPin(L: Layout, base: int, size: int, p: int)
    requires Frontable(L, base, size) && p in L
    ensures p in Fronted(L, base, size) && (Pin(Fronted(L, base, size), p) <==> Pin(L, p))
    ensures Fronted(L, base, size)[p].kind == L[p].kind && Fronted(L, base, size)[p].size == L[p].size
  {
    FrontFresh(L, base, size);
    assert ChunkOk(L, p);
  }

  lemma FrontedNoAdj(L: Layout, base: int, size: int)
    requires Frontable(L, base, size) && NoAdj(L)
    ensures NoAdj(Fronted(L, base, size))
  {
    FrontFresh(L, base, size);
    forall p ensures NoAdj1(Fronted(L, base, size), p) {
      if p in L {
        FrontedPin(L, base, size, p);
        assert NoAdj1(L, p);
      }
    }
  }

  lemma FrontedUsed(L: Layout, base: int, size: int)
    requires Frontable(L, base, size)
    ensures UsedOf(Fronted(L, base, size)) == UsedOf(L)[base := size] && base !in UsedOf(L)
  {
    FrontFresh(L, base, size);
    var u := UsedOf(Fronted(L, base, size));
    forall q ensures q in u <==> q in UsedOf(L)[base := size] {}
  }

  lemma FrontedTag(v: View, t: int, base: int, size: int, q: int)
    requires Base(v) && Frontable(v.lay, base, size) && OneTop(v.lay, t)
    ensures Tag(Fronted(v.lay, base, size), v.mem[base + 8 := size + 3], q)
  {
    var L, L' := v.lay, Fronted(v.lay, base, size);
    var mem' := v.mem[base + 8 := size + 3];
    FrontFresh(L, base, size);
    if q in L {
      FrontedPin(L, base, size, q);
      assert Tag(L, v.mem, q) && Clear1(L, q, base, size);
      TagCarried(L, L', v.mem, mem', q);
    }
  }

  lemma FrontedFree(v: View, base: int, size: int, q: int, s: int)
    requires Frontable(v.lay, base, size)
    ensures FreeAt(Fronted(v.lay, base, size), q, s) <==> FreeAt(v.lay, q, s)
  {
    FrontFresh(v.lay, base, size);
  }

  lemma FrontKeeps(v: View, t: int, base: int, size: int)
    requires Steady(v) && Frontable(v.lay, base, size) && OneTop(v.lay, t)
    ensures var mem' := v.mem[base + 8 := size + 3];
      Steady(v.(mem := mem', lay := Fronted(v.lay, base, size))) && PayloadSame(UsedOf(v.lay), v.ms, v.mem, mem')
  {
    var mem' := v.mem[base + 8 := size + 3];
    var v' := v.(mem := mem', lay := Fronted(v.lay, base, size));
    RegionQuiet(v, mem', base, size, t);
    FrontedOk(v.lay, base, size);
    FrontedNoAdj(v.lay, base, size);
    FrontFresh(v.lay, base, size);
    forall q ensures Tag(v'.lay, mem', q) {
      FrontedTag(v, t, base, size, q);
    }
    forall q, s ensures FreeAt(v'.lay, q, s) <==> FreeAt(v.lay, q, s) {
      FrontedFree(v, base, size, q, s);
    }
    assert Relaid(v, v');
    RelaidBase(v, v');
  }

  lemma FrontFrame(L: Layout, mem: Mem, base: int, size: int)
    requires Frontable(L, base, size)
    ensures Frame(L, Fronted(L, base, size), mem, mem[base + 8 := size + 3])
  {
    var M := Fronted(L, base, size);
    FrontFresh(L, base, size);
    forall a | InChunk(L, a) ensures InChunk(M, a) {
      var q :| Over(L, q, a);
      assert Over(M, q, a);
    }
    assert Over(M, base, base + 8);
  }

  // ----- the old top is retired, a region elsewhere becomes top

  ghost predicate Retirable(L: Layout, t: int, base: int, size: int, k: int) {
    && LayoutOk(L) && OneTop(L, t) && base > 0 && base % 8 == 0 && size % 8 == 0 && TOP_FOOT_SIZE < size
       && base + size <= TWO64
    && ClearOf(L, base, size) && k % 8 == 0 && MIN_CHUNK_SIZE <= k <= L[t].Extent() - 16
  }

  /** Old top as one chunk in use, of k bytes, and fenceposts. */
  ghost function Retired(L: Layout, t: int, base: int, size: int, k: int): Layout
    requires t in L
  {
    L[t := Chunk(k, Used, L[t].prev)][t + k := Chunk(L[t].Extent() - k, Fence, t)][base :=
      Chunk(size - TOP_FOOT_SIZE, Top, 0)]
  }

  lemma RetireFresh(L: Layout, t: int, base: int, size: int, k: int)
    requires Retirable(L, t, base, size, k)
    ensures base !in L && t + k !in L && ChunkOk(L, t) && 0 !in L && base != t + k && base != t
    ensures t + L[t].Extent() <= base || base + size <= t
    ensures forall p {:trigger p in L} | p in L :: L[p].prev != t
  {
    assert Clear1(L, base, base, size) && Clear1(L, t, base, size) && Apart(L, t, t + k);
    assert base in L ==> ChunkOk(L, base);
    assert t + k in L ==> ChunkOk(L, t + k);
    assert 0 in L ==> ChunkOk(L, 0);
    assert ChunkOk(L, t);
    forall p | p in L ensures L[p].prev != t {
      assert ChunkOk(L, p);
    }
  }

  lemma RetiredNew(L: Layout, t: int, base: int, size: int, k: int)
    requires Retirable(L, t, base, size, k)
    ensures var M := Retired(L, t, base, size, k); ChunkOk(M, t) && ChunkOk(M, t + k) && ChunkOk(M, base)
  {
    RetireFresh(L, t, base, size, k);
  }

  lemma RetiredChunk(L: Layout, t: int, base: int, size: int, k: int, p: int)
    requires Retirable(L, t, base, size, k) && p in L && p != t
    ensures ChunkOk(Retired(L, t, base, size, k), p)
  {
    RetireFresh(L, t, base, size, k);
    assert ChunkOk(L, p);
  }

  lemma RetiredApart(L: Layout, t: int, base: int, size: int, k: int, p: int, q: int)
    requires Retirable(L, t, base, size, k)
    ensures Apart(Retired(L, t, base, size, k), p, q)
  {
    RetireFresh(L, t, base, size, k);
    var p', q' := if p == t + k then t else p, if q == t + k then t else q;
    assert Apart(L, p', q') && Clear1(L, p', base, size) && Clear1(L, q', base, size);
  }

  lemma RetiredOk(L: Layout, t: int, base: int, size: int, k: int)
    requires Retirable(L, t, base, size, k)
    ensures LayoutOk(Retired(L, t, base, size, k)) && OneTop(Retired(L, t, base, size, k), base)
  {
    var M := Retired(L, t, base, size, k);
    RetireFresh(L, t, base, size, k);
    RetiredNew(L, t, base, size, k);
    forall p | p in M ensures ChunkOk(M, p) {
      if p in L && p != t {
        RetiredChunk(L, t, base, size, k, p);
      }
    }
    forall p, q ensures Apart(M, p, q) {
      RetiredApart(L, t, base, size, k, p, q);
    }
  }

  lemma RetiredPin(L: Layout, t: int, base: int, size: int, k: int, p: int)
    requires Retirable(L, t, base, size, k) && p in L
    ensures var M := Retired(L, t, base, size, k);
      p in M && (Pin(M, p) <==> Pin(L, p)) && Pin(M, base) && Pin(M, t + k) && (p != t ==> M[p] == L[p])
  {
    RetireFresh(L, t, base, size, k);
    assert ChunkOk(L, p);
    assert ChunkOk(L, L[p].prev) || L[p].prev !in L;
  }

  lemma RetiredNoAdj(L: Layout, t: int, base: int, size: int, k: int)
    requires Retirable(L, t, base, size, k) && NoAdj(L)
    ensures NoAdj(Retired(L, t, base, size, k))
  {
    RetireFresh(L, t, base, size, k);
    forall p ensures NoAdj1(Retired(L, t, base, size, k), p) {
      RetiredPin(L, t, base, size, k, if p in L then p else t);
      assert NoAdj1(L, p);
    }
  }

  lemma RetiredUsed(L: Layout, t: int, base: int, size: int, k: int)
    requires Retirable(L, t, base, size, k)
    ensures UsedOf(Retired(L, t, base, size, k)) == UsedOf(L)[t := k] && t !in UsedOf(L)
  {
    RetireFresh(L, t, base, size, k);
    var u := UsedOf(Retired(L, t, base, size, k));
    forall q ensures q in u <==> q in UsedOf(L)[t := k] {}
  }

  ghost predicate FencesWritten(mem: Mem, mem': Mem, from: int, end: int) {
    forall a {:trigger Rd(mem', a)} :: Rd(mem', a) == if from <= a < end && a % 8 == 0 then FENCEPOST_HEAD
      else Rd(mem, a)
  }

  lemma FenceStep(mem: Mem, mem': Mem, from: int, p: int)
    requires FencesWritten(mem, mem', from, p + 8) && p % 8 == 0 && from <= p + 8
    ensures FencesWritten(mem, mem'[p + 8 := FENCEPOST_HEAD], from, p + 16)
  {
    var m := mem'[p + 8 := FENCEPOST_HEAD];
    forall a ensures Rd(m, a) == if from <= a < p + 16 && a % 8 == 0 then FENCEPOST_HEAD else Rd(mem, a) {
      assert a != p + 8 ==> Rd(m, a) == Rd(mem', a);
    }
  }

  /** Where the loop stops: the word behind the last fencepost lies inside exactly when the end is aligned. */
  lemma LastFence(p: int, end: int)
    requires p % 8 == 0 && p + 8 < end <= p + 16
    ensures p + 16 <= end <==> end % 8 == 0
  {}

  /** The head of the retired chunk, a fence in every word behind it, and the new top. */
  ghost predicate RetireWritten(v: View, mem': Mem, t: int, base: int, size: int, k: int) {
    && t in v.lay && RegionTouch(v.lay, v.mem, mem', base, size, t)
    && Rd(mem', t + 8) == k + 3
    && (forall a {:trigger FenceHead(mem', a)} | t + k + 8 <= a < t + v.lay[t].Extent() && a % 8 == 0 ::
       FenceHead(mem', a))
    && Rd(mem', base + 8) == size - TOP_FOOT_SIZE + 1 && Rd(mem', base + size - TOP_FOOT_SIZE + 8) == TOP_FOOT_SIZE
  }

  lemma RetiredTag(v: View, mem': Mem, t: int, base: int, size: int, k: int, q: int)
    requires Base(v) && NoAdj(v.lay) && Retirable(v.lay, t, base, size, k) && RetireWritten(v, mem', t, base, size, k)
    ensures Tag(Retired(v.lay, t, base, size, k), mem', q)
  {
    var L, M := v.lay, Retired(v.lay, t, base, size, k);
    RetireFresh(L, t, base, size, k);
    RetiredPin(L, t, base, size, k, t);
    assert NoAdj1(L, t);
    if q in L && q != t {
      RetiredPin(L, t, base, size, k, q);
      assert Tag(L, v.mem, q);
      RegionTag(L, M, v.mem, mem', base, size, t, q);
    }
  }

  lemma RetireKeeps(v: View, mem': Mem, t: int, base: int, size: int, k: int)
    requires Steady(v) && Retirable(v.lay, t, base, size, k) && RetireWritten(v, mem', t, base, size, k)
    ensures Steady(v.(mem := mem', lay := Retired(v.lay, t, base, size, k)))
    ensures PayloadSame(UsedOf(v.lay), v.ms, v.mem, mem')
  {
    var v' := v.(mem := mem', lay := Retired(v.lay, t, base, size, k));
    RegionQuiet(v, mem', base, size, t);
    RetiredOk(v.lay, t, base, size, k);
    RetiredNoAdj(v.lay, t, base, size, k);
    RetireFresh(v.lay, t, base, size, k);
    forall q ensures Tag(v'.lay, mem', q) {
      RetiredTag(v, mem', t, base, size, k, q);
    }
    assert Relaid(v, v');
    RelaidBase(v, v');
  }

  lemma RetireArea(L: Layout, t: int, base: int, size: int, k: int)
    requires Retirable(L, t, base, size, k)
    ensures AreaWithin(L, Retired(L, t, base, size, k))
  {
    var M := Retired(L, t, base, size, k);
    RetireFresh(L, t, base, size, k);
    forall a | InChunk(L, a) ensures InChunk(M, a) {
      var q :| Over(L, q, a);
      assert Over(M, if q == t && t + k <= a then t + k else q, a);
    }
  }

  lemma RetireFrame(v: View, mem': Mem, t: int, base: int, size: int, k: int)
    requires Retirable(v.lay, t, base, size, k) && RegionTouch(v.lay, v.mem, mem', base, size, t)
    ensures Frame(v.lay, Retired(v.lay, t, base, size, k), v.mem, mem')
  {
    var M := Retired(v.lay, t, base, size, k);
    RetireArea(v.lay, t, base, size, k);
    forall a ensures Rd(mem', a) == Rd(v.mem, a) || InChunk(M, a) {
      if Own(v.lay, t, a) {
        OwnIn(v.lay, t, a);
      } else if base + 8 <= a < base + size {
        assert Over(M, base, a);
      }
    }
  }

  lemma TbaseAligned(segs: seq<Segment>, base: int, size: int)
    requires Fresh(segs, base, size)
    ensures base % 8 == 0 && size % 8 == 0 && base > 0 && base + size <= TWO64
  {}
}
