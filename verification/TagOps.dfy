/** The tag writes of splitting and of taking a whole free chunk. */
module TagOps {
  import opened Words
  import opened Layouts
  import opened Chains
  import opened Views
  import opened Relayout

  /** The words that belong to chunk p: its head up to, and including, its successor's prev_foot. */
  ghost predicate Own(L: Layout, p: int, a: int) {
    p in L && p + 8 <= a < p + (if L[p].kind.Ordinary() then L[p].size + 8 else L[p].Extent())
  }

  ghost predicate OwnTouch(L: Layout, mem: Mem, mem': Mem, S: set<int>) {
    forall a {:trigger Rd(mem', a)} :: Rd(mem', a) == Rd(mem, a) || exists c {:trigger Own(L, c, a)} ::
      c in S && Own(L, c, a)
  }

  lemma OwnApart(L: Layout, p: int, q: int, a: int)
    requires LayoutOk(L) && Own(L, p, a) && Own(L, q, a)
    ensures p == q
  {
    assert Apart(L, p, q);
  }

  lemma OwnHead(L: Layout, p: int)
    requires LayoutOk(L) && p in L
    ensures Own(L, p, p + 8)
  {
    assert ChunkOk(L, p);
  }

  ghost predicate Carried(L: Layout, L': Layout, q: int) {
    q in L && q in L' && L'[q].size == L[q].size && L'[q].kind == L[q].kind && (Pin(L', q) <==> Pin(L, q))
  }

  lemma TagCarried(L: Layout, L': Layout, mem: Mem, mem': Mem, q: int)
    requires LayoutOk(L) && Carried(L, L', q) && Tag(L, mem, q)
    requires forall a {:trigger Rd(mem', a)} :: Own(L, q, a) ==> Rd(mem', a) == Rd(mem, a)
    ensures Tag(L', mem', q)
  {
    var c := L[q];
    assert ChunkOk(L, q);
    if c.kind.Fence? {
      forall a | q + 8 <= a < q + c.size && a % 8 == 0 ensures FenceHead(mem', a) {
        assert FenceHead(mem, a);
      }
    }
  }

  /** A chunk outside S keeps its tag. */
  lemma TagElsewhere(L: Layout, L': Layout, mem: Mem, mem': Mem, S: set<int>, q: int)
    requires LayoutOk(L) && Carried(L, L', q) && Tag(L, mem, q) && OwnTouch(L, mem, mem', S) && q !in S
    ensures Tag(L', mem', q)
  {
    forall a | Own(L, q, a) ensures Rd(mem', a) == Rd(mem, a) {
      if Rd(mem', a) != Rd(mem, a) {
        var c :| c in S && Own(L, c, a);
        OwnApart(L, c, q, a);
      }
    }
    TagCarried(L, L', mem, mem', q);
  }

  /** Chunk c is being freed, is top, is free and in no bin, or has at most its head written. */
  ghost predicate TagRole(v: View, mem': Mem, u: int, c: int) {
    c in v.lay ==>
      || (c == u && v.lay[c].kind.Used?) || c in v.out || v.lay[c].kind.Top?
      || forall a {:trigger Rd(mem', a)} :: Own(v.lay, c, a) && a != c + 8 ==> Rd(mem', a) == Rd(v.mem, a)
  }

  /** Own words of the freed chunk, of top and of unbinned free chunks, and any head, are tag area. */
  lemma OwnIsTagArea(v: View, mem': Mem, u: int, S: set<int>)
    requires OwnTouch(v.lay, v.mem, mem', S)
    requires forall c {:trigger c in S} :: c in S ==> TagRole(v, mem', u, c)
    ensures TagTouch(v, mem', u)
  {
    forall a ensures Rd(mem', a) == Rd(v.mem, a) || exists q {:trigger TagArea(v, u, q, a)} :: TagArea(v, u, q, a) {
      if Rd(mem', a) != Rd(v.mem, a) {
        var c :| c in S && Own(v.lay, c, a);
        assert TagArea(v, u, c, a);
      }
    }
  }

  /** With nothing being freed, every payload and every bin is left alone. */
  lemma QuietTags(v: View, mem': Mem, S: set<int>)
    requires Base(v) && OwnTouch(v.lay, v.mem, mem', S)
    requires forall c {:trigger c in S} :: c in S ==> TagRole(v, mem', 0, c)
    ensures NotBins(v, mem') && PayloadSame(UsedOf(v.lay), v.ms, v.mem, mem')
  {
    assert 0 in v.lay ==> ChunkOk(v.lay, 0);
    assert UsedOf(v.lay) - {0} == UsedOf(v.lay);
    OwnIsTagArea(v, mem', 0, S);
    TagTouchQuiet(v, mem', 0);
  }

  // ----- taking a whole free chunk

  /** set_inuse_and_pinuse */
  ghost predicate WholeWritten(v: View, mem': Mem, p: int) {
    p in v.lay &&
    var s := v.lay[p].size;
    && Touched(v.mem, mem', 0, 0, {p + 8, p + s + 8})
    && Rd(mem', p + 8) == s + 3 && Rd(mem', p + s + 8) == SetPinuse(Rd(v.mem, p + s + 8))
  }

  ghost predicate Steady(v: View) {
    Base(v) && NoAdj(v.lay)
  }

  ghost predicate Unbinned(v: View, p: int) {
    p in v.lay && v.lay[p].kind.Free? && p in v.out
  }

  ghost function WholeTaken(v: View, mem': Mem, p: int): View
    requires p in v.lay
  {
    v.(mem := mem', lay := SetKind(v.lay, p, Used), out := v.out - {p})
  }

  lemma AfterFree(v: View, p: int)
    requires Steady(v) && Unbinned(v, p)
    ensures var n := p + v.lay[p].size;
      && n in v.lay && v.lay[n].kind.Used? && v.lay[n].prev == p && !Pin(v.lay, n) && Pin(v.lay, p)
      && Rd(v.mem, n + 8) == Head(v.lay[n].size, true, false) && v.lay[n].size % 8 == 0
      && n != p
  {
    var n := p + v.lay[p].size;
    assert ChunkOk(v.lay, p) && ChunkOk(v.lay, n) && NoAdj1(v.lay, p) && NoAdj1(v.lay, n) && Tag(v.lay, v.mem, n);
  }

  lemma WholeTag(v: View, mem': Mem, p: int, q: int)
    requires Steady(v) && Unbinned(v, p) && WholeWritten(v, mem', p)
    ensures Tag(SetKind(v.lay, p, Used), mem', q)
  {
    var L, L', s := v.lay, SetKind(v.lay, p, Used), v.lay[p].size;
    var n := p + s;
    AfterFree(v, p);
    HeadDecodes(L[n].size, true, false);
    assert Tag(L, v.mem, q);
    assert ChunkOk(L, p) && (q in L ==> ChunkOk(L, q));
    if q in L && q != p && q != n {
      OwnHead(L, p);
      OwnHead(L, n);
      TagElsewhere(L, L', v.mem, mem', {p, n}, q);
    }
  }

  lemma WholeNoAdj(v: View, p: int)
    requires Steady(v) && Unbinned(v, p)
    ensures NoAdj(SetKind(v.lay, p, Used))
  {
    var L' := SetKind(v.lay, p, Used);
    forall q ensures NoAdj1(L', q) {
      assert NoAdj1(v.lay, q);
    }
  }

  lemma WholeKeeps(v: View, mem': Mem, p: int)
    requires Steady(v) && Unbinned(v, p) && WholeWritten(v, mem', p)
    ensures Steady(WholeTaken(v, mem', p))
    ensures PayloadSame(UsedOf(v.lay), v.ms, v.mem, mem')
    ensures UsedOf(SetKind(v.lay, p, Used)) == UsedOf(v.lay)[p := v.lay[p].size]
  {
    var v' := WholeTaken(v, mem', p);
    var n := p + v.lay[p].size;
    AfterFree(v, p);
    OwnHead(v.lay, p);
    OwnHead(v.lay, n);
    QuietTags(v, mem', {p, n});
    SetKindOk(v.lay, p, Used);
    forall q ensures Tag(v'.lay, mem', q) {
      WholeTag(v, mem', p, q);
    }
    assert Relaid(v, v');
    RelaidBase(v, v');
    WholeNoAdj(v, p);
  }

  // ----- splitting a free chunk or top

  ghost predicate Cuttable(v: View, p: int, n: int) {
    && Steady(v) && Splittable(v.lay, p, n) && (Unbinned(v, p) || v.lay[p].kind.Top?)
  }

  /** The head of the taken front, and the head and foot of a free remainder (top has no foot). */
  ghost predicate CutWritten(v: View, mem': Mem, p: int, n: int) {
    p in v.lay &&
    var c := v.lay[p];
    var r := c.size - n;
    && Touched(v.mem, mem', 0, 0, if c.kind.Top? then {p + 8, p + n + 8} else {p + 8, p + n + 8, p + c.size})
    && Rd(mem', p + 8) == n + 3 && Rd(mem', p + n + 8) == r + 1
    && (!c.kind.Top? ==> Rd(mem', p + c.size) == r)
  }

  ghost function Cut(v: View, mem': Mem, p: int, n: int): View
    requires p in v.lay
  {
    v.(mem := mem', lay := Split(v.lay, p, n, Used), out := if v.lay[p].kind.Free? then v.out - {p} + {p + n}
      else v.out)
  }

  lemma CutPins(v: View, p: int, n: int, q: int)
    requires Cuttable(v, p, n) && q in v.lay
    ensures Pin(v.lay, p)
    ensures var L' := Split(v.lay, p, n, Used);
      q in L' && Pin(L', p + n) && L'[p + n].kind == v.lay[p].kind && (Pin(L', q) <==> Pin(v.lay, q))
  {
    SplitFresh(v.lay, p, n);
    assert ChunkOk(v.lay, p) && NoAdj1(v.lay, p) && ChunkOk(v.lay, q);
  }

  lemma CutTag(v: View, mem': Mem, p: int, n: int, q: int)
    requires Cuttable(v, p, n) && CutWritten(v, mem', p, n)
    ensures Tag(Split(v.lay, p, n, Used), mem', q)
  {
    var L, L', c := v.lay, Split(v.lay, p, n, Used), v.lay[p];
    SplitFresh(L, p, n);
    CutPins(v, p, n, if q in L then q else p);
    assert Tag(L, v.mem, q) && Tag(L, v.mem, p) && ChunkOk(L, p);
    assert Own(L, p, p + 8) && Own(L, p, p + n + 8) && Own(L, p, p + c.size);
    if q in L && q != p {
      TagElsewhere(L, L', v.mem, mem', {p}, q);
    }
  }

  lemma CutNoAdj(v: View, p: int, n: int)
    requires Cuttable(v, p, n)
    ensures NoAdj(Split(v.lay, p, n, Used))
  {
    var L' := Split(v.lay, p, n, Used);
    SplitFresh(v.lay, p, n);
    forall q ensures NoAdj1(L', q) {
      CutPins(v, p, n, if q in v.lay then q else p);
      assert NoAdj1(v.lay, q);
    }
  }

  lemma CutFree(v: View, mem': Mem, p: int, n: int, q: int, s: int)
    requires Cuttable(v, p, n)
    ensures var v' := Cut(v, mem', p, n);
      (FreeAt(v'.lay, q, s) && q !in v'.out <==> FreeAt(v.lay, q, s) && q !in v.out)
  {
    SplitFresh(v.lay, p, n);
  }

  lemma CutUsed(L: Layout, p: int, n: int)
    requires LayoutOk(L) && Splittable(L, p, n) && !L[p].kind.Used?
    ensures UsedOf(Split(L, p, n, Used)) == UsedOf(L)[p := n]
  {
    SplitFresh(L, p, n);
    var u := UsedOf(Split(L, p, n, Used));
    forall q ensures q in u <==> q in UsedOf(L)[p := n] {}
  }

  lemma CutQuiet(v: View, mem': Mem, p: int, n: int)
    requires Cuttable(v, p, n) && CutWritten(v, mem', p, n)
    ensures NotBins(v, mem') && PayloadSame(UsedOf(v.lay), v.ms, v.mem, mem')
  {
    assert ChunkOk(v.lay, p);
    assert Own(v.lay, p, p + 8) && Own(v.lay, p, p + n + 8) && Own(v.lay, p, p + v.lay[p].size);
    QuietTags(v, mem', {p});
  }

  /** Taking the front of a free chunk or of top keeps the invariant; the remainder stays free. */
  lemma CutKeeps(v: View, mem': Mem, p: int, n: int)
    requires Cuttable(v, p, n) && CutWritten(v, mem', p, n)
    ensures Steady(Cut(v, mem', p, n))
    ensures PayloadSame(UsedOf(v.lay), v.ms, v.mem, mem')
    ensures UsedOf(Split(v.lay, p, n, Used)) == UsedOf(v.lay)[p := n]
  {
    var v' := Cut(v, mem', p, n);
    CutQuiet(v, mem', p, n);
    SplitOk(v.lay, p, n, Used);
    SplitFresh(v.lay, p, n);
    forall q ensures Tag(v'.lay, mem', q) {
      CutTag(v, mem', p, n, q);
    }
    forall q, s ensures FreeAt(v'.lay, q, s) && q !in v'.out <==> FreeAt(v.lay, q, s) && q !in v.out {
      CutFree(v, mem', p, n, q, s);
    }
    assert Relaid(v, v');
    RelaidBase(v, v');
    CutNoAdj(v, p, n);
    CutUsed(v.lay, p, n);
  }
}
