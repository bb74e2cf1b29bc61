/** A new space: the state chunk at the base of its first segment, and top behind it. */
module Spaces {
  import opened Words
  import opened Layouts
  import opened Canonical
  import opened BinMaps
  import opened Tries
  import opened Sizes
  import opened Views
  import opened Segments
  import opened Heaps
  import opened Regions
  import opened Payloads
  import opened Tops

  /** Where the state chunk of a space in memory at tbase starts. */
  function StateAt(tbase: int): int {
    tbase + AlignOffset(tbase + 16)
  }

  /** The size of a new top, as unsigned arithmetic gives it. */
  function FirstTopSize(tbase: int, tsize: int): int {
    Sub64(tbase + tsize, StateAt(tbase) + STATE_CHUNK_SIZE + TOP_FOOT_SIZE)
  }

  /** Top of n bytes behind the state chunk at ms. */
  ghost function FirstLayout(ms: int, n: int): Layout {
    map[ms := Chunk(STATE_CHUNK_SIZE, Used, 0), ms + STATE_CHUNK_SIZE := Chunk(n, Top, ms)]
  }

  ghost function NoRings(): seq<seq<int>> {
    seq(32, i => [])
  }

  ghost function NoTries(): seq<Tree> {
    seq(32, i => Nil)
  }

  ghost function FirstView(mem: Mem, ms: int, n: int): View {
    View(mem, FirstLayout(ms, n), ms, 0, 0, NoRings(), NoTries(), {})
  }

  /** The end of the memory that a state chunk at ms, top of n bytes behind it and its overhead take. */
  function FirstEnd(ms: int, n: int): int {
    ms + STATE_CHUNK_SIZE + n + TOP_FOOT_SIZE
  }

  /** Memory for a space: anywhere in the address space, and more than the overhead. */
  ghost predicate FirstScope(tbase: int, tsize: int) {
    0 < tbase && STATE_CHUNK_SIZE + TOP_FOOT_SIZE < tsize && tbase + tsize <= TWO64
  }

  /** Top ends on a multiple of eight and is not empty. */
  ghost predicate TopFits(tbase: int, tsize: int) {
    (tbase + tsize) % 8 == 0 && StateAt(tbase) + STATE_CHUNK_SIZE + TOP_FOOT_SIZE < tbase + tsize
  }

  ghost predicate PlaceOk(ms: int, n: int) {
    0 < ms && ms % 8 == 0 && 0 < n && n % 8 == 0 && FirstEnd(ms, n) <= TWO64
  }

  lemma StateIs(tbase: int)
    ensures StateAt(tbase) % 8 == 0 && tbase <= StateAt(tbase) < tbase + 8
    ensures tbase % 8 == 0 ==> StateAt(tbase) == tbase
  {}

  lemma Difference64(x: int, y: int)
    requires -TWO64 <= x - y < TWO64
    ensures Sub64(x, y) == if x < y then x - y + TWO64 else x - y
  {}

  lemma WrapKeepsEights(d: int)
    ensures (d + TWO64) % 8 == d % 8
  {}

  lemma TopSizeOf(tbase: int, tsize: int)
    requires FirstScope(tbase, tsize)
    ensures var d := tbase + tsize - (StateAt(tbase) + STATE_CHUNK_SIZE + TOP_FOOT_SIZE);
      && -8 < d && FirstTopSize(tbase, tsize) == (if d < 0 then d + TWO64 else d)
      && 0 <= FirstTopSize(tbase, tsize) < TWO64
      && FirstTopSize(tbase, tsize) % 8 == (tbase + tsize) % 8
  {
    hide StateAt, Sub64;
    StateIs(tbase);
    var e := StateAt(tbase) + STATE_CHUNK_SIZE + TOP_FOOT_SIZE;
    Difference64(tbase + tsize, e);
    WrapKeepsEights(tbase + tsize - e);
    LessEights(tbase + tsize, e);
  }

  lemma LessEights(x: int, e: int)
    requires e % 8 == 0
    ensures (x - e) % 8 == x % 8
  {}

  lemma PlaceOf(tbase: int, tsize: int)
    requires FirstScope(tbase, tsize)
    ensures StateAt(tbase) % 8 == 0 && tbase <= StateAt(tbase) < tbase + 8
    ensures 0 <= FirstTopSize(tbase, tsize) < TWO64
    ensures (0 < FirstTopSize(tbase, tsize) && FirstTopSize(tbase, tsize) % 8 == 0) <==> TopFits(tbase, tsize)
    ensures TopFits(tbase, tsize) ==> PlaceOk(StateAt(tbase), FirstTopSize(tbase, tsize))
    ensures TopFits(tbase, tsize) ==> FirstEnd(StateAt(tbase), FirstTopSize(tbase, tsize)) == tbase + tsize
  {
    hide StateAt, FirstTopSize;
    StateIs(tbase);
    TopSizeOf(tbase, tsize);
    var d := tbase + tsize - (StateAt(tbase) + STATE_CHUNK_SIZE + TOP_FOOT_SIZE);
    if -8 < d < 0 {
      WrapKeepsEights(d);
    }
  }

  lemma AlignedPlace(tbase: int, tsize: int)
    requires FirstScope(tbase, tsize) && tbase % 8 == 0 && tsize % 8 == 0
    ensures TopFits(tbase, tsize) && FirstTopSize(tbase, tsize) == tsize - STATE_CHUNK_SIZE - TOP_FOOT_SIZE
  {
    PlaceOf(tbase, tsize);
  }

  ghost predicate TreeWordClear(mem: Mem, tbase: int, i: int) {
    0 <= i < 32 ==> Rd(mem, TreeSlot(tbase, i)) == 0
  }

  /** The words a new space relies on: two heads, the trailing overhead, and empty tree bins. */
  ghost predicate FirstWritten(mem: Mem, ms: int, n: int) {
    var t := ms + STATE_CHUNK_SIZE;
    && Rd(mem, ms + 8) == STATE_CHUNK_SIZE + 3 && Rd(mem, t + 8) == n + 1 && Rd(mem, t + n + 8) == TOP_FOOT_SIZE
    && forall i {:trigger TreeWordClear(mem, ms, i)} :: TreeWordClear(mem, ms, i)
  }

  lemma FirstLayoutOk(ms: int, n: int)
    requires PlaceOk(ms, n)
    ensures var L := FirstLayout(ms, n);
      LayoutOk(L) && NoAdj(L) && OneTop(L, ms + STATE_CHUNK_SIZE) && UsedOf(L) == map[ms := STATE_CHUNK_SIZE]
  {
    var L := FirstLayout(ms, n);
    forall p | p in L ensures ChunkOk(L, p) {}
    var u := UsedOf(L);
    forall q ensures q in u <==> q == ms {}
  }

  lemma FirstTags(mem: Mem, ms: int, n: int)
    requires PlaceOk(ms, n) && FirstWritten(mem, ms, n)
    ensures TagsOk(FirstLayout(ms, n), mem)
  {}

  lemma NoMarks(i: int)
    ensures !Marked(0, i)
  {
    AnyMarked(0);
  }

  lemma FirstBins(mem: Mem, ms: int, n: int, i: int)
    requires FirstWritten(mem, ms, n)
    ensures SmallAt(FirstView(mem, ms, n), i) && TreeAt(FirstView(mem, ms, n), i)
  {
    NoMarks(i);
    assert TreeWordClear(mem, ms, i);
  }

  lemma FirstIndex(mem: Mem, ms: int, n: int, p: int, s: int)
    ensures IndexAt(FirstView(mem, ms, n), p, s)
  {}

  lemma FirstAbove(s: Segment)
    ensures s.base <= s.First()
  {}

  lemma FirstSegment(ms: int, n: int, s: Segment)
    requires PlaceOk(ms, n) && 0 < s.base && s.First() == ms && s.End() == FirstEnd(ms, n)
    ensures SegmentsOk(FirstLayout(ms, n), [s])
  {
    hide AlignOffset;
    FirstAbove(s);
    var L, segs := FirstLayout(ms, n), [s];
    forall p ensures Hosted(L, segs, p) {
      assert p in L ==> Hosts(L, segs, 0, p);
    }
  }

  /** A new space satisfies the whole invariant. */
  lemma FirstHeap(mem: Mem, ms: int, n: int, s: Segment)
    requires PlaceOk(ms, n) && FirstWritten(mem, ms, n) && 0 < s.base && s.First() == ms && s.End() == FirstEnd(ms, n)
    ensures HeapMid(FirstView(mem, ms, n), Heads(0, 0, ms + STATE_CHUNK_SIZE, n), [s], {})
    ensures UsedOf(FirstLayout(ms, n)) == map[ms := STATE_CHUNK_SIZE]
  {
    var v := FirstView(mem, ms, n);
    FirstLayoutOk(ms, n);
    FirstTags(mem, ms, n);
    FirstSegment(ms, n, s);
    forall i ensures SmallAt(v, i) {
      FirstBins(mem, ms, n, i);
    }
    forall i ensures TreeAt(v, i) {
      FirstBins(mem, ms, n, i);
    }
    forall p, q ensures IndexAt(v, p, q) {
      FirstIndex(mem, ms, n, p, q);
    }
  }

  lemma TopAligned(v: View, h: Heads, segs: seq<Segment>)
    requires HeapMid(v, h, segs, {})
    ensures 0 < h.topsize && h.topsize % 8 == 0
  {
    hide Base;
    LayoutOf(v);
    assert ChunkOk(v.lay, h.top);
  }

  // ----- sizing a new space

  const PAGE_SIZE: int := 0x1000

  /** The region asked of the system for a new space. */
  function SpaceSize(capacity: int): int {
    GranularityAlign(if capacity == 0 then GRANULARITY else capacity + TOP_FOOT_SIZE + STATE_CHUNK_SIZE)
  }

  /** The size of a new space exceeds its capacity and overhead, or wraps to nothing. */
  lemma SpaceSizeFits(capacity: int)
    requires 0 <= capacity < TWO64 - (STATE_CHUNK_SIZE + TOP_FOOT_SIZE + PAGE_SIZE)
    ensures SpaceSize(capacity) % 8 == 0 && 0 <= SpaceSize(capacity) < TWO64
    ensures SpaceSize(capacity) == 0 || capacity + STATE_CHUNK_SIZE + TOP_FOOT_SIZE < SpaceSize(capacity)
    ensures SpaceSize(0) == 2 * GRANULARITY
    ensures 0 < capacity ==> SpaceSize(capacity) <= capacity + STATE_CHUNK_SIZE + TOP_FOOT_SIZE + GRANULARITY
    ensures SpaceSize(capacity) == 0 <==> TWO64 <= capacity + STATE_CHUNK_SIZE + TOP_FOOT_SIZE + GRANULARITY
  {
    assert SpaceSize(0) == 2 * GRANULARITY;
    hide GranularityAlign;
    GranularityIs(if capacity == 0 then GRANULARITY else capacity + TOP_FOOT_SIZE + STATE_CHUNK_SIZE);
    GranularityEights(SpaceSize(capacity));
  }

  // ----- the writes of init_user_mstate

  ghost predicate SelfLinked(mem: Mem, ms: int, i: int) {
    0 <= i < 32 ==> Rd(mem, Header(ms, i) + 16) == Header(ms, i) && Rd(mem, Header(ms, i) + 24) == Header(ms, i)
  }

  ghost predicate BinsTouch(mem: Mem, mem': Mem, ms: int) {
    forall a {:trigger Rd(mem', a)} :: Rd(mem', a) == Rd(mem, a) || ms + 96 <= a < ms + 608
  }

  lemma BinStep(mem: Mem, mem': Mem, ms: int, i: int)
    requires 0 <= i < 32 && BinsTouch(mem, mem', ms) && forall j {:trigger SelfLinked(mem', ms, j)} :: j < i ==>
      SelfLinked(mem', ms, j)
    ensures var bin := Header(ms, i);
      var next := mem'[bin + 24 := bin][bin + 16 := bin];
      BinsTouch(mem, next, ms) && forall j {:trigger SelfLinked(next, ms, j)} :: j < i + 1 ==> SelfLinked(next, ms, j)
  {
    var bin := Header(ms, i);
    var next := mem'[bin + 24 := bin][bin + 16 := bin];
    forall a ensures Rd(next, a) == Rd(mem, a) || ms + 96 <= a < ms + 608 {
      assert a != bin + 24 && a != bin + 16 ==> Rd(next, a) == Rd(mem', a);
    }
    forall j | j < i + 1 ensures SelfLinked(next, ms, j) {
      assert j < i ==> SelfLinked(mem', ms, j);
    }
  }

  lemma TopSizeIs(tbase: int, tsize: int)
    ensures var mn := StateAt(tbase) + STATE_CHUNK_SIZE;
      Sub64(Sub64(tbase + tsize, mn), TOP_FOOT_SIZE) == FirstTopSize(tbase, tsize)
    ensures 0 <= FirstTopSize(tbase, tsize) < TWO64
      && Sub64(FirstTopSize(tbase, tsize), 0) == FirstTopSize(tbase, tsize)
  {}

  /** The foot of a new top lies behind the state chunk, even where its size has wrapped. */
  lemma FirstFoot(tbase: int, tsize: int)
    requires FirstScope(tbase, tsize)
    ensures StateAt(tbase) + STATE_CHUNK_SIZE <= FootOf(StateAt(tbase) + STATE_CHUNK_SIZE, FirstTopSize(tbase, tsize))
    ensures TopFits(tbase, tsize) ==> StateAt(tbase) + STATE_CHUNK_SIZE + FirstTopSize(tbase, tsize) + 8 < TWO64
  {
    hide StateAt, FirstTopSize, FootOf;
    StateIs(tbase);
    TopSizeOf(tbase, tsize);
    FootIs(StateAt(tbase) + STATE_CHUNK_SIZE, FirstTopSize(tbase, tsize));
  }

  lemma StateFirst(s: Segment)
    ensures s.First() == StateAt(s.base)
  {}

  lemma BinsStay(m2: Mem, m3: Mem, ms: int, foot: int)
    requires ms % 8 == 0 && TopTouch(m2, m3, ms + STATE_CHUNK_SIZE, foot) && ms + STATE_CHUNK_SIZE <= foot
    requires forall i {:trigger SelfLinked(m2, ms, i)} :: SelfLinked(m2, ms, i)
    ensures forall i {:trigger SelfLinked(m3, ms, i)} :: SelfLinked(m3, ms, i)
  {
    forall i ensures SelfLinked(m3, ms, i) {
      assert SelfLinked(m2, ms, i);
    }
  }

  lemma FirstWords(m1: Mem, m2: Mem, m3: Mem, ms: int, n: int)
    requires PlaceOk(ms, n) && ZeroBytes(m1, ms + 16, STATE_CHUNK_SIZE)
    requires BinsTouch(m1[ms + 8 := STATE_CHUNK_SIZE + 3], m2, ms)
    requires m3 == ExtendMem(m2, ms + STATE_CHUNK_SIZE, n)
    ensures FirstWritten(m3, ms, n)
  {
    var t := ms + STATE_CHUNK_SIZE;
    ExtendReads(m2, t, n, ms + 8);
    assert Rd(m2, ms + 8) == Rd(m1[ms + 8 := STATE_CHUNK_SIZE + 3], ms + 8);
    forall i ensures TreeWordClear(m3, ms, i) {
      TreeWordStays(m1, m2, m3, ms, n, i);
    }
  }

  lemma ExtendReads(mem: Mem, t: int, n: int, a: int)
    requires n != 0
    ensures var mem' := ExtendMem(mem, t, n);
      && Rd(mem', t + 8) == n + 1 && Rd(mem', t + n + 8) == TOP_FOOT_SIZE
      && (a != t + 8 && a != t + n + 8 ==> Rd(mem', a) == Rd(mem, a))
  {}

  lemma TreeWordStays(m1: Mem, m2: Mem, m3: Mem, ms: int, n: int, i: int)
    requires PlaceOk(ms, n) && ZeroBytes(m1, ms + 16, STATE_CHUNK_SIZE)
    requires BinsTouch(m1[ms + 8 := STATE_CHUNK_SIZE + 3], m2, ms)
    requires m3 == ExtendMem(m2, ms + STATE_CHUNK_SIZE, n)
    ensures TreeWordClear(m3, ms, i)
  {
    if 0 <= i < 32 {
      var a := TreeSlot(ms, i);
      assert ZeroAt(m1, ms + 16, STATE_CHUNK_SIZE, 592 + 8 * i);
      assert a == ms + 16 + (592 + 8 * i);
      assert Rd(m2, a) == Rd(m1[ms + 8 := STATE_CHUNK_SIZE + 3], a);
      ExtendReads(m2, ms + STATE_CHUNK_SIZE, n, a);
    }
  }

  // ----- capacities that are no multiple of eight

  /**
   * Capacities of 1001 and 1002 bytes give a top whose head lies about its size or its state; 1004 gives a readable
   * one.
   */
  lemma HeadsMisread(mem: Mem, tbase: int)
    requires 0 < tbase && tbase % 8 == 0 && tbase + 1004 <= TWO64
    ensures var t := StateAt(tbase) + STATE_CHUNK_SIZE;
      && FirstTopSize(tbase, 1001) == 17 && ChunkSize(Rd(TopMem(mem, t, 17), t + 8)) == 16
      && FirstTopSize(tbase, 1002) == 18 && Cinuse(Rd(TopMem(mem, t, 18), t + 8))
      && FirstTopSize(tbase, 1004) == 20 && HeadSays(Rd(TopMem(mem, t, 20), t + 8), 20)
  {
    hide TopMem;
    var t := StateAt(tbase) + STATE_CHUNK_SIZE;
    FootMissesHead(mem, t, 17);
    FootMissesHead(mem, t, 18);
    FootMissesHead(mem, t, 20);
  }

  lemma TotalOfOne(s: Segment)
    ensures TotalSize([s]) == s.size
  {
    assert [s][1..] == [];
  }
}
