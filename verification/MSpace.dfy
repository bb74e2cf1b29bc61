/** An mspace: chunks, bins, designated victim, top and segments, updated in place. */
module MSpaces {
  import opened Words
  import opened Layouts
  import opened BinMaps
  import opened Chains
  import opened Tries
  import opened TrieLinks
  import opened TriePrune
  import opened Sizes
  import opened Keys
  import opened Views
  import opened Areas
  import opened SmallBins
  import opened TreeBins
  import opened TreeUnbins
  import opened TagOps
  import opened FreeOps
  import opened Scratch
  import opened Walks
  import opened LinkWrites
  import opened UnlinkWrites
  import opened Canonical
  import opened Segments
  import opened Heaps
  import opened Gains
  import opened Searches
  import opened BestFits
  import opened Choices
  import opened Frees
  import opened Regions
  import opened Growth
  import opened Systems
  import opened Prepends
  import opened Payloads
  import opened Callocs
  import opened Spaces
  import opened Alignments
  import opened Memaligns
  import opened Carves
  import opened Reallocs
  import opened Stretches
  import opened Tops
  import opened Pools
  import opened Replies

  class MSpace {
    const ms: int
    var mem: Mem
    var smallmap: bv32
    var treemap: bv32
    var dvsize: int
    var topsize: int
    var dv: int
    var top: int
    var segs: seq<Segment>
    var footprint: int
    var maxFootprint: int

    ghost var lay: Layout
    ghost var sb: seq<seq<int>>
    ghost var tb: seq<Tree>
    ghost var out: set<int>

    ghost function V(): View
      reads this
    {
      View(mem, lay, ms, smallmap, treemap, sb, tb, out)
    }

    ghost function H(): Heads
      reads this
    {
      Heads(dv, dvsize, top, topsize)
    }

    ghost function B(): Bins
      reads this
    {
      Bins(sb, tb)
    }

    ghost function P(): Pool
      reads this
    {
      Pool(lay, H(), B(), segs)
    }

    ghost function Now(): Space
      reads this
    {
      Space(V(), H(), segs)
    }

    /** The invariant while the chunks in x are out of their bins. */
    ghost predicate Mid(x: set<int>)
      reads this
    {
      HeapMid(V(), H(), segs, x)
    }

    ghost predicate Valid()
      reads this
    {
      Mid({}) && footprint == TotalSize(segs) && footprint <= maxFootprint
    }

    /**
     * A space in the tsize bytes at tbase, over memory of any contents: its state chunk at the first aligned address,
     * and top behind it. The invariant holds exactly when the memory ends on a multiple of eight and leaves room for
     * top.
     */
    constructor (tbase: int, tsize: int, mmapped: bool, extern: bool, m0: Mem)
      requires FirstScope(tbase, tsize)
      ensures ms == StateAt(tbase) && segs == [Segment(tbase, tsize, mmapped, extern)]
      ensures footprint == tsize && maxFootprint == tsize && dv == 0 && dvsize == 0
      ensures top == ms + STATE_CHUNK_SIZE && topsize == FirstTopSize(tbase, tsize)
      ensures Valid() <==> TopFits(tbase, tsize)
      ensures Valid() ==> UsedOf(lay) == map[ms := STATE_CHUNK_SIZE]
      ensures HeadSays(Rd(mem, top + 8), topsize) <==> ReadableTop(topsize)
      ensures forall i {:trigger SelfLinked(mem, ms, i)} :: SelfLinked(mem, ms, i)
    {
      hide Base, HeapMid, FirstWritten, FirstLayout, BinsTouch, SelfLinked, ZeroBytes, WordsTouch, FirstTopSize;
      hide StateAt, HeadSays, ReadableTop, TopTouch, FootOf, AlignOffset, Sub64, ExtendMem, TopFits, PlaceOk;
      PlaceOf(tbase, tsize);
      var msp := StateAt(tbase);
      ms := msp;
      mem := m0;
      smallmap, treemap, dvsize, dv, topsize, top := 0, 0, 0, 0, 0, 0;
      segs := [Segment(tbase, tsize, mmapped, extern)];
      footprint, maxFootprint := tsize, tsize;
      lay, sb, tb, out := FirstLayout(msp, FirstTopSize(tbase, tsize)), NoRings(), NoTries(), {};
      new;
      MemSet(ms + 16, STATE_CHUNK_SIZE);
      ghost var m1 := mem;
      mem := mem[ms + 8 := STATE_CHUNK_SIZE + 3];
      InitBins();
      var mn := ms + STATE_CHUNK_SIZE;
      ghost var m2 := mem;
      TopSizeIs(tbase, tsize);
      InitTop(mn, Sub64(Sub64(tbase + tsize, mn), TOP_FOOT_SIZE));
      FirstFoot(tbase, tsize);
      BinsStay(m2, mem, ms, FootOf(top, topsize));
      if TopFits(tbase, tsize) {
        FirstWords(m1, m2, mem, ms, topsize);
        StateFirst(segs[0]);
        FirstHeap(mem, ms, topsize, segs[0]);
        TotalOfOne(segs[0]);
        assert V() == FirstView(mem, ms, topsize);
      } else if Mid({}) {
        TopAligned(V(), H(), segs);
        assert false;
      }
    }

    /** Make every small bin empty by linking its header to itself. */
    method InitBins()
      modifies `mem
      ensures BinsTouch(old(mem), mem, ms)
      ensures forall i {:trigger SelfLinked(mem, ms, i)} :: SelfLinked(mem, ms, i)
    {
      var i := 0;
      while i < 32
        invariant 0 <= i <= 32 && BinsTouch(old(mem), mem, ms)
        invariant forall j {:trigger SelfLinked(mem, ms, j)} :: j < i ==> SelfLinked(mem, ms, j)
      {
        var bin := Header(ms, i);
        BinStep(old(mem), mem, ms, i);
        mem := mem[bin + 24 := bin];
        mem := mem[bin + 16 := bin];
        i := i + 1;
      }
    }

    /** Link a free chunk into its small bin, at the front. */
    method InsertSmallChunk(p: int, s: int)
      requires Base(V()) && p in out && FreeAt(lay, p, s) && s < MIN_LARGE_SIZE
      modifies `mem, `smallmap, `sb, `out
      ensures Base(V()) && out == old(out) - {p}
      ensures 0 <= s / 8 < |old(sb)| && sb == old(sb)[s / 8 := [p] + old(sb)[s / 8]]
      ensures PayloadSame(UsedOf(lay), ms, old(mem), mem) && Frame(lay, lay, old(mem), mem)
    {
      hide Base, Marked, Mark, SetBit, PayloadSame, Frame, FirstOf;
      ghost var v := V();
      var i := s / 8;
      FrontReads(v, p, s);
      var b := Header(ms, i);
      var f := b;
      if !Marked(smallmap, i) {
        smallmap := SetBit(smallmap, i);
      } else {
        f := Rd(mem, b + 16);
      }
      assert f == FirstOf(v, i) && smallmap == Mark(v.smallmap, i);
      mem := mem[b + 16 := p];
      mem := mem[f + 24 := p];
      mem := mem[p + 16 := f];
      mem := mem[p + 24 := b];
      assert mem == FrontMem(v, p, i);
      hide FrontMem;
      sb := sb[i := [p] + sb[i]];
      out := out - {p};
      assert V() == SmallInserted(v, FrontMem(v, p, i), p, i);
    }

    /** Unlink a free chunk from its small bin. */
    method UnlinkSmallChunk(p: int, s: int)
      requires Base(V()) && FreeAt(lay, p, s) && p !in out && s < MIN_LARGE_SIZE
      modifies `mem, `smallmap, `sb, `out
      ensures Base(V()) && out == old(out) + {p}
      ensures B() == Drawn(old(B()), p, s)
      ensures PayloadSame(UsedOf(lay), ms, old(mem), mem) && Frame(lay, lay, old(mem), mem)
    {
      hide Base, PayloadSame, Frame, Unmark, MemberWritten, Neighbour, FreeAt;
      ghost var v := V();
      ghost var k := SmallBinned(v, p, s);
      var i := s / 8;
      SmallNeighbours(v, p, i, k);
      var f := Rd(mem, p + 16);
      var b := Rd(mem, p + 24);
      if f == b {
        smallmap := Unmark(smallmap, i);
      } else {
        mem := mem[f + 24 := b];
        mem := mem[b + 16 := f];
        MemberWrites(v, p, i, k);
      }
      SmallRemoveKeeps(v, mem, p, i, k);
      sb := sb[i := DropAt(sb[i], k)];
      out := out + {p};
      assert V() == SmallRemoved(v, mem, p, i, k);
    }

    /** Unlink the first chunk of a small bin. */
    method UnlinkFirstSmallChunk(p: int, i: int)
      requires Base(V()) && 0 <= i < 32 && |sb| == 32 && |sb[i]| > 0 && p == sb[i][0]
      modifies `mem, `smallmap, `sb, `out
      ensures Base(V()) && out == old(out) + {p} && FreeAt(lay, p, 8 * i)
      ensures B() == Drawn(old(B()), p, 8 * i)
      ensures PayloadSame(UsedOf(lay), ms, old(mem), mem) && Frame(lay, lay, old(mem), mem)
    {
      hide Base, PayloadSame, Frame, Unmark, MemberWritten, Neighbour, FreeAt;
      ghost var v := V();
      SmallFirst(v, p, i);
      SmallNeighbours(v, p, i, 0);
      var b := Header(ms, i);
      var f := Rd(mem, p + 16);
      if b == f {
        smallmap := Unmark(smallmap, i);
      } else {
        mem := mem[b + 16 := f];
        mem := mem[f + 24 := b];
        MemberWrites(v, p, i, 0);
      }
      SmallRemoveKeeps(v, mem, p, i, 0);
      sb := sb[i := DropAt(sb[i], 0)];
      out := out + {p};
      assert V() == SmallRemoved(v, mem, p, i, 0);
    }

    /** Walk a marked tree bin for size s: to the node of that size, or to an empty child word c of t. */
    method FindSpot(s: int, i: int) returns (t: int, c: int)
      requires Base(V()) && 0 <= i < 32 && |tb| == 32 && tb[i].Node?
      requires MIN_LARGE_SIZE <= s < TWO64 && s % 8 == 0 && i == TreeIndex(s)
      ensures WF(tb[i], TreeLo(i), TreeBit(i))
      ensures Walk(tb[i], s, TreeLo(i), TreeBit(i)) == if c == 0 then Same(t) else Hang(t, c)
    {
      hide Base;
      ghost var v := V();
      StandingStarts(v, i, s);
      t := Rd(mem, TreeSlot(ms, i));
      var k := s * Pow2(LeftShift(i)) % TWO64;
      ghost var sub, par, lo, b := tb[i], TreeSlot(ms, i), TreeLo(i), TreeBit(i);
      while true
        invariant Base(v) && v == V() && Standing(v, sub, par, i, s, lo, b, k, t)
        invariant Walk(tb[i], s, TreeLo(i), TreeBit(i)) == Walk(sub, s, lo, b)
        decreases sub
      {
        StandingSize(v, sub, par, i, s, lo, b, k, t);
        if ChunkSize(Rd(mem, t + 8)) == s {
          c := 0;
          return;
        }
        StandingStep(v, sub, par, i, s, lo, b, k, t);
        WalkGoesOn(v, sub, par, i, s, lo, b, k, t);
        c := t + 32 + 8 * (k / TWO63);
        k := k * 2 % TWO64;
        if Rd(mem, c) == 0 {
          return;
        }
        par := t;
        t := Rd(mem, c);
        sub, lo, b := Near(sub, s, lo, b), NearLo(s, lo, b), b - 1;
      }
    }

    /** Link a prepared chunk below the root of a marked bin: as a new leaf, or behind a chunk of its size. */
    method LinkBelow(x: int, s: int, i: int)
      requires Ready4(V(), x, s, i) && 0 <= i < 32 && s < TWO64 && s % 8 == 0 && tb[i].Node?
      modifies `mem
      ensures Base(TreeInserted(old(V()), mem, x, s, i))
      ensures PayloadSame(UsedOf(lay), ms, old(mem), mem) && Frame(lay, lay, old(mem), mem)
    {
      hide Base, PayloadSame, Frame, Marked, Mark;
      ghost var v := V();
      var t, c := FindSpot(s, i);
      if c != 0 {
        mem := mem[c := x];
        mem := mem[x + 48 := t];
        mem := mem[x + 24 := x];
        mem := mem[x + 16 := x];
        LeafHangs(v, x, s, i, t, c);
      } else {
        var f := Rd(mem, t + 16);
        mem := mem[f + 24 := x];
        mem := mem[t + 16 := x];
        mem := mem[x + 16 := f];
        mem := mem[x + 24 := t];
        mem := mem[x + 48 := 0];
        MemberJoins(v, x, s, i, t);
      }
    }

    /** Link a large free chunk into its trie. */
    method InsertLargeChunk(x: int, s: int)
      requires Base(V()) && x in out && FreeAt(lay, x, s) && MIN_LARGE_SIZE <= s
      modifies `mem, `treemap, `tb, `out
      ensures Base(V()) && out == old(out) - {x}
      ensures 0 <= TreeIndex(s) < |old(tb)| && WF(old(tb)[TreeIndex(s)], TreeLo(TreeIndex(s)), TreeBit(TreeIndex(s)))
      ensures tb == old(tb)[TreeIndex(s) :=
        Insert(old(tb)[TreeIndex(s)], x, s, TreeLo(TreeIndex(s)), TreeBit(TreeIndex(s)))]
      ensures PayloadSame(UsedOf(lay), ms, old(mem), mem) && Frame(lay, lay, old(mem), mem)
    {
      hide Base, Marked, Mark, SetBit, PayloadSame, Frame;
      ghost var v := V();
      PreparedKeeps(v, x, s);
      var i := TreeIndex(s);
      var h := TreeSlot(ms, i);
      mem := mem[x + 56 := i];
      mem := mem[x + 40 := 0];
      mem := mem[x + 32 := 0];
      ghost var v1 := V();
      assert v1 == v.(mem := Prepared(v.mem, x, i));
      TreeMarks(v1, x, s, i);
      if !Marked(treemap, i) {
        treemap := SetBit(treemap, i);
        mem := mem[h := x];
        mem := mem[x + 48 := h];
        mem := mem[x + 24 := x];
        mem := mem[x + 16 := x];
        RootHangs(v1, x, s, i);
      } else {
        LinkBelow(x, s, i);
      }
      tb := tb[i := Insert(tb[i], x, s, TreeLo(i), TreeBit(i))];
      out := out - {x};
      assert V() == TreeInserted(v1, mem, x, s, i);
      PayloadTrans(UsedOf(lay), ms, v.mem, v1.mem, mem);
      FrameTrans(lay, lay, lay, v.mem, v1.mem, mem);
    }

    /** Detach the leaf that will replace the only chunk of its size, or find that there is none. */
    method DetachSuccessor(x: int, ghost s: int, ghost i: nat) returns (r: int)
      requires TreeRemoveScope(V(), x, s, i)
      requires NodeOf(V(), s, i).Node? && |NodeOf(V(), s, i).ring| == 1
      modifies `mem
      ensures Half1(old(mem), mem, NodeOf(old(V()), s, i), x)
      ensures r == Root(Prune(NodeOf(old(V()), s, i), x))
    {
      hide Base;
      ghost var v, n := V(), NodeOf(V(), s, i);
      DetachStarts(v, x, s, i);
      var rp := x + 40;
      r := Rd(mem, rp);
      if r == 0 {
        rp := x + 32;
        r := Rd(mem, rp);
      }
      if r != 0 {
        ghost var cur, par := LeafBranch(n), x;
        while true
          invariant v == V() && Descending(v, LeafBranch(n), BranchWord(n), cur, par, i, r, rp)
          decreases cur
        {
          DescendStep(v, LeafBranch(n), BranchWord(n), cur, par, i, r, rp);
          var cp := r + 40;
          if Rd(mem, cp) == 0 {
            cp := r + 32;
          }
          if Rd(mem, cp) == 0 {
            break;
          }
          cur, par := if Rd(mem, r + 40) != 0 then cur.right else cur.left, r;
          r := Rd(mem, cp);
          rp := cp;
        }
        mem := mem[rp := 0];
      }
    }

    /** Give x's parent and children to r. */
    method HandOver(x: int, xp: int, r: int)
      modifies `mem
      ensures mem == HandedMem(old(mem), x, xp, r)
    {
      if r != 0 {
        mem := mem[r + 48 := xp];
        var c0 := Rd(mem, x + 32);
        if c0 != 0 {
          mem := mem[r + 32 := c0];
          mem := mem[c0 + 48 := r];
        }
        var c1 := Rd(mem, x + 40);
        if c1 != 0 {
          mem := mem[r + 40 := c1];
          mem := mem[c1 + 48 := r];
        }
      }
    }

    /** Give the tree links of x to r, or clear the word that pointed at x. */
    method TakeOver(x: int, xp: int, r: int, ghost v: View, ghost s: int, ghost i: nat)
      requires TreeRemoveScope(v, x, s, i) && NodeOf(v, s, i).Node? && x == Root(NodeOf(v, s, i))
      requires Half1(v.mem, mem, NodeOf(v, s, i), x) && xp == NodeParent(v, s, i)
        && r == Root(Prune(NodeOf(v, s, i), x))
      requires ms == v.ms && treemap == v.treemap
      modifies `mem, `treemap
      ensures treemap == TreeRemoved(v, mem, x, s, i).treemap
      ensures Base(TreeRemoved(v, mem, x, s, i)) && PayloadSame(UsedOf(v.lay), v.ms, v.mem, mem)
        && Frame(v.lay, v.lay, v.mem, mem)
    {
      hide Base, PayloadSame, Frame, HandedMem;
      UnlinkDone(v, mem, x, s, i);
      OwnLinksKept(v, mem, x, s, i);
      var index := Rd(mem, x + 56);
      var h := TreeSlot(ms, index);
      if Rd(mem, h) == x {
        mem := mem[h := r];
        if r == 0 {
          treemap := Unmark(treemap, index);
        }
      } else if Rd(mem, xp + 32) == x {
        mem := mem[xp + 32 := r];
      } else {
        mem := mem[xp + 40 := r];
      }
      HandOver(x, xp, r);
    }

    /** Close the ring without x, or detach a leaf in its stead; r is the successor, if any. */
    method LeaveRing(x: int, ghost s: int, ghost i: nat) returns (r: int)
      requires TreeRemoveScope(V(), x, s, i)
      modifies `mem
      ensures Half1(old(mem), mem, NodeOf(old(V()), s, i), x)
      ensures x == Root(NodeOf(old(V()), s, i)) ==> r == Root(Prune(NodeOf(old(V()), s, i), x))
    {
      hide Base, PayloadSame, Frame;
      ghost var v := V();
      NodeReads(v, x, s, i);
      if Rd(mem, x + 24) != x {
        BypassDone(v, x, s, i);
        var f := Rd(mem, x + 16);
        r := Rd(mem, x + 24);
        mem := mem[f + 24 := r];
        mem := mem[r + 16 := f];
      } else {
        r := DetachSuccessor(x, s, i);
      }
    }

    /** Unlink a large free chunk from its trie. */
    method UnlinkLargeChunk(x: int, ghost s: int)
      requires Base(V()) && FreeAt(lay, x, s) && x !in out && MIN_LARGE_SIZE <= s
      modifies `mem, `treemap, `tb, `out
      ensures Base(V()) && out == old(out) + {x}
      ensures 0 <= TreeIndex(s) < |old(tb)| && WF(old(tb)[TreeIndex(s)], TreeLo(TreeIndex(s)), TreeBit(TreeIndex(s)))
      ensures tb == old(tb)[TreeIndex(s) :=
        Remove(old(tb)[TreeIndex(s)], x, s, TreeLo(TreeIndex(s)), TreeBit(TreeIndex(s)))]
      ensures PayloadSame(UsedOf(lay), ms, old(mem), mem) && Frame(lay, lay, old(mem), mem)
    {
      hide Base, PayloadSame, Frame;
      ghost var v, i := V(), TreeIndex(s);
      TreeBinned(v, x, s);
      NodeReads(v, x, s, i);
      var xp := Rd(mem, x + 48);
      var r := LeaveRing(x, s, i);
      if xp != 0 {
        TakeOver(x, xp, r, v, s, i);
      } else {
        RingUnlinked(v, mem, x, s, i);
      }
      tb := tb[i := Remove(tb[i], x, s, TreeLo(i), TreeBit(i))];
      out := out + {x};
      assert V() == TreeRemoved(v, mem, x, s, i);
    }

    method InsertChunk(p: int, s: int)
      requires Base(V()) && p in out && FreeAt(lay, p, s)
      modifies `mem, `smallmap, `sb, `treemap, `tb, `out
      ensures Base(V()) && out == old(out) - {p}
      ensures B() == Filed(old(B()), p, s)
      ensures PayloadSame(UsedOf(lay), ms, old(mem), mem) && Frame(lay, lay, old(mem), mem)
    {
      hide Base, PayloadSame, Frame, TreeIndex, WF;
      if s / 8 < 32 {
        InsertSmallChunk(p, s);
      } else {
        InsertLargeChunk(p, s);
      }
    }

    method UnlinkChunk(p: int, s: int)
      requires Base(V()) && p !in out && FreeAt(lay, p, s)
      modifies `mem, `smallmap, `sb, `treemap, `tb, `out
      ensures Base(V()) && out == old(out) + {p}
      ensures B() == Drawn(old(B()), p, s)
      ensures PayloadSame(UsedOf(lay), ms, old(mem), mem) && Frame(lay, lay, old(mem), mem)
    {
      hide Base, PayloadSame, Frame, TreeIndex, WF;
      if s / 8 < 32 {
        UnlinkSmallChunk(p, s);
      } else {
        UnlinkLargeChunk(p, s);
      }
    }
  
    // ----- searching the tree bins

    /** Walk the bit path of size nb in its bin, to an exact fit or to the deepest right subtree left behind. */
    method WalkPath(nb: int, i: int) returns (best: int, rsize: int, t: int, ghost at: Place)
      requires Base(V()) && MIN_LARGE_SIZE <= nb < TWO64 && nb % 8 == 0 && i == TreeIndex(nb)
      requires 0 <= i < 32 && |tb| == 32 && tb[i].Node?
      ensures Looking(V(), i, at, t) && Found(tb[i], nb, best, rsize) && Covered(tb[i], nb, rsize, at.tree)
      ensures rsize == 0 || AtLeast(at.tree, nb)
    {
      hide Base;
      ghost var v, rat := V(), NOWHERE;
      PathStarts(v, i, nb);
      t := Rd(mem, TreeSlot(ms, i));
      at := Place(tb[i], TreeSlot(ms, i), TreeLo(i), TreeBit(i));
      var k := nb * Pow2(LeftShift(i)) % TWO64;
      var rst := 0;
      best, rsize := 0, TWO64 - nb;
      while true
        invariant Base(v) && v == V() && OnPath(v, i, nb, at, k, t, rat, rst, best, rsize)
        decreases at.tree
      {
        LookStep(v, i, at, t);
        FoundStep(tb[i], nb, best, rsize, t, at.tree.size);
        if at.tree.size != nb {
          PathLook(v, i, nb, at, k, t, rat, rst, best, rsize);
        }
        var trem := Sub64(ChunkSize(Rd(mem, t + 8)), nb);
        if trem < rsize {
          best, rsize := t, trem;
          if rsize == 0 {
            return;
          }
        }
        var rt := Rd(mem, t + 40);
        t := Rd(mem, t + 32 + 8 * (k / TWO63));
        if rt != 0 && rt != t {
          rst := rt;
        }
        rat := UntakenPlace(at, nb, rat);
        if t == 0 {
          t, at := rst, rat;
          return;
        }
        at := TakenPlace(at, nb);
        k := k * 2 % TWO64;
      }
    }

    /** Walk down the leftmost path from t, keeping the better fit. */
    method WalkLeftmost(nb: int, ghost i: int, best0: int, rsize0: int, t0: int, ghost at0: Place)
            returns (best: int, rsize: int)
      requires Base(V()) && 0 < nb < TWO64 && |tb| == 32 && Looking(V(), i, at0, t0)
      requires Found(tb[i], nb, best0, rsize0) && Covered(tb[i], nb, rsize0, at0.tree)
        && (rsize0 == 0 || AtLeast(at0.tree, nb))
      ensures Found(tb[i], nb, best, rsize) && Covered(tb[i], nb, rsize, Nil)
      ensures best == 0 ==> best0 == 0 && t0 == 0
    {
      hide Base;
      ghost var v, at := V(), at0;
      var t := t0;
      best, rsize := best0, rsize0;
      while t != 0
        invariant Base(v) && v == V() && Looking(v, i, at, t)
        invariant Found(tb[i], nb, best, rsize) && Covered(tb[i], nb, rsize, at.tree)
          && (rsize == 0 || AtLeast(at.tree, nb))
        invariant best == 0 ==> best0 == 0 && t == t0
        decreases at.tree
      {
        LookStep(v, i, at, t);
        FoundStep(tb[i], nb, best, rsize, t, at.tree.size);
        LeftmostStep(tb[i], nb, rsize, at.tree, at.lo, at.b);
        LeftmostLook(nb, best, rsize, at, t);
        var trem := Sub64(ChunkSize(Rd(mem, t + 8)), nb);
        if trem < rsize {
          best, rsize := t, trem;
        }
        if Rd(mem, t + 32) != 0 {
          t, at := Rd(mem, t + 32), LeftPlace(at);
        } else {
          t, at := Rd(mem, t + 40), RightPlace(at);
        }
      }
    }

    /** Search all tree bins for the best fit of a large request. */
    method SearchLarge(nb: int) returns (best: int, rsize: int)
      requires Base(V()) && MIN_LARGE_SIZE <= nb < TWO64 && nb % 8 == 0
      ensures LeastFit(V(), nb, rsize) && 0 <= rsize <= TWO64 - nb
      ensures if best != 0 then TreeFree(V(), best, nb + rsize) && LeadsBin(V(), best, nb + rsize)
        else rsize == TWO64 - nb
    {
      hide Base, TreeIndex, Marked, Idx2Bit, LaterBins, Bit2Idx, LeastBit;
      ghost var v := V();
      SizeFitsBin(nb);
      var idx := TreeIndex(nb);
      LookStarts(v, idx);
      SmallBeforeIndex(v, nb);
      best, rsize := 0, TWO64 - nb;
      var t := Rd(mem, TreeSlot(ms, idx));
      ghost var at, i := NOWHERE, idx;
      if t != 0 {
        best, rsize, t, at := WalkPath(nb, idx);
      }
      if t == 0 && best == 0 {
        SmallThrough(v, nb, idx);
        LeftBitsAt(v, nb, idx);
        var leftbits := LaterBins(treemap, idx);
        if leftbits == 0 {
          NoFit(v, nb);
          return;
        }
        var j := Bit2Idx(LeastBit(leftbits));
        i := NextTree(v, nb, idx);
        t := Rd(mem, TreeSlot(ms, j));
        at := Place(tb[i], TreeSlot(ms, i), TreeLo(i), TreeBit(i));
      }
      best, rsize := WalkLeftmost(nb, i, best, rsize, t, at);
      LeastOfBin(v, nb, i, best, rsize);
    }

    /** Search the first marked tree bin, which holds the smallest tree chunks. */
    method SearchSmall(nb: int) returns (best: int, rsize: int)
      requires Base(V()) && MIN_CHUNK_SIZE <= nb < MIN_LARGE_SIZE && treemap != 0
      ensures LeastFit(V(), nb, rsize) && 0 <= rsize && TreeFree(V(), best, nb + rsize)
      ensures LeadsBin(V(), best, nb + rsize)
    {
      hide Base, TreeIndex, Marked, Idx2Bit, LeastBit, Bit2Idx;
      ghost var v := V();
      ghost var i := FirstTree(v, nb);
      var t := Rd(mem, TreeSlot(ms, Bit2Idx(LeastBit(treemap))));
      ghost var at := Place(tb[i], TreeSlot(ms, i), TreeLo(i), TreeBit(i));
      LookStep(v, i, at, t);
      FoundStep(tb[i], nb, 0, TWO64 - nb, t, at.tree.size);
      LeftmostStep(tb[i], nb, TWO64 - nb, at.tree, at.lo, at.b);
      LeftmostLook(nb, 0, TWO64 - nb, at, t);
      best, rsize := t, Sub64(ChunkSize(Rd(mem, t + 8)), nb);
      if Rd(mem, t + 32) != 0 {
        t, at := Rd(mem, t + 32), LeftPlace(at);
      } else {
        t, at := Rd(mem, t + 40), RightPlace(at);
      }
      best, rsize := WalkLeftmost(nb, i, best, rsize, t, at);
      LeastOfBin(v, nb, i, best, rsize);
    }

    // ----- taking a chunk

    /** Take a whole free chunk that is out of its bin. */
    method TakeWhole(p: int, s: int, ghost nb: int, ghost x: set<int>)
      requires Mid(x) && p in x && FreeAt(lay, p, s) && nb <= s < nb + MIN_CHUNK_SIZE
      modifies `mem, `lay, `out
      ensures Mid(x - {p}) && Gained(old(V()), old(H()), V(), H(), p, nb)
      ensures lay == SetKind(old(lay), p, Used)
    {
      hide Base, PayloadSame, Frame, HeapMid, Gained;
      ghost var v := V();
      WholeGains(v, H(), segs, x, p, s, nb);
      mem := mem[p + 8 := s + 3];
      mem := mem[p + s + 8 := SetPinuse(Rd(mem, p + s + 8))];
      lay := SetKind(lay, p, Used);
      out := out - {p};
      assert V() == WholeTaken(v, mem, p);
    }

    /** Take the front n bytes of a free chunk that is out of its bin and leave r bytes free. */
    method TakeFront(p: int, n: int, r: int, ghost x: set<int>)
      requires Mid(x) && p in x && FreeAt(lay, p, n + r) && MIN_CHUNK_SIZE <= n && n % 8 == 0 && MIN_CHUNK_SIZE <= r
      modifies `mem, `lay, `out
      ensures Mid(x - {p} + {p + n}) && FreeAt(lay, p + n, r) && p + n > 0
      ensures Gained(old(V()), old(H()), V(), H(), p, n)
      ensures lay == Split(old(lay), p, n, Used)
    {
      hide Base, PayloadSame, Frame, HeapMid, Gained;
      ghost var v := V();
      FrontTaken(v, H(), segs, x, p, n, r);
      mem := mem[p + 8 := n + 3];
      mem := mem[p + n + 8 := r + 1];
      mem := mem[p + n + r := r];
      lay := Split(lay, p, n, Used);
      out := out - {p} + {p + n};
      assert V() == Cut(v, CutMem(v.mem, p, n, r), p, n);
    }

    /** Bin the old designated victim, known to be small, and put p in its place. */
    method ReplaceDv(p: int, s: int, ghost x: set<int>)
      requires Mid(x) && p in x && FreeAt(lay, p, s) && dvsize < MIN_LARGE_SIZE
      modifies `mem, `smallmap, `sb, `out, `dv, `dvsize
      ensures Mid(x - {p}) && dv == p && dvsize == s && Rebinned(old(V()), V())
      ensures B() == if old(dvsize) != 0 then Filed(old(B()), old(dv), old(dvsize)) else old(B())
    {
      hide Base, PayloadSame, Frame;
      ghost var v, h := V(), H();
      if dvsize != 0 {
        InsertSmallChunk(dv, dvsize);
      } else {
        RebinnedRefl(v);
      }
      dvsize := s;
      dv := p;
      FreeSize(V(), p, s);
      MidMoves(v, V(), h, H(), segs, x, x - {p});
    }

    /** Put the one chunk that is out of its bin there. */
    method FileChunk(p: int, s: int)
      requires Mid({p}) && FreeAt(lay, p, s)
      modifies `mem, `smallmap, `sb, `treemap, `tb, `out
      ensures Mid({}) && Rebinned(old(V()), V()) && B() == Filed(old(B()), p, s)
    {
      hide Base, PayloadSame, Frame, HeapMid, Filed;
      ghost var v := V();
      MidBase(v, H(), segs, {p});
      InsertChunk(p, s);
      assert {p} - {p} == {};
      MidBins(v, V(), H(), segs, {p}, p);
    }

    /** Take nb bytes of an unlinked chunk; a remainder that can stand alone goes to its bin. */
    method TakeAndBin(p: int, nb: int, rsize: int)
      requires Mid({p}) && FreeAt(lay, p, nb + rsize) && MIN_CHUNK_SIZE <= nb && nb % 8 == 0 && 0 <= rsize
      modifies `mem, `smallmap, `sb, `treemap, `tb, `lay, `out
      ensures Mid({}) && Gained(old(V()), old(H()), V(), H(), p, nb)
      ensures if rsize < MIN_CHUNK_SIZE then lay == SetKind(old(lay), p, Used) && B() == old(B())
        else lay == Split(old(lay), p, nb, Used) && B() == Filed(old(B()), p + nb, rsize)
    {
      hide Base, PayloadSame, Frame, Gained, HeapMid, Filed;
      ghost var v0, h := V(), H();
      RebinnedRefl(v0);
      assert {p} - {p} == {} && {p} - {p} + {p + nb} == {p + nb} && {p + nb} - {p + nb} == {};
      if rsize < MIN_CHUNK_SIZE {
        TakeWhole(p, rsize + nb, nb, {p});
      } else {
        TakeFront(p, nb, rsize, {p});
        ghost var v1 := V();
        FileChunk(p + nb, rsize);
        GainedAround(v0, h, v0, h, v1, h, V(), h, p, nb);
      }
    }

    /** Take nb bytes of an unlinked chunk; a remainder that can stand alone becomes the designated victim. */
    method TakeIntoDv(p: int, nb: int, rsize: int)
      requires Mid({p}) && FreeAt(lay, p, nb + rsize) && MIN_CHUNK_SIZE <= nb && nb % 8 == 0 && 0 <= rsize
        && dvsize < MIN_LARGE_SIZE
      modifies `mem, `smallmap, `sb, `lay, `out, `dv, `dvsize
      ensures Mid({}) && Gained(old(V()), old(H()), V(), H(), p, nb)
      ensures if rsize < MIN_CHUNK_SIZE
        then lay == SetKind(old(lay), p, Used) && H() == old(H()) && B() == old(B())
        else
          lay == Split(old(lay), p, nb, Used) && H() == old(H()).(dv := p + nb, dvsize := rsize)
          && B() == if old(dvsize) != 0 then Filed(old(B()), old(dv), old(dvsize)) else old(B())
    {
      hide Base, PayloadSame, Frame, Gained, HeapMid, Filed;
      ghost var v0, h := V(), H();
      RebinnedRefl(v0);
      assert {p} - {p} == {} && {p} - {p} + {p + nb} == {p + nb} && {p + nb} - {p + nb} == {};
      if rsize < MIN_CHUNK_SIZE {
        TakeWhole(p, rsize + nb, nb, {p});
      } else {
        TakeFront(p, nb, rsize, {p});
        ghost var v1 := V();
        ReplaceDv(p + nb, rsize, {p + nb});
        GainedAround(v0, h, v0, h, v1, h, V(), H(), p, nb);
      }
    }

    /** Serve a large request from the tree bins, unless the designated victim fits at least as well. */
    method TmallocLarge(nb: int) returns (p: int)
      requires Mid({}) && MIN_LARGE_SIZE <= nb < TWO64 && nb % 8 == 0
      modifies `mem, `smallmap, `sb, `treemap, `tb, `lay, `out
      ensures Mid({})
      ensures p == 0 <==> DvFirst(old(V()), old(H()), nb)
      ensures p == 0 ==> V() == old(V())
      ensures p != 0 ==> Gained(old(V()), old(H()), V(), H(), p, nb) && LargeChosen(old(V()), old(H()), nb, p)
      ensures p != 0 ==> Took(old(P()), P(), nb, p)
    {
      hide Base, PayloadSame, Frame, Gained, DvFirst, LargeChosen, BinnedChosen, LeastFit, Took, Leads, Filed, Drawn;
      hide TreeIndex, HeapMid;
      ghost var v, h, P0 := V(), H(), P();
      MidBase(v, h, segs, {});
      var best, rsize := SearchLarge(nb);
      FitBeatsDv(v, h, segs, nb, best, rsize);
      if best != 0 && rsize < Sub64(dvsize, nb) {
        BinnedOnly(v, h, segs, best, nb + rsize);
        UnlinkLargeChunk(best, nb + rsize);
        LargeDrawn(v, best, nb + rsize);
        ghost var v1 := V();
        MidBins(v, v1, h, segs, {}, best);
        assert {} + {best} == {best};
        TakeAndBin(best, nb, rsize);
        RebinnedRefl(V());
        GainedAround(v, h, v1, h, V(), h, V(), h, best, nb);
        TookBinned(P0, P(), nb, best, nb + rsize);
        p := best;
      } else {
        p := 0;
      }
    }

    /** Serve a small request that no small bin can serve from the smallest tree chunk. */
    method TmallocSmall(nb: int) returns (p: int)
      requires Mid({}) && MIN_CHUNK_SIZE <= nb < MIN_LARGE_SIZE && nb % 8 == 0 && treemap != 0 && dvsize < nb
        && NoSmall(V(), nb)
      modifies `mem, `smallmap, `sb, `treemap, `tb, `lay, `out, `dv, `dvsize
      ensures Mid({}) && p != 0
      ensures HeadsMove(old(lay), old(H()), H(), nb, p) && OldVictimBinned(old(V()), old(H()), V(), H(), p)
      ensures Gained(old(V()), old(H()), V(), H(), p, nb) && BinnedChosen(old(V()), nb, p)
      ensures Took(old(P()), P(), nb, p)
    {
      hide Base, PayloadSame, Frame, Gained, BinnedChosen, LeastFit, Took, Leads, Filed, Drawn, TreeIndex, HeapMid;
      hide HeadsMove, OldVictimBinned;
      ghost var v, h, P0 := V(), H(), P();
      MidBase(v, h, segs, {});
      var best, rsize := SearchSmall(nb);
      TreeServes(v, nb, best, rsize);
      FreeSize(v, best, nb + rsize);
      BinnedOnly(v, h, segs, best, nb + rsize);
      UnlinkLargeChunk(best, nb + rsize);
      LargeDrawn(v, best, nb + rsize);
      ghost var v1 := V();
      MidBins(v, v1, h, segs, {}, best);
      assert {} + {best} == {best};
      TakeIntoDv(best, nb, rsize);
      RebinnedRefl(V());
      GainedAround(v, h, v1, h, V(), H(), V(), H(), best, nb);
      TookBinned(P0, P(), nb, best, nb + rsize);
      TookVictim(v, h, V(), H(), segs, nb, best);
      p := best;
    }

    /** Serve a small request from the bin of exactly its size, or else the next one. */
    method AllocExact(nb: int) returns (p: int)
      requires Mid({}) && MIN_CHUNK_SIZE <= nb < MIN_LARGE_SIZE && nb % 8 == 0 && LowTwo(Shr(smallmap, nb / 8))
      modifies `mem, `smallmap, `sb, `lay, `out
      ensures Mid({}) && p != 0
      ensures Gained(old(V()), old(H()), V(), H(), p, nb) && SmallChosen(old(V()), old(H()), nb, p)
      ensures Took(old(P()), P(), nb, p)
    {
      hide Base, PayloadSame, Frame, Gained, ExactChosen, ExactFit, Marked, Shr, LowTwo, MissBit, Took, Filed, Drawn;
      hide HeapMid;
      ghost var v, h, P0 := V(), H(), P();
      MidBase(v, h, segs, {});
      var idx := nb / 8;
      ExactIndex(v, nb);
      idx := idx + MissBit(Shr(smallmap, idx));
      FrontRead(v, idx);
      var p0 := Rd(mem, Header(ms, idx) + 16);
      ExactTaken(v, nb, idx, p0);
      FreeSize(v, p0, 8 * idx);
      BinnedOnly(v, h, segs, p0, 8 * idx);
      UnlinkFirstSmallChunk(p0, idx);
      ghost var v1 := V();
      MidBins(v, v1, h, segs, {}, p0);
      assert {} + {p0} == {p0} && {p0} - {p0} == {};
      TakeWhole(p0, 8 * idx, nb, {p0});
      RebinnedRefl(V());
      GainedAround(v, h, v1, h, V(), h, V(), h, p0, nb);
      TookBinned(P0, P(), nb, p0, 8 * idx);
      p := p0;
    }

    /** Serve a small request larger than the designated victim from the least small bin that can. */
    method AllocNext(nb: int) returns (p: int)
      requires Mid({}) && MIN_CHUNK_SIZE <= nb < MIN_LARGE_SIZE && nb % 8 == 0 && dvsize < nb
      requires Shr(smallmap, nb / 8) != 0 && !ExactFit(V(), nb)
      modifies `mem, `smallmap, `sb, `lay, `out, `dv, `dvsize
      ensures Mid({}) && p != 0
      ensures Gained(old(V()), old(H()), V(), H(), p, nb) && SmallChosen(old(V()), old(H()), nb, p)
      ensures Took(old(P()), P(), nb, p)
    {
      hide Base, PayloadSame, Frame, Gained, BinnedChosen, ExactFit, Marked, Shr, BinsAfter, LeastBit, Bit2Idx, Idx2Bit;
      hide Took, Filed, Drawn, HeapMid;
      ghost var v, h, P0 := V(), H(), P();
      MidBase(v, h, segs, {});
      ghost var j := NextBin(v, nb);
      var i := Bit2Idx(LeastBit(BinsAfter(smallmap, nb / 8)));
      FrontRead(v, i);
      var p0 := Rd(mem, Header(ms, i) + 16);
      FreeSize(v, p0, 8 * i);
      BinnedOnly(v, h, segs, p0, 8 * i);
      UnlinkFirstSmallChunk(p0, i);
      ghost var v1 := V();
      MidBins(v, v1, h, segs, {}, p0);
      assert {} + {p0} == {p0};
      TakeIntoDv(p0, nb, 8 * i - nb);
      RebinnedRefl(V());
      GainedAround(v, h, v1, h, V(), H(), V(), H(), p0, nb);
      TookBinned(P0, P(), nb, p0, 8 * i);
      p := p0;
    }

    /** Cut the front off the designated victim. */
    method SplitDv(nb: int, rsize: int)
      requires Mid({}) && MIN_CHUNK_SIZE <= nb && MIN_CHUNK_SIZE <= rsize && nb + rsize == dvsize && nb % 8 == 0
      modifies `mem, `lay, `out, `dv, `dvsize
      ensures Mid({}) && Gained(old(V()), old(H()), V(), H(), old(dv), nb)
      ensures Took(old(P()), P(), nb, old(dv))
    {
      hide Base, PayloadSame, Frame, Gained, HeapMid;
      ghost var v, h := V(), H();
      HeadsKnown(v, h, segs, {});
      DvFree(v, h, segs, {});
      DvGains(v, h, segs, nb, rsize);
      var p := dv;
      var r := p + nb;
      dv := r;
      dvsize := rsize;
      mem := mem[r + 8 := rsize + 1];
      mem := mem[r + rsize := rsize];
      mem := mem[p + 8 := nb + 3];
      lay := Split(lay, p, nb, Used);
      out := out - {p} + {r};
      assert V() == Cut(v, mem, p, nb);
    }

    /** Take the whole of the designated victim. */
    method ExhaustDv(ghost nb: int)
      requires Mid({}) && nb <= dvsize < nb + MIN_CHUNK_SIZE && dvsize != 0
      modifies `mem, `lay, `out, `dv, `dvsize
      ensures Mid({}) && Gained(old(V()), old(H()), V(), H(), old(dv), nb)
      ensures Took(old(P()), P(), nb, old(dv))
    {
      hide Base, PayloadSame, Frame, Gained, HeapMid;
      ghost var v, h := V(), H();
      HeadsKnown(v, h, segs, {});
      DvFree(v, h, segs, {});
      var p, dvs := dv, dvsize;
      dvsize := 0;
      dv := 0;
      assert {} + {p} == {p} && {p} - {p} == {};
      TakeWhole(p, dvs, nb, {p});
      RebinnedRefl(v);
      RebinnedRefl(V());
      GainedAround(v, h, v, h.(dv := 0, dvsize := 0), V(), H(), V(), H(), p, nb);
    }

    /** Serve a request from the designated victim. */
    method AllocDv(nb: int) returns (p: int)
      requires Mid({}) && MIN_CHUNK_SIZE <= nb <= dvsize && nb % 8 == 0
      modifies `mem, `lay, `out, `dv, `dvsize
      ensures Mid({}) && p != 0 && p == old(dv)
      ensures Gained(old(V()), old(H()), V(), H(), p, nb) && Took(old(P()), P(), nb, p)
    {
      hide Base, PayloadSame, Frame, Gained, HeapMid, Took;
      DvFree(V(), H(), segs, {});
      var rsize := dvsize - nb;
      p := dv;
      if rsize >= MIN_CHUNK_SIZE {
        SplitDv(nb, rsize);
      } else {
        ExhaustDv(nb);
      }
    }

    /** Serve a request from the front of top. */
    method AllocTop(nb: int) returns (p: int)
      requires Mid({}) && MIN_CHUNK_SIZE <= nb < topsize && nb % 8 == 0
      modifies `mem, `lay, `top, `topsize
      ensures Mid({}) && p != 0 && p == old(top)
      ensures Gained(old(V()), old(H()), V(), H(), p, nb) && Took(old(P()), P(), nb, p)
      ensures top == p + nb
    {
      hide Base, PayloadSame, Frame, Gained;
      ghost var v, h := V(), H();
      HeadsKnown(v, h, segs, {});
      TopGains(v, h, segs, {}, nb);
      TopNonzero(v, h, segs, {});
      topsize := topsize - nb;
      p := top;
      top := p + nb;
      mem := mem[top + 8 := topsize + 1];
      mem := mem[p + 8 := nb + 3];
      lay := Split(lay, p, nb, Used);
      assert V() == Cut(v, mem, p, nb);
    }

    // ----- freeing

    /** Clear the pinuse bit of n and write the head and foot of the free chunk before it. */
    method SetFreeWithPinuse(p: int, s: int, n: int)
      requires n == p + s
      modifies `mem
      ensures mem == FreeMemPin(old(mem), p, s)
    {
      mem := mem[n + 8 := ClearPinuse(Rd(mem, n + 8))];
      mem := mem[p + 8 := s + 1];
      mem := mem[p + s := s];
    }

    method SetSizeAndPinuseOfFreeChunk(p: int, s: int)
      modifies `mem
      ensures mem == FreeMem(old(mem), p, s)
    {
      mem := mem[p + 8 := s + 1];
      mem := mem[p + s := s];
    }

    /** Chunk c, extended back to p, and top behind it become top. */
    method FreeIntoTop(ghost c: int, p: int, psize: int)
      requires FreeReady(V(), H(), segs, c) && lay[After(lay, c)].kind.Top? && p == FreedStart(lay, c)
        && p + psize == top
      modifies `mem, `lay, `out, `dv, `dvsize, `top, `topsize
      ensures Mid({}) && Lost(old(V()), old(H()), V(), H(), c)
      ensures lay == Freed(old(lay), c) && H() == FreedHeads(old(lay), old(H()), c)
    {
      hide Base, PayloadSame, Frame, FreeWritten, Lost, HeapMid, FreeMem, FreeMemPin, Released, Freed;
      ghost var v, h := V(), H();
      ReadySteady(v, h, segs, c);
      TopSizes(v, h, segs, c);
      TopWrites(v, c);
      var tsize := topsize + psize;
      topsize := tsize;
      top := p;
      mem := mem[p + 8 := tsize + 1];
      if p == dv {
        dv := 0;
        dvsize := 0;
      }
      FreeHeap(v, mem, h, segs, c);
      ReleasedFields(v, mem, c);
      lay := Freed(lay, c);
      out := Released(v, mem, c).out;
      assert V() == Released(v, mem, c) && H() == FreedHeads(v.lay, h, c);
    }

    /** Chunk c, extended back to p, and the designated victim behind it become the designated victim. */
    method FreeIntoDv(ghost c: int, p: int, psize: int)
      requires FreeReady(V(), H(), segs, c) && After(lay, c) == dv && dv != 0 && p == FreedStart(lay, c)
        && p + psize == dv
      modifies `mem, `lay, `out, `dv, `dvsize
      ensures Mid({}) && Lost(old(V()), old(H()), V(), H(), c)
      ensures lay == Freed(old(lay), c) && H() == FreedHeads(old(lay), old(H()), c)
    {
      hide Base, PayloadSame, Frame, FreeWritten, Lost, HeapMid, FreeMem, FreeMemPin, Released, Freed;
      ghost var v, h := V(), H();
      ReadySteady(v, h, segs, c);
      DvSizes(v, h, segs, c);
      MergeWrites(v, c);
      var dsize := dvsize + psize;
      dvsize := dsize;
      dv := p;
      SetSizeAndPinuseOfFreeChunk(p, dsize);
      FreeHeap(v, mem, h, segs, c);
      ReleasedFields(v, mem, c);
      lay := Freed(lay, c);
      out := Released(v, mem, c).out;
      assert V() == Released(v, mem, c) && H() == FreedHeads(v.lay, h, c);
    }

    /**
     * Chunk c, extended back to p, becomes free before an in-use chunk; h was the state before any update of dvsize.
     */
    method FreeBesideUsed(ghost c: int, p: int, psize: int, next: int, ghost h: Heads)
      requires FreeReady(V(), h, segs, c) && H() == FreedHeads(lay, h, c)
      requires next == After(lay, c) && lay[next].kind.Used? && p == FreedStart(lay, c) && p + psize == next
      modifies `mem, `lay, `out
      ensures Mid(Unbinnable(old(lay), h, c)) && FreeAt(lay, p, psize) && Lost(old(V()), h, V(), H(), c)
      ensures lay == Freed(old(lay), c) && psize == FreedSize(old(lay), c)
    {
      hide Base, PayloadSame, Frame, FreeWritten, Lost, HeapMid, FreeMem, FreeMemPin, Released, Freed;
      ghost var v := V();
      ReadySteady(v, h, segs, c);
      UsedWrites(v, c);
      SetFreeWithPinuse(p, psize, next);
      FreeHeap(v, mem, h, segs, c);
      FreedChunkAt(v, h, segs, c);
      ReleasedFields(v, mem, c);
      lay := Freed(lay, c);
      out := Released(v, mem, c).out;
      assert V() == Released(v, mem, c);
    }

    /** Chunk c, extended back to p, and the unlinked free chunk behind it become one free chunk. */
    method FreeJoined(ghost c: int, p: int, psize: int) returns (binned: bool)
      requires FreeReady(V(), H(), segs, c) && lay[After(lay, c)].kind.Free? && After(lay, c) != dv
      requires p == FreedStart(lay, c) && psize == FreedSize(lay, c)
      modifies `mem, `lay, `out, `dvsize
      ensures Mid(if binned then {} else {p}) && FreeAt(lay, p, psize) && Lost(old(V()), old(H()), V(), H(), c)
      ensures lay == Freed(old(lay), c) && H() == FreedHeads(old(lay), old(H()), c)
      ensures binned <==> Unbinnable(old(lay), old(H()), c) == {}
    {
      hide Base, PayloadSame, Frame, FreeWritten, Lost, HeapMid, FreeMem, FreeMemPin, Released, Freed;
      ghost var v, h := V(), H();
      ReadySteady(v, h, segs, c);
      MergeWrites(v, c);
      SetSizeAndPinuseOfFreeChunk(p, psize);
      binned := p == dv;
      if p == dv {
        dvsize := psize;
      }
      FreeHeap(v, mem, h, segs, c);
      FreedChunkAt(v, h, segs, c);
      ReleasedFields(v, mem, c);
      lay := Freed(lay, c);
      out := Released(v, mem, c).out;
      assert V() == Released(v, mem, c) && H() == FreedHeads(v.lay, h, c);
    }

    /** Coalesce with what follows c; whatever vacant chunk precedes it is out of its bin and included in p. */
    method FreeForward(ghost c: int, p: int, size: int, next: int)
      requires Freeable(lay, c) && FreeStarts(V(), H(), segs, Unlinked(lay, H(), c) - {next}, c)
      requires p == FreedStart(lay, c) && next == After(lay, c) && p + size == next
      requires lay[next].kind.Used? ==> p != dv || p == c
      modifies `mem, `smallmap, `sb, `treemap, `tb, `lay, `out, `dv, `dvsize, `top, `topsize
      ensures Mid({}) && Lost(old(V()), old(H()), V(), H(), c)
      ensures lay == Freed(old(lay), c) && H() == FreedHeads(old(lay), old(H()), c)
      ensures B() == GivenBins(old(lay), NextDrawn(old(lay), old(B()), old(H()), c), old(H()), c)
    {
      hide Base, PayloadSame, Frame, FreeWritten, HeapMid, Lost, Filed, Drawn, Freed, FreedHeads;
      ghost var v, h, u := V(), H(), V();
      ForwardReads(v, h, segs, c);
      RebinnedRefl(v);
      var psize, binned := size, false;
      if !Cinuse(Rd(mem, next + 8)) {
        if next == top {
          FreeIntoTop(c, p, psize);
          return;
        } else if next == dv {
          FreeIntoDv(c, p, psize);
          return;
        } else {
          var nsize := ChunkSize(Rd(mem, next + 8));
          psize := psize + nsize;
          UnlinkChunk(next, nsize);
          u := V();
          MidBins(v, u, h, segs, Unlinked(lay, h, c) - {next}, next);
          binned := FreeJoined(c, p, psize);
        }
      } else {
        FreeBesideUsed(c, p, psize, next, h);
      }
      ghost var v1 := V();
      RebinnedRefl(v1);
      assert {p} - {p} == {};
      if !binned {
        FileChunk(p, psize);
      }
      LostAround(v, h, u, h, v1, H(), V(), H(), c);
    }

    /**
     * Return an in-use chunk: coalesce it with vacant neighbours and record the result in a bin, as victim or as top.
     */
    method FreeChunk(c: int)
      requires FreeStarts(V(), H(), segs, {}, c)
      modifies `mem, `smallmap, `sb, `treemap, `tb, `lay, `out, `dv, `dvsize, `top, `topsize
      ensures Mid({}) && Lost(old(V()), old(H()), V(), H(), c) && P() == Given(old(P()), c)
    {
      hide Base, PayloadSame, Frame, FreeWritten, HeapMid, Lost, Filed, Drawn, Freed, FreedHeads, GivenBins, NextDrawn;
      hide BackDrawn, FreedStart, Given;
      ghost var v, h, P0 := V(), H(), P();
      BackwardReads(v, h, segs, c);
      GivenSteps(P0, c);
      RebinnedRefl(v);
      var p, psize := c, ChunkSize(Rd(mem, c + 8));
      var next := c + psize;
      if !Pinuse(Rd(mem, c + 8)) {
        var prevsize := Rd(mem, c);
        p := c - prevsize;
        psize := psize + prevsize;
        if p != dv {
          UnlinkChunk(p, prevsize);
          MidBins(v, V(), h, segs, {}, p);
        } else if Cinuse(Rd(mem, next + 8)) && Pinuse(Rd(mem, next + 8)) {
          dvsize := psize;
          FreeBesideUsed(c, p, psize, next, h);
          return;
        }
      }
      ghost var v1 := V();
      FreeForward(c, p, psize, next);
      RebinnedRefl(V());
      LostAround(v, h, v1, h, V(), H(), V(), H(), c);
    }

    method Free(m: int)
      requires Valid() && (m != 0 ==> Freeable(lay, m - 16) && m - 16 != ms)
      modifies `mem, `smallmap, `sb, `treemap, `tb, `lay, `out, `dv, `dvsize, `top, `topsize
      ensures Valid()
      ensures m == 0 ==> V() == old(V()) && H() == old(H())
      ensures m != 0 ==> Lost(old(V()), old(H()), V(), H(), m - 16)
      ensures FreeReply(old(Now()), m, Now())
      ensures Confined(segs, old(mem), mem)
    {
      hide Base, PayloadSame, Frame, HeapMid, Freed, FreedHeads, Confined, VictimGrows, GivenBins, NextDrawn, BackDrawn;
      ghost var v := V();
      ConfinedSelf(segs, mem);
      if m != 0 {
        GivenHeads(Now(), m - 16);
        FreeChunk(m - 16);
        FrameConfined(v, V(), H(), segs, {});
      }
    }

    // ----- system memory

    /**
     * Make the psize0 bytes at p0 the top chunk, from the first aligned address on, and write the size of its trailing
     * overhead. What top's head reads back as depends on the size: see ReadableTop.
     */
    method InitTop(p0: int, psize0: int)
      requires 0 <= p0 && p0 + 24 <= TWO64 && 0 <= psize0 < TWO64
      modifies `mem, `top, `topsize
      ensures top % 8 == 0 && p0 <= top < p0 + 8 && topsize == Sub64(psize0, top - p0)
      ensures HeadSays(Rd(mem, top + 8), topsize) <==> ReadableTop(topsize)
      ensures topsize % 8 == 0 ==> Rd(mem, FootOf(top, topsize)) == TOP_FOOT_SIZE
      ensures TopTouch(old(mem), mem, top, FootOf(top, topsize))
      ensures topsize % 8 == 0 && top + topsize + 8 < TWO64 ==> mem == ExtendMem(old(mem), top, topsize)
    {
      hide StoreWord, HeadSays, ReadableTop, FootOf, ExtendMem, TopTouch, SetPinuse;
      var offset := AlignOffset(p0 + 16);
      var p, psize := p0 + offset, Sub64(psize0, offset);
      top := p;
      topsize := psize;
      mem := mem[p + 8 := SetPinuse(psize)];
      mem := StoreWord(mem, FootOf(p, psize), TOP_FOOT_SIZE);
      assert mem == TopMem(old(mem), p, psize);
      hide TopMem;
      TopReads(old(mem), p, psize);
      TopTouched(old(mem), p, psize);
      if psize % 8 == 0 && p + psize + 8 < TWO64 {
        TopMemAligned(old(mem), p, psize);
      }
    }

    /** The segment that holds an address, or |segs|. */
    method SegmentHolding(a: int) returns (i: nat)
      ensures i <= |segs| && (i < |segs| ==> segs[i].base <= a < segs[i].End())
      ensures forall j {:trigger segs[j]} | 0 <= j < i :: !(segs[j].base <= a < segs[j].End())
    {
      i := 0;
      while i < |segs| && !(segs[i].base <= a < segs[i].End())
        invariant i <= |segs|
        invariant forall j {:trigger segs[j]} | 0 <= j < i :: !(segs[j].base <= a < segs[j].End())
      {
        i := i + 1;
      }
    }

    /** The segment that ends at an address, or |segs|. */
    method SegmentEnding(a: int) returns (i: nat)
      ensures i <= |segs| && (i < |segs| ==> segs[i].End() == a)
      ensures forall j {:trigger segs[j]} | 0 <= j < i :: segs[j].End() != a
    {
      i := 0;
      while i < |segs| && segs[i].End() != a
        invariant i <= |segs| && forall j {:trigger segs[j]} | 0 <= j < i :: segs[j].End() != a
      {
        i := i + 1;
      }
    }

    method SegmentStarting(a: int) returns (i: nat)
      ensures i <= |segs| && (i < |segs| ==> segs[i].base == a)
      ensures forall j {:trigger segs[j]} | 0 <= j < i :: segs[j].base != a
    {
      i := 0;
      while i < |segs| && segs[i].base != a
        invariant i <= |segs| && forall j {:trigger segs[j]} | 0 <= j < i :: segs[j].base != a
      {
        i := i + 1;
      }
    }

    /**
     * Fencepost heads from p up to the end of a segment: the last one stays inside exactly if the end is a multiple of
     * eight.
     */
    method WriteFences(p0: int, end: int) returns (nfences: nat)
      requires p0 % 8 == 0 && p0 + 24 <= end
      modifies `mem
      ensures FencesWritten(old(mem), mem, p0 + 8, end)
      ensures p0 + 8 * nfences < end <= p0 + 8 * nfences + 8 && nfences >= 2
      ensures p0 + 8 * nfences + 8 <= end <==> end % 8 == 0
    {
      var p := p0;
      nfences := 0;
      while true
        invariant p % 8 == 0 && p0 <= p && p + 8 < end && p == p0 + 8 * nfences
        invariant FencesWritten(old(mem), mem, p0 + 8, p + 8)
        decreases end - p
      {
        FenceStep(old(mem), mem, p0 + 8, p);
        var nextp := p + 8;
        mem := mem[p + 8 := FENCEPOST_HEAD];
        nfences := nfences + 1;
        if nextp + 8 < end {
          p := nextp;
        } else {
          LastFence(p, end);
          break;
        }
      }
    }

    /** Make the new region top and write the segment record's head and the fenceposts into the old top. */
    method RetireTop(tbase: int, tsize: int, mmapped: bool) returns (csp: int)
      requires Mid({}) && Fresh(segs, tbase, tsize) && TOP_FOOT_SIZE < tsize
      modifies `mem, `top, `topsize, `segs
      ensures top == tbase && topsize == tsize - TOP_FOOT_SIZE
        && segs == [Segment(tbase, tsize, mmapped, false)] + old(segs)
      ensures csp == RecordChunk(old(H()))
      ensures old(top) in lay && Adding(old(V()), mem, old(H()), old(segs), Segment(tbase, tsize, mmapped, false))
    {
      hide Base, PayloadSame, Frame, HeapMid, Adding, RecordChunk, Fresh, FencesWritten, PadRequest, FootOf, HeadSays;
      hide ReadableTop, TopTouch, AlignOffset, ExtendMem;
      ghost var v, h, s := V(), H(), Segment(tbase, tsize, mmapped, false);
      var oldtop := top;
      var i := SegmentHolding(oldtop);
      TopPlace(v, h, segs, i);
      RecordPlace(h);
      var end := segs[i].End();
      var ssize := PadRequest(32);
      var rawsp := end - (ssize + 4 * 8 + 7);
      var asp := rawsp + AlignOffset(rawsp + 16);
      csp := if asp < oldtop + MIN_CHUNK_SIZE then oldtop else asp;
      TbaseAligned(segs, tbase, tsize);
      InitTop(tbase, tsize - TOP_FOOT_SIZE);
      assert mem == ExtendMem(v.mem, tbase, tsize - TOP_FOOT_SIZE);
      mem := mem[csp + 8 := ssize + 3];
      ghost var m1 := mem;
      segs := [Segment(tbase, tsize, mmapped, false)] + segs;
      var nfences := WriteFences(csp + ssize, end);
      AddWrites(v, m1, mem, h, old(segs), s);
    }

    /**
     * Turn the old top into a segment record, fenceposts and, if large enough, a binned free chunk; the new region
     * becomes top.
     */
    method AddSegment(tbase: int, tsize: int, mmapped: bool)
      requires Mid({}) && Fresh(segs, tbase, tsize) && TOP_FOOT_SIZE < tsize
      modifies `mem, `smallmap, `sb, `treemap, `tb, `lay, `out, `top, `topsize, `segs
      ensures Mid({}) && top == tbase && topsize == tsize - TOP_FOOT_SIZE
      ensures segs == [Segment(tbase, tsize, mmapped, false)] + old(segs)
      ensures Grown(old(V()), V(), RecordChunk(old(H()))) && TotalSize(segs) == TotalSize(old(segs)) + tsize
      ensures old(top) in old(lay) && P() == AddedPool(old(P()), Segment(tbase, tsize, mmapped, false))
    {
      hide Base, PayloadSame, Frame, HeapMid, Grown, Adding, Step3, Fresh, AddedPool, Filed, Retired;
      ghost var v, h, P0, s := V(), H(), P(), Segment(tbase, tsize, mmapped, false);
      var oldtop := top;
      var csp := RetireTop(tbase, tsize, mmapped);
      TotalAdds(old(segs), s);
      if csp != oldtop {
        AddLong(v, mem, h, old(segs), s);
        AddedLong(v, mem, h, old(segs), s);
        ghost var v3 := Step3(v, mem, h, s);
        Step3Frame(v, mem, h, s);
        var psize := csp - oldtop;
        SetFreeWithPinuse(oldtop, psize, csp);
        lay, out := v3.lay, v3.out;
        assert V() == v3;
        FileChunk(oldtop, psize);
        GrownAround(v, v3, V(), csp);
      } else {
        AddShort(v, mem, h, old(segs), s);
        AddedShort(v, h, old(segs), s);
        lay := Retired(lay, oldtop, tbase, tsize, SEGMENT_CHUNK_SIZE);
      }
    }

    /** Take the front of a region in use and merge the rest with the segment's old first chunk. */
    method PlaceFront(p: int, oldfirst: int, nb: int, total: int, next: int, ghost segs0: seq<Segment>, ghost i: nat,
            ghost x: set<int>) returns (binned: bool)
      requires i < |segs0| && segs == Prepended(segs0, i, p, oldfirst - p)
      requires Prepending(V(), H(), segs0, x, i, p, oldfirst - p, nb) && FirstOut(V(), H(), x, oldfirst)
      requires oldfirst == top <==> lay[oldfirst].kind.Top?
      requires oldfirst == dv ==> lay[oldfirst].kind.Free?
      requires total == oldfirst - p - nb
        + (if lay[oldfirst].kind.Free? && oldfirst != dv then lay[oldfirst].size else 0)
      requires next == p + nb + total
      modifies `mem, `lay, `out, `dv, `dvsize, `top, `topsize
      ensures Mid(if binned then {} else {p + nb}) && (!binned ==> FreeAt(lay, p + nb, total))
      ensures ServedWith(old(V()), V(), p, nb, 0)
      ensures RestGiven(old(V()), old(H()), lay, H(), p, oldfirst - p, nb, binned)
      ensures H() == FrontHeads(old(H()), oldfirst, p + nb, oldfirst - p - nb)
    {
      hide Base, PayloadSame, Frame, HeapMid, Prepending, FreeWritten, Halved, Placed, ServedWith, FreedHeads;
      hide Unbinnable, RestGiven, Unlinked, FreedSize, FreedStart, FreeMem, FreeMemPin;
      ghost var v, h, size := V(), H(), oldfirst - p;
      var q := p + nb;
      PrependMerges(v, h, segs0, x, i, p, size, nb);
      PrependWrites(v, h, segs0, x, i, p, size, nb);
      FirstKnown(v, h, segs0, x, i, p, size, nb);
      mem := mem[p + 8 := nb + 3];
      binned := true;
      if oldfirst == top {
        topsize := topsize + total;
        top := q;
        mem := mem[q + 8 := topsize + 1];
      } else if oldfirst == dv {
        dvsize := dvsize + total;
        dv := q;
        SetSizeAndPinuseOfFreeChunk(q, dvsize);
      } else {
        SetFreeWithPinuse(q, total, next);
        binned := false;
      }
      PrependKeeps(v, h, segs0, x, i, p, size, nb, mem);
      PlacedFrame(v, mem, p, size, nb);
      PlacedGives(v, mem, h, H(), p, size, nb, binned);
      ghost var v3 := Placed(v, mem, p, size, nb);
      lay, out := v3.lay, v3.out;
      assert V() == v3;
    }

    /**
     * Serve nb from a region that now precedes the segment that began at oldbase; i is that segment, as it was in
     * segs0.
     */
    method PrependAlloc(newbase: int, oldbase: int, nb: int, ghost segs0: seq<Segment>, ghost i: nat) returns (p: int)
      requires i < |segs0| && segs == Prepended(segs0, i, newbase, oldbase - newbase)
      requires Prepending(V(), H(), segs0, {}, i, newbase, oldbase - newbase, nb)
      modifies `mem, `smallmap, `sb, `treemap, `tb, `lay, `out, `dv, `dvsize, `top, `topsize
      ensures Mid({}) && p == newbase && ServedWith(old(V()), V(), p, nb, 0)
      ensures H() == FrontHeads(old(H()), oldbase, newbase + nb, oldbase - newbase - nb)
      ensures oldbase in old(lay) && P() == FrontedPool(old(P()).(segs := segs0), i, newbase, oldbase - newbase, nb)
    {
      hide Base, PayloadSame, Frame, HeapMid, ServedWith, Filed, Drawn, Halved, FrontedPool, RestGiven;
      hide FrontHeads, Fresh;
      ghost var v, h, b0, x, size := V(), H(), B(), {}, oldbase - newbase;
      FirstReads(v, h, segs0, i, newbase, size, nb);
      RebinnedRefl(v);
      p := newbase;
      var oldfirst := oldbase;
      var q, qsize, next := p + nb, oldfirst - p - nb, oldfirst;
      if oldfirst != top && oldfirst != dv && !Cinuse(Rd(mem, oldfirst + 8)) {
        var nsize := ChunkSize(Rd(mem, oldfirst + 8));
        UnlinkChunk(oldfirst, nsize);
        MidBins(v, V(), h, segs0, {}, oldfirst);
        x := {} + {oldfirst};
        next := oldfirst + nsize;
        qsize := qsize + nsize;
      }
      ghost var v1, b1 := V(), B();
      assert b1 == if v.lay[oldfirst].kind.Free? && oldfirst != h.dv then Drawn(b0, oldfirst, v.lay[oldfirst].size)
        else b0;
      var binned := PlaceFront(p, oldfirst, nb, qsize, next, segs0, i, x);
      ghost var v2, lay2, h2 := V(), lay, H();
      RebinnedRefl(v2);
      if !binned {
        FileChunk(q, qsize);
      }
      assert B() == if binned then b1 else Filed(b1, q, qsize);
      FrontedIs(v1, h, segs0, x, i, newbase, size, nb, b0, lay2, h2, binned);
      ServedAround(v, v1, v2, V(), p, nb);
    }

    /** Extend the segment of top by a region that follows it. */
    method AppendTop(i: nat, tsize: int)
      requires Mid({}) && HoldsTop(segs, i, top) && Fresh(segs, segs[i].End(), tsize) && TOP_FOOT_SIZE <= tsize
      modifies `mem, `lay, `topsize, `top, `segs
      ensures Mid({}) && segs == Appended(old(segs), i, tsize) && top == old(top) && topsize == old(topsize) + tsize
      ensures Grown(old(V()), V(), 0) && TotalSize(segs) == TotalSize(old(segs)) + tsize
      ensures old(top) in old(lay) && P() == AppendedPool(old(P()), i, tsize)
    {
      hide Base, PayloadSame, Frame, HeapMid, Grown, Fresh, FootOf, HeadSays, ReadableTop, TopTouch, ExtendMem;
      ghost var v, h, segs0 := V(), H(), segs;
      ExtendGrown(v, h, segs, i, tsize);
      HeadsKnown(v, h, segs, {});
      TopNonzero(v, h, segs, {});
      AppendFits(v, h, segs, i, tsize);
      TotalUpdates(segs, i, segs[i].(size := segs[i].size + tsize));
      segs := segs[i := segs[i].(size := segs[i].size + tsize)];
      InitTop(top, topsize + tsize);
      lay := Extended(lay, top, tsize);
      assert V() == v.(mem := ExtendMem(v.mem, h.top, h.topsize + tsize), lay := Extended(v.lay, h.top, tsize));
    }

    /** Join a region to the segment that starts where it ends, and serve nb from its front. */
    method PrependRegion(tbase: int, tsize: int, j: nat, nb: int) returns (p: int)
      requires j < |segs| && Prepending(V(), H(), segs, {}, j, tbase, tsize, nb)
      modifies `mem, `smallmap, `sb, `treemap, `tb, `lay, `out, `dv, `dvsize, `top, `topsize, `segs
      ensures Mid({}) && TotalSize(segs) == TotalSize(old(segs)) + tsize
        && segs == Prepended(old(segs), j, tbase, tsize)
      ensures p == tbase && ServedWith(old(V()), V(), p, nb, 0)
      ensures H() == FrontHeads(old(H()), tbase + tsize, tbase + nb, tsize - nb)
      ensures tbase + tsize in old(lay) && P() == FrontedPool(old(P()), j, tbase, tsize, nb)
    {
      hide Base, PayloadSame, Frame, HeapMid, ServedWith, Fresh, FrontedPool;
      var oldbase := segs[j].base;
      ghost var segs0 := segs;
      TotalUpdates(segs, j, segs[j].(base := tbase, size := segs[j].size + tsize));
      segs := segs[j := segs[j].(base := tbase, size := segs[j].size + tsize)];
      p := PrependAlloc(tbase, oldbase, nb, segs0, j);
    }

    /** Serve nb from the front of a top that the space has just gained. */
    method TakeNewTop(nb: int) returns (p: int)
      requires Mid({}) && MIN_CHUNK_SIZE <= nb < topsize && nb % 8 == 0
      modifies `mem, `lay, `top, `topsize
      ensures Mid({}) && p != 0 && ServedWith(old(V()), V(), p, nb, 0)
      ensures p == old(top) && Took(old(P()), P(), nb, p)
    {
      hide Base, PayloadSame, Frame, HeapMid, ServedWith, Gained, Took;
      ghost var v, h := V(), H();
      p := AllocTop(nb);
      SteadyBoth(v, h, V(), H(), segs);
      GainedServes(v, h, V(), H(), p, nb);
    }

    /** Join a region to the space and serve nb from it. */
    method UseRegion(tbase: int, tsize: int, nb: int) returns (p: int)
      requires Mid({}) && Fresh(segs, tbase, tsize) && nb % 8 == 0 && MIN_CHUNK_SIZE <= nb
        && nb + TOP_FOOT_SIZE + 8 <= tsize
      modifies `mem, `smallmap, `sb, `treemap, `tb, `lay, `out, `dv, `dvsize, `top, `topsize, `segs
      ensures Mid({}) && TotalSize(segs) == TotalSize(old(segs)) + tsize
      ensures p != 0 && Served(old(V()), V(), p, nb) && Joins(old(segs), segs, tbase, tsize)
      ensures GrownTo(old(P()), P(), tbase, tsize, nb, p)
      ensures Merged(old(segs), old(H()), segs, H(), tbase, tsize, nb, p)
    {
      hide Base, PayloadSame, Frame, HeapMid, ServedWith, Grown, Fresh, Joins, Took, GrownTo, Merged;
      hide AppendedPool, AddedPool, FrontedPool, CanAppend, CanPrecede, TotalSize;
      ghost var v, h, segs0 := V(), H(), segs;
      ghost var r := 0;
      TbaseAligned(segs, tbase, tsize);
      TopNonzero(v, H(), segs, {});
      var i := SegmentEnding(tbase);
      if i < |segs| && !segs[i].extern && segs[i].mmapped && segs[i].base <= top < segs[i].End() {
        AppendJoins(v, h, segs, {}, i, tsize);
        AppendTop(i, tsize);
      } else {
        NoAppend(v, h, segs, i, tbase);
        var j := SegmentStarting(tbase + tsize);
        if j < |segs| && !segs[j].extern && segs[j].mmapped {
          PrependJoins(v, h, segs, {}, j, tbase, tsize);
          p := PrependRegion(tbase, tsize, j, nb);
          ByPrepending(v, h, segs0, P(), j, tbase, tsize, nb);
          assert ServedWith(v, V(), p, nb, 0);
          return;
        }
        NoPrecede(v, h, segs, j, tbase + tsize);
        r := RecordChunk(H());
        AddJoins(segs, Segment(tbase, tsize, true, false));
        AddSegment(tbase, tsize, true);
        SegmentsOf(V(), H(), segs, {});
      }
      ghost var v1, P1 := V(), P();
      p := TakeNewTop(nb);
      if r == 0 {
        ByAppending(v, h, segs0, P1, P(), i, tbase, tsize, nb);
      } else {
        ByAdding(v, h, segs0, P1, P(), tbase, tsize, nb);
      }
      GrownServes(v, v1, V(), p, nb, r);
      assert ServedWith(v, V(), p, nb, r);
    }

    /**
     * Get a region of the size the request needs from the system and serve the request from it; 0 for region means the
     * system refuses.
     */
    method SysAlloc(nb: int, region: int) returns (p: int)
      requires Valid() && ((nb % 8 == 0 && MIN_CHUNK_SIZE <= nb < TWO64) || nb == MAX_SIZE_T)
      requires Gives(segs, region, nb)
      modifies `mem, `smallmap, `sb, `treemap, `tb, `lay, `out, `dv, `dvsize, `top, `topsize, `segs, `footprint
      modifies `maxFootprint
      ensures Valid()
      ensures p == 0 <==> region == 0 || MmapSize(nb) <= nb
      ensures p == 0 ==>
        V() == old(V()) && H() == old(H()) && segs == old(segs) && footprint == old(footprint)
          && maxFootprint == old(maxFootprint)
      ensures p != 0 ==> Served(old(V()), V(), p, nb) && footprint == old(footprint) + MmapSize(nb)
      ensures p != 0 ==> Joins(old(segs), segs, region, MmapSize(nb))
      ensures p != 0 ==> GrownTo(old(P()), P(), region, MmapSize(nb), nb, p)
      ensures p != 0 ==> Merged(old(segs), old(H()), segs, H(), region, MmapSize(nb), nb, p)
      ensures maxFootprint == if old(maxFootprint) < footprint then footprint else old(maxFootprint)
    {
      hide Base, PayloadSame, Frame, HeapMid, MmapSize, ServedWith, Fresh, Served, GrownTo, Merged;
      MmapSizeFits(nb);
      var tsize := MmapSize(nb);
      p := 0;
      if nb < tsize && region != 0 {
        GivesFresh(segs, region, nb);
        footprint := footprint + tsize;
        if footprint > maxFootprint {
          maxFootprint := footprint;
        }
        p := UseRegion(region, tsize, nb);
      }
    }

    // ----- malloc

    /** Serve a small request from the bins; 0 when the designated victim or top must serve it. */
    method FromSmallBins(nb: int) returns (p: int)
      requires Mid({}) && MIN_CHUNK_SIZE <= nb < MIN_LARGE_SIZE && nb % 8 == 0
      modifies `mem, `smallmap, `sb, `treemap, `tb, `lay, `out, `dv, `dvsize
      ensures Mid({})
      ensures p == 0 ==> V() == old(V()) && H() == old(H()) && Falls(V(), H(), nb)
      ensures p != 0 ==> Gained(old(V()), old(H()), V(), H(), p, nb) && SmallChosen(old(V()), old(H()), nb, p)
      ensures p != 0 ==> Took(old(P()), P(), nb, p)
    {
      hide Base, PayloadSame, Frame, HeapMid, Gained, Took, ExactFit, Marked, Shr, LowTwo, MissBit, BinnedChosen;
      ghost var v, h := V(), H();
      MidBase(v, h, segs, {});
      ExactIndex(v, nb);
      var smallbits := Shr(smallmap, nb / 8);
      p := 0;
      if LowTwo(smallbits) {
        p := AllocExact(nb);
      } else if nb > dvsize {
        if smallbits != 0 {
          p := AllocNext(nb);
        } else {
          NoneAfter(v, nb);
          if treemap != 0 {
            p := TmallocSmall(nb);
          } else {
            NothingBinned(v, nb);
          }
        }
      }
    }

    /** Serve a large request from the tree bins; 0 when the designated victim or top must serve it. */
    method FromTreeBins(nb: int) returns (p: int)
      requires Mid({}) && MIN_LARGE_SIZE <= nb < TWO64 && nb % 8 == 0
      modifies `mem, `smallmap, `sb, `treemap, `tb, `lay, `out
      ensures Mid({})
      ensures p == 0 ==> V() == old(V()) && Falls(V(), H(), nb)
      ensures p != 0 ==> Gained(old(V()), old(H()), V(), H(), p, nb) && LargeChosen(old(V()), old(H()), nb, p)
      ensures p != 0 ==> Took(old(P()), P(), nb, p)
    {
      hide Base, PayloadSame, Frame, HeapMid, Gained, Took, LargeChosen, DvFirst;
      p := 0;
      if treemap != 0 {
        p := TmallocLarge(nb);
      } else {
        NoTreesFall(V(), H(), segs, nb);
      }
    }

    /** Serve a request that no bin should serve: from the designated victim, from top, or from the system. */
    method FromDvTopOrSystem(nb: int, region: int) returns (p: int)
      requires Valid() && ((nb % 8 == 0 && MIN_CHUNK_SIZE <= nb < TWO64) || nb == MAX_SIZE_T)
      requires Falls(V(), H(), nb) && Gives(segs, region, nb)
      modifies `mem, `smallmap, `sb, `treemap, `tb, `lay, `out, `dv, `dvsize, `top, `topsize, `segs, `footprint
      modifies `maxFootprint
      ensures Valid()
      ensures p == 0 ==>
        V() == old(V()) && H() == old(H()) && segs == old(segs) && footprint == old(footprint)
          && maxFootprint == old(maxFootprint)
      ensures p == 0 <==> NoRoom(old(V()), old(H()), nb) && Refused(region, nb)
      ensures nb == MAX_SIZE_T ==> p == 0
      ensures p != 0 ==> Served(old(V()), V(), p, nb)
      ensures p != 0 && !NoRoom(old(V()), old(H()), nb) ==>
        Gained(old(V()), old(H()), V(), H(), p, nb) && Chosen(old(V()), old(H()), nb, p) && segs == old(segs)
          && footprint == old(footprint)
      ensures p != 0 && NoRoom(old(V()), old(H()), nb) ==>
        footprint == old(footprint) + MmapSize(nb) && Joins(old(segs), segs, region, MmapSize(nb))
      ensures p != 0 && !NoRoom(old(V()), old(H()), nb) ==> Took(old(P()), P(), nb, p)
      ensures p != 0 && NoRoom(old(V()), old(H()), nb) ==> GrownTo(old(P()), P(), region, MmapSize(nb), nb, p)
      ensures p != 0 && NoRoom(old(V()), old(H()), nb) ==>
        Merged(old(segs), old(H()), segs, H(), region, MmapSize(nb), nb, p)
      ensures maxFootprint == if old(maxFootprint) < footprint then footprint else old(maxFootprint)
    {
      hide Base, PayloadSame, Frame, HeapMid, Gained, Falls, Chosen, NoFree, Served, ServedWith, MmapSize;
      hide Took, GrownTo, Merged;
      ghost var v, h := V(), H();
      TooLarge(v, h, segs);
      if nb <= dvsize {
        FallsToDv(v, h, segs, nb);
        ChosenHasRoom(v, h, segs, nb, h.dv);
        p := AllocDv(nb);
        LocalServes(v, h, V(), H(), segs, p, nb);
      } else {
        FallsToTop(v, h, segs, nb);
        if nb < topsize {
          p := AllocTop(nb);
          LocalServes(v, h, V(), H(), segs, p, nb);
        } else {
          MmapSizeFits(nb);
          p := SysAlloc(nb, region);
        }
      }
    }

    /**
     * Allocate at least `bytes` bytes; 0 on failure. `region` is what the system would return if asked for memory, 0
     * for nothing. It fails exactly when MallocFails says so, and then nothing changes. The chunk is the preferred one
     * if any free chunk or top has room, and only otherwise the space grows, by the region the system gives.
     */
    method Malloc(bytes: int, region: int) returns (m: int)
      requires Valid() && 0 <= bytes < TWO64 && Gives(segs, region, ChunkRequest(bytes))
      modifies `mem, `smallmap, `sb, `treemap, `tb, `lay, `out, `dv, `dvsize, `top, `topsize, `segs, `footprint
      modifies `maxFootprint
      ensures Valid()
      ensures m == 0 ==>
        V() == old(V()) && H() == old(H()) && segs == old(segs) && footprint == old(footprint)
          && maxFootprint == old(maxFootprint)
      ensures m == 0 <==> MallocFails(old(V()), old(H()), bytes, region)
      ensures m != 0 ==> bytes < MAX_REQUEST && m % 8 == 0 && Served(old(V()), V(), m - 16, ChunkRequest(bytes))
      ensures m != 0 && !NoRoom(old(V()), old(H()), ChunkRequest(bytes)) ==>
        Gained(old(V()), old(H()), V(), H(), m - 16, ChunkRequest(bytes))
          && Chosen(old(V()), old(H()), ChunkRequest(bytes), m - 16)
      ensures m != 0 && !NoRoom(old(V()), old(H()), ChunkRequest(bytes)) ==>
        segs == old(segs) && footprint == old(footprint)
      ensures m != 0 && NoRoom(old(V()), old(H()), ChunkRequest(bytes)) ==>
        footprint == old(footprint) + MmapSize(ChunkRequest(bytes))
        && Joins(old(segs), segs, region, MmapSize(ChunkRequest(bytes)))
      ensures Confined(segs, old(mem), mem)
      ensures MallocReply(old(Now()), bytes, region, m, Now())
      ensures maxFootprint == if old(maxFootprint) < footprint then footprint else old(maxFootprint)
    {
      hide Took, GrownTo, Merged, HeadsMove, OldVictimBinned;
      hide Base, PayloadSame, Frame, HeapMid, Gained, Falls, SmallChosen, LargeChosen, NoRoom, Refused, Served;
      hide MmapSize, Joins, Confined;
      hide PadRequest, Gives, OneTop;
      ghost var v, h := V(), H();
      ChunkRequestIs(bytes);
      var nb;
      var p := 0;
      if bytes <= MAX_SMALL_REQUEST {
        nb := if bytes < MIN_REQUEST then MIN_CHUNK_SIZE else PadRequest(bytes);
        p := FromSmallBins(nb);
      } else if bytes >= MAX_REQUEST {
        nb := MAX_SIZE_T;
        TooLarge(v, h, segs);
      } else {
        nb := PadRequest(bytes);
        p := FromTreeBins(nb);
      }
      assert nb == ChunkRequest(bytes);
      hide ChunkRequest;
      if p != 0 {
        ChosenHasRoom(v, h, segs, nb, p);
        LocalServes(v, h, V(), H(), segs, p, nb);
      } else {
        p := FromDvTopOrSystem(nb, region);
        if p == 0 {
          ConfinedSelf(segs, mem);
          m := 0;
          return;
        }
      }
      m := p + 16;
      if !NoRoom(v, h, nb) {
        TookVictim(v, h, V(), H(), segs, nb, p);
      }
      ServedAligned(v, V(), H(), segs, p, nb);
      ServedFrame(v, V(), p, nb);
      FrameConfined(v, V(), H(), segs, {});
    }

    // ----- calloc

    /** Clear n bytes. */
    method MemSet(m: int, n: int)
      requires 0 <= n
      modifies `mem
      ensures WordsTouch(old(mem), mem, m, n) && ZeroBytes(mem, m, n) && TailKept(old(mem), mem, m, n)
    {
      hide Low, PutLow, TailKept;
      NoTail(mem, m);
      var k := 0;
      while k < n
        invariant 0 <= k && k % 8 == 0 && (k < n + 8) && WordsTouch(old(mem), mem, m, if k < n then k else n)
        invariant ZeroBelow(mem, m, n, k) && (n <= k ==> TailKept(old(mem), mem, m, n))
      {
        if n <= k + 8 {
          TailStep(old(mem), mem, m, k, n, 0);
        }
        ZeroStep(old(mem), mem, m, k, n);
        mem := mem[m + k := PutLow(Rd(mem, m + k), 0, n - k)];
        k := k + 8;
      }
    }

    /** Copy n bytes between regions that do not overlap. */
    method MemCopy(d: int, s: int, n: int)
      requires 0 <= n && (s + n <= d || d + n <= s)
      modifies `mem
      ensures WordsTouch(old(mem), mem, d, n) && SameBytes(old(mem), s, mem, d, n) && TailKept(old(mem), mem, d, n)
    {
      hide Low, PutLow, TailKept;
      NoTail(mem, d);
      var k := 0;
      while k < n
        invariant 0 <= k && k % 8 == 0 && (k < n + 8) && WordsTouch(old(mem), mem, d, if k < n then k else n)
        invariant CopiedTo(old(mem), s, mem, d, n, k) && (n <= k ==> TailKept(old(mem), mem, d, n))
      {
        if n <= k + 8 {
          TailStep(old(mem), mem, d, k, n, Rd(mem, s + k));
        }
        CopyStep(old(mem), mem, s, d, k, n);
        mem := mem[d + k := PutLow(Rd(mem, d + k), Rd(mem, s + k), n - k)];
        k := k + 8;
      }
    }

    /** Allocate and clear n elements of e bytes; it fails exactly where malloc would on the exact product. */
    method Calloc(n: int, e: int, region: int) returns (m: int)
      requires Valid() && 0 <= n < TWO64 && 0 <= e < TWO64 && Gives(segs, region, ChunkRequest(CallocRequest(n, e)))
      modifies `mem, `smallmap, `sb, `treemap, `tb, `lay, `out, `dv, `dvsize, `top, `topsize, `segs, `footprint
      modifies `maxFootprint
      ensures Valid()
      ensures m == 0 <==> MallocFails(old(V()), old(H()), n * e, region)
      ensures m == 0 ==>
        V() == old(V()) && H() == old(H()) && segs == old(segs) && footprint == old(footprint)
          && maxFootprint == old(maxFootprint)
      ensures m != 0 ==> Served(old(V()), V(), m - 16, ChunkRequest(n * e)) && ZeroBytes(mem, m, n * e)
      ensures m != 0 && !NoRoom(old(V()), old(H()), ChunkRequest(n * e)) ==> ArenaKept(old(V()), old(H()), V(), H())
      ensures Grew(old(segs), segs, region, ChunkRequest(n * e)) && Confined(segs, old(mem), mem)
      ensures MallocReply(old(Now()), n * e, region, m, Now())
    {
      hide MallocReply;
      hide Base, PayloadSame, Frame, HeapMid, Served, MmapSize, Gained, Chosen, NoRoom, Refused, ChunkRequest, Gives;
      hide Joins, Confined;
      ghost var v, h := V(), H();
      CallocRequestIs(n, e);
      ProductSign(n, e);
      MidBase(v, H(), segs, {});
      var req := 0;
      if n != 0 {
        req := n * e % TWO64;
        if (n >= TWO16 || e >= TWO16) && req / n != e {
          req := MAX_SIZE_T;
        }
      }
      ghost var a0 := Now();
      m := Malloc(req, region);
      ReplyCapped(a0, req, n * e, region, m, Now());
      if m != 0 {
        ghost var v1, a1 := V(), Now();
        ChunkRequestIs(req);
        MemSet(m, req);
        ServedWrites(v, v1, H(), segs, mem, m - 16, ChunkRequest(req), req);
        ReplyStays(a0, n * e, region, m, a1, mem);
        ServedFrame(v, V(), m - 16, ChunkRequest(req));
        FrameConfined(v, V(), H(), segs, {});
        if !NoRoom(v, h, ChunkRequest(req)) {
          GainedArena(v, h, v1, H(), m - 16, ChunkRequest(req));
        }
      }
    }

    // ----- realloc

    method SetInuse(p: int, s: int)
      modifies `mem
      ensures mem == SetInuseMem(old(mem), p, s)
    {
      mem := mem[p + 8 := Head(s, true, Pinuse(Rd(mem, p + 8)))];
      mem := mem[p + s + 8 := SetPinuse(Rd(mem, p + s + 8))];
    }

    /** Cut an in-use chunk after n bytes, marking the front first or last. */
    method CutInuse(p: int, n: int, r: int, frontFirst: bool)
      requires Mid({}) && Freeable(lay, p) && p != ms && Splittable(lay, p, n) && lay[p].size == n + r
      modifies `mem, `lay
      ensures Mid({}) && CutTo(old(V()), V(), H(), p, n) && P() == CutAt(old(P()), p, n)
    {
      hide Base, PayloadSame, Frame, HeapMid, CarveWritten, CutTo, SetInuseMem, Split;
      ghost var v := V();
      CutWrites(v, H(), segs, p, n);
      if frontFirst {
        SetInuse(p, n);
        SetInuse(p + n, r);
      } else {
        SetInuse(p + n, r);
        SetInuse(p, n);
      }
      CutDone(v, mem, H(), segs, p, n);
      lay := Split(lay, p, n, Used);
      assert V() == Carved(v, mem, p, n);
    }

    /** Give back the tail of a chunk that is larger than needed. */
    method Shrink(p: int, nb: int, rsize: int)
      requires Valid() && Freeable(lay, p) && p != ms && lay[p].size == nb + rsize && MIN_CHUNK_SIZE <= nb
        && nb % 8 == 0 && MIN_CHUNK_SIZE <= rsize
      modifies `mem, `smallmap, `sb, `treemap, `tb, `lay, `out, `dv, `dvsize, `top, `topsize
      ensures Valid() && Freeable(lay, p) && lay[p].size == nb && UsedOf(lay) == UsedOf(old(lay))[p := nb]
      ensures PayloadSame(UsedOf(old(lay))[p := nb], ms, old(mem), mem) && OneTop(lay, top)
        && OneTop(old(lay), old(top))
      ensures ArenaOf(lay, top) == ArenaOf(old(lay), old(top)) && Frame(old(lay), lay, old(mem), mem)
      ensures P() == InPlace(old(P()), p, nb)
    {
      hide Base, PayloadSame, Frame, HeapMid, Lost, Freed, Given, CutAt;
      ghost var v, h := V(), H();
      HeadsKnown(v, h, segs, {});
      CutInuse(p, nb, rsize, true);
      ghost var v1, h1 := V(), H();
      FreeChunk(p + nb);
      TrimDone(v, h, v1, V(), H(), segs, p, nb);
      HeadsKnown(V(), H(), segs, {});
    }

    /** Grow a chunk into top. */
    method ExpandIntoTop(p: int, nb: int, newsize: int)
      requires Mid({}) && Freeable(lay, p) && p != ms && p + lay[p].size == top && newsize == lay[p].size + topsize
      requires nb % 8 == 0 && lay[p].size < nb < newsize
      modifies `mem, `lay, `top, `topsize
      ensures Mid({}) && Freeable(lay, p) && lay[p].size == nb && UsedOf(lay) == UsedOf(old(lay))[p := nb]
      ensures PayloadSame(UsedOf(old(lay)), ms, old(mem), mem) && OneTop(lay, top) && OneTop(old(lay), old(top))
      ensures ArenaOf(lay, top) == ArenaOf(old(lay), old(top)) && Frame(old(lay), lay, old(mem), mem)
      ensures P() == InPlace(old(P()), p, nb)
    {
      hide Base, PayloadSame, Frame, HeapMid, Freed, StretchWritten, Given, CutAt;
      ghost var v, h := V(), H();
      StretchReady(v, h, segs, p, nb);
      var newtopsize := newsize - nb;
      var newtop := p + nb;
      SetInuse(p, nb);
      mem := mem[newtop + 8 := newtopsize + 1];
      top := newtop;
      topsize := newtopsize;
      StretchHeap(v, mem, h, segs, p, nb);
      lay := Stretched(lay, p, nb);
      assert V() == v.(mem := mem, lay := Stretched(v.lay, p, nb));
      HeadsKnown(V(), H(), segs, {});
    }

    /** Copy n bytes of the old block to the new one, which v did not have, and free the old. */
    method CopyFree(oldmem: int, m: int, n: int, ghost v: View, ghost nb: int)
      requires Valid() && Base(v) && Served(v, V(), m - 16, nb) && Freeable(v.lay, oldmem - 16) && oldmem - 16 != v.ms
      requires 0 <= n <= v.lay[oldmem - 16].size - CHUNK_OVERHEAD && n <= nb - CHUNK_OVERHEAD
      modifies `mem, `smallmap, `sb, `treemap, `tb, `lay, `out, `dv, `dvsize, `top, `topsize
      ensures Valid() && Moved(v, V(), oldmem - 16, m - 16, nb, n) && m != oldmem
      ensures ArenaKept(old(V()), old(H()), V(), H())
      ensures Freeable(old(lay), oldmem - 16) && P() == Given(old(P()), oldmem - 16)
    {
      hide VictimGrows, Given;
      hide Base, PayloadSame, Frame, HeapMid, Lost, Moved, Freed, SameBytes, WordsTouch, ServedWith, Confined;
      ghost var v1, p0 := V(), oldmem - 16;
      ghost var r :| ServedWith(v, v1, m - 16, nb, r);
      MidBase(v1, H(), segs, {});
      LayoutOf(v);
      assert ChunkOk(v.lay, p0);
      CopyReady(v, v1, p0, m - 16, nb, n, r);
      MemCopy(m, oldmem, n);
      ghost var m2, h2 := mem, H();
      ServedWrites(v, v1, h2, segs, m2, m - 16, nb, n);
      Free(oldmem);
      assert Copied(v, v1, m2, h2, V(), H(), p0, m - 16, nb, n, r);
      MoveDone(v, v1, m2, h2, V(), H(), segs, p0, m - 16, nb, n, r);
      LostArena(v1.(mem := m2), h2, V(), H(), p0);
    }

    /** Move the contents of a block to a new one and free the old. */
    method MallocCopyFree(oldmem: int, bytes: int, oldsize: int, region: int) returns (m: int)
      requires Valid() && 0 <= bytes < MAX_REQUEST && Freeable(lay, oldmem - 16) && oldmem - 16 != ms
        && oldsize == lay[oldmem - 16].size
      requires Gives(segs, region, ChunkRequest(bytes))
      modifies `mem, `smallmap, `sb, `treemap, `tb, `lay, `out, `dv, `dvsize, `top, `topsize, `segs, `footprint
      modifies `maxFootprint
      ensures Valid()
      ensures m == 0 ==>
        V() == old(V()) && H() == old(H()) && segs == old(segs) && footprint == old(footprint)
          && maxFootprint == old(maxFootprint)
      ensures m == 0 <==> MallocFails(old(V()), old(H()), bytes, region)
      ensures m != oldmem
      ensures m != 0 ==>
        m % 8 == 0 && Moved(old(V()), V(), oldmem - 16, m - 16, ChunkRequest(bytes),
          Least(oldsize - CHUNK_OVERHEAD, bytes))
      ensures m != 0 && !NoRoom(old(V()), old(H()), ChunkRequest(bytes)) ==> ArenaKept(old(V()), old(H()), V(), H())
      ensures Grew(old(segs), segs, region, ChunkRequest(bytes))
      ensures MoveReply(old(Now()), oldmem - 16, bytes, region, m, Now())
    {
      hide MallocReply, Given;
      hide Base, PayloadSame, Frame, HeapMid, MmapSize, Gained, Chosen, MallocFails, NoRoom, ChunkRequest, Gives, Lost;
      hide Moved;
      hide Freed, SameBytes, WordsTouch, ServedWith, Joins, Confined;
      ghost var v, h, p0 := V(), H(), oldmem - 16;
      ResizeReads(v, h, segs, p0);
      ghost var a0 := Now();
      m := Malloc(bytes, region);
      ghost var a1 := Now();
      if m != 0 {
        ghost var v1, h1, nb := V(), H(), ChunkRequest(bytes);
        ChunkRequestIs(bytes);
        var oc := oldsize - CHUNK_OVERHEAD;
        var n := if oc < bytes then oc else bytes;
        CopyFree(oldmem, m, n, v, nb);
        if !NoRoom(v, h, nb) {
          GainedArena(v, h, v1, h1, m - 16, nb);
          ArenaTrans(v, h, v1, h1, V(), H());
        }
      }
      assert MovedVia(a0, a1, p0, bytes, region, m, Now());
    }

    /** Resize a block: kept, shrunk or grown into top where it is if that can be, and moved only otherwise. */
    method InternalRealloc(oldmem: int, bytes: int, region: int) returns (m: int)
      requires Valid() && 0 <= bytes < TWO64 && Freeable(lay, oldmem - 16) && oldmem - 16 != ms
      requires Gives(segs, region, ChunkRequest(bytes))
      modifies `mem, `smallmap, `sb, `treemap, `tb, `lay, `out, `dv, `dvsize, `top, `topsize, `segs, `footprint
      modifies `maxFootprint
      ensures Valid()
      ensures m == 0 ==>
        V() == old(V()) && H() == old(H()) && segs == old(segs) && footprint == old(footprint)
          && maxFootprint == old(maxFootprint)
      ensures m == 0 <==> ReallocFails(old(V()), old(H()), oldmem - 16, bytes, region)
      ensures m != 0 ==> (m == oldmem <==> FitsInPlace(old(V()), old(H()), oldmem - 16, ChunkRequest(bytes)))
      ensures m == oldmem ==> segs == old(segs) && footprint == old(footprint)
      ensures m != 0 ==>
        Moved(old(V()), V(), oldmem - 16, m - 16, ChunkRequest(bytes),
          Least(old(lay[oldmem - 16].size) - CHUNK_OVERHEAD, bytes))
      ensures m != 0 && (m == oldmem || !NoRoom(old(V()), old(H()), ChunkRequest(bytes))) ==>
        ArenaKept(old(V()), old(H()), V(), H())
      ensures Grew(old(segs), segs, region, ChunkRequest(bytes)) && Confined(segs, old(mem), mem)
      ensures ReallocReply(old(Now()), oldmem, bytes, region, m, Now())
    {
      hide MoveReply, InPlace;
      hide Base, PayloadSame, Frame, HeapMid, MmapSize, ChunkRequest, Gives, Moved, Freed, Request2Size, MallocFails;
      hide Joins, Confined, NoRoom;
      ghost var v, h := V(), H();
      ConfinedSelf(segs, mem);
      ArenaSelf(v, h, segs, {});
      var oldp := oldmem - 16;
      ResizeReads(v, h, segs, oldp);
      if bytes >= MAX_REQUEST {
        return 0;
      }
      ChunkRequestIs(bytes);
      var oldsize := ChunkSize(Rd(mem, oldp + 8));
      var next := oldp + oldsize;
      var nb := Request2Size(bytes);
      ghost var n := Least(oldsize - CHUNK_OVERHEAD, bytes);
      if oldsize >= nb {
        var rsize := oldsize - nb;
        if rsize >= MIN_CHUNK_SIZE {
          Shrink(oldp, nb, rsize);
          InPlaceMoved(v, V(), h, H(), segs, oldp, nb, n, nb);
        } else {
          KeepMoved(v, h, segs, oldp, nb, n);
          InPlaceKept(P(), oldp, nb);
        }
        m := oldmem;
      } else if next == top && oldsize + topsize > nb {
        ExpandIntoTop(oldp, nb, oldsize + topsize);
        assert UsedOf(v.lay)[oldp := oldsize] == UsedOf(v.lay);
        InPlaceMoved(v, V(), h, H(), segs, oldp, nb, n, oldsize);
        m := oldmem;
      } else {
        m := MallocCopyFree(oldmem, bytes, oldsize, region);
      }
      if m != 0 {
        MovedFrame(v, V(), oldp, m - 16, nb, n);
        FrameConfined(v, V(), H(), segs, {});
      }
    }

    /** realloc: like malloc without an old block. */
    method Realloc(oldmem: int, bytes: int, region: int) returns (m: int)
      requires Valid() && 0 <= bytes < TWO64 && (oldmem != 0 ==> Freeable(lay, oldmem - 16) && oldmem - 16 != ms)
      requires Gives(segs, region, ChunkRequest(bytes))
      modifies `mem, `smallmap, `sb, `treemap, `tb, `lay, `out, `dv, `dvsize, `top, `topsize, `segs, `footprint
      modifies `maxFootprint
      ensures Valid()
      ensures m == 0 ==>
        V() == old(V()) && H() == old(H()) && segs == old(segs) && footprint == old(footprint)
          && maxFootprint == old(maxFootprint)
      ensures oldmem == 0 ==> (m == 0 <==> MallocFails(old(V()), old(H()), bytes, region))
      ensures oldmem != 0 ==> (m == 0 <==> ReallocFails(old(V()), old(H()), oldmem - 16, bytes, region))
      ensures m != 0 && oldmem == 0 ==> Served(old(V()), V(), m - 16, ChunkRequest(bytes))
      ensures m != 0 && oldmem != 0 ==>
        Moved(old(V()), V(), oldmem - 16, m - 16, ChunkRequest(bytes),
          Least(old(lay[oldmem - 16].size) - CHUNK_OVERHEAD, bytes))
      ensures oldmem != 0 && m != 0 && (m == oldmem || !NoRoom(old(V()), old(H()), ChunkRequest(bytes))) ==>
        ArenaKept(old(V()), old(H()), V(), H())
      ensures Grew(old(segs), segs, region, ChunkRequest(bytes)) && Confined(segs, old(mem), mem)
      ensures ReallocReply(old(Now()), oldmem, bytes, region, m, Now())
    {
      hide MallocReply, MoveReply, InPlace;
      hide Base, PayloadSame, Frame, HeapMid, MmapSize, ChunkRequest, Gives, Moved, Freed, Gained, Chosen, NoRoom;
      hide MallocFails, Joins, Confined;
      hide ReallocFails, FitsInPlace, Served;
      if oldmem == 0 {
        m := Malloc(bytes, region);
      } else {
        m := InternalRealloc(oldmem, bytes, region);
      }
    }

    // ----- memalign

    /** Round an alignment up to a power of two. */
    method RoundAlignment(alignment: int) returns (a: int)
      requires 0 < alignment <= TWO63
      ensures a == Rounded(alignment) && PowerOfTwo(a) && MIN_CHUNK_SIZE <= a <= TWO63 && alignment <= a
    {
      hide DoubleTo, And, Pow2;
      RoundedIs(alignment);
      RoundedFits(alignment);
      a := if alignment < MIN_CHUNK_SIZE then MIN_CHUNK_SIZE else alignment;
      if And(a, a - 1) != 0 {
        var b := 16;
        while b < a
          invariant 0 < b && b % 16 == 0 && DoubleTo(b, a) == DoubleTo(16, a)
          decreases a - b
        {
          DoublesOn(b, a);
          b := b * 2 % TWO64;
        }
        DoublesOn(b, a);
        a := b;
      }
    }

    /** Cut off the part of a new chunk before its first aligned spot. */
    method CutLeader(p0: int, a: int, nb: int, ghost v: View, ghost r: int) returns (p: int, leader: int)
      requires Mid({}) && Base(v) && Freeable(lay, p0) && Pieces(v, V(), map[p0 := lay[p0].size], r)
      requires PowerOfTwo(a) && MIN_CHUNK_SIZE <= a <= TWO63 && nb % 8 == 0 && MIN_CHUNK_SIZE <= nb
        && nb + a + MIN_CHUNK_SIZE <= lay[p0].size
      modifies `mem, `lay
      ensures Mid({}) && OnBoundary(p + 16, a) && p in lay && nb <= lay[p].size
        && (leader == 0 || (leader == p0 && leader != p))
      ensures Pieces(v, V(), if leader == 0 then map[p := lay[p].size]
        else map[leader := p - leader][p := lay[p].size], r)
      ensures ArenaKept(old(V()), old(H()), V(), H())
      ensures p == AlignedSpot(p0, a) && (leader == 0 <==> p == p0)
      ensures P() == if p == p0 then old(P()) else CutAt(old(P()), p0, p - p0)
    {
      hide CutAt;
      hide Base, PayloadSame, Frame, HeapMid, Pieces, CutTo, AlignUp, PowerOfTwo, OnBoundary;
      ghost var v1, P := V(), map[p0 := lay[p0].size];
      MidBase(v1, H(), segs, {});
      ArenaSelf(v1, H(), segs, {});
      PieceExtent(v, v1, P, r, p0);
      SpotIs(p0, a);
      p, leader := p0, 0;
      var m := p0 + 16;
      if !OnBoundary(m, a) {
        var br := AlignUp(m, a) - 16;
        var pos := if br - p0 >= MIN_CHUNK_SIZE then br else br + a;
        var leadsize := pos - p0;
        var newsize := ChunkSize(Rd(mem, p0 + 8)) - leadsize;
        CutInuse(p0, leadsize, newsize, false);
        CutKept(v1, V(), H(), p0, leadsize);
        CutPieces(v, v1, V(), H(), segs, P, r, p0, leadsize);
        leader := p0;
        p := pos;
        MidBase(V(), H(), segs, {});
        assert map[p0 := P[p0]][p0 := leadsize] == map[p0 := leadsize];
        PieceExtent(v, V(), map[p0 := leadsize][p := newsize], r, p);
      }
    }

    /** Cut off spare room behind an aligned chunk. */
    method CutTrailer(p: int, nb: int, ghost v: View, ghost P: map<int, int>, ghost r: int) returns (trailer: int)
      requires Mid({}) && Base(v) && Pieces(v, V(), P, r) && p in P && nb <= P[p] && nb % 8 == 0 && MIN_CHUNK_SIZE <= nb
      modifies `mem, `lay
      ensures Mid({}) && (trailer == 0 ==> P[p] <= nb + MIN_CHUNK_SIZE)
        && (trailer != 0 ==> trailer == p + nb && nb < P[p])
      ensures Pieces(v, V(), if trailer == 0 then P else P[p := nb][trailer := P[p] - nb], r)
      ensures trailer != 0 ==> trailer !in P
      ensures ArenaKept(old(V()), old(H()), V(), H())
      ensures p in old(lay) && (trailer != 0 <==> nb + MIN_CHUNK_SIZE < old(lay)[p].size)
      ensures this.P() == if trailer == 0 then old(this.P()) else CutAt(old(this.P()), p, nb)
    {
      hide CutAt;
      hide Base, PayloadSame, Frame, HeapMid, Pieces, CutTo;
      ghost var v1 := V();
      MidBase(v1, H(), segs, {});
      ArenaSelf(v1, H(), segs, {});
      ArenaSelf(v1, H(), segs, {});
      PieceExtent(v, v1, P, r, p);
      trailer := 0;
      var size := ChunkSize(Rd(mem, p + 8));
      if size > nb + MIN_CHUNK_SIZE {
        CutInuse(p, nb, size - nb, true);
        CutKept(v1, V(), H(), p, nb);
        CutPieces(v, v1, V(), H(), segs, P, r, p, nb);
        CutFresh(v, v1, V(), H(), P, r, p, nb);
        trailer := p + nb;
      }
    }

    /** Free a piece that is not needed. */
    method FreePiece(q: int, ghost v: View, ghost P: map<int, int>, ghost r: int)
      requires Valid() && Base(v) && Pieces(v, V(), P, r) && (q != 0 ==> q in P)
      modifies `mem, `smallmap, `sb, `treemap, `tb, `lay, `out, `dv, `dvsize, `top, `topsize
      ensures Valid() && Pieces(v, V(), if q == 0 then P else P - {q}, r)
      ensures ArenaKept(old(V()), old(H()), V(), H())
      ensures this.P() == if q == 0 then old(this.P()) else GivenIf(old(this.P()), q)
    {
      hide Given, VictimGrows;
      hide Base, PayloadSame, Frame, HeapMid, Pieces, Lost;
      ghost var v1, h1 := V(), H();
      MidBase(v1, h1, segs, {});
      ArenaSelf(v1, h1, segs, {});
      if q != 0 {
        PieceExtent(v, v1, P, r, q);
        Free(q + 16);
        LostArena(v1, h1, V(), H(), q);
        FreePieces(v, v1, h1, V(), H(), segs, P, r, q);
      }
    }

    /** Turn a new chunk with room to spare into an aligned one, and free the rest. */
    method TrimToAlignment(p0: int, a: int, nb: int, ghost v: View, ghost r: int) returns (p: int)
      requires Valid() && Base(v) && Freeable(lay, p0) && Pieces(v, V(), map[p0 := lay[p0].size], r)
      requires PowerOfTwo(a) && MIN_CHUNK_SIZE <= a <= TWO63 && nb % 8 == 0 && MIN_CHUNK_SIZE <= nb
        && nb + a + MIN_CHUNK_SIZE <= lay[p0].size
      modifies `mem, `smallmap, `sb, `treemap, `tb, `lay, `out, `dv, `dvsize, `top, `topsize
      ensures Valid() && OnBoundary(p + 16, a) && AlignedWith(v, V(), p, nb, r)
      ensures ArenaKept(old(V()), old(H()), V(), H())
      ensures p == AlignedSpot(p0, a) && this.P() == Trimmed(old(this.P()), p0, a, nb)
    {
      hide Base, PayloadSame, Frame, HeapMid, Pieces, PowerOfTwo, OnBoundary, ArenaKept, CutAt, GivenIf, AlignedSpot;
      hide Trimmed;
      ghost var P: map<int, int>, size;
      ghost var Q0 := this.P();
      ghost var v0, h0 := V(), H();
      var leader, trailer;
      p, leader := CutLeader(p0, a, nb, v, r);
      size := lay[p].size;
      ghost var Q1, v1, h1 := this.P(), V(), H();
      P := if leader == 0 then map[p := size] else map[leader := p - leader][p := size];
      trailer := CutTrailer(p, nb, v, P, r);
      ghost var Q := if trailer == 0 then P else P[p := nb][trailer := size - nb];
      ghost var Q2, v2, h2 := this.P(), V(), H();
      FreePiece(leader, v, Q, r);
      ghost var Q3, v3, h3 := this.P(), V(), H();
      ghost var R := if leader == 0 then Q else Q - {leader};
      FreePiece(trailer, v, R, r);
      TrimmedIs(Q0, Q1, Q2, Q3, this.P(), p0, a, nb, p, trailer != 0);
      ArenaTrans(v0, h0, v1, h1, v2, h2);
      ArenaTrans(v0, h0, v2, h2, v3, h3);
      ArenaTrans(v0, h0, v3, h3, V(), H());
      ghost var s := if trailer == 0 then size else nb;
      OneLeft(p, size, leader, p - leader, trailer, nb, size - nb);
      MidBase(V(), H(), segs, {});
      PieceExtent(v, V(), map[p := s], r, p);
    }

    /** Allocate at an address that is a multiple of the alignment, rounded up to a power of two if above eight. */
    method InternalMemalign(alignment: int, bytes: int, region: int) returns (m: int)
      requires Valid() && 0 <= alignment <= TWO63 && 0 <= bytes < TWO64
      requires Gives(segs, region, ChunkRequest(MemalignBytes(alignment, bytes)))
      modifies `mem, `smallmap, `sb, `treemap, `tb, `lay, `out, `dv, `dvsize, `top, `topsize, `segs, `footprint
      modifies `maxFootprint
      ensures Valid()
      ensures m == 0 ==>
        V() == old(V()) && H() == old(H()) && segs == old(segs) && footprint == old(footprint)
          && maxFootprint == old(maxFootprint)
      ensures m == 0 <==> MemalignFails(old(V()), old(H()), alignment, bytes, region)
      ensures m != 0 && alignment <= 8 ==> m % 8 == 0 && Served(old(V()), V(), m - 16, ChunkRequest(bytes))
      ensures m != 0 && alignment > 8 ==>
        OnBoundary(m, Rounded(alignment)) && Aligned(old(V()), V(), m - 16, ChunkRequest(bytes))
      ensures m != 0 && !NoRoom(old(V()), old(H()), ChunkRequest(MemalignBytes(alignment, bytes))) ==>
        ArenaKept(old(V()), old(H()), V(), H())
      ensures Grew(old(segs), segs, region, ChunkRequest(MemalignBytes(alignment, bytes)))
        && Confined(segs, old(mem), mem)
      ensures MemalignReply(old(Now()), alignment, bytes, region, m, Now())
      ensures 8 < alignment && bytes < MAX_REQUEST - Rounded(alignment) ==>
        Request2Size(bytes) + Rounded(alignment) + 32 < old(topsize) ==> m != 0
    {
      hide MallocReply, Trimmed, AlignedSpot;
      hide Base, PayloadSame, Frame, HeapMid, Pieces, PowerOfTwo, OnBoundary, ChunkRequest, Request2Size, Rounded;
      hide Gives;
      hide Served, ServedWith, Gained, Chosen, NoRoom, MallocFails, MmapSize;
      hide Joins, Confined;
      ghost var v, h := V(), H();
      ConfinedSelf(segs, mem);
      MidBase(v, H(), segs, {});
      m := 0;
      if 8 < alignment && bytes < MAX_REQUEST - Rounded(alignment)
        && Request2Size(bytes) + Rounded(alignment) + 32 < topsize {
        TopSuffices(v, h, segs, alignment, bytes, region);
      }
      if alignment <= 8 {
        m := Malloc(bytes, region);
        if m != 0 && !NoRoom(v, h, ChunkRequest(bytes)) {
          GainedArena(v, h, V(), H(), m - 16, ChunkRequest(bytes));
        }
      } else {
        var a := RoundAlignment(alignment);
        if bytes < MAX_REQUEST - a {
          RequestRoom(bytes, a);
          var nb := Request2Size(bytes);
          var req := nb + a + MIN_CHUNK_SIZE - CHUNK_OVERHEAD;
          ghost var a0 := Now();
          m := Malloc(req, region);
          ghost var a1, m0 := Now(), m;
          if m != 0 {
            ghost var r := ServedRoom(v, V(), m - 16, ChunkRequest(req));
            ghost var v1, h1 := V(), H();
            if !NoRoom(v, h, ChunkRequest(req)) {
              GainedArena(v, h, v1, h1, m - 16, ChunkRequest(req));
            }
            var p := TrimToAlignment(m - 16, a, nb, v, r);
            assert AlignedWith(v, V(), p, nb, r);
            m := p + 16;
            MidBase(V(), H(), segs, {});
            AlignedNonzero(v, V(), p, nb, r);
            AlignedFrame(v, V(), p, nb);
            FrameConfined(v, V(), H(), segs, {});
          }
          assert AlignedVia(a0, a1, m0, a, nb, req, region, m, Now());
        }
      }
    }

    // ----- creating a space

    /** A space in memory of its own; null when the capacity is too large or the system refuses. */
    static method CreateMspace(capacity: int, region: int, m0: Mem) returns (s: MSpace?)
      requires 0 <= capacity < TWO64
      requires region != 0 && SpaceSize(capacity) > 0 ==> Fresh([], region, SpaceSize(capacity))
      requires SpaceSize(capacity) == 0 ==> region == 0
      ensures s == null <==> region == 0 || TWO64 - (STATE_CHUNK_SIZE + TOP_FOOT_SIZE + PAGE_SIZE) <= capacity
      ensures s != null ==>
        fresh(s) && s.Valid() && capacity < s.topsize && UsedOf(s.lay) == map[s.ms := STATE_CHUNK_SIZE]
      ensures s != null ==> s.segs == [Segment(region, SpaceSize(capacity), true, false)] && s.ms == region
      ensures s != null ==>
        s.H() == Heads(0, 0, region + STATE_CHUNK_SIZE, SpaceSize(capacity) - STATE_CHUNK_SIZE - TOP_FOOT_SIZE)
    {
      hide AlignOffset, Sub64, HeadSays, ReadableTop;
      s := null;
      if capacity < TWO64 - (STATE_CHUNK_SIZE + TOP_FOOT_SIZE + PAGE_SIZE) {
        SpaceSizeFits(capacity);
        var tsize := SpaceSize(capacity);
        if region != 0 {
          AlignedPlace(region, tsize);
          StateIs(region);
          s := new MSpace(region, tsize, true, false, m0);
        }
      }
    }

    /**
     * A space in memory that the caller owns, at any address; null when there is no room for more than the overhead, or
     * too much. The space meets the invariant exactly when the memory ends on a multiple of eight and leaves room for
     * top.
     */
    static method CreateMspaceWithBase(base: int, capacity: int, m0: Mem) returns (s: MSpace?)
      requires 0 < base && 0 <= capacity && base + capacity <= TWO64
      ensures s == null <==>
        capacity <= STATE_CHUNK_SIZE + TOP_FOOT_SIZE
          || TWO64 - (STATE_CHUNK_SIZE + TOP_FOOT_SIZE + PAGE_SIZE) <= capacity
      ensures s != null ==> fresh(s) && s.ms == StateAt(base) && s.segs == [Segment(base, capacity, false, true)]
      ensures s != null ==> s.top == s.ms + STATE_CHUNK_SIZE && s.topsize == FirstTopSize(base, capacity)
      ensures s != null ==> (s.Valid() <==> TopFits(base, capacity))
      ensures s != null && s.Valid() ==> UsedOf(s.lay) == map[s.ms := STATE_CHUNK_SIZE]
      ensures s != null ==> (HeadSays(Rd(s.mem, s.top + 8), s.topsize) <==> ReadableTop(s.topsize))
    {
      s := null;
      if STATE_CHUNK_SIZE + TOP_FOOT_SIZE < capacity < TWO64 - (STATE_CHUNK_SIZE + TOP_FOOT_SIZE + PAGE_SIZE) {
        s := new MSpace(base, capacity, false, true, m0);
      }
    }
  }

  lemma LeftmostLook(nb: int, best: int, rsize: int, at: Place, t: int)
    requires at.tree.Node? && HasSize(at.tree, at.tree.size) && (rsize == 0 || AtLeast(at.tree, nb))
    requires (best == 0 ==> rsize == TWO64 - nb) && nb < TWO64 && at.tree.size < TWO64
    ensures best == 0 ==> nb <= at.tree.size < nb + rsize
  {}

  /** Where the descent to the leaf starts. */
  lemma DetachStarts(v: View, x: int, s: int, i: nat)
    requires TreeRemoveScope(v, x, s, i) && NodeOf(v, s, i).Node? && |NodeOf(v, s, i).ring| == 1
    ensures var n, c1, c0 := NodeOf(v, s, i), Rd(v.mem, x + 40), Rd(v.mem, x + 32);
      && Base(v) && x == Root(n) && (n.right.Node? <==> c1 != 0) && (n.left.Node? <==> c0 != 0)
      && (c1 != 0 ==> Descending(v, LeafBranch(n), BranchWord(n), n.right, x, i, c1, x + 40))
      && (c1 == 0 && c0 != 0 ==> Descending(v, LeafBranch(n), BranchWord(n), n.left, x, i, c0, x + 32))
  {
    hide Base;
    var lo, b := NodeReady(v, x, s, i);
    var n := NodeOf(v, s, i);
    NodeReads(v, x, s, i);
    StoredBelow(v.lay, n);
    assert Linked(v.mem, n.left, x, i) && Linked(v.mem, n.right, x, i);
    RootNonzero(v, n.left);
    RootNonzero(v, n.right);
  }

  /** A ring member outside the tree is gone once the ring closes without it. */
  lemma RingUnlinked(v: View, mem1: Mem, x: int, s: int, i: nat)
    requires TreeRemoveScope(v, x, s, i) && Half1(v.mem, mem1, NodeOf(v, s, i), x) && Rd(v.mem, x + 48) == 0
    ensures Base(TreeRemoved(v, mem1, x, s, i)) && PayloadSame(UsedOf(v.lay), v.ms, v.mem, mem1)
      && Frame(v.lay, v.lay, v.mem, mem1)
    ensures Remove(v.tb[i], x, s, TreeLo(i), TreeBit(i)).Node?
  {
    hide Base, PayloadSame, Frame;
    NodeReads(v, x, s, i);
    TreeRemoveKeeps(v, mem1, mem1, x, s, i);
  }

  /** A tree bin's mark tells whether it holds a trie. */
  lemma TreeMarks(v: View, x: int, s: int, i: nat)
    requires Ready4(v, x, s, i) && i < 32
    ensures Marked(v.treemap, i) <==> v.tb[i].Node?
    ensures Mark(v.treemap, i) == if v.tb[i].Node? then v.treemap else SetBit(v.treemap, i)
  {
    assert TreeAt(v, i);
    MarkAgain(v.treemap, i);
  }

  lemma SmallScopeOf(v: View, p: int, s: int)
    requires Base(v) && p in v.out && FreeAt(v.lay, p, s) && s < MIN_LARGE_SIZE
    ensures 0 <= s / 8 < 32 && s == 8 * (s / 8) && InsertScope(v, p, s / 8)
  {
    assert ChunkOk(v.lay, p) && SmallAt(v, 0) && TreeAt(v, 0);
  }

  /** A marked bin's header points at its first member. */
  lemma FrontRead(v: View, i: int)
    requires Base(v) && 0 <= i < 32 && |v.sb| == 32 && Marked(v.smallmap, i)
    ensures v.sb[i] != [] && Rd(v.mem, Header(v.ms, i) + 16) == v.sb[i][0]
  {
    assert SmallAt(v, i);
    assert LinkAt(v.mem, FullRing(v.ms, v.sb[i], i), 0);
  }

  ghost function FrontMem(v: View, p: int, i: nat): Mem
    requires i < |v.sb|
  {
    var h, f := Header(v.ms, i), FirstOf(v, i);
    v.mem[h + 16 := p][f + 24 := p][p + 16 := f][p + 24 := h]
  }

  /** What the insertion reads, and that what it then writes keeps the invariant. */
  lemma FrontReads(v: View, p: int, s: int)
    requires Base(v) && p in v.out && FreeAt(v.lay, p, s) && s < MIN_LARGE_SIZE
    ensures var i, h := s / 8, Header(v.ms, s / 8);
      && 0 <= i < 32 && |v.sb| == 32
      && FirstOf(v, i) == (if Marked(v.smallmap, i) then Rd(v.mem, h + 16) else h)
      && Mark(v.smallmap, i) == (if Marked(v.smallmap, i) then v.smallmap else SetBit(v.smallmap, i))
      && Base(SmallInserted(v, FrontMem(v, p, i), p, i))
      && PayloadSame(UsedOf(v.lay), v.ms, v.mem, FrontMem(v, p, i)) && Frame(v.lay, v.lay, v.mem, FrontMem(v, p, i))
  {
    var i := s / 8;
    SmallScopeOf(v, p, s);
    FrontWords(v, p, i);
    SmallInsertKeeps(v, FrontMem(v, p, i), p, i);
    MarkAgain(v.smallmap, i);
    if Marked(v.smallmap, i) {
      FrontRead(v, i);
    }
  }

  lemma FrontWords(v: View, p: int, i: nat)
    requires InsertScope(v, p, i) && i < 32
    ensures SmallAt(v, i) && FrontWritten(v, FrontMem(v, p, i), p, i)
  {
    assert SmallAt(v, i);
    StateGap(v, p);
    if v.sb[i] != [] {
      SmallMember(v, i, v.sb[i][0]);
      FreeGap(v, p, v.sb[i][0]);
      StateGap(v, v.sb[i][0]);
    }
  }

  /** Bypassing a member, in either order of the two writes. */
  lemma MemberWrites(v: View, p: int, i: nat, k: nat)
    requires RemoveScope(v, p, i, k) && |v.sb[i]| > 1
    ensures var r := FullRing(v.ms, v.sb[i], i);
      && MemberWritten(v, v.mem[r[k + 2] + 24 := r[k]][r[k] + 16 := r[k + 2]], i, k)
      && MemberWritten(v, v.mem[r[k] + 16 := r[k + 2]][r[k + 2] + 24 := r[k]], i, k)
  {
    FullRingSpread(v, i);
    assert SpreadAt(FullRing(v.ms, v.sb[i], i), k, k + 2);
  }
}
