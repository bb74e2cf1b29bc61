/** Facts the unlink and link code reads off memory while it works. */
module Scratch {
  import opened Words
  import opened Layouts
  import opened Chains
  import opened Tries
  import opened TrieLinks
  import opened TrieUnlink
  import opened TriePrune
  import opened Sizes
  import opened Keys
  import opened Views
  import opened Areas
  import opened SmallBins
  import opened TreeBins
  import opened TreeUnbins
  import opened Relayout
  import opened TagOps

  lemma ScratchFrame(L: Layout, mem: Mem, mem': Mem, x: int)
    requires x in L && Touched(mem, mem', x, L[x].size, {})
    ensures Frame(L, L, mem, mem')
  {
    forall a ensures Rd(mem', a) == Rd(mem, a) || InChunk(L, a) {
      assert x + 16 <= a < x + L[x].size ==> Over(L, x, a);
    }
  }

  /** Writing the body of a free chunk that is in no bin disturbs nothing. */
  lemma ScratchKeeps(v: View, mem': Mem, x: int)
    requires Base(v) && Unbinned(v, x) && Touched(v.mem, mem', x, v.lay[x].size, {})
    ensures Base(v.(mem := mem')) && PayloadSame(UsedOf(v.lay), v.ms, v.mem, mem') && Frame(v.lay, v.lay, v.mem, mem')
  {
    var v' := v.(mem := mem');
    assert ChunkOk(v.lay, x);
    assert OwnTouch(v.lay, v.mem, mem', {x}) by {
      forall a ensures Rd(mem', a) == Rd(v.mem, a) || exists c {:trigger Own(v.lay, c, a)} ::
        c in {x} && Own(v.lay, c, a) {
        assert x + 16 <= a < x + v.lay[x].size ==> Own(v.lay, x, a);
      }
    }
    QuietTags(v, mem', {x});
    forall q ensures Tag(v.lay, mem', q) {
      assert Tag(v.lay, v.mem, q);
      if q in v.lay && q != x {
        TagElsewhere(v.lay, v.lay, v.mem, mem', {x}, q);
      }
    }
    assert Relaid(v, v');
    RelaidBase(v, v');
    ScratchFrame(v.lay, v.mem, mem', x);
  }

  lemma PayloadTrans(used: map<int, int>, ms: int, m0: Mem, m1: Mem, m2: Mem)
    requires PayloadSame(used, ms, m0, m1) && PayloadSame(used, ms, m1, m2)
    ensures PayloadSame(used, ms, m0, m2)
  {
    forall q, a | InPayload(used, q, a) && q != ms ensures Rd(m2, a) == Rd(m0, a) {}
  }

  lemma PayloadSub(used: map<int, int>, used': map<int, int>, ms: int, m0: Mem, m1: Mem)
    requires PayloadSame(used, ms, m0, m1)
    requires forall q {:trigger q in used'} | q in used' :: q in used && used[q] == used'[q]
    ensures PayloadSame(used', ms, m0, m1)
  {
    forall q, a | InPayload(used', q, a) && q != ms ensures Rd(m1, a) == Rd(m0, a) {
      assert InPayload(used, q, a);
    }
  }

  /** The head of a chunk decodes to its size. */
  lemma SizeRead(v: View, p: int)
    requires Base(v) && p in v.lay && !v.lay[p].kind.Fence?
    ensures var h := Rd(v.mem, p + 8);
      && ChunkSize(h) == v.lay[p].size && Cinuse(h) == v.lay[p].kind.Used? && Pinuse(h) == Pin(v.lay, p)
      && h == Head(v.lay[p].size, v.lay[p].kind.Used?, Pin(v.lay, p))
  {
    assert ChunkOk(v.lay, p) && Tag(v.lay, v.mem, p);
    HeadDecodes(v.lay[p].size, v.lay[p].kind.Used?, Pin(v.lay, p));
  }

  lemma TreeBinned(v: View, x: int, s: int)
    requires Base(v) && FreeAt(v.lay, x, s) && x !in v.out && MIN_LARGE_SIZE <= s
    ensures var i := TreeIndex(s);
      0 <= i < 32 && TreeRemoveScope(v, x, s, i)
  {
    assert ChunkOk(v.lay, x);
    SizeFitsBin(s);
    var i := TreeIndex(s);
    assert SmallAt(v, i) && TreeAt(v, i) && IndexAt(v, x, s);
    assert Binned(v.sb, v.tb, x, s);
  }

  lemma SmallBinned(v: View, x: int, s: int) returns (k: nat)
    requires Base(v) && FreeAt(v.lay, x, s) && x !in v.out && s < MIN_LARGE_SIZE
    ensures 0 <= s / 8 < 32 && s == 8 * (s / 8) && RemoveScope(v, x, s / 8, k)
    ensures x in v.sb[s / 8] && k == IndexOf(v.sb[s / 8], x)
  {
    assert ChunkOk(v.lay, x);
    var i := s / 8;
    assert SmallAt(v, i) && TreeAt(v, i) && IndexAt(v, x, s);
    assert Binned(v.sb, v.tb, x, s);
    k := IndexOf(v.sb[i], x);
  }

  /** The first chunk of a small bin. */
  lemma SmallFirst(v: View, p: int, i: nat)
    requires Base(v) && i < 32 && |v.sb| == 32 && |v.sb[i]| > 0 && p == v.sb[i][0]
    ensures RemoveScope(v, p, i, 0) && FreeAt(v.lay, p, 8 * i) && IndexOf(v.sb[i], p) == 0
  {
    hide Base;
    SmallMember(v, i, p);
    BinCount(v);
  }

  lemma BinCount(v: View)
    requires Base(v)
    ensures |v.tb| == 32
  {
    assert TreeAt(v, 0);
  }

  lemma MemberReads(mem: Mem, n: Tree, x: int, par: int, i: int)
    requires n.Node? && Linked(mem, n, par, i) && x in n.ring && NoDup(n.ring)
    ensures Rd(mem, x + 56) == i && (Rd(mem, x + 24) == x <==> |n.ring| == 1)
    ensures x == n.ring[0] ==>
      Rd(mem, x + 48) == par && Rd(mem, x + 32) == Root(n.left) && Rd(mem, x + 40) == Root(n.right)
    ensures x != n.ring[0] ==> Rd(mem, x + 48) == 0 && |n.ring| > 1
  {
    var k := IndexOf(n.ring, x);
    RingNeighbours(mem, n.ring, k);
    assert MemberAt(mem, n.ring, i, k);
  }

  /** What the link words of a tree-binned chunk say about its place. */
  lemma NodeReads(v: View, x: int, s: int, i: nat)
    requires TreeRemoveScope(v, x, s, i)
    ensures NodeOf(v, s, i).Node? && |NodeOf(v, s, i).ring| > 0 && x in NodeOf(v, s, i).ring
    ensures Linked(v.mem, NodeOf(v, s, i), NodeParent(v, s, i), i)
    ensures Rd(v.mem, x + 56) == i && (Rd(v.mem, x + 24) == x <==> |NodeOf(v, s, i).ring| == 1)
    ensures Rd(v.mem, x + 48) != 0 <==> x == NodeOf(v, s, i).ring[0]
    ensures x == NodeOf(v, s, i).ring[0] ==> Rd(v.mem, x + 48) == NodeParent(v, s, i)
  {
    var lo, b := NodeReady(v, x, s, i);
    MemberReads(v.mem, NodeOf(v, s, i), x, NodeParent(v, s, i), i);
    ParentNonzero(v, x, s, i);
  }

  lemma {:induction false} ParentAbove(t: Tree, par: int, x: int, s: int, lo: int, b: int) returns (u: int)
    requires WF(t, lo, b) && Holds(t, x, s)
    ensures ParentOf(t, par, s, lo, b) == par || Holds(t, ParentOf(t, par, s, lo, b), u)
    ensures t.size == s ==> ParentOf(t, par, s, lo, b) == par
  {
    u := 0;
    if t.size != s {
      HoldsBelow(t, x, s);
      OneBranch(t, s, lo, b);
      assert Holds(t, t.ring[0], t.size);
      u := ParentAbove(Near(t, s, lo, b), t.ring[0], x, s, if GoesRight(s, lo, b) then lo + Pow2(b) else lo, b - 1);
      if ParentOf(t, par, s, lo, b) == t.ring[0] {
        u := t.size;
      }
    }
  }

  lemma ParentNonzero(v: View, x: int, s: int, i: nat)
    requires TreeRemoveScope(v, x, s, i)
    ensures NodeParent(v, s, i) != 0
  {
    var t, h := v.tb[i], TreeSlot(v.ms, i);
    var u := ParentAbove(t, h, x, s, TreeLo(i), TreeBit(i));
    assert ChunkOk(v.lay, v.ms);
    if NodeParent(v, s, i) != h {
      TreeMember(v, i, NodeParent(v, s, i), u);
      assert ChunkOk(v.lay, NodeParent(v, s, i));
    }
  }

  /** The word that points at a node other than the root is the child word of its parent. */
  lemma {:induction false} SlotAtParent(mem: Mem, t: Tree, par: int, h: int, i: int, x: int, s: int, lo: int, b: int)
          returns (w: int, u: int)
    requires WF(t, lo, b) && Holds(t, x, s) && t.size != s && Linked(mem, t, par, i)
    ensures var p, slot := ParentOf(t, par, s, lo, b), SlotOf(t, h, s, lo, b);
      && (slot == p + 32 || slot == p + 40) && Rd(mem, slot) == Root(At(t, s, lo, b))
      && Holds(t, p, w) && w != s
      && (slot == p + 40 ==> Rd(mem, p + 32) == 0 || (u != s && Holds(t, Rd(mem, p + 32), u)))
  {
    HoldsBelow(t, x, s);
    OneBranch(t, s, lo, b);
    var right := GoesRight(s, lo, b);
    var near, lo' := Near(t, s, lo, b), if right then lo + Pow2(b) else lo;
    w, u := t.size, 0;
    if near.size != s {
      w, u := SlotAtParent(mem, near, t.ring[0], t.ring[0] + (if right then 40 else 32), i, x, s, lo', b - 1);
    } else {
      assert Holds(t, t.ring[0], t.size);
      if right && t.left.Node? {
        u := t.left.size;
        assert HasSize(t.left, u) && Holds(t.left, Root(t.left), u);
      }
    }
  }

  lemma SlotOfRoot(v: View, x: int, s: int, i: nat)
    requires TreeRemoveScope(v, x, s, i) && Root(NodeOf(v, s, i)) == x
    ensures Rd(v.mem, TreeSlot(v.ms, i)) == x <==> v.tb[i].size == s
    ensures v.tb[i].size == s ==> NodeSlot(v, s, i) == TreeSlot(v.ms, i)
  {
    var t := v.tb[i];
    assert TreeAt(v, i);
    TreeMember(v, i, x, s);
    if t.size != s {
      assert Holds(t, Root(t), t.size);
      TreeMember(v, i, Root(t), t.size);
    }
  }

  lemma SlotBelowRoot(v: View, x: int, s: int, i: nat)
    requires TreeRemoveScope(v, x, s, i) && Root(NodeOf(v, s, i)) == x && v.tb[i].size != s
    ensures var xp := NodeParent(v, s, i);
      && (NodeSlot(v, s, i) == xp + 32 || NodeSlot(v, s, i) == xp + 40) && Rd(v.mem, NodeSlot(v, s, i)) == x
      && (NodeSlot(v, s, i) == xp + 40 ==> Rd(v.mem, xp + 32) != x)
  {
    var t, h := v.tb[i], TreeSlot(v.ms, i);
    assert TreeAt(v, i);
    TreeMember(v, i, x, s);
    assert ChunkOk(v.lay, x);
    var w, u := SlotAtParent(v.mem, t, h, h, i, x, s, TreeLo(i), TreeBit(i));
    if u != s && Holds(t, Rd(v.mem, NodeParent(v, s, i) + 32), u) {
      TreeMember(v, i, Rd(v.mem, NodeParent(v, s, i) + 32), u);
    }
  }

  /** Finding the word that points at tree member x: the bin's own word, or a child word of its parent. */
  lemma SlotReads(v: View, x: int, s: int, i: nat)
    requires TreeRemoveScope(v, x, s, i) && Root(NodeOf(v, s, i)) == x
    ensures var h, xp := TreeSlot(v.ms, i), NodeParent(v, s, i);
      && (Rd(v.mem, h) == x <==> v.tb[i].size == s)
      && NodeSlot(v, s, i) == (if Rd(v.mem, h) == x then h else if Rd(v.mem, xp + 32) == x then xp + 32 else xp + 40)
  {
    hide Base, NodeOf, NodeParent, NodeSlot;
    SlotOfRoot(v, x, s, i);
    if v.tb[i].size != s {
      SlotBelowRoot(v, x, s, i);
    }
  }

  /** The first half leaves the bin's own word and the words of the parent. */
  lemma AboveKept(v: View, mem1: Mem, x: int, s: int, i: nat, a: int)
    requires TreeRemoveScope(v, x, s, i) && Half1(v.mem, mem1, NodeOf(v, s, i), x)
    requires a == TreeSlot(v.ms, i) || (v.tb[i].size != s && NodeParent(v, s, i) + 16 <= a < NodeParent(v, s, i) + 64)
    ensures Rd(mem1, a) == Rd(v.mem, a)
  {
    var t, n, h := v.tb[i], NodeOf(v, s, i), TreeSlot(v.ms, i);
    assert TreeAt(v, i);
    TreeStored(v, i);
    var lo, b := NodeReady(v, x, s, i);
    Half1Touches(v.lay, v.mem, mem1, n, x, NodeParent(v, s, i), NodeSlot(v, s, i), i, lo, b, a);
    if MemberWord(n, a) {
      var q, u :| Holds(n, q, u) && q + 16 <= a < q + 64;
      AtBelow(t, s, TreeLo(i), TreeBit(i), q, u);
      if a != h {
        AboveApart(v, x, s, i, q, u);
      }
    }
  }

  lemma AboveApart(v: View, x: int, s: int, i: nat, q: int, u: int)
    requires TreeRemoveScope(v, x, s, i) && v.tb[i].size != s && Holds(NodeOf(v, s, i), q, u)
    ensures var p := NodeParent(v, s, i); p + 64 <= q || q + 64 <= p
  {
    var t, h := v.tb[i], TreeSlot(v.ms, i);
    assert TreeAt(v, i);
    var p, w := SlotAbove(t, h, x, s, TreeLo(i), TreeBit(i), q, u);
    var w', u' := SlotAtParent(v.mem, t, h, h, i, x, s, TreeLo(i), TreeBit(i));
    AtBelow(t, s, TreeLo(i), TreeBit(i), q, u);
    TreeMember(v, i, p, w);
    TreeMember(v, i, NodeParent(v, s, i), w');
    TreeMember(v, i, q, u);
    if p == NodeParent(v, s, i) {
      FreeGap(v, p, q);
    } else {
      FreeGap(v, p, NodeParent(v, s, i));
    }
  }
}
