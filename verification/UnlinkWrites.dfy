/** The exact words the tree unlink writes, and the facts its loop and its reads rely on. */
module UnlinkWrites {
  import opened Words
  import opened Layouts
  import opened Chains
  import opened Tries
  import opened TrieLinks
  import opened TrieUnlink
  import opened TriePrune
  import opened Keys
  import opened Views
  import opened Areas
  import opened TreeUnbins
  import opened Scratch
  import opened Walks

  /** The successor r takes over x's parent and children; later reads see earlier writes. */
  ghost function HandedMem(m1: Mem, x: int, xp: int, r: int): Mem {
    if r == 0 then m1
    else
      var m2 := m1[r + 48 := xp];
      var c0 := Rd(m2, x + 32);
      var m3 := if c0 != 0 then m2[r + 32 := c0][c0 + 48 := r] else m2;
      var c1 := Rd(m3, x + 40);
      if c1 != 0 then m3[r + 40 := c1][c1 + 48 := r] else m3
  }

  /** The second half of an unlink: the slot first, then the links. */
  ghost function CrownMem(mem: Mem, x: int, xp: int, slot: int, r: int): Mem {
    HandedMem(mem[slot := r], x, xp, r)
  }

  ghost predicate Off(a: int, b: int) {
    a + 64 <= b || b + 64 <= a
  }

  ghost predicate Outside64(w: int, a: int) {
    w < a + 16 || a + 64 <= w
  }

  ghost function Word48(c: int): set<int> {
    if c != 0 then {c + 48} else {}
  }

  lemma CrownWords(mem: Mem, x: int, xp: int, slot: int, r: int, c0: int, c1: int)
    requires r != 0 && Off(x, r) && Outside64(slot, x) && Outside64(slot, r)
    requires c0 != 0 ==> Off(x, c0) && Off(r, c0) && Outside64(slot, c0)
    requires c1 != 0 ==> Off(x, c1) && Off(r, c1) && Outside64(slot, c1)
    requires c0 != 0 && c1 != 0 ==> Off(c0, c1)
    requires Rd(mem, x + 32) == c0 && Rd(mem, x + 40) == c1 && Rd(mem, r + 32) == 0 && Rd(mem, r + 40) == 0
    ensures var m := CrownMem(mem, x, xp, slot, r);
      && Touched(mem, m, 0, 0, {slot, r + 32, r + 40, r + 48} + Word48(c0) + Word48(c1))
      && Rd(m, slot) == r && Rd(m, r + 48) == xp && Rd(m, r + 32) == c0 && Rd(m, r + 40) == c1
      && (c0 != 0 ==> Rd(m, c0 + 48) == r) && (c1 != 0 ==> Rd(m, c1 + 48) == r)
  {}

  /** Chunks of a node are apart from each other. */
  lemma HeldOff(L: Layout, n: Tree, p: int, u: int, q: int, w: int)
    requires LayoutOk(L) && StoredIn(L, n) && Holds(n, p, u) && Holds(n, q, w) && p != q
    ensures Off(p, q) && p != 0
  {
    Distance(L, p, q);
    assert ChunkOk(L, p);
  }

  /** The words written are a crowning. */
  lemma CrownMemIs(L: Layout, mem: Mem, n: Tree, x: int, par: int, slot: int, i: int, lo: int, b: int)
    requires LayoutOk(L) && StoredIn(L, n) && n.Node? && WF(n, lo, b) && x in n.ring && OutsideWord(n, slot)
    requires Prune(n, x).Node? && Ready(mem, Prune(n, x), x, i)
    ensures var t := Prune(n, x); var m := CrownMem(mem, x, par, slot, Root(t));
      Crowned(mem, m, t, par, slot) && Rd(m, slot) == Root(t)
  {
    hide Prune, WF, StoredIn, Linked, Chain, Members, CrownMem, LayoutOk;
    var t := Prune(n, x);
    var r, c0, c1 := Root(t), Root(t.left), Root(t.right);
    CrownPlaces(L, n, x, slot, lo, b);
    CrownWords(mem, x, par, slot, r, c0, c1);
  }

  /** x, its successor and the roots of the two branches are different chunks, all clear of the slot. */
  lemma CrownPlaces(L: Layout, n: Tree, x: int, slot: int, lo: int, b: int)
    requires LayoutOk(L) && StoredIn(L, n) && n.Node? && WF(n, lo, b) && x in n.ring && OutsideWord(n, slot)
    requires Prune(n, x).Node?
    ensures var t := Prune(n, x); var r, c0, c1 := Root(t), Root(t.left), Root(t.right);
      && r != 0 && Off(x, r) && Outside64(slot, x) && Outside64(slot, r)
      && (t.left.Node? <==> c0 != 0) && (t.right.Node? <==> c1 != 0)
      && (c0 != 0 ==> Off(x, c0) && Off(r, c0) && Outside64(slot, c0))
      && (c1 != 0 ==> Off(x, c1) && Off(r, c1) && Outside64(slot, c1))
      && (c0 != 0 && c1 != 0 ==> Off(c0, c1))
  {
    var t := Prune(n, x);
    PruneStored(L, n, x, slot, lo, b);
    PrunedRootHeld(n, t, x, lo, b);
    RootsDiffer(L, t, lo, b);
    assert Holds(n, x, n.size);
    NotPruned(L, n, x, lo, b, Root(t), t.size);
    HeldOff(L, n, Root(t), t.size, x, n.size);
    if t.left.Node? {
      NotPruned(L, n, x, lo, b, Root(t.left), t.left.size);
      assert Holds(t.left, Root(t.left), t.left.size);
      HeldOff(L, n, Root(t.left), t.left.size, x, n.size);
      HeldOff(L, n, Root(t.left), t.left.size, Root(t), t.size);
    }
    if t.right.Node? {
      NotPruned(L, n, x, lo, b, Root(t.right), t.right.size);
      assert Holds(t.right, Root(t.right), t.right.size);
      HeldOff(L, n, Root(t.right), t.right.size, x, n.size);
      HeldOff(L, n, Root(t.right), t.right.size, Root(t), t.size);
    }
    if t.left.Node? && t.right.Node? {
      HeldOff(L, n, Root(t.left), t.left.size, Root(t.right), t.right.size);
    }
  }

  /** The removed chunk is not stored in the pruned node. */
  lemma NotPruned(L: Layout, n: Tree, x: int, lo: int, b: int, q: int, u: int)
    requires StoredIn(L, n) && n.Node? && WF(n, lo, b) && x in n.ring
    requires Prune(n, x).Node? && (Holds(Prune(n, x), q, u) || Holds(Prune(n, x).left, q, u)
      || Holds(Prune(n, x).right, q, u))
    ensures q != x
  {
    assert Holds(Prune(n, x), q, u);
    PruneHolds(n, x, lo, b, q, u);
    assert Holds(n, q, u) && Holds(n, x, n.size);
  }

  // ----- the whole unlink

  lemma BypassWrites(mem: Mem, f: int, r: int)
    requires f == r || Off(f, r)
    ensures Bypassed(mem, mem[f + 24 := r][r + 16 := f], f, r)
  {}

  /** Ring neighbours, as x's link words name them. */
  lemma NodeNeighbours(v: View, x: int, s: int, i: nat)
    requires TreeRemoveScope(v, x, s, i)
    ensures var n, f, r := NodeOf(v, s, i), Rd(v.mem, x + 16), Rd(v.mem, x + 24);
      && n.Node? && |n.ring| > 0 && Holds(n, f, n.size) && Holds(n, r, n.size) && Holds(n, x, n.size)
      && (f == r || Off(f, r)) && (x == n.ring[0] ==> r == n.ring[|n.ring| - 1])
      && Large(v.lay, f) && Large(v.lay, r) && Large(v.lay, x)
  {
    hide Base, WF;
    var lo, b := NodeReady(v, x, s, i);
    var n := NodeOf(v, s, i);
    var f, r := Rd(v.mem, x + 16), Rd(v.mem, x + 24);
    RingNeighbours(v.mem, n.ring, IndexOf(n.ring, x));
    assert Holds(n, f, n.size) && Holds(n, r, n.size) && Holds(n, x, n.size);
    if f != r {
      HeldOff(v.lay, n, f, n.size, r, n.size);
    }
  }

  /** x shares its size: the ring closes without it, and its bk is ready to succeed it. */
  lemma BypassDone(v: View, x: int, s: int, i: nat)
    requires TreeRemoveScope(v, x, s, i) && NodeOf(v, s, i).Node? && |NodeOf(v, s, i).ring| > 1
    ensures var f, r := Rd(v.mem, x + 16), Rd(v.mem, x + 24);
      && Half1(v.mem, v.mem[f + 24 := r][r + 16 := f], NodeOf(v, s, i), x)
      && (x == Root(NodeOf(v, s, i)) ==> r == Root(Prune(NodeOf(v, s, i), x)))
  {
    hide Base;
    NodeReads(v, x, s, i);
    NodeNeighbours(v, x, s, i);
    BypassWrites(v.mem, Rd(v.mem, x + 16), Rd(v.mem, x + 24));
  }

  /** The first half leaves x's own tree links readable. */
  lemma OwnLinksKept(v: View, mem1: Mem, x: int, s: int, i: nat)
    requires TreeRemoveScope(v, x, s, i) && Half1(v.mem, mem1, NodeOf(v, s, i), x)
    ensures var n := NodeOf(v, s, i);
      && n.Node? && |n.ring| > 0 && Rd(mem1, x + 56) == i
      && (x == n.ring[0] ==> Rd(mem1, x + 48) == NodeParent(v, s, i))
      && (x == n.ring[0] && Prune(n, x).Node? ==> Ready(mem1, Prune(n, x), x, i))
  {
    var lo, b := NodeReady(v, x, s, i);
    var n, par, slot := NodeOf(v, s, i), NodeParent(v, s, i), NodeSlot(v, s, i);
    NodeReads(v, x, s, i);
    if x == n.ring[0] && Prune(n, x).Node? {
      PrunedReady(v.lay, v.mem, mem1, n, x, par, slot, i, lo, b);
    }
    IndexKept(v, mem1, x, s, i);
  }

  lemma IndexKept(v: View, mem1: Mem, x: int, s: int, i: nat)
    requires TreeRemoveScope(v, x, s, i) && Half1(v.mem, mem1, NodeOf(v, s, i), x)
    ensures Rd(mem1, x + 56) == Rd(v.mem, x + 56)
  {
    hide Base;
    var lo, b := NodeReady(v, x, s, i);
    var n := NodeOf(v, s, i);
    NodeNeighbours(v, x, s, i);
    if |n.ring| > 1 {
      BypassTail(v.lay, v.mem, mem1, Rd(v.mem, x + 16), Rd(v.mem, x + 24), x);
    } else if !Leaf(n) {
      var p, u := LeafSlotInTree(n, NodeSlot(v, s, i), lo, b);
      assert LeafSlot(LeafBranch(n), BranchWord(n)) == LeafSlot(n, NodeSlot(v, s, i));
      if p != x {
        HeldOff(v.lay, n, p, u, x, n.size);
      }
    }
  }

  lemma SlotReadsAfter(v: View, mem1: Mem, x: int, s: int, i: nat)
    requires TreeRemoveScope(v, x, s, i) && NodeOf(v, s, i).Node? && x == Root(NodeOf(v, s, i))
    requires Half1(v.mem, mem1, NodeOf(v, s, i), x)
    ensures var h, xp := TreeSlot(v.ms, i), NodeParent(v, s, i);
      && (Rd(mem1, h) == x <==> v.tb[i].size == s)
      && NodeSlot(v, s, i) == (if Rd(mem1, h) == x then h else if Rd(mem1, xp + 32) == x then xp + 32 else xp + 40)
  {
    hide Base;
    SlotReads(v, x, s, i);
    AboveKept(v, mem1, x, s, i, TreeSlot(v.ms, i));
    if v.tb[i].size != s {
      AboveKept(v, mem1, x, s, i, NodeParent(v, s, i) + 32);
    }
  }

  /** Both halves of unlinking a tree member, as the code reads and writes them. */
  lemma UnlinkDone(v: View, mem1: Mem, x: int, s: int, i: nat)
    requires TreeRemoveScope(v, x, s, i) && NodeOf(v, s, i).Node? && x == Root(NodeOf(v, s, i))
    requires Half1(v.mem, mem1, NodeOf(v, s, i), x)
    ensures var h, xp := TreeSlot(v.ms, i), NodeParent(v, s, i);
      NodeSlot(v, s, i) == (if Rd(mem1, h) == x then h else if Rd(mem1, xp + 32) == x then xp + 32 else xp + 40)
    ensures var r := Root(Prune(NodeOf(v, s, i), x));
      var m := CrownMem(mem1, x, NodeParent(v, s, i), NodeSlot(v, s, i), r);
      && Base(TreeRemoved(v, m, x, s, i)) && PayloadSame(UsedOf(v.lay), v.ms, v.mem, m)
      && Frame(v.lay, v.lay, v.mem, m)
      && (Remove(v.tb[i], x, s, TreeLo(i), TreeBit(i)).Nil? <==> Rd(mem1, TreeSlot(v.ms, i)) == x && r == 0)
  {
    hide Base, PayloadSame, Frame;
    var par, slot := NodeParent(v, s, i), NodeSlot(v, s, i);
    var r := Root(Prune(NodeOf(v, s, i), x));
    SlotReadsAfter(v, mem1, x, s, i);
    CrownHalf2(v, mem1, x, s, i);
    TreeRemoveKeeps(v, mem1, CrownMem(mem1, x, par, slot, r), x, s, i);
  }

  lemma CrownHalf2(v: View, mem1: Mem, x: int, s: int, i: nat)
    requires TreeRemoveScope(v, x, s, i) && NodeOf(v, s, i).Node? && x == Root(NodeOf(v, s, i))
    requires Half1(v.mem, mem1, NodeOf(v, s, i), x)
    ensures var r := Root(Prune(NodeOf(v, s, i), x));
      && Half2(mem1, CrownMem(mem1, x, NodeParent(v, s, i), NodeSlot(v, s, i), r), NodeOf(v, s, i), x,
         NodeParent(v, s, i), NodeSlot(v, s, i))
      && (r == 0 <==> Prune(NodeOf(v, s, i), x).Nil?)
  {
    var n, par, slot := NodeOf(v, s, i), NodeParent(v, s, i), NodeSlot(v, s, i);
    var lo, b := NodeReady(v, x, s, i);
    OwnLinksKept(v, mem1, x, s, i);
    if Prune(n, x).Node? {
      CrownMemIs(v.lay, mem1, n, x, par, slot, i, lo, b);
      CrownPlaces(v.lay, n, x, slot, lo, b);
    }
  }

  // ----- walking down to the leaf

  /** The pointer r stands at cur, on the way from the branch to its leaf, and rp is the word that points at it. */
  ghost predicate Descending(v: View, start: Tree, h: int, cur: Tree, par: int, i: int, r: int, rp: int) {
    && cur.Node? && start.Node? && r == Root(cur) && Linked(v.mem, cur, par, i) && StoredIn(v.lay, cur)
    && LeafSlot(cur, rp) == LeafSlot(start, h) && TakeLeaf(cur).0 == TakeLeaf(start).0
  }

  lemma DescendStep(v: View, start: Tree, h: int, cur: Tree, par: int, i: int, r: int, rp: int)
    requires Base(v) && Descending(v, start, h, cur, par, i, r, rp)
    ensures var c1, c0 := Rd(v.mem, r + 40), Rd(v.mem, r + 32);
      && (cur.right.Node? <==> c1 != 0) && (cur.left.Node? <==> c0 != 0)
      && (c1 != 0 ==> Descending(v, start, h, cur.right, r, i, c1, r + 40))
      && (c1 == 0 && c0 != 0 ==> Descending(v, start, h, cur.left, r, i, c0, r + 32))
      && (c1 == 0 && c0 == 0 ==> rp == LeafSlot(start, h) && cur == TakeLeaf(start).0)
  {
    StoredBelow(v.lay, cur);
    assert Linked(v.mem, cur.left, cur.ring[0], i) && Linked(v.mem, cur.right, cur.ring[0], i);
    RootNonzero(v, cur.left);
    RootNonzero(v, cur.right);
  }
}
