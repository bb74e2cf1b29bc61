/** Unlinking a large chunk from its tree bin: the two halves of the operation and the invariant they keep together. */
module TreeUnbins {
  import opened Words
  import opened Layouts
  import opened BinMaps
  import opened Chains
  import opened Tries
  import opened TrieLinks
  import opened TrieUnlink
  import opened TriePrune
  import opened Sizes
  import opened Keys
  import opened Views
  import opened Areas
  import opened SmallBins
  import opened TreeBins

  /** First half: leave the ring, or detach the leaf that will take x's place. */
  ghost predicate Half1(mem: Mem, mem': Mem, n: Tree, x: int) {
    n.Node? &&
    if |n.ring| > 1 then Bypassed(mem, mem', Rd(mem, x + 16), Rd(mem, x + 24))
    else if Leaf(n) then mem' == mem
    else
      var w := LeafSlot(LeafBranch(n), BranchWord(n));
      Touched(mem, mem', 0, 0, {w}) && Rd(mem', w) == 0
  }

  /** Second half: if x carried the tree links, its successor takes them over. */
  ghost predicate Half2(mem: Mem, mem': Mem, n: Tree, x: int, par: int, slot: int) {
    n.Node? && |n.ring| > 0 &&
    if |n.ring| > 1 && x != n.ring[0] then mem' == mem
    else if Prune(n, x).Nil? then Touched(mem, mem', 0, 0, {slot}) && Rd(mem', slot) == 0
    else Crowned(mem, mem', Prune(n, x), par, slot) && Rd(mem', slot) == Root(Prune(n, x))
  }

  ghost predicate NodeScope(L: Layout, mem: Mem, n: Tree, x: int, par: int, slot: int, i: int, lo: int, b: int) {
    && LayoutOk(L) && StoredIn(L, n) && n.Node? && WF(n, lo, b) && Linked(mem, n, par, i) && x in n.ring
    && OutsideWord(n, slot) && Rd(mem, slot) == Root(n)
  }

  lemma PruneStored(L: Layout, n: Tree, x: int, slot: int, lo: int, b: int)
    requires StoredIn(L, n) && n.Node? && WF(n, lo, b) && x in n.ring && OutsideWord(n, slot)
    ensures StoredIn(L, Prune(n, x)) && WF(Prune(n, x), lo, b) && OutsideWord(Prune(n, x), slot)
  {
    forall p, u | Holds(Prune(n, x), p, u)
      ensures FreeAt(L, p, u) && MIN_LARGE_SIZE <= u && (slot < p + 16 || p + 64 <= slot)
    {
      PruneHolds(n, x, lo, b, p, u);
    }
    if |n.ring| > 1 {
      UnringKeeps(n.ring, x, 0);
    } else {
      BeheadWF(n, lo, b);
    }
  }

  lemma PrunedRing(L: Layout, mem: Mem, mem': Mem, n: Tree, x: int, par: int, slot: int, i: int, lo: int, b: int)
    requires NodeScope(L, mem, n, x, par, slot, i, lo, b) && Half1(mem, mem', n, x)
    requires |n.ring| > 1 && x != n.ring[0]
    ensures Linked(mem', Prune(n, x), par, i) && Rd(mem', slot) == Root(Prune(n, x))
  {
    var k := IndexOf(n.ring, x);
    RingNeighbours(mem, n.ring, k);
    RingStored(L, n);
    DropLinked(L, mem, mem', n, par, i, k, lo, b);
    assert Holds(n, n.ring[k - 1], n.size);
    assert Holds(n, n.ring[if k + 1 == |n.ring| then 0 else k + 1], n.size);
  }

  lemma PrunedReady(L: Layout, mem: Mem, mem1: Mem, n: Tree, x: int, par: int, slot: int, i: int, lo: int, b: int)
    requires NodeScope(L, mem, n, x, par, slot, i, lo, b) && Half1(mem, mem1, n, x)
    requires x == n.ring[0] && Prune(n, x).Node?
    ensures Ready(mem1, Prune(n, x), x, i) && Rd(mem1, x + 48) == par
  {
    if |n.ring| > 1 {
      RingNeighbours(mem, n.ring, 0);
      RotateReady(L, mem, mem1, n, par, i, lo, b);
    } else {
      DetachReady(L, mem, mem1, n, par, i, lo, b);
    }
  }

  /** After both halves the pruned node stands where the node stood. */
  lemma PrunedLinked(L: Layout, mem: Mem, mem1: Mem, mem2: Mem, n: Tree, x: int, par: int, slot: int, i: int, lo: int,
          b: int)
    requires NodeScope(L, mem, n, x, par, slot, i, lo, b)
    requires Half1(mem, mem1, n, x) && Half2(mem1, mem2, n, x, par, slot)
    ensures Linked(mem2, Prune(n, x), par, i) && Rd(mem2, slot) == Root(Prune(n, x))
  {
    if |n.ring| > 1 && x != n.ring[0] {
      PrunedRing(L, mem, mem1, n, x, par, slot, i, lo, b);
    } else if Prune(n, x).Node? {
      PrunedReady(L, mem, mem1, n, x, par, slot, i, lo, b);
      PruneStored(L, n, x, slot, lo, b);
      CrownLinked(L, mem1, mem2, Prune(n, x), x, par, slot, i, lo, b);
    }
  }

  ghost predicate NodeWord(n: Tree, slot: int, a: int) {
    a == slot || MemberWord(n, a)
  }

  lemma Half1Touches(L: Layout, mem: Mem, mem1: Mem, n: Tree, x: int, par: int, slot: int, i: int, lo: int, b: int,
          a: int)
    requires NodeScope(L, mem, n, x, par, slot, i, lo, b) && Half1(mem, mem1, n, x)
    ensures Rd(mem1, a) == Rd(mem, a) || MemberWord(n, a)
  {
    if |n.ring| > 1 {
      var k := IndexOf(n.ring, x);
      RingNeighbours(mem, n.ring, k);
      assert Holds(n, Rd(mem, x + 16), n.size) && Holds(n, Rd(mem, x + 24), n.size);
    } else if !Leaf(n) {
      assert LeafSlot(LeafBranch(n), BranchWord(n)) == LeafSlot(n, slot);
      var p, u := LeafSlotInTree(n, slot, lo, b);
    }
  }

  lemma Half2Touches(L: Layout, mem1: Mem, mem2: Mem, n: Tree, x: int, par: int, slot: int, lo: int, b: int, a: int)
    requires StoredIn(L, n) && n.Node? && WF(n, lo, b) && x in n.ring && Half2(mem1, mem2, n, x, par, slot)
    ensures Rd(mem2, a) == Rd(mem1, a) || NodeWord(n, slot, a)
  {
    var t := Prune(n, x);
    if t.Node? && Rd(mem2, a) != Rd(mem1, a) {
      PrunedRootHeld(n, t, x, lo, b);
    }
  }

  /** The roots of the pruned node and of its branches are chunks of the node. */
  lemma PrunedRootHeld(n: Tree, t: Tree, x: int, lo: int, b: int)
    requires n.Node? && WF(n, lo, b) && x in n.ring && t == Prune(n, x) && t.Node?
    ensures Holds(n, Root(t), t.size)
    ensures t.left.Node? ==> Holds(n, Root(t.left), t.left.size)
    ensures t.right.Node? ==> Holds(n, Root(t.right), t.right.size)
  {
    if |n.ring| > 1 {
      UnringKeeps(n.ring, x, 0);
    } else {
      BeheadWF(n, lo, b);
    }
    assert Holds(t, Root(t), t.size);
    PruneHolds(n, x, lo, b, Root(t), t.size);
    if t.left.Node? {
      assert Holds(t, Root(t.left), t.left.size);
      PruneHolds(n, x, lo, b, Root(t.left), t.left.size);
    }
    if t.right.Node? {
      assert Holds(t, Root(t.right), t.right.size);
      PruneHolds(n, x, lo, b, Root(t.right), t.right.size);
    }
  }

  // ----- the whole bin

  ghost predicate TreeRemoveScope(v: View, x: int, s: int, i: int) {
    && Base(v) && 0 <= i < 32 && |v.sb| == 32 && |v.tb| == 32
    && WF(v.tb[i], TreeLo(i), TreeBit(i)) && Holds(v.tb[i], x, s)
  }

  ghost function NodeOf(v: View, s: int, i: nat): Tree
    requires i < |v.tb| && WF(v.tb[i], TreeLo(i), TreeBit(i))
  {
    At(v.tb[i], s, TreeLo(i), TreeBit(i))
  }

  ghost function NodeParent(v: View, s: int, i: nat): int
    requires i < |v.tb| && WF(v.tb[i], TreeLo(i), TreeBit(i))
  {
    ParentOf(v.tb[i], TreeSlot(v.ms, i), s, TreeLo(i), TreeBit(i))
  }

  ghost function NodeSlot(v: View, s: int, i: nat): int
    requires i < |v.tb| && WF(v.tb[i], TreeLo(i), TreeBit(i))
  {
    SlotOf(v.tb[i], TreeSlot(v.ms, i), s, TreeLo(i), TreeBit(i))
  }

  ghost function TreeRemoved(v: View, mem': Mem, x: int, s: int, i: nat): View
    requires i < |v.tb| && WF(v.tb[i], TreeLo(i), TreeBit(i))
  {
    var t := Remove(v.tb[i], x, s, TreeLo(i), TreeBit(i));
    v.(mem := mem', treemap := if t.Nil? then Unmark(v.treemap, i)
      else v.treemap, tb := v.tb[i := t], out := v.out + {x})
  }

  ghost predicate TreeUnlinked(v: View, mem1: Mem, mem': Mem, x: int, s: int, i: nat)
    requires i < |v.tb| && WF(v.tb[i], TreeLo(i), TreeBit(i))
  {
    Half1(v.mem, mem1, NodeOf(v, s, i), x)
      && Half2(mem1, mem', NodeOf(v, s, i), x, NodeParent(v, s, i), NodeSlot(v, s, i))
  }

  /** The facts a removal starts from, at the node that stores x. */
  lemma NodeReady(v: View, x: int, s: int, i: nat) returns (lo: int, b: int)
    requires TreeRemoveScope(v, x, s, i)
    ensures NodeScope(v.lay, v.mem, NodeOf(v, s, i), x, NodeParent(v, s, i), NodeSlot(v, s, i), i, lo, b)
    ensures NodeOf(v, s, i).size == s && TreeScope(v, x, s, i)
  {
    var t, lo0, b0, h := v.tb[i], TreeLo(i), TreeBit(i), TreeSlot(v.ms, i);
    assert TreeAt(v, i);
    TreeStored(v, i);
    TreeMember(v, i, x, s);
    AtIsNode(t, x, s, lo0, b0);
    lo, b := AtWF(t, s, lo0, b0);
    AtLinked(v.mem, t, h, h, i, s, lo0, b0);
    NodeStored(v, x, s, i);
  }

  lemma NodeStored(v: View, x: int, s: int, i: nat)
    requires TreeRemoveScope(v, x, s, i)
    ensures StoredIn(v.lay, NodeOf(v, s, i)) && OutsideWord(NodeOf(v, s, i), NodeSlot(v, s, i))
  {
    var t, lo, b, h := v.tb[i], TreeLo(i), TreeBit(i), TreeSlot(v.ms, i);
    TreeStored(v, i);
    forall q, u | Holds(NodeOf(v, s, i), q, u)
      ensures FreeAt(v.lay, q, u) && MIN_LARGE_SIZE <= u && (NodeSlot(v, s, i) < q + 16 || q + 64 <= NodeSlot(v, s, i))
    {
      AtBelow(t, s, lo, b, q, u);
      if t.size != s {
        SlotApart(v, x, s, i, q, u);
      }
    }
  }

  /** A word pointing at the node lies in a chunk above it. */
  lemma SlotApart(v: View, x: int, s: int, i: nat, q: int, u: int)
    requires TreeRemoveScope(v, x, s, i) && v.tb[i].size != s && Holds(NodeOf(v, s, i), q, u)
    ensures NodeSlot(v, s, i) < q + 16 || q + 64 <= NodeSlot(v, s, i)
  {
    var t, lo, b, h := v.tb[i], TreeLo(i), TreeBit(i), TreeSlot(v.ms, i);
    var p, w := SlotAbove(t, h, x, s, lo, b, q, u);
    AtBelow(t, s, lo, b, q, u);
    TreeMember(v, i, p, w);
    TreeMember(v, i, q, u);
    FreeGap(v, p, q);
  }

  lemma {:induction false} SlotAbove(t: Tree, h: int, x: int, s: int, lo: int, b: int, q: int, u: int)
          returns (p: int, w: int)
    requires WF(t, lo, b) && Holds(t, x, s) && t.size != s && Holds(At(t, s, lo, b), q, u)
    ensures Holds(t, p, w) && w != u && (SlotOf(t, h, s, lo, b) == p + 32 || SlotOf(t, h, s, lo, b) == p + 40)
  {
    HoldsBelow(t, x, s);
    OneBranch(t, s, lo, b);
    var right := GoesRight(s, lo, b);
    var near, lo' := Near(t, s, lo, b), if right then lo + Pow2(b) else lo;
    AtBelow(near, s, lo', b - 1, q, u);
    HeldHasSize(near, q, u);
    if near.size == s {
      p, w := t.ring[0], t.size;
    } else {
      p, w := SlotAbove(near, t.ring[0] + (if right then 40 else 32), x, s, lo', b - 1, q, u);
    }
  }

  /** What the removal changed, word by word. */
  lemma RemovalTouches(v: View, mem1: Mem, mem': Mem, x: int, s: int, i: nat, a: int)
    requires TreeRemoveScope(v, x, s, i) && TreeUnlinked(v, mem1, mem', x, s, i)
    ensures Rd(mem', a) == Rd(v.mem, a) || NodeWord(NodeOf(v, s, i), NodeSlot(v, s, i), a)
  {
    var lo, b := NodeReady(v, x, s, i);
    Half1Touches(v.lay, v.mem, mem1, NodeOf(v, s, i), x, NodeParent(v, s, i), NodeSlot(v, s, i), i, lo, b, a);
    Half2Touches(v.lay, mem1, mem', NodeOf(v, s, i), x, NodeParent(v, s, i), NodeSlot(v, s, i), lo, b, a);
  }

  lemma RemovalInBin(v: View, mem1: Mem, mem': Mem, x: int, s: int, i: nat)
    requires TreeRemoveScope(v, x, s, i) && TreeUnlinked(v, mem1, mem', x, s, i)
    ensures TreeTouch(v, mem', x, i)
  {
    var t, lo, b, h := v.tb[i], TreeLo(i), TreeBit(i), TreeSlot(v.ms, i);
    forall a ensures Rd(mem', a) == Rd(v.mem, a) || TreeWord(v, x, i, a) {
      RemovalTouches(v, mem1, mem', x, s, i, a);
      if MemberWord(NodeOf(v, s, i), a) {
        var q, u :| Holds(NodeOf(v, s, i), q, u) && q + 16 <= a < q + 64;
        AtBelow(t, s, lo, b, q, u);
      } else if t.size != s && a == NodeSlot(v, s, i) {
        var p, u := SlotInTree(t, h, x, s, lo, b);
      }
    }
  }

  lemma RemovalConfined(v: View, mem1: Mem, mem': Mem, x: int, s: int, i: nat)
    requires TreeRemoveScope(v, x, s, i) && TreeUnlinked(v, mem1, mem', x, s, i)
    ensures Confined(v.mem, mem', v.tb[i], NodeOf(v, s, i), NodeSlot(v, s, i))
  {
    var t, n, slot := v.tb[i], NodeOf(v, s, i), NodeSlot(v, s, i);
    forall q, u | Holds(t, q, u) && !Holds(n, q, u) ensures SameBut(v.mem, mem', q, slot) {
      forall a | q + 16 <= a < q + 64 && a != slot ensures Rd(mem', a) == Rd(v.mem, a) {
        RemovalTouches(v, mem1, mem', x, s, i, a);
        if MemberWord(n, a) {
          var m, w :| Holds(n, m, w) && m + 16 <= a < m + 64;
          AtBelow(t, s, TreeLo(i), TreeBit(i), m, w);
          TreeMember(v, i, m, w);
          TreeMember(v, i, q, u);
          FreeGap(v, m, q);
        }
      }
    }
  }

  lemma RemovalLinks(v: View, mem1: Mem, mem': Mem, x: int, s: int, i: nat)
    requires TreeRemoveScope(v, x, s, i) && TreeUnlinked(v, mem1, mem', x, s, i)
    ensures var t := Remove(v.tb[i], x, s, TreeLo(i), TreeBit(i));
      Linked(mem', t, TreeSlot(v.ms, i), i) && Rd(mem', TreeSlot(v.ms, i)) == Root(t)
  {
    var t, lo, b, h := v.tb[i], TreeLo(i), TreeBit(i), TreeSlot(v.ms, i);
    var n, slot, par := NodeOf(v, s, i), NodeSlot(v, s, i), NodeParent(v, s, i);
    assert TreeAt(v, i);
    TreeStored(v, i);
    var lo', b' := NodeReady(v, x, s, i);
    PrunedLinked(v.lay, v.mem, mem1, mem', n, x, par, slot, i, lo', b');
    RemovalConfined(v, mem1, mem', x, s, i);
    ReplaceUp(v.lay, v.mem, mem', t, h, h, i, x, s, lo, b);
    if t.size != s {
      RootSlotKept(v, mem1, mem', x, s, i);
    }
  }

  /** A removal below the root leaves the bin's own word. */
  lemma RootSlotKept(v: View, mem1: Mem, mem': Mem, x: int, s: int, i: nat)
    requires TreeRemoveScope(v, x, s, i) && TreeUnlinked(v, mem1, mem', x, s, i) && v.tb[i].size != s
    ensures Rd(mem', TreeSlot(v.ms, i)) == Rd(v.mem, TreeSlot(v.ms, i))
  {
    var t, lo, b, h := v.tb[i], TreeLo(i), TreeBit(i), TreeSlot(v.ms, i);
    TreeStored(v, i);
    RemovalTouches(v, mem1, mem', x, s, i, h);
    var p, u := SlotInTree(t, h, x, s, lo, b);
    if MemberWord(NodeOf(v, s, i), h) {
      var m, w :| Holds(NodeOf(v, s, i), m, w) && m + 16 <= h < m + 64;
      AtBelow(t, s, lo, b, m, w);
    }
  }

  lemma RemovedTreeBin(v: View, mem1: Mem, mem': Mem, x: int, s: int, i: nat)
    requires TreeRemoveScope(v, x, s, i) && TreeUnlinked(v, mem1, mem', x, s, i)
    ensures TreeAt(TreeRemoved(v, mem', x, s, i), i)
  {
    var t, lo, b := v.tb[i], TreeLo(i), TreeBit(i);
    assert TreeAt(v, i);
    MarkSets(v.treemap, i, i);
    RemoveWF(t, x, s, lo, b);
    RemovalLinks(v, mem1, mem', x, s, i);
    forall p, u | Holds(Remove(t, x, s, lo, b), p, u) ensures MIN_LARGE_SIZE <= u && TreeIndex(u) == i {
      RemoveHolds(t, x, s, lo, b, p, u);
    }
  }

  lemma RemovedTreeIndex(v: View, mem': Mem, x: int, s: int, i: nat)
    requires TreeRemoveScope(v, x, s, i)
    ensures Indexed(TreeRemoved(v, mem', x, s, i))
  {
    var v' := TreeRemoved(v, mem', x, s, i);
    TreeMember(v, i, x, s);
    forall q, u ensures IndexAt(v', q, u) {
      assert IndexAt(v, q, u);
      RemoveHolds(v.tb[i], x, s, TreeLo(i), TreeBit(i), q, u);
    }
  }

  lemma RemovalBeside(v: View, mem1: Mem, mem': Mem, x: int, s: int, i: nat)
    requires TreeRemoveScope(v, x, s, i) && TreeTouch(v, mem', x, i) && TreeScope(v, x, s, i)
    ensures forall j {:trigger SmallAt(TreeRemoved(v, mem', x, s, i), j)} :: SmallAt(TreeRemoved(v, mem', x, s, i), j)
    ensures forall j {:trigger TreeAt(TreeRemoved(v, mem', x, s, i), j)} :: j != i ==>
      TreeAt(TreeRemoved(v, mem', x, s, i), j)
  {
    var v' := TreeRemoved(v, mem', x, s, i);
    forall j ensures SmallAt(v', j) {
      if 0 <= j < 32 {
        SmallBeside(v, v', x, s, i, j);
      }
    }
    forall j | j != i ensures TreeAt(v', j) {
      if 0 <= j < 32 {
        MarkSets(v.treemap, i, j);
        TreeBeside(v, v', x, s, i, j);
      }
    }
  }

  /** Unlinking any chunk of a tree bin keeps the invariant, interior nodes replaced by a leaf included. */
  lemma TreeRemoveKeeps(v: View, mem1: Mem, mem': Mem, x: int, s: int, i: nat)
    requires TreeRemoveScope(v, x, s, i) && TreeUnlinked(v, mem1, mem', x, s, i)
    ensures Base(TreeRemoved(v, mem', x, s, i))
    ensures PayloadSame(UsedOf(v.lay), v.ms, v.mem, mem') && Frame(v.lay, v.lay, v.mem, mem')
  {
    TreeMember(v, i, x, s);
    RemovalInBin(v, mem1, mem', x, s, i);
    RemovalBeside(v, mem1, mem', x, s, i);
    RemovedTreeBin(v, mem1, mem', x, s, i);
    TreeOnlyLinks(v, mem', x, s, i);
    OnlyLinksKeep(v.lay, v.ms, v.mem, mem');
    LinksFrame(v, mem');
    RemovedTreeIndex(v, mem', x, s, i);
  }
}
