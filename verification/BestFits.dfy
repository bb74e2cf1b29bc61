/** The result of a search over the tree bins, and the facts each step of the two walks reads off memory. */
module BestFits {
  import opened Words
  import opened Layouts
  import opened BinMaps
  import opened Tries
  import opened TrieLinks
  import opened Sizes
  import opened Keys
  import opened Views
  import opened SmallBins
  import opened TreeBins
  import opened Walks
  import opened Searches

  /** Chunk p of size s is in a tree bin. */
  ghost predicate TreeFree(v: View, p: int, s: int) {
    FreeAt(v.lay, p, s) && p !in v.out && MIN_LARGE_SIZE <= s
  }

  /** Chunk p is first of its size in the tree bin that the size selects. */
  ghost predicate LeadsBin(v: View, p: int, s: int) {
    0 <= TreeIndex(s) < |v.tb| && Leads(v.tb[TreeIndex(s)], p, s)
  }

  /** No tree-binned chunk of at least nb leaves less than rsize. */
  ghost predicate LeastFit(v: View, nb: int, rsize: int) {
    forall p, s {:trigger TreeFree(v, p, s)} :: TreeFree(v, p, s) && nb <= s ==> nb + rsize <= s
  }

  /** What a search has found in t: nothing, with the remainder at its initial -nb, or a chunk that leaves rsize. */
  ghost predicate Found(t: Tree, nb: int, best: int, rsize: int) {
    0 <= rsize && (best == 0 ==> rsize == TWO64 - nb)
      && (best != 0 ==> Leads(t, best, nb + rsize) && nb + rsize < TWO64)
  }

  ghost predicate Within(t: Tree, base: Tree) {
    forall p, s {:trigger Leads(t, p, s)} :: Leads(t, p, s) ==> Leads(base, p, s)
  }

  /** A subtree of a bin: its parent pointer and its place in the trie. */
  datatype Place = Place(tree: Tree, par: int, lo: int, b: int)

  ghost predicate Looking(v: View, i: int, at: Place, t: int) {
    && 0 <= i < |v.tb| && WF(at.tree, at.lo, at.b) && StoredIn(v.lay, at.tree) && Linked(v.mem, at.tree, at.par, i)
    && Within(at.tree, v.tb[i]) && t == Root(at.tree) && (t != 0 <==> at.tree.Node?)
  }

  lemma WithinBelow(t: Tree, base: Tree)
    requires t.Node? && Within(t, base)
    ensures Within(t.left, base) && Within(t.right, base)
  {
    forall p, s | Leads(t.left, p, s) || Leads(t.right, p, s) ensures Leads(base, p, s) {
      assert Leads(t, p, s);
    }
  }

  ghost function LeftPlace(at: Place): Place
    requires at.tree.Node? && |at.tree.ring| > 0
  {
    Place(at.tree.left, at.tree.ring[0], at.lo, at.b - 1)
  }

  ghost function RightPlace(at: Place): Place
    requires at.tree.Node? && |at.tree.ring| > 0 && at.b >= 0
  {
    Place(at.tree.right, at.tree.ring[0], at.lo + Pow2(at.b), at.b - 1)
  }

  /** What the words of a node say: its size and its two children. */
  lemma LookStep(v: View, i: int, at: Place, t: int)
    requires Base(v) && Looking(v, i, at, t) && t != 0
    ensures |at.tree.ring| > 0 && at.b >= 0 && FreeAt(v.lay, t, at.tree.size) && Leads(v.tb[i], t, at.tree.size)
    ensures 0 < at.tree.size < TWO64 && ChunkSize(Rd(v.mem, t + 8)) == at.tree.size
    ensures Looking(v, i, LeftPlace(at), Rd(v.mem, t + 32)) && Looking(v, i, RightPlace(at), Rd(v.mem, t + 40))
    ensures HasSize(v.tb[i], at.tree.size)
  {
    hide Base;
    var sub := at.tree;
    assert Leads(sub, t, sub.size);
    LeadsHolds(sub, t, sub.size);
    LeadsHolds(v.tb[i], t, sub.size);
    HeldHasSize(v.tb[i], t, sub.size);
    NodeSize(v, t, sub.size);
    StoredBelow(v.lay, sub);
    WithinBelow(sub, v.tb[i]);
    assert WF(sub.left, at.lo, at.b - 1) && WF(sub.right, at.lo + Pow2(at.b), at.b - 1);
    RootNonzero(v, sub.left);
    RootNonzero(v, sub.right);
  }

  lemma NodeSize(v: View, t: int, s: int)
    requires Base(v) && FreeAt(v.lay, t, s)
    ensures 0 < t && 0 < s < TWO64 && ChunkSize(Rd(v.mem, t + 8)) == s
  {
    assert Tag(v.lay, v.mem, t) && ChunkOk(v.lay, t);
    HeadDecodes(s, false, Pin(v.lay, t));
  }

  /** The root of a bin, as its word gives it. */
  lemma LookStarts(v: View, i: int)
    requires Base(v) && 0 <= i < 32
    ensures |v.tb| == 32
    ensures Looking(v, i, Place(v.tb[i], TreeSlot(v.ms, i), TreeLo(i), TreeBit(i)), Rd(v.mem, TreeSlot(v.ms, i)))
    ensures Marked(v.treemap, i) <==> v.tb[i].Node?
  {
    assert TreeAt(v, i);
    TreeStored(v, i);
    RootNonzero(v, v.tb[i]);
  }

  /** One look: the comparison keeps the better of the chunk found and the chunk seen. */
  lemma FoundStep(t: Tree, nb: int, best: int, rsize: int, p: int, c: int)
    requires Found(t, nb, best, rsize) && Leads(t, p, c) && p != 0 && 0 < c < TWO64 && 0 < nb < TWO64
    ensures rsize <= TWO64 - nb
    ensures var trem := Sub64(c, nb);
      && (trem < rsize <==> nb <= c < nb + rsize)
      && Improve(c, nb, rsize) == (if trem < rsize then trem else rsize)
      && Found(t, nb, if trem < rsize then p else best, Improve(c, nb, rsize))
  {
    FitTest(c, nb, rsize);
  }

  // ----- the bit-path walk of one bin

  /** The walk for size nb stands at `at`; `rat` is the deepest right subtree left behind, Nil if none. */
  ghost predicate OnPath(v: View, i: int, nb: int, at: Place, k: int, t: int, rat: Place, rst: int, best: int,
          rsize: int) {
    && |v.tb| == 32 && Looking(v, i, at, t) && Looking(v, i, rat, rst)
    && Standing(v, at.tree, at.par, i, nb, at.lo, at.b, k, t)
    && 0 < rsize && Found(v.tb[i], nb, best, rsize) && PathCovered(v.tb[i], nb, rsize, at.tree, rat.tree)
  }

  ghost function TakenPlace(at: Place, nb: int): Place
    requires at.tree.Node? && |at.tree.ring| > 0 && at.b >= 0
  {
    if GoesRight(nb, at.lo, at.b) then RightPlace(at) else LeftPlace(at)
  }

  ghost function UntakenPlace(at: Place, nb: int, rat: Place): Place
    requires at.tree.Node? && |at.tree.ring| > 0 && at.b >= 0
  {
    if !GoesRight(nb, at.lo, at.b) && at.tree.right.Node? then RightPlace(at) else rat
  }

  const NOWHERE: Place := Place(Nil, 0, 0, 0)

  lemma PathStarts(v: View, i: int, nb: int)
    requires Base(v) && MIN_LARGE_SIZE <= nb < TWO64 && nb % 8 == 0 && i == TreeIndex(nb)
    requires 0 <= i < 32 && |v.tb| == 32 && v.tb[i].Node?
    ensures 0 <= LeftShift(i)
    ensures OnPath(v, i, nb, Place(v.tb[i], TreeSlot(v.ms, i), TreeLo(i), TreeBit(i)), nb * Pow2(LeftShift(i)) % TWO64,
      Rd(v.mem, TreeSlot(v.ms, i)), NOWHERE, 0, 0, TWO64 - nb)
  {
    LookStarts(v, i);
    StandingStarts(v, i, nb);
  }

  /** A node whose two children are both present has them at different addresses. */
  lemma ChildrenDiffer(v: View, i: int, at: Place, t: int)
    requires Base(v) && Looking(v, i, at, t) && t != 0
    ensures Rd(v.mem, t + 40) != 0 ==> Rd(v.mem, t + 32) != Rd(v.mem, t + 40)
  {
    hide Base;
    LookStep(v, i, at, t);
    var c0, c1 := Rd(v.mem, t + 32), Rd(v.mem, t + 40);
    if c1 != 0 && c0 != 0 {
      LookStep(v, i, LeftPlace(at), c0);
      LookStep(v, i, RightPlace(at), c1);
      assert HasSize(at.tree.left, at.tree.left.size) && HasSize(at.tree.right, at.tree.right.size);
      LeftBelowRight(at.tree, at.lo, at.b, at.tree.left.size, at.tree.right.size);
    }
  }

  /** One step: after the comparison, the child the key selects, and the right subtree left behind if any. */
  lemma PathLook(v: View, i: int, nb: int, at: Place, k: int, t: int, rat: Place, rst: int, best: int, rsize: int)
    requires Base(v) && OnPath(v, i, nb, at, k, t, rat, rst, best, rsize) && 0 < nb < TWO64
    requires at.tree.size != nb
    ensures |at.tree.ring| > 0 && at.b >= 0
    ensures var c, rt, r := Rd(v.mem, t + 32 + 8 * (k / TWO63)), Rd(v.mem, t + 40), Improve(at.tree.size, nb, rsize);
      var at', rat', best', rst' := TakenPlace(at, nb), UntakenPlace(at, nb, rat),
        if r < rsize then t else best, if rt != 0 && rt != c then rt else rst;
      && Looking(v, i, rat', rst')
      && (c != 0 ==> OnPath(v, i, nb, at', k * 2 % TWO64, c, rat', rst', best', r))
      && (c == 0 ==> Found(v.tb[i], nb, best', r) && Covered(v.tb[i], nb, r, rat'.tree) && AtLeast(rat'.tree, nb))
  {
    hide Base;
    LookStep(v, i, at, t);
    ChildrenDiffer(v, i, at, t);
    StandingStep(v, at.tree, at.par, i, nb, at.lo, at.b, k, t);
    FoundStep(v.tb[i], nb, best, rsize, t, at.tree.size);
    PathStep(v.tb[i], nb, rsize, at.tree, rat.tree, at.lo, at.b);
  }

  // ----- from one bin to all of them

  lemma TreeFreeHeld(v: View, p: int, s: int)
    requires Base(v) && TreeFree(v, p, s)
    ensures |v.tb| == 32 && 0 <= TreeIndex(s) < 32 && Holds(v.tb[TreeIndex(s)], p, s) && s < TWO64 && s % 8 == 0
    ensures v.treemap != 0 && Marked(v.treemap, TreeIndex(s))
  {
    assert ChunkOk(v.lay, p);
    SizeFitsBin(s);
    assert TreeAt(v, TreeIndex(s)) && IndexAt(v, p, s);
    AnyMarked(v.treemap);
  }

  /** Chunk p is not in bins before i unless it is too small. */
  ghost predicate SmallBefore(v: View, nb: int, i: int) {
    forall p, s {:trigger TreeFree(v, p, s)} :: TreeFree(v, p, s) && TreeIndex(s) < i ==> s < nb
  }

  /** The least fit of the first bin that has one is the least of all. */
  lemma LeastOfBin(v: View, nb: int, i: int, best: int, rsize: int)
    requires Base(v) && 0 <= i < 32 && |v.tb| == 32 && SmallBefore(v, nb, i)
    requires best != 0 && Found(v.tb[i], nb, best, rsize) && Covered(v.tb[i], nb, rsize, Nil)
    ensures LeastFit(v, nb, rsize) && TreeFree(v, best, nb + rsize) && LeadsBin(v, best, nb + rsize)
  {
    hide Base, TreeIndex;
    LeadsHolds(v.tb[i], best, nb + rsize);
    HeldHasSize(v.tb[i], best, nb + rsize);
    TreeMember(v, i, best, nb + rsize);
    forall p, s | TreeFree(v, p, s) && nb <= s ensures nb + rsize <= s {
      TreeFreeHeld(v, p, s);
      HeldHasSize(v.tb[TreeIndex(s)], p, s);
      if s < nb + rsize {
        TreeIndexMonotone(s, nb + rsize);
      }
    }
  }

  /** Nothing in bins before the one that nb selects is large enough. */
  lemma SmallBeforeIndex(v: View, nb: int)
    requires Base(v) && MIN_LARGE_SIZE <= nb < TWO64
    ensures SmallBefore(v, nb, TreeIndex(nb))
  {
    hide Base, TreeIndex;
    forall p, s | TreeFree(v, p, s) && TreeIndex(s) < TreeIndex(nb) ensures s < nb {
      TreeFreeHeld(v, p, s);
      if nb <= s {
        TreeIndexMonotone(nb, s);
      }
    }
  }

  /** Nothing in bin i fits either. */
  lemma SmallThrough(v: View, nb: int, i: int)
    requires Base(v) && 0 <= i < 32 && |v.tb| == 32 && SmallBefore(v, nb, i)
    requires Found(v.tb[i], nb, 0, TWO64 - nb) && Covered(v.tb[i], nb, TWO64 - nb, Nil)
    ensures SmallBefore(v, nb, i + 1)
  {
    hide Base, TreeIndex;
    forall p, s | TreeFree(v, p, s) && TreeIndex(s) < i + 1 ensures s < nb {
      TreeFreeHeld(v, p, s);
      HeldHasSize(v.tb[TreeIndex(s)], p, s);
    }
  }

  /** Bins whose marks are clear hold nothing. */
  lemma SmallBeforeMarks(v: View, nb: int, i: int, j: int)
    requires Base(v) && SmallBefore(v, nb, i)
    requires forall k {:trigger Marked(v.treemap, k)} | i <= k < j :: !Marked(v.treemap, k)
    ensures SmallBefore(v, nb, j)
  {
    hide Base, TreeIndex, Marked;
    forall p, s | TreeFree(v, p, s) && TreeIndex(s) < j ensures s < nb {
      TreeFreeHeld(v, p, s);
    }
  }

  /** When no bin can hold a fit, there is none. */
  lemma NoFit(v: View, nb: int)
    requires Base(v) && SmallBefore(v, nb, 32)
    ensures LeastFit(v, nb, TWO64 - nb)
  {
    hide Base, TreeIndex;
    forall p, s | TreeFree(v, p, s) ensures s < nb {
      TreeFreeHeld(v, p, s);
    }
  }

  /** Every size in a later bin is larger. */
  lemma LaterFits(v: View, nb: int, i: int)
    requires Base(v) && 0 <= i < 32 && |v.tb| == 32 && 0 < nb < TWO64 && (MIN_LARGE_SIZE <= nb ==> TreeIndex(nb) < i)
    ensures AtLeast(v.tb[i], nb)
  {
    hide Base, TreeIndex;
    forall s | HasSize(v.tb[i], s) ensures nb <= s {
      var p := SizeHeld(v, i, s);
      TreeMember(v, i, p, s);
      TreeFreeHeld(v, p, s);
      if s < nb {
        TreeIndexMonotone(s, nb);
      }
    }
  }

  lemma SizeHeld(v: View, i: int, s: int) returns (p: int)
    requires Base(v) && 0 <= i < 32 && |v.tb| == 32 && HasSize(v.tb[i], s)
    ensures Holds(v.tb[i], p, s)
  {
    assert TreeAt(v, i);
    p := RingOfSize(v.tb[i], TreeLo(i), TreeBit(i), s);
  }

  lemma {:induction false} RingOfSize(t: Tree, lo: int, b: int, s: int) returns (p: int)
    requires WF(t, lo, b) && HasSize(t, s)
    ensures Holds(t, p, s)
  {
    if s == t.size {
      p := t.ring[0];
    } else if HasSize(t.left, s) {
      p := RingOfSize(t.left, lo, b - 1, s);
    } else {
      p := RingOfSize(t.right, lo + Pow2(b), b - 1, s);
    }
  }

  // ----- the next marked bin

  /** When no later bin is marked there is nothing more to search. */
  lemma LeftBitsAt(v: View, nb: int, i: nat)
    requires Base(v) && i < 32 && SmallBefore(v, nb, i + 1)
    ensures LaterBins(v.treemap, i) == 0 ==> SmallBefore(v, nb, 32)
  {
    hide Base, Marked, Idx2Bit, LaterBins;
    if LaterBins(v.treemap, i) == 0 {
      AnyMarked(LaterBins(v.treemap, i));
      forall k | i + 1 <= k < 32 ensures !Marked(v.treemap, k) {
        LeftBitsSelect(v.treemap, i, k);
      }
      SmallBeforeMarks(v, nb, i + 1, 32);
    }
  }

  /** The least marked bin after i is where the search resumes. */
  lemma NextTree(v: View, nb: int, i: nat) returns (j: nat)
    requires Base(v) && i < 32 && SmallBefore(v, nb, i + 1) && LaterBins(v.treemap, i) != 0
    requires MIN_LARGE_SIZE <= nb < TWO64 && TreeIndex(nb) == i
    ensures j == Bit2Idx(LeastBit(LaterBins(v.treemap, i))) && i < j < 32 && |v.tb| == 32
    ensures SmallBefore(v, nb, j) && AtLeast(v.tb[j], nb) && v.tb[j].Node?
    ensures Looking(v, j, Place(v.tb[j], TreeSlot(v.ms, j), TreeLo(j), TreeBit(j)), Rd(v.mem, TreeSlot(v.ms, j)))
  {
    hide Base, Marked, Idx2Bit, LaterBins, LeastBit, Bit2Idx, TreeIndex;
    var bits := LaterBins(v.treemap, i);
    j := LeastBitIsFirst(bits);
    LeftBitsSelect(v.treemap, i, j);
    forall k | i + 1 <= k < j ensures !Marked(v.treemap, k) {
      LeftBitsSelect(v.treemap, i, k);
    }
    SmallBeforeMarks(v, nb, i + 1, j);
    LookStarts(v, j);
    LaterFits(v, nb, j);
  }

  /** The first marked bin holds the smallest tree chunks. */
  lemma FirstTree(v: View, nb: int) returns (j: nat)
    requires Base(v) && 0 < nb < MIN_LARGE_SIZE && v.treemap != 0
    ensures j == Bit2Idx(LeastBit(v.treemap)) && j < 32 && |v.tb| == 32
    ensures SmallBefore(v, nb, j) && AtLeast(v.tb[j], nb) && v.tb[j].Node?
    ensures Looking(v, j, Place(v.tb[j], TreeSlot(v.ms, j), TreeLo(j), TreeBit(j)), Rd(v.mem, TreeSlot(v.ms, j)))
  {
    hide Base, Marked, Idx2Bit, LeastBit, Bit2Idx, TreeIndex;
    j := LeastBitIsFirst(v.treemap);
    forall p, s | TreeFree(v, p, s) ensures 0 <= TreeIndex(s) {
      TreeFreeHeld(v, p, s);
    }
    SmallBeforeMarks(v, nb, 0, j);
    LookStarts(v, j);
    LaterFits(v, nb, j);
  }
}
