/** The first half of unlinking: taking x out of its ring, or detaching the leaf that will replace it. */
module TriePrune {
  import opened Words
  import opened Layouts
  import opened Chains
  import opened Tries
  import opened TrieLinks
  import opened TrieUnlink

  lemma {:induction false} AtWF(t: Tree, s: int, lo: int, b: int) returns (lo': int, b': int)
    requires WF(t, lo, b)
    ensures WF(At(t, s, lo, b), lo', b')
  {
    lo', b' := lo, b;
    if t.Node? && t.size != s {
      if GoesRight(s, lo, b) {
        lo', b' := AtWF(t.right, s, lo + Pow2(b), b - 1);
      } else {
        lo', b' := AtWF(t.left, s, lo, b - 1);
      }
    }
  }

  lemma {:induction false} AtLinked(mem: Mem, t: Tree, par: int, h: int, i: int, s: int, lo: int, b: int)
    requires WF(t, lo, b) && Linked(mem, t, par, i) && Rd(mem, h) == Root(t)
    ensures Linked(mem, At(t, s, lo, b), ParentOf(t, par, s, lo, b), i)
    ensures Rd(mem, SlotOf(t, h, s, lo, b)) == Root(At(t, s, lo, b))
  {
    if t.Node? && t.size != s {
      if GoesRight(s, lo, b) {
        AtLinked(mem, t.right, t.ring[0], t.ring[0] + 40, i, s, lo + Pow2(b), b - 1);
      } else {
        AtLinked(mem, t.left, t.ring[0], t.ring[0] + 32, i, s, lo, b - 1);
      }
    }
  }

  /** F takes R as its bk and R takes F as its fd. */
  ghost predicate Bypassed(mem: Mem, mem': Mem, f: int, r: int) {
    Touched(mem, mem', 0, 0, {r + 16, f + 24}) && Rd(mem', r + 16) == f && Rd(mem', f + 24) == r
  }

  /** A chunk of another size than the ring's is left alone by the bypass. */
  lemma BypassElsewhere(L: Layout, mem: Mem, mem': Mem, t: Tree, par: int, i: int, f: int, r: int)
    requires LayoutOk(L) && StoredIn(L, t) && Linked(mem, t, par, i) && Large(L, f) && Large(L, r)
    requires !HasSize(t, L[f].size) && L[r].size == L[f].size && Bypassed(mem, mem', f, r)
    ensures Linked(mem', t, par, i)
  {
    forall q, u | Holds(t, q, u) ensures SameLinks(mem, mem', q) {
      HeldHasSize(t, q, u);
      Distance(L, f, q);
      Distance(L, r, q);
    }
    LinkedFrame(mem, mem', t, par, i);
  }

  /** Tree words and bin index of every large chunk survive the bypass. */
  lemma BypassTail(L: Layout, mem: Mem, mem': Mem, f: int, r: int, q: int)
    requires LayoutOk(L) && Large(L, f) && Large(L, r) && Large(L, q) && Bypassed(mem, mem', f, r)
    ensures SameTail(mem, mem', q)
  {
    Distance2(L, f, q);
    Distance2(L, r, q);
  }

  /** The ring neighbours of member k. */
  lemma RingNeighbours(mem: Mem, r: seq<int>, k: int)
    requires 0 <= k < |r| && Chain(mem, Cycle(r))
    ensures Rd(mem, r[k] + 16) == r[if k + 1 == |r| then 0 else k + 1]
    ensures Rd(mem, r[k] + 24) == r[if k == 0 then |r| - 1 else k - 1]
  {
    assert LinkAt(mem, Cycle(r), k) && LinkAt(mem, Cycle(r), if k == 0 then |r| - 1 else k - 1);
  }

  lemma RotatedLink(mem: Mem, mem': Mem, r: seq<int>, j: int)
    requires |r| > 1 && Chain(mem, Cycle(r)) && Spread(Cycle(r))
    requires Bypassed(mem, mem', r[1], r[|r| - 1])
    ensures LinkAt(mem', Cycle(Promote(r)), j)
  {
    var c, c', n := Cycle(r), Cycle(Promote(r)), |r|;
    if 0 < j < n - 1 {
      assert c'[j] == r[j] && c'[j + 1] == r[j + 1] && c[j] == r[j] && c[j + 1] == r[j + 1];
      assert LinkAt(mem, c, j) && SpreadAt(c, j, n - 1) && SpreadAt(c, 1, j + 1) && SpreadAt(c, 1, j)
        && SpreadAt(c, j + 1, n - 1);
    } else if j == 0 {
      assert c'[0] == r[n - 1] && c'[1] == r[1];
    }
  }

  /** Bypassing the tree member rotates its ring: the last member comes first. */
  lemma RingRotates(mem: Mem, mem': Mem, r: seq<int>)
    requires |r| > 1 && Chain(mem, Cycle(r)) && Spread(Cycle(r))
    requires Bypassed(mem, mem', r[1], r[|r| - 1])
    ensures Chain(mem', Cycle(Promote(r)))
  {
    var c' := Cycle(Promote(r));
    forall j ensures LinkAt(mem', c', j) {
      RotatedLink(mem, mem', r, j);
    }
  }

  /** After the first half: the successor's ring and both branches are in place, the branches still under x. */
  ghost predicate Ready(mem: Mem, t: Tree, x: int, i: int) {
    && t.Node? && |t.ring| > 0 && Chain(mem, Cycle(t.ring)) && Members(mem, t.ring, i)
    && Linked(mem, t.left, x, i) && Linked(mem, t.right, x, i)
    && Rd(mem, x + 32) == Root(t.left) && Rd(mem, x + 40) == Root(t.right)
    && Rd(mem, Root(t) + 32) == 0 && Rd(mem, Root(t) + 40) == 0
  }

  /** The tree member of a ring of several leaves; the chunk behind it is ready to succeed. */
  lemma RotateReady(L: Layout, mem: Mem, mem': Mem, t: Tree, par: int, i: int, lo: int, b: int)
    requires LayoutOk(L) && StoredIn(L, t) && WF(t, lo, b) && t.Node? && Linked(mem, t, par, i) && |t.ring| > 1
    requires Bypassed(mem, mem', t.ring[1], t.ring[|t.ring| - 1])
    ensures Ready(mem', t.(ring := Promote(t.ring)), t.ring[0], i)
    ensures Rd(mem', t.ring[0] + 48) == par
  {
    var r := t.ring;
    var f, l := r[1], r[|r| - 1];
    RingStored(L, t);
    StoredBelow(L, t);
    RingSpread(L, r);
    RingRotates(mem, mem', r);
    BypassTail(L, mem, mem', f, l, r[0]);
    BypassElsewhere(L, mem, mem', t.left, r[0], i, f, l);
    BypassElsewhere(L, mem, mem', t.right, r[0], i, f, l);
    RotateMembers(L, mem, mem', r, i);
  }

  lemma RotateMembers(L: Layout, mem: Mem, mem': Mem, r: seq<int>, i: int)
    requires LayoutOk(L) && |r| > 1 && Members(mem, r, i)
    requires forall k {:trigger r[k]} | 0 <= k < |r| :: Large(L, r[k])
    requires Bypassed(mem, mem', r[1], r[|r| - 1])
    ensures Members(mem', Promote(r), i)
    ensures Rd(mem', r[|r| - 1] + 32) == 0 && Rd(mem', r[|r| - 1] + 40) == 0
  {
    var q := Promote(r);
    forall k ensures MemberAt(mem', q, i, k) {
      if 0 <= k < |q| {
        var k' := if k == 0 then |r| - 1 else k;
        assert q[k] == r[k'] && MemberAt(mem, r, i, k');
        BypassTail(L, mem, mem', r[1], r[|r| - 1], r[k']);
      }
    }
    assert MemberAt(mem, r, i, |r| - 1);
    BypassTail(L, mem, mem', r[1], r[|r| - 1], r[|r| - 1]);
  }

  /** A ring member that is not in the tree leaves; nothing else changes. */
  lemma DropLinked(L: Layout, mem: Mem, mem': Mem, t: Tree, par: int, i: int, k: int, lo: int, b: int)
    requires LayoutOk(L) && StoredIn(L, t) && WF(t, lo, b) && t.Node? && Linked(mem, t, par, i) && 0 < k < |t.ring|
    requires Bypassed(mem, mem', t.ring[if k + 1 == |t.ring| then 0 else k + 1], t.ring[k - 1])
    ensures Linked(mem', t.(ring := DropAt(t.ring, k)), par, i)
  {
    var r := t.ring;
    var c := Cycle(r);
    var f, l := r[if k + 1 == |r| then 0 else k + 1], r[k - 1];
    RingStored(L, t);
    StoredBelow(L, t);
    RingSpread(L, r);
    assert c[k - 1] == l && c[k + 1] == f;
    ChainRemove(mem, mem', c, k);
    assert c[..k] + c[k + 1..] == Cycle(DropAt(r, k));
    BypassElsewhere(L, mem, mem', t.left, r[0], i, f, l);
    BypassElsewhere(L, mem, mem', t.right, r[0], i, f, l);
    BypassTail(L, mem, mem', f, l, r[0]);
    DropMembers(L, mem, mem', r, i, k, f, l);
  }

  lemma DropMembers(L: Layout, mem: Mem, mem': Mem, r: seq<int>, i: int, k: int, f: int, l: int)
    requires LayoutOk(L) && 0 < k < |r| && Members(mem, r, i)
    requires forall j {:trigger r[j]} | 0 <= j < |r| :: Large(L, r[j])
    requires f in r && l in r && Bypassed(mem, mem', f, l)
    ensures Members(mem', DropAt(r, k), i)
  {
    var q := DropAt(r, k);
    forall j ensures MemberAt(mem', q, i, j) {
      if 0 <= j < |q| {
        var j' := if j < k then j else j + 1;
        assert q[j] == r[j'] && MemberAt(mem, r, i, j');
        BypassTail(L, mem, mem', f, l, r[j']);
      }
    }
  }

  /** The branch a lone node takes its successor from, and the word of x that points at it. */
  ghost function LeafBranch(t: Tree): Tree
    requires t.Node?
  {
    if t.right.Node? then t.right else t.left
  }

  ghost function BranchWord(t: Tree): int
    requires t.Node?
  {
    Root(t) + if t.right.Node? then 40 else 32
  }

  /** The only chunk of its size leaves; the detached leaf is ready to succeed. */
  lemma DetachReady(L: Layout, mem: Mem, mem': Mem, t: Tree, par: int, i: int, lo: int, b: int)
    requires LayoutOk(L) && StoredIn(L, t) && WF(t, lo, b) && t.Node? && !Leaf(t) && Linked(mem, t, par, i)
    requires var w := LeafSlot(LeafBranch(t), BranchWord(t)); Touched(mem, mem', 0, 0, {w}) && Rd(mem', w) == 0
    ensures Ready(mem', Behead(t), t.ring[0], i)
    ensures Rd(mem', t.ring[0] + 48) == par
  {
    hide Ready, Behead;
    DetachAside(L, mem, mem', t, par, i, lo, b);
    if t.right.Node? {
      DetachRight(L, mem, mem', t, par, i, lo, b);
    } else {
      DetachLeft(L, mem, mem', t, par, i, lo, b);
    }
  }

  lemma DetachRight(L: Layout, mem: Mem, mem': Mem, t: Tree, par: int, i: int, lo: int, b: int)
    requires LayoutOk(L) && StoredIn(L, t) && WF(t, lo, b) && t.Node? && t.right.Node? && Linked(mem, t, par, i)
    requires var w := LeafSlot(LeafBranch(t), BranchWord(t)); Touched(mem, mem', 0, 0, {w}) && Rd(mem', w) == 0
    ensures Ready(mem', Behead(t), t.ring[0], i)
  {
    StoredBelow(L, t);
    OwnWordOutside(L, t, lo, b, 40);
    DetachLinked(L, mem, mem', t.right, t.ring[0], BranchWord(t), i, lo + Pow2(b), b - 1);
    DetachAside(L, mem, mem', t, par, i, lo, b);
  }

  lemma DetachLeft(L: Layout, mem: Mem, mem': Mem, t: Tree, par: int, i: int, lo: int, b: int)
    requires LayoutOk(L) && StoredIn(L, t) && WF(t, lo, b) && t.Node? && t.right.Nil? && t.left.Node?
      && Linked(mem, t, par, i)
    requires var w := LeafSlot(LeafBranch(t), BranchWord(t)); Touched(mem, mem', 0, 0, {w}) && Rd(mem', w) == 0
    ensures Ready(mem', Behead(t), t.ring[0], i)
  {
    StoredBelow(L, t);
    OwnWordOutside(L, t, lo, b, 32);
    DetachLinked(L, mem, mem', t.left, t.ring[0], BranchWord(t), i, lo, b - 1);
    DetachAside(L, mem, mem', t, par, i, lo, b);
  }

  /** Detaching leaves x's parent word, and the branch the leaf was not taken from. */
  lemma DetachAside(L: Layout, mem: Mem, mem': Mem, t: Tree, par: int, i: int, lo: int, b: int)
    requires LayoutOk(L) && StoredIn(L, t) && WF(t, lo, b) && t.Node? && !Leaf(t) && Linked(mem, t, par, i)
    requires var w := LeafSlot(LeafBranch(t), BranchWord(t)); Touched(mem, mem', 0, 0, {w}) && Rd(mem', w) == 0
    ensures Rd(mem', t.ring[0] + 48) == par
    ensures t.right.Node? ==> Linked(mem', t.left, t.ring[0], i) && Rd(mem', t.ring[0] + 32) == Root(t.left)
    ensures t.right.Nil? ==> Rd(mem', t.ring[0] + 40) == 0
  {
    var br, h := LeafBranch(t), BranchWord(t);
    assert LeafSlot(br, h) == LeafSlot(t, h);
    var p, u := LeafSlotInTree(t, h, lo, b);
    RingStored(L, t);
    StoredBelow(L, t);
    HoldsBelow(t, p, u);
    Distance2(L, p, t.ring[0]);
    if t.right.Node? {
      if HasSize(t.left, u) && HasSize(t.right, u) {
        LeftBelowRight(t, lo, b, u, u);
      }
      OneWordElsewhere(L, mem, mem', t.left, t.ring[0], i, p, LeafSlot(t, h));
    }
  }
}
