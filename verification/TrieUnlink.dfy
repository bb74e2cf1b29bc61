/** Unlinking a chunk from a trie in memory: the pruned node, and the path above it. */
module TrieUnlink {
  import opened Words
  import opened Layouts
  import opened Chains
  import opened Tries
  import opened TrieLinks

  /** The node of size s. */
  ghost function At(t: Tree, s: int, lo: int, b: int): Tree
    requires WF(t, lo, b)
  {
    if t.Nil? || t.size == s then t
    else if GoesRight(s, lo, b) then At(t.right, s, lo + Pow2(b), b - 1)
    else At(t.left, s, lo, b - 1)
  }

  /** The parent word of the node of size s, when the root's is par. */
  ghost function ParentOf(t: Tree, par: int, s: int, lo: int, b: int): int
    requires WF(t, lo, b)
  {
    if t.Nil? || t.size == s then par
    else if GoesRight(s, lo, b) then ParentOf(t.right, t.ring[0], s, lo + Pow2(b), b - 1)
    else ParentOf(t.left, t.ring[0], s, lo, b - 1)
  }

  /** The word that points at the node of size s, when h points at the root. */
  ghost function SlotOf(t: Tree, h: int, s: int, lo: int, b: int): int
    requires WF(t, lo, b)
  {
    if t.Nil? || t.size == s then h
    else if GoesRight(s, lo, b) then SlotOf(t.right, t.ring[0] + 40, s, lo + Pow2(b), b - 1)
    else SlotOf(t.left, t.ring[0] + 32, s, lo, b - 1)
  }

  lemma {:induction false} AtIsNode(t: Tree, x: int, s: int, lo: int, b: int)
    requires WF(t, lo, b) && Holds(t, x, s)
    ensures var n := At(t, s, lo, b); n.Node? && n.size == s && x in n.ring
  {
    HoldsBelow(t, x, s);
    OneBranch(t, s, lo, b);
    if t.size != s {
      if GoesRight(s, lo, b) {
        AtIsNode(t.right, x, s, lo + Pow2(b), b - 1);
      } else {
        AtIsNode(t.left, x, s, lo, b - 1);
      }
    }
  }

  lemma {:induction false} AtBelow(t: Tree, s: int, lo: int, b: int, q: int, u: int)
    requires WF(t, lo, b) && Holds(At(t, s, lo, b), q, u)
    ensures Holds(t, q, u)
  {
    if t.size != s {
      if GoesRight(s, lo, b) {
        AtBelow(t.right, s, lo + Pow2(b), b - 1, q, u);
      } else {
        AtBelow(t.left, s, lo, b - 1, q, u);
      }
    }
  }

  /** Unless the node is the root, the word pointing at it is a child word of a stored chunk. */
  lemma {:induction false} SlotInTree(t: Tree, h: int, x: int, s: int, lo: int, b: int) returns (p: int, u: int)
    requires WF(t, lo, b) && Holds(t, x, s) && t.size != s
    ensures Holds(t, p, u) && (SlotOf(t, h, s, lo, b) == p + 32 || SlotOf(t, h, s, lo, b) == p + 40)
    ensures var near := Near(t, s, lo, b);
      near.Node? && if near.size == s then p == t.ring[0] && u == t.size else Holds(near, p, u)
  {
    HoldsBelow(t, x, s);
    OneBranch(t, s, lo, b);
    var near, lo' := Near(t, s, lo, b), if GoesRight(s, lo, b) then lo + Pow2(b) else lo;
    if near.size == s {
      p, u := t.ring[0], t.size;
    } else {
      p, u := SlotInTree(near, t.ring[0] + (if GoesRight(s, lo, b) then 40 else 32), x, s, lo', b - 1);
    }
  }

  ghost predicate SameBut(mem: Mem, mem': Mem, p: int, slot: int) {
    && (p + 16 != slot ==> Rd(mem', p + 16) == Rd(mem, p + 16))
       && (p + 24 != slot ==> Rd(mem', p + 24) == Rd(mem, p + 24))
    && (p + 32 != slot ==> Rd(mem', p + 32) == Rd(mem, p + 32))
       && (p + 40 != slot ==> Rd(mem', p + 40) == Rd(mem, p + 40))
    && (p + 48 != slot ==> Rd(mem', p + 48) == Rd(mem, p + 48))
       && (p + 56 != slot ==> Rd(mem', p + 56) == Rd(mem, p + 56))
  }

  /** Among the chunks of t, only those of the subtree n and the word `slot` may have changed. */
  ghost predicate Confined(mem: Mem, mem': Mem, t: Tree, n: Tree, slot: int) {
    forall q, u {:trigger Holds(t, q, u)} :: Holds(t, q, u) && !Holds(n, q, u) ==> SameBut(mem, mem', q, slot)
  }

  /** Chunks outside the branch taken keep every link word but the slot. */
  lemma PathRoot(L: Layout, mem: Mem, mem': Mem, t: Tree, par: int, h: int, i: int, x: int, s: int, lo: int, b: int)
    requires LayoutOk(L) && StoredIn(L, t) && WF(t, lo, b) && Holds(t, x, s) && t.size != s && Linked(mem, t, par, i)
    requires Confined(mem, mem', t, At(t, s, lo, b), SlotOf(t, h, s, lo, b))
    ensures Chain(mem', Cycle(t.ring)) && Members(mem', t.ring, i)
      && SameBut(mem, mem', t.ring[0], SlotOf(t, h, s, lo, b))
    ensures Linked(mem', Far(t, s, lo, b), t.ring[0], i)
    ensures Near(t, s, lo, b).Node? && Near(t, s, lo, b).size != s ==> SameLinks(mem, mem', t.ring[0])
    ensures Rd(mem', t.ring[0] + 48) == par
  {
    var near, far, slot, n := Near(t, s, lo, b), Far(t, s, lo, b), SlotOf(t, h, s, lo, b), At(t, s, lo, b);
    var p, u := SlotInTree(t, h, x, s, lo, b);
    RingStored(L, t);
    StoredBelow(L, t);
    forall k | 0 <= k < |t.ring|
      ensures SameBut(mem, mem', t.ring[k], slot) && (t.ring[k] != p ==> SameLinks(mem, mem', t.ring[k]))
    {
      assert Holds(t, t.ring[k], t.size);
      OutsideBranch(t, s, lo, b, t.ring[k], t.size);
      KeptBut(L, mem, mem', p, slot, t.ring[k]);
    }
    if near.size != s {
      InOneBranch(L, t, s, lo, b, p, u);
    }
    RingFrame(mem, mem', t.ring, i);
    FarKept(L, mem, mem', t, h, i, x, s, lo, b);
  }

  lemma KeptBut(L: Layout, mem: Mem, mem': Mem, p: int, slot: int, q: int)
    requires LayoutOk(L) && Large(L, p) && Large(L, q) && (slot == p + 32 || slot == p + 40)
    requires SameBut(mem, mem', q, slot)
    ensures q != p ==> SameLinks(mem, mem', q)
  {
    if q != p {
      Distance(L, p, q);
    }
  }

  /** A chunk of the root's ring or of the far branch is not in the node sought. */
  lemma OutsideBranch(t: Tree, s: int, lo: int, b: int, q: int, u: int)
    requires WF(t, lo, b) && t.Node? && t.size != s && (u == t.size || HasSize(Far(t, s, lo, b), u))
    ensures !Holds(At(t, s, lo, b), q, u)
  {
    if Holds(At(t, s, lo, b), q, u) {
      var near, lo' := Near(t, s, lo, b), if GoesRight(s, lo, b) then lo + Pow2(b) else lo;
      AtBelow(near, s, lo', b - 1, q, u);
      HeldHasSize(near, q, u);
      if HasSize(Far(t, s, lo, b), u) {
        LeftBelowRight(t, lo, b, u, u);
      }
    }
  }

  lemma FarKept(L: Layout, mem: Mem, mem': Mem, t: Tree, h: int, i: int, x: int, s: int, lo: int, b: int)
    requires LayoutOk(L) && StoredIn(L, t) && WF(t, lo, b) && Holds(t, x, s) && t.size != s
    requires Linked(mem, Far(t, s, lo, b), t.ring[0], i)
    requires Confined(mem, mem', t, At(t, s, lo, b), SlotOf(t, h, s, lo, b))
    ensures Linked(mem', Far(t, s, lo, b), t.ring[0], i)
  {
    var near, far, slot := Near(t, s, lo, b), Far(t, s, lo, b), SlotOf(t, h, s, lo, b);
    var p, u := SlotInTree(t, h, x, s, lo, b);
    RingStored(L, t);
    StoredBelow(L, t);
    if near.size != s {
      InOneBranch(L, t, s, lo, b, p, u);
    }
    forall q, v | Holds(far, q, v) ensures SameLinks(mem, mem', q) {
      HeldHasSize(far, q, v);
      OutsideBranch(t, s, lo, b, q, v);
      assert Holds(t, q, v);
      KeptBut(L, mem, mem', p, slot, q);
    }
    LinkedFrame(mem, mem', far, t.ring[0], i);
  }

  /** When the node of size s was pruned in place, the whole trie is the one without x. */
  lemma {:induction false} ReplaceUp(L: Layout, mem: Mem, mem': Mem, t: Tree, par: int, h: int, i: int, x: int, s: int,
          lo: int, b: int)
    requires LayoutOk(L) && StoredIn(L, t) && WF(t, lo, b) && Holds(t, x, s) && Linked(mem, t, par, i)
    requires At(t, s, lo, b).Node? && Linked(mem', Prune(At(t, s, lo, b), x), ParentOf(t, par, s, lo, b), i)
    requires Rd(mem', SlotOf(t, h, s, lo, b)) == Root(Prune(At(t, s, lo, b), x))
    requires Confined(mem, mem', t, At(t, s, lo, b), SlotOf(t, h, s, lo, b))
    ensures Linked(mem', Remove(t, x, s, lo, b), par, i)
  {
    if t.size != s {
      HoldsBelow(t, x, s);
      OneBranch(t, s, lo, b);
      StoredBelow(L, t);
      var right := GoesRight(s, lo, b);
      var near, lo' := Near(t, s, lo, b), if right then lo + Pow2(b) else lo;
      PathRoot(L, mem, mem', t, par, h, i, x, s, lo, b);
      forall q, u | Holds(near, q, u) && !Holds(At(t, s, lo, b), q, u)
        ensures SameBut(mem, mem', q, SlotOf(t, h, s, lo, b))
      {
        assert Holds(t, q, u);
      }
      ReplaceUp(L, mem, mem', near, t.ring[0], t.ring[0] + (if right then 40 else 32), i, x, s, lo', b - 1);
    }
  }

  /** The word that points at the leaf `TakeLeaf` detaches, when h points at the root. */
  ghost function LeafSlot(t: Tree, h: int): int {
    if t.Nil? || Leaf(t) then h
    else if t.right.Node? then LeafSlot(t.right, Root(t) + 40)
    else LeafSlot(t.left, Root(t) + 32)
  }

  ghost predicate OutsideWord(t: Tree, h: int) {
    forall q, u {:trigger Holds(t, q, u)} :: Holds(t, q, u) ==> h < q + 16 || q + 64 <= h
  }

  lemma {:induction false} LeafSlotInTree(t: Tree, h: int, lo: int, b: int) returns (p: int, u: int)
    requires WF(t, lo, b) && t.Node? && !Leaf(t)
    ensures Holds(t, p, u) && (LeafSlot(t, h) == p + 32 || LeafSlot(t, h) == p + 40)
    ensures if t.right.Node? then (p == t.ring[0] && LeafSlot(t, h) == p + 40) || Holds(t.right, p, u)
      else (p == t.ring[0] && LeafSlot(t, h) == p + 32) || Holds(t.left, p, u)
  {
    p, u := t.ring[0], t.size;
    if t.right.Node? {
      if !Leaf(t.right) {
        p, u := LeafSlotInTree(t.right, t.ring[0] + 40, lo + Pow2(b), b - 1);
      }
    } else if !Leaf(t.left) {
      p, u := LeafSlotInTree(t.left, t.ring[0] + 32, lo, b - 1);
    }
  }

  /** A child word of the root lies outside the chunks of its branches. */
  lemma OwnWordOutside(L: Layout, t: Tree, lo: int, b: int, o: int)
    requires LayoutOk(L) && StoredIn(L, t) && WF(t, lo, b) && t.Node? && 16 <= o < 64
    ensures OutsideWord(t.left, t.ring[0] + o) && OutsideWord(t.right, t.ring[0] + o)
  {
    RingStored(L, t);
    StoredBelow(L, t);
    forall q, u | Holds(t.left, q, u) || Holds(t.right, q, u)
      ensures t.ring[0] + o < q + 16 || q + 64 <= t.ring[0] + o
    {
      HoldsBelow(t, q, u);
      assert Holds(t, q, u);
      Distance(L, t.ring[0], q);
    }
  }

  /** A changed word of chunk p, not stored in t, leaves t alone. */
  lemma OneWordElsewhere(L: Layout, mem: Mem, mem': Mem, t: Tree, par: int, i: int, p: int, w: int)
    requires LayoutOk(L) && StoredIn(L, t) && Linked(mem, t, par, i) && Large(L, p) && !HasSize(t, L[p].size)
    requires p + 16 <= w < p + 64 && Touched(mem, mem', 0, 0, {w})
    ensures Linked(mem', t, par, i)
  {
    forall q, u | Holds(t, q, u) ensures SameLinks(mem, mem', q) {
      HeldHasSize(t, q, u);
      Distance(L, p, q);
    }
    LinkedFrame(mem, mem', t, par, i);
  }

  /** The root's ring when one child word of p, stored in t, changes. */
  lemma RingOneWord(L: Layout, mem: Mem, mem': Mem, t: Tree, par: int, i: int, p: int, w: int)
    requires LayoutOk(L) && StoredIn(L, t) && t.Node? && NoDup(t.ring) && Linked(mem, t, par, i) && Large(L, p)
    requires (w == p + 32 || w == p + 40) && Touched(mem, mem', 0, 0, {w}) && (p in t.ring ==> p == t.ring[0])
    ensures Chain(mem', Cycle(t.ring)) && Members(mem', t.ring, i) && Rd(mem', t.ring[0] + 48) == par
    ensures w != t.ring[0] + 32 ==> Rd(mem', t.ring[0] + 32) == Rd(mem, t.ring[0] + 32)
    ensures w != t.ring[0] + 40 ==> Rd(mem', t.ring[0] + 40) == Rd(mem, t.ring[0] + 40)
  {
    RingStored(L, t);
    forall k | 0 <= k < |t.ring| ensures t.ring[k] != p ==> SameLinks(mem, mem', t.ring[k]) {
      KeptBut(L, mem, mem', p, w, t.ring[k]);
    }
    RingFrame(mem, mem', t.ring, i);
  }

  ghost predicate Detached(mem: Mem, leaf: Tree, i: int) {
    && leaf.Node? && |leaf.ring| > 0 && Chain(mem, Cycle(leaf.ring)) && Members(mem, leaf.ring, i)
    && Rd(mem, leaf.ring[0] + 32) == 0 && Rd(mem, leaf.ring[0] + 40) == 0
  }

  lemma {:induction false} DetachLinked(L: Layout, mem: Mem, mem': Mem, t: Tree, par: int, h: int, i: int, lo: int,
          b: int)
    requires LayoutOk(L) && StoredIn(L, t) && WF(t, lo, b) && t.Node? && Linked(mem, t, par, i)
    requires OutsideWord(t, h) && Rd(mem, h) == Root(t)
    requires Touched(mem, mem', 0, 0, {LeafSlot(t, h)}) && Rd(mem', LeafSlot(t, h)) == 0
    ensures var (leaf, rest) := TakeLeaf(t);
      Linked(mem', rest, par, i) && Rd(mem', h) == Root(rest) && Detached(mem', leaf, i)
  {
    if Leaf(t) {
      DetachLeaf(L, mem, mem', t, par, h, i);
    } else {
      StoredBelow(L, t);
      var p, u := LeafSlotInTree(t, h, lo, b);
      DetachStep(L, mem, mem', t, par, h, i, lo, b, p, u);
      var right := t.right.Node?;
      var o := if right then 40 else 32;
      OwnWordOutside(L, t, lo, b, o);
      DetachLinked(L, mem, mem', if right then t.right
        else t.left, t.ring[0], t.ring[0] + o, i, if right then lo + Pow2(b) else lo, b - 1);
    }
  }

  lemma DetachLeaf(L: Layout, mem: Mem, mem': Mem, t: Tree, par: int, h: int, i: int)
    requires LayoutOk(L) && StoredIn(L, t) && Leaf(t) && Linked(mem, t, par, i)
    requires OutsideWord(t, h) && Touched(mem, mem', 0, 0, {h})
    ensures Detached(mem', t, i)
  {
    forall k | 0 <= k < |t.ring| ensures SameLinks(mem, mem', t.ring[k]) {
      assert Holds(t, t.ring[k], t.size);
    }
    RingFrame(mem, mem', t.ring, i);
  }

  /** Above the leaf: the root's ring stays, and so does a left branch beside the right one. */
  lemma DetachStep(L: Layout, mem: Mem, mem': Mem, t: Tree, par: int, h: int, i: int, lo: int, b: int, p: int, u: int)
    requires LayoutOk(L) && StoredIn(L, t) && WF(t, lo, b) && t.Node? && !Leaf(t) && Linked(mem, t, par, i)
    requires OutsideWord(t, h) && Touched(mem, mem', 0, 0, {LeafSlot(t, h)})
    requires Holds(t, p, u) && (LeafSlot(t, h) == p + 32 || LeafSlot(t, h) == p + 40)
    requires if t.right.Node? then (p == t.ring[0] && LeafSlot(t, h) == p + 40) || Holds(t.right, p, u)
      else (p == t.ring[0] && LeafSlot(t, h) == p + 32) || Holds(t.left, p, u)
    ensures Chain(mem', Cycle(t.ring)) && Members(mem', t.ring, i) && Rd(mem', t.ring[0] + 48) == par
    ensures Rd(mem', h) == Rd(mem, h)
    ensures t.right.Node? ==> Linked(mem', t.left, t.ring[0], i) && Rd(mem', t.ring[0] + 32) == Root(t.left)
    ensures t.right.Nil? ==> Rd(mem', t.ring[0] + 40) == 0
  {
    var w := LeafSlot(t, h);
    RingStored(L, t);
    StoredBelow(L, t);
    HoldsBelow(t, p, u);
    RingOneWord(L, mem, mem', t, par, i, p, w);
    if t.right.Node? {
      assert Holds(t, t.ring[0], t.size);
      if p != t.ring[0] && HasSize(t.left, u) {
        LeftBelowRight(t, lo, b, u, u);
      }
      OneWordElsewhere(L, mem, mem', t.left, t.ring[0], i, p, w);
      Distance2(L, p, t.ring[0]);
    } else {
      assert Holds(t, t.ring[0], t.size);
      Distance2(L, p, t.ring[0]);
    }
  }

  lemma Distance2(L: Layout, p: int, q: int)
    requires LayoutOk(L) && Large(L, p) && Large(L, q)
    ensures p == q || p + 64 <= q || q + 64 <= p
  {
    if p != q {
      Distance(L, p, q);
    }
  }

  /** Pointing the root's parent word elsewhere gives the same trie under the new parent. */
  lemma Reparent(L: Layout, mem: Mem, mem': Mem, t: Tree, par: int, par': int, i: int)
    requires LayoutOk(L) && StoredIn(L, t) && t.Node? && NoDup(t.ring) && Linked(mem, t, par, i)
    requires !HasSize(t.left, t.size) && !HasSize(t.right, t.size)
    requires forall q, u {:trigger Holds(t, q, u)} :: Holds(t, q, u) ==> SameBut(mem, mem', q, t.ring[0] + 48)
    requires Rd(mem', t.ring[0] + 48) == par'
    ensures Linked(mem', t, par', i)
  {
    var r := t.ring;
    RingStored(L, t);
    StoredBelow(L, t);
    forall k | 0 <= k < |r| ensures SameBut(mem, mem', r[k], r[0] + 48) && (k > 0 ==> SameLinks(mem, mem', r[k])) {
      assert Holds(t, r[k], t.size);
      Distance2(L, r[0], r[k]);
    }
    RingKept(mem, mem', r, i);
    forall q, u | (Holds(t.left, q, u) || Holds(t.right, q, u)) && q != r[0] ensures SameLinks(mem, mem', q) {
      assert Holds(t, q, u);
      Distance(L, r[0], q);
    }
    ReparentBelow(L, mem, mem', t, i);
  }

  /** Rings do not read the parent word of their first member. */
  lemma RingKept(mem: Mem, mem': Mem, r: seq<int>, i: int)
    requires |r| > 0 && Chain(mem, Cycle(r)) && Members(mem, r, i)
    requires Rd(mem', r[0] + 16) == Rd(mem, r[0] + 16) && Rd(mem', r[0] + 24) == Rd(mem, r[0] + 24)
    requires Rd(mem', r[0] + 56) == Rd(mem, r[0] + 56)
    requires forall k {:trigger r[k]} | 0 < k < |r| :: SameLinks(mem, mem', r[k])
    ensures Chain(mem', Cycle(r)) && Members(mem', r, i)
  {
    var c := Cycle(r);
    forall k | 0 <= k < |c|
      ensures Rd(mem', c[k] + 16) == Rd(mem, c[k] + 16) && Rd(mem', c[k] + 24) == Rd(mem, c[k] + 24) {
      assert c[k] == r[if k == |r| then 0 else k];
    }
    ChainFrame(mem, mem', c);
    forall k ensures MemberAt(mem', r, i, k) {
      assert MemberAt(mem, r, i, k);
    }
  }

  lemma ReparentBelow(L: Layout, mem: Mem, mem': Mem, t: Tree, i: int)
    requires LayoutOk(L) && StoredIn(L, t) && t.Node? && |t.ring| > 0
    requires Linked(mem, t.left, t.ring[0], i) && Linked(mem, t.right, t.ring[0], i)
    requires forall q, u {:trigger Holds(t.left, q, u)} {:trigger Holds(t.right, q, u)} ::
      (Holds(t.left, q, u) || Holds(t.right, q, u)) && q != t.ring[0] ==> SameLinks(mem, mem', q)
    requires !HasSize(t.left, t.size) && !HasSize(t.right, t.size)
    ensures Linked(mem', t.left, t.ring[0], i) && Linked(mem', t.right, t.ring[0], i)
  {
    RingStored(L, t);
    forall q, u | Holds(t.left, q, u) || Holds(t.right, q, u) ensures SameLinks(mem, mem', q) {
      HoldsBelow(t, q, u);
      assert Holds(t, q, u);
    }
    LinkedFrame(mem, mem', t.left, t.ring[0], i);
    LinkedFrame(mem, mem', t.right, t.ring[0], i);
  }

  ghost function ParentWord(t: Tree): set<int> {
    if t.Node? then {Root(t) + 48} else {}
  }

  /** The successor r took over the parent, the children and the slot of the node it replaces. */
  ghost predicate Crowned(mem: Mem, mem': Mem, t: Tree, par: int, slot: int) {
    t.Node? &&
    var r := Root(t);
    && Touched(mem, mem', 0, 0, {slot, r + 32, r + 40, r + 48} + ParentWord(t.left) + ParentWord(t.right))
    && Rd(mem', r + 48) == par && Rd(mem', r + 32) == Root(t.left) && Rd(mem', r + 40) == Root(t.right)
    && (t.left.Node? ==> Rd(mem', Root(t.left) + 48) == r)
    && (t.right.Node? ==> Rd(mem', Root(t.right) + 48) == r)
  }

  lemma RootLarge(L: Layout, t: Tree)
    requires StoredIn(L, t) && t.Node? && |t.ring| > 0
    ensures Large(L, Root(t)) && L[Root(t)].size == t.size
  {
    assert Holds(t, t.ring[0], t.size);
  }

  /** Chunk q is each of the three roots, or far from it. */
  lemma CrownApart(L: Layout, t: Tree, q: int, u: int)
    requires LayoutOk(L) && StoredIn(L, t) && t.Node? && |t.ring| > 0 && Holds(t, q, u)
    requires (t.left.Node? ==> |t.left.ring| > 0) && (t.right.Node? ==> |t.right.ring| > 0)
    ensures q == Root(t) || q + 64 <= Root(t) || Root(t) + 64 <= q
    ensures t.left.Nil? || q == Root(t.left) || q + 64 <= Root(t.left) || Root(t.left) + 64 <= q
    ensures t.right.Nil? || q == Root(t.right) || q + 64 <= Root(t.right) || Root(t.right) + 64 <= q
  {
    RootLarge(L, t);
    StoredBelow(L, t);
    Distance2(L, q, Root(t));
    if t.left.Node? {
      RootLarge(L, t.left);
      Distance2(L, q, Root(t.left));
    }
    if t.right.Node? {
      RootLarge(L, t.right);
      Distance2(L, q, Root(t.right));
    }
  }

  /** A crowning changes one word of a branch root and none of other chunks below. */
  lemma CrownKeeps(L: Layout, mem: Mem, mem': Mem, t: Tree, par: int, slot: int, lo: int, b: int, q: int, u: int,
          keep: int)
    requires LayoutOk(L) && StoredIn(L, t) && WF(t, lo, b) && Crowned(mem, mem', t, par, slot) && OutsideWord(t, slot)
    requires Holds(t, q, u) && q != Root(t)
    requires (q == Root(t.left) ==> keep == q) && (q == Root(t.right) ==> keep == q)
    ensures SameBut(mem, mem', q, keep + 48)
    ensures q != Root(t.left) && q != Root(t.right) ==> SameLinks(mem, mem', q)
  {
    CrownApart(L, t, q, u);
  }

  /** The successor's own ring words and bin index stay. */
  lemma CrownKeepsRoot(L: Layout, mem: Mem, mem': Mem, t: Tree, par: int, slot: int, lo: int, b: int)
    requires LayoutOk(L) && StoredIn(L, t) && WF(t, lo, b) && Crowned(mem, mem', t, par, slot) && OutsideWord(t, slot)
    requires Root(t) != Root(t.left) && Root(t) != Root(t.right)
    ensures var q := Root(t);
      Rd(mem', q + 16) == Rd(mem, q + 16) && Rd(mem', q + 24) == Rd(mem, q + 24) && Rd(mem', q + 56) == Rd(mem, q + 56)
  {
    assert Holds(t, Root(t), t.size);
    CrownApart(L, t, Root(t), t.size);
  }

  /** The three roots of a node and its branches are different chunks of different sizes. */
  lemma RootsDiffer(L: Layout, t: Tree, lo: int, b: int)
    requires LayoutOk(L) && StoredIn(L, t) && WF(t, lo, b) && t.Node?
    ensures Root(t.left) !in t.ring && Root(t.right) !in t.ring
    ensures t.left.Node? && t.right.Node? ==> t.left.size < t.right.size
    ensures forall q, u {:trigger Holds(t.left, q, u)} :: Holds(t.left, q, u) ==> q != Root(t) && q != Root(t.right)
    ensures forall q, u {:trigger Holds(t.right, q, u)} :: Holds(t.right, q, u) ==> q != Root(t) && q != Root(t.left)
  {
    RingStored(L, t);
    StoredBelow(L, t);
    if t.left.Node? {
      RootLarge(L, t.left);
    }
    if t.right.Node? {
      RootLarge(L, t.right);
    }
    if t.left.Node? && t.right.Node? {
      LeftBelowRight(t, lo, b, t.left.size, t.right.size);
    }
    forall q, u | Holds(t.left, q, u) ensures q != Root(t) && q != Root(t.right) {
      HoldsBelow(t, q, u);
      assert ChunkOk(L, q);
      if t.right.Node? {
        LeftBelowRight(t, lo, b, u, t.right.size);
      }
    }
    forall q, u | Holds(t.right, q, u) ensures q != Root(t) && q != Root(t.left) {
      HoldsBelow(t, q, u);
      assert ChunkOk(L, q);
      if t.left.Node? {
        LeftBelowRight(t, lo, b, t.left.size, u);
      }
    }
  }

  lemma CrownRing(L: Layout, mem: Mem, mem': Mem, t: Tree, par: int, slot: int, i: int, lo: int, b: int)
    requires LayoutOk(L) && StoredIn(L, t) && WF(t, lo, b) && Crowned(mem, mem', t, par, slot) && OutsideWord(t, slot)
    requires Chain(mem, Cycle(t.ring)) && Members(mem, t.ring, i)
    ensures Chain(mem', Cycle(t.ring)) && Members(mem', t.ring, i)
  {
    RootsDiffer(L, t, lo, b);
    forall k | 0 < k < |t.ring| ensures SameLinks(mem, mem', t.ring[k]) {
      CrownKeeps(L, mem, mem', t, par, slot, lo, b, t.ring[k], t.size, 0);
    }
    CrownKeepsRoot(L, mem, mem', t, par, slot, lo, b);
    RingKept(mem, mem', t.ring, i);
  }

  lemma CrownLeft(L: Layout, mem: Mem, mem': Mem, t: Tree, x: int, par: int, slot: int, i: int, lo: int, b: int)
    requires LayoutOk(L) && StoredIn(L, t) && WF(t, lo, b) && Crowned(mem, mem', t, par, slot) && OutsideWord(t, slot)
    requires Linked(mem, t.left, x, i)
    ensures Linked(mem', t.left, Root(t), i)
  {
    if t.left.Node? {
      RootsDiffer(L, t, lo, b);
      StoredBelow(L, t);
      forall q, u | Holds(t.left, q, u) ensures SameBut(mem, mem', q, Root(t.left) + 48) {
        CrownKeeps(L, mem, mem', t, par, slot, lo, b, q, u, Root(t.left));
      }
      Reparent(L, mem, mem', t.left, x, Root(t), i);
    }
  }

  lemma CrownRight(L: Layout, mem: Mem, mem': Mem, t: Tree, x: int, par: int, slot: int, i: int, lo: int, b: int)
    requires LayoutOk(L) && StoredIn(L, t) && WF(t, lo, b) && Crowned(mem, mem', t, par, slot) && OutsideWord(t, slot)
    requires Linked(mem, t.right, x, i)
    ensures Linked(mem', t.right, Root(t), i)
  {
    if t.right.Node? {
      RootsDiffer(L, t, lo, b);
      StoredBelow(L, t);
      forall q, u | Holds(t.right, q, u) ensures SameBut(mem, mem', q, Root(t.right) + 48) {
        CrownKeeps(L, mem, mem', t, par, slot, lo, b, q, u, Root(t.right));
      }
      Reparent(L, mem, mem', t.right, x, Root(t), i);
    }
  }

  /** A node rebuilt around its successor is laid out under the old parent. */
  lemma CrownLinked(L: Layout, mem: Mem, mem': Mem, t: Tree, x: int, par: int, slot: int, i: int, lo: int, b: int)
    requires LayoutOk(L) && StoredIn(L, t) && WF(t, lo, b) && Crowned(mem, mem', t, par, slot) && OutsideWord(t, slot)
    requires Chain(mem, Cycle(t.ring)) && Members(mem, t.ring, i)
    requires Linked(mem, t.left, x, i) && Linked(mem, t.right, x, i)
    ensures Linked(mem', t, par, i)
  {
    CrownRing(L, mem, mem', t, par, slot, i, lo, b);
    CrownLeft(L, mem, mem', t, x, par, slot, i, lo, b);
    CrownRight(L, mem, mem', t, x, par, slot, i, lo, b);
  }
}
