/** The size-keyed bitwise tries of one tree bin, as values: shape, search keys, insertion and removal. */
module Tries {

  function Pow2(n: nat): (r: int)
    ensures r >= 1
  {
    if n == 0 then 1 else 2 * Pow2(n - 1)
  }

  /** A node is the ring of all chunks of one size, oldest first; only ring[0] carries tree links. */
  datatype Tree = Nil | Node(ring: seq<int>, size: int, left: Tree, right: Tree)

  function Root(t: Tree): int {
    if t.Node? && |t.ring| > 0 then t.ring[0] else 0
  }

  predicate Leaf(t: Tree) {
    t.Node? && t.left.Nil? && t.right.Nil?
  }

  /** Chunk p of size s is stored in t. */
  predicate Holds(t: Tree, p: int, s: int) {
    t.Node? && ((p in t.ring && s == t.size) || Holds(t.left, p, s) || Holds(t.right, p, s))
  }

  /** Chunk p of size s is in t and first in its ring: a node of the trie. */
  predicate Leads(t: Tree, p: int, s: int) {
    t.Node? && ((|t.ring| > 0 && p == t.ring[0] && s == t.size) || Leads(t.left, p, s) || Leads(t.right, p, s))
  }

  lemma {:induction false} LeadsHolds(t: Tree, p: int, s: int)
    requires Leads(t, p, s)
    ensures Holds(t, p, s)
  {
    if Leads(t.left, p, s) {
      LeadsHolds(t.left, p, s);
    } else if Leads(t.right, p, s) {
      LeadsHolds(t.right, p, s);
    }
  }

  predicate HasSize(t: Tree, s: int) {
    t.Node? && (s == t.size || HasSize(t.left, s) || HasSize(t.right, s))
  }

  ghost predicate NoDup(r: seq<int>) {
    forall i, j {:trigger r[i], r[j]} | 0 <= i < j < |r| :: r[i] != r[j]
  }

  /** Sizes in t agree with lo above bit b, the bits below b select the branches, and no size repeats. */
  ghost predicate WF(t: Tree, lo: int, b: int) {
    t.Node? ==>
      && b >= 2 && lo % 8 == 0 && |t.ring| > 0 && NoDup(t.ring) && 0 !in t.ring
      && t.size % 8 == 0 && lo <= t.size < lo + 2 * Pow2(b)
      && !HasSize(t.left, t.size) && !HasSize(t.right, t.size)
      && WF(t.left, lo, b - 1) && WF(t.right, lo + Pow2(b), b - 1)
  }

  lemma {:induction false} SizesInRange(t: Tree, lo: int, b: int, s: int)
    requires WF(t, lo, b) && HasSize(t, s)
    ensures b >= 2 && s % 8 == 0 && lo <= s < lo + 2 * Pow2(b)
  {
    if HasSize(t.left, s) {
      SizesInRange(t.left, lo, b - 1, s);
    } else if HasSize(t.right, s) {
      SizesInRange(t.right, lo + Pow2(b), b - 1, s);
    }
  }

  lemma {:induction false} HeldHasSize(t: Tree, p: int, s: int)
    requires Holds(t, p, s)
    ensures HasSize(t, s)
  {
    if Holds(t.left, p, s) {
      HeldHasSize(t.left, p, s);
    } else if Holds(t.right, p, s) {
      HeldHasSize(t.right, p, s);
    }
  }

  /** Every left size is below every right size. */
  lemma LeftBelowRight(t: Tree, lo: int, b: int, s: int, u: int)
    requires WF(t, lo, b) && t.Node? && HasSize(t.left, s) && HasSize(t.right, u)
    ensures s < u
  {
    SizesInRange(t.left, lo, b - 1, s);
    SizesInRange(t.right, lo + Pow2(b), b - 1, u);
  }

  /** Where a walk for size s may stand: s belongs to the range of a node at bit b. */
  ghost predicate Fits(s: int, lo: int, b: int) {
    b >= 2 && lo % 8 == 0 && s % 8 == 0 && lo <= s < lo + 2 * Pow2(b)
  }

  ghost predicate GoesRight(s: int, lo: int, b: int)
    requires b >= 0
  {
    lo + Pow2(b) <= s
  }

  /** A node of another size leaves a bit to branch on, and s fits the branch that bit selects. */
  lemma BranchFits(t: Tree, s: int, lo: int, b: int)
    requires WF(t, lo, b) && t.Node? && t.size != s && Fits(s, lo, b)
    ensures b >= 3
    ensures GoesRight(s, lo, b) ==> Fits(s, lo + Pow2(b), b - 1)
    ensures !GoesRight(s, lo, b) ==> Fits(s, lo, b - 1)
  {
    assert Pow2(2) == 4;
    assert b >= 3 ==> Pow2(b - 1) == 2 * Pow2(b - 2) && Pow2(b - 2) == 2 * Pow2(b - 3);
  }

  /** A node of a size is the root exactly if the root has that size, and its branch has the size otherwise. */
  lemma LeadsPlace(t: Tree, lo: int, b: int, p: int, s: int)
    requires WF(t, lo, b) && Leads(t, p, s)
    ensures s == t.size ==> p == t.ring[0]
    ensures s != t.size ==> Leads(t.left, p, s) || Leads(t.right, p, s)
    ensures Leads(t.left, p, s) ==> HasSize(t.left, s)
    ensures Leads(t.right, p, s) ==> HasSize(t.right, s)
  {
    if Leads(t.left, p, s) {
      LeadsHolds(t.left, p, s);
      HeldHasSize(t.left, p, s);
    }
    if Leads(t.right, p, s) {
      LeadsHolds(t.right, p, s);
      HeldHasSize(t.right, p, s);
    }
  }

  /** A size has one node. */
  lemma {:induction false} LeadsUnique(t: Tree, lo: int, b: int, p: int, q: int, s: int)
    requires WF(t, lo, b) && Leads(t, p, s) && Leads(t, q, s)
    ensures p == q
  {
    LeadsPlace(t, lo, b, p, s);
    LeadsPlace(t, lo, b, q, s);
    if s != t.size {
      if Leads(t.left, p, s) && Leads(t.left, q, s) {
        LeadsUnique(t.left, lo, b - 1, p, q, s);
      } else if Leads(t.right, p, s) && Leads(t.right, q, s) {
        LeadsUnique(t.right, lo + Pow2(b), b - 1, p, q, s);
      } else {
        LeftBelowRight(t, lo, b, s, s);
      }
    }
  }

  /** The walk of an insertion: join the ring of an equal size, or hang a new leaf on the first empty branch. */
  ghost function Insert(t: Tree, x: int, s: int, lo: int, b: int): Tree
    requires WF(t, lo, b)
  {
    match t
    case Nil => Node([x], s, Nil, Nil)
    case Node(ring, size, left, right) =>
      if size == s then Node([ring[0], x] + ring[1..], size, left, right)
      else if GoesRight(s, lo, b) then Node(ring, size, left, Insert(right, x, s, lo + Pow2(b), b - 1))
      else Node(ring, size, Insert(left, x, s, lo, b - 1), right)
  }

  lemma {:induction false} InsertHolds(t: Tree, x: int, s: int, lo: int, b: int, p: int, u: int)
    requires WF(t, lo, b)
    ensures Holds(Insert(t, x, s, lo, b), p, u) <==> Holds(t, p, u) || (p == x && u == s)
    ensures HasSize(Insert(t, x, s, lo, b), u) <==> HasSize(t, u) || u == s
  {
    if t.Node? && t.size != s {
      if GoesRight(s, lo, b) {
        InsertHolds(t.right, x, s, lo + Pow2(b), b - 1, p, u);
      } else {
        InsertHolds(t.left, x, s, lo, b - 1, p, u);
      }
    }
  }

  lemma {:induction false} InsertWF(t: Tree, x: int, s: int, lo: int, b: int)
    requires WF(t, lo, b) && Fits(s, lo, b) && x != 0 && !Holds(t, x, s)
    ensures WF(Insert(t, x, s, lo, b), lo, b)
  {
    if t.Node? && t.size != s {
      BranchFits(t, s, lo, b);
      if GoesRight(s, lo, b) {
        InsertWF(t.right, x, s, lo + Pow2(b), b - 1);
        InsertHolds(t.right, x, s, lo + Pow2(b), b - 1, x, t.size);
      } else {
        InsertWF(t.left, x, s, lo, b - 1);
        InsertHolds(t.left, x, s, lo, b - 1, x, t.size);
      }
    }
  }

  ghost function DropAt(r: seq<int>, k: int): seq<int>
    requires 0 <= k < |r|
  {
    r[..k] + r[k + 1..]
  }

  /** Detach the leaf reached by going right whenever possible; yields the leaf and the remaining tree. */
  ghost function TakeLeaf(t: Tree): (r: (Tree, Tree))
    requires t.Node?
    ensures Leaf(r.0)
  {
    if t.right.Node? then
      var (leaf, rest) := TakeLeaf(t.right);
      (leaf, t.(right := rest))
    else if t.left.Node? then
      var (leaf, rest) := TakeLeaf(t.left);
      (leaf, t.(left := rest))
    else (t, Nil)
  }

  /** Remove the only chunk of the root's size: a leaf below takes the root's place. */
  ghost function Behead(t: Tree): Tree
    requires t.Node?
  {
    if t.right.Node? then
      var (leaf, rest) := TakeLeaf(t.right);
      Node(leaf.ring, leaf.size, t.left, rest)
    else if t.left.Node? then
      var (leaf, rest) := TakeLeaf(t.left);
      Node(leaf.ring, leaf.size, rest, t.right)
    else Nil
  }

  ghost function IndexOf(r: seq<int>, x: int): (k: int)
    requires x in r
    ensures 0 <= k < |r| && r[k] == x
  {
    if r[0] == x then 0 else IndexOf(r[1..], x) + 1
  }

  /** The last member moves to the front in place of the first. */
  ghost function Promote(r: seq<int>): seq<int>
    requires |r| > 1
  {
    [r[|r| - 1]] + r[1..|r| - 1]
  }

  /** Remove x from the root's ring; when x is the tree member, the chunk behind it in the ring succeeds it. */
  ghost function Unring(r: seq<int>, x: int): seq<int>
    requires |r| > 1 && x in r
  {
    if x == r[0] then Promote(r) else DropAt(r, IndexOf(r, x))
  }

  /** Remove x from the node it is stored at: from the ring if others share its size, else the node itself. */
  ghost function Prune(t: Tree, x: int): Tree
    requires t.Node?
  {
    if |t.ring| > 1 && x in t.ring then t.(ring := Unring(t.ring, x)) else Behead(t)
  }

  ghost function Remove(t: Tree, x: int, s: int, lo: int, b: int): Tree
    requires WF(t, lo, b)
  {
    if t.Nil? then Nil
    else if t.size == s then Prune(t, x)
    else if GoesRight(s, lo, b) then t.(right := Remove(t.right, x, s, lo + Pow2(b), b - 1))
    else t.(left := Remove(t.left, x, s, lo, b - 1))
  }

  lemma {:induction false} TakeLeafHolds(t: Tree, p: int, u: int)
    requires t.Node?
    ensures var (leaf, rest) := TakeLeaf(t);
      && (Holds(t, p, u) <==> Holds(rest, p, u) || Holds(leaf, p, u))
      && (HasSize(t, u) <==> HasSize(rest, u) || u == leaf.size)
  {
    if t.right.Node? {
      TakeLeafHolds(t.right, p, u);
    } else if t.left.Node? {
      TakeLeafHolds(t.left, p, u);
    }
  }

  lemma {:induction false} TakeLeafWF(t: Tree, lo: int, b: int)
    requires t.Node? && WF(t, lo, b)
    ensures var (leaf, rest) := TakeLeaf(t);
      && WF(rest, lo, b) && |leaf.ring| > 0 && NoDup(leaf.ring) && 0 !in leaf.ring
      && leaf.size % 8 == 0 && lo <= leaf.size < lo + 2 * Pow2(b) && !HasSize(rest, leaf.size)
  {
    TakeLeafHolds(t, 0, t.size);
    if t.right.Node? {
      TakeLeafWF(t.right, lo + Pow2(b), b - 1);
      TakeLeafHolds(t.right, 0, t.size);
      var size := TakeLeaf(t.right).0.size;
      TakeLeafHolds(t.right, 0, size);
      if HasSize(t.left, size) {
        LeftBelowRight(t, lo, b, size, size);
      }
    } else if t.left.Node? {
      TakeLeafWF(t.left, lo, b - 1);
      TakeLeafHolds(t.left, 0, t.size);
      TakeLeafHolds(t.left, 0, TakeLeaf(t.left).0.size);
    }
  }

  lemma BeheadHolds(t: Tree, p: int, u: int)
    requires t.Node?
    ensures Holds(Behead(t), p, u) <==> Holds(t.left, p, u) || Holds(t.right, p, u)
    ensures HasSize(Behead(t), u) <==> HasSize(t.left, u) || HasSize(t.right, u)
  {
    if t.right.Node? {
      TakeLeafHolds(t.right, p, u);
    } else if t.left.Node? {
      TakeLeafHolds(t.left, p, u);
    }
  }

  lemma BeheadWF(t: Tree, lo: int, b: int)
    requires t.Node? && WF(t, lo, b)
    ensures WF(Behead(t), lo, b)
  {
    if t.right.Node? {
      TakeLeafWF(t.right, lo + Pow2(b), b - 1);
      var size := TakeLeaf(t.right).0.size;
      TakeLeafHolds(t.right, 0, size);
      if HasSize(t.left, size) {
        LeftBelowRight(t, lo, b, size, size);
      }
    } else if t.left.Node? {
      TakeLeafWF(t.left, lo, b - 1);
    }
  }

  lemma DropKeeps(r: seq<int>, k: int, p: int)
    requires 0 <= k < |r| && NoDup(r)
    ensures p in DropAt(r, k) <==> p in r && p != r[k]
    ensures NoDup(DropAt(r, k))
  {
    var q := DropAt(r, k);
    forall i | 0 <= i < |q| ensures q[i] == r[if i < k then i else i + 1] {}
    if p in r && p != r[k] {
      var i := IndexOf(r, p);
      assert q[if i < k then i else i - 1] == p;
    }
  }

  lemma PromoteKeeps(r: seq<int>, p: int)
    requires |r| > 1 && NoDup(r)
    ensures p in Promote(r) <==> p in r && p != r[0]
    ensures NoDup(Promote(r))
  {
    var q := Promote(r);
    forall i | 0 < i < |q| ensures q[i] == r[i] {}
    if p in r && p != r[0] {
      var i := IndexOf(r, p);
      assert q[if i == |r| - 1 then 0 else i] == p;
    }
  }

  lemma UnringKeeps(r: seq<int>, x: int, p: int)
    requires |r| > 1 && x in r && NoDup(r)
    ensures p in Unring(r, x) <==> p in r && p != x
    ensures |Unring(r, x)| == |r| - 1 && NoDup(Unring(r, x))
  {
    if x == r[0] {
      PromoteKeeps(r, p);
    } else {
      DropKeeps(r, IndexOf(r, x), p);
    }
  }

  lemma HoldsBelow(t: Tree, x: int, s: int)
    requires t.Node?
    ensures Holds(t.left, x, s) ==> HasSize(t.left, s)
    ensures Holds(t.right, x, s) ==> HasSize(t.right, s)
  {
    if Holds(t.left, x, s) {
      HeldHasSize(t.left, x, s);
    }
    if Holds(t.right, x, s) {
      HeldHasSize(t.right, x, s);
    }
  }

  /** The bit selects the only branch that can hold a size. */
  lemma OneBranch(t: Tree, s: int, lo: int, b: int)
    requires WF(t, lo, b) && t.Node?
    ensures GoesRight(s, lo, b) ==> !HasSize(t.left, s)
    ensures !GoesRight(s, lo, b) ==> !HasSize(t.right, s)
  {
    if HasSize(t.left, s) {
      SizesInRange(t.left, lo, b - 1, s);
    }
    if HasSize(t.right, s) {
      SizesInRange(t.right, lo + Pow2(b), b - 1, s);
    }
  }

  lemma PruneHolds(t: Tree, x: int, lo: int, b: int, p: int, u: int)
    requires WF(t, lo, b) && t.Node? && x in t.ring
    ensures Holds(Prune(t, x), p, u) <==> Holds(t, p, u) && !(p == x && u == t.size)
    ensures HasSize(Prune(t, x), u) ==> HasSize(t, u)
  {
    HoldsBelow(t, x, t.size);
    if |t.ring| > 1 {
      UnringKeeps(t.ring, x, p);
    } else {
      BeheadHolds(t, p, u);
    }
  }

  /** Removal takes away chunk x of size s and nothing else. */
  lemma {:induction false} RemoveHolds(t: Tree, x: int, s: int, lo: int, b: int, p: int, u: int)
    requires WF(t, lo, b) && Holds(t, x, s)
    ensures Holds(Remove(t, x, s, lo, b), p, u) <==> Holds(t, p, u) && !(p == x && u == s)
    ensures HasSize(Remove(t, x, s, lo, b), u) ==> HasSize(t, u)
  {
    HoldsBelow(t, x, s);
    OneBranch(t, s, lo, b);
    if t.size == s {
      PruneHolds(t, x, lo, b, p, u);
    } else if GoesRight(s, lo, b) {
      RemoveHolds(t.right, x, s, lo + Pow2(b), b - 1, p, u);
    } else {
      RemoveHolds(t.left, x, s, lo, b - 1, p, u);
    }
  }

  lemma {:induction false} RemoveWF(t: Tree, x: int, s: int, lo: int, b: int)
    requires WF(t, lo, b) && Holds(t, x, s)
    ensures WF(Remove(t, x, s, lo, b), lo, b)
  {
    HoldsBelow(t, x, s);
    OneBranch(t, s, lo, b);
    if t.size == s {
      if |t.ring| > 1 {
        UnringKeeps(t.ring, x, 0);
      } else {
        BeheadWF(t, lo, b);
      }
    } else if GoesRight(s, lo, b) {
      RemoveWF(t.right, x, s, lo + Pow2(b), b - 1);
      RemoveHolds(t.right, x, s, lo + Pow2(b), b - 1, x, t.size);
    } else {
      RemoveWF(t.left, x, s, lo, b - 1);
      RemoveHolds(t.left, x, s, lo, b - 1, x, t.size);
    }
  }
}
