/** The order in which chunks of one size are served: newest first when small, oldest first when large. */
module Orders {
  import opened Words
  import opened Tries
  import opened Sizes
  import opened Keys
  import opened Pools

  /** A node of t has this ring and this size. */
  ghost predicate RingIn(t: Tree, r: seq<int>, s: int) {
    t.Node? && ((r == t.ring && s == t.size) || RingIn(t.left, r, s) || RingIn(t.right, r, s))
  }

  ghost function Reversed(r: seq<int>): seq<int> {
    if r == [] then [] else Reversed(r[1..]) + [r[0]]
  }

  /** The members of a ring from the tree member backwards: the order in which they succeed each other. */
  ghost function Queue(r: seq<int>): seq<int>
    requires r != []
  {
    [r[0]] + Reversed(r[1..])
  }

  lemma {:induction false} ReversedDrops(r: seq<int>)
    requires r != []
    ensures Reversed(r) == [r[|r| - 1]] + Reversed(r[..|r| - 1])
  {
    if |r| > 1 {
      ReversedDrops(r[1..]);
      assert r[1..][..|r| - 2] == r[..|r| - 1][1..];
    }
  }

  /** A chunk that joins a ring is served last. */
  lemma QueueJoins(r: seq<int>, x: int)
    requires r != []
    ensures Queue([r[0], x] + r[1..]) == Queue(r) + [x]
  {
    var q := [r[0], x] + r[1..];
    assert q[1..] == [x] + r[1..];
    assert q[1..][1..] == r[1..];
  }

  /** When the tree member leaves, the next in the queue takes its place. */
  lemma QueueMoves(r: seq<int>)
    requires |r| > 1
    ensures Unring(r, r[0]) != [] && Queue(Unring(r, r[0])) == Queue(r)[1..]
  {
    var q := Promote(r);
    ReversedDrops(r[1..]);
    assert q[1..] == r[1..][..|r| - 2];
  }

  // ----- rings of other sizes

  lemma {:induction false} LeafRings(t: Tree, r: seq<int>, u: int)
    requires t.Node?
    ensures var (leaf, rest) := TakeLeaf(t);
      RingIn(t, r, u) <==> RingIn(rest, r, u) || (r == leaf.ring && u == leaf.size)
  {
    if t.right.Node? {
      LeafRings(t.right, r, u);
    } else if t.left.Node? {
      LeafRings(t.left, r, u);
    }
  }

  lemma BeheadRings(t: Tree, r: seq<int>, u: int)
    requires t.Node?
    ensures RingIn(Behead(t), r, u) <==> RingIn(t.left, r, u) || RingIn(t.right, r, u)
  {
    if t.right.Node? {
      LeafRings(t.right, r, u);
    } else if t.left.Node? {
      LeafRings(t.left, r, u);
    }
  }

  lemma {:induction false} RingHasSize(t: Tree, r: seq<int>, s: int)
    requires RingIn(t, r, s)
    ensures HasSize(t, s)
  {
    if RingIn(t.left, r, s) {
      RingHasSize(t.left, r, s);
    } else if RingIn(t.right, r, s) {
      RingHasSize(t.right, r, s);
    }
  }

  /** The rings of a size: the root's own, or those of the branch that the size selects. */
  lemma Branches(t: Tree, lo: int, b: int, s: int, r: seq<int>)
    requires WF(t, lo, b) && t.Node? && Fits(s, lo, b)
    ensures t.size == s ==> (RingIn(t, r, s) <==> r == t.ring) && !RingIn(t.left, r, s) && !RingIn(t.right, r, s)
    ensures t.size != s ==>
      b >= 3 && (RingIn(t, r, s) <==> RingIn(if GoesRight(s, lo, b) then t.right else t.left, r, s))
  {
    if t.size != s {
      BranchFits(t, s, lo, b);
    }
    if RingIn(t.left, r, s) {
      RingHasSize(t.left, r, s);
      SizesInRange(t.left, lo, b - 1, s);
    }
    if RingIn(t.right, r, s) {
      RingHasSize(t.right, r, s);
      SizesInRange(t.right, lo + Pow2(b), b - 1, s);
    }
  }

  /** Inserting x at size s leaves the rings of other sizes, and puts x behind the tree member of its own. */
  lemma {:induction false} InsertRings(t: Tree, x: int, s: int, lo: int, b: int, r: seq<int>, u: int)
    requires WF(t, lo, b) && Fits(s, lo, b)
    ensures u != s ==> (RingIn(Insert(t, x, s, lo, b), r, u) <==> RingIn(t, r, u))
    ensures RingIn(t, r, s) ==> r != [] && RingIn(Insert(t, x, s, lo, b), [r[0], x] + r[1..], s)
    ensures !HasSize(t, s) ==> RingIn(Insert(t, x, s, lo, b), [x], s)
  {
    if t.Node? {
      Branches(t, lo, b, s, r);
      if t.size != s {
        BranchFits(t, s, lo, b);
        if GoesRight(s, lo, b) {
          InsertRings(t.right, x, s, lo + Pow2(b), b - 1, r, u);
        } else {
          InsertRings(t.left, x, s, lo, b - 1, r, u);
        }
      }
    }
  }

  /** Removing x of size s leaves the rings of other sizes, and takes x out of its own, or the size away with it. */
  lemma {:induction false} RemoveRings(t: Tree, x: int, s: int, lo: int, b: int, r: seq<int>, u: int)
    requires WF(t, lo, b) && Fits(s, lo, b) && Holds(t, x, s)
    ensures u != s ==> (RingIn(Remove(t, x, s, lo, b), r, u) <==> RingIn(t, r, u))
    ensures RingIn(t, r, s) && |r| > 1 && x in r ==> RingIn(Remove(t, x, s, lo, b), Unring(r, x), s)
    ensures RingIn(t, [x], s) ==> !HasSize(Remove(t, x, s, lo, b), s)
  {
    HoldsBelow(t, x, s);
    OneBranch(t, s, lo, b);
    Branches(t, lo, b, s, r);
    Branches(t, lo, b, s, [x]);
    if t.size == s {
      BeheadRings(t, r, u);
      BeheadHolds(t, x, s);
    } else {
      BranchFits(t, s, lo, b);
      if GoesRight(s, lo, b) {
        RemoveRings(t.right, x, s, lo + Pow2(b), b - 1, r, u);
      } else {
        RemoveRings(t.left, x, s, lo, b - 1, r, u);
      }
    }
  }

  // ----- queues of a trie

  /** The chunks of a size in t, in the order in which they are served. */
  ghost predicate Queued(t: Tree, s: int, q: seq<int>) {
    if q == [] then !HasSize(t, s)
    else exists r {:trigger RingIn(t, r, s)} :: RingIn(t, r, s) && r != [] && q == Queue(r)
  }

  lemma {:induction false} RingLeads(t: Tree, r: seq<int>, s: int)
    requires RingIn(t, r, s) && r != []
    ensures Leads(t, r[0], s)
  {
    if RingIn(t.left, r, s) {
      RingLeads(t.left, r, s);
    } else if RingIn(t.right, r, s) {
      RingLeads(t.right, r, s);
    }
  }

  lemma InsertQueued(t: Tree, x: int, s: int, lo: int, b: int, u: int, q: seq<int>)
    requires WF(t, lo, b) && Fits(s, lo, b) && Queued(t, u, q)
    ensures Queued(Insert(t, x, s, lo, b), u, if u == s then q + [x] else q)
  {
    hide Insert, RingIn, HasSize;
    InsertHolds(t, x, s, lo, b, x, u);
    if q == [] {
      InsertRings(t, x, s, lo, b, [], u);
      assert Queue([x]) == [x];
    } else {
      var r :| RingIn(t, r, u) && r != [] && q == Queue(r);
      InsertRings(t, x, s, lo, b, r, u);
      QueueJoins(r, x);
    }
  }

  lemma RemoveQueued(t: Tree, s: int, lo: int, b: int, q: seq<int>)
    requires WF(t, lo, b) && Fits(s, lo, b) && Queued(t, s, q) && q != []
    ensures Holds(t, q[0], s) && Queued(Remove(t, q[0], s, lo, b), s, q[1..])
  {
    hide Remove, RingIn, HasSize;
    var r :| RingIn(t, r, s) && r != [] && q == Queue(r);
    RingLeads(t, r, s);
    LeadsHolds(t, r[0], s);
    RemoveRings(t, r[0], s, lo, b, r, s);
    if |r| == 1 {
      assert r == [r[0]];
    } else {
      QueueMoves(r);
    }
    QueueLength(r);
  }

  lemma QueueLength(r: seq<int>)
    requires r != []
    ensures |Queue(r)| == |r|
  {
    ReversedLength(r[1..]);
  }

  lemma {:induction false} ReversedLength(r: seq<int>)
    ensures |Reversed(r)| == |r|
  {
    if r != [] {
      ReversedLength(r[1..]);
    }
  }

  lemma RemoveOthers(t: Tree, x: int, s: int, lo: int, b: int, u: int, q: seq<int>)
    requires WF(t, lo, b) && Fits(s, lo, b) && Holds(t, x, s) && u != s && Queued(t, u, q)
    ensures Queued(Remove(t, x, s, lo, b), u, q)
  {
    hide Remove, RingIn, HasSize;
    RemoveHolds(t, x, s, lo, b, x, u);
    if q != [] {
      var r :| RingIn(t, r, u) && r != [] && q == Queue(r);
      RemoveRings(t, x, s, lo, b, r, u);
    }
  }

  // ----- queues of the bins

  /** The binned chunks of a size, in the order in which they are served. */
  ghost predicate Waiting(b: Bins, s: int, q: seq<int>) {
    if s < MIN_LARGE_SIZE then 0 <= s / 8 < |b.sb| && q == b.sb[s / 8]
    else TrieAt(b, s) && Queued(b.tb[TreeIndex(s)], s, q)
  }

  /** A chunk size that has a bin. */
  ghost predicate BinSize(s: int) {
    MIN_CHUNK_SIZE <= s < TWO64 && s % 8 == 0
  }

  /** The chunk a bin offers is the first that waits. */
  lemma FrontWaits(b: Bins, s: int, p: int, q: seq<int>)
    requires Waiting(b, s, q)
    ensures Front(b, p, s) <==> q != [] && q[0] == p
  {
    hide TreeIndex, WF;
    if s >= MIN_LARGE_SIZE {
      var i := TreeIndex(s);
      if q != [] {
        var r :| RingIn(b.tb[i], r, s) && r != [] && q == Queue(r);
        RingLeads(b.tb[i], r, s);
        if Front(b, p, s) {
          LeadsUnique(b.tb[i], TreeLo(i), TreeBit(i), p, r[0], s);
        }
      } else if Front(b, p, s) {
        LeadsHolds(b.tb[i], p, s);
        HeldHasSize(b.tb[i], p, s);
      }
    }
  }

  /** A small chunk is served before those of its size that wait already, a large one after them. */
  lemma FiledWaits(b: Bins, p: int, s: int, q: seq<int>)
    requires BinSize(s) && Waiting(b, s, q) && p != 0 && (MIN_LARGE_SIZE <= s ==> !Holds(b.tb[TreeIndex(s)], p, s))
    ensures Waiting(Filed(b, p, s), s, if s < MIN_LARGE_SIZE then [p] + q else q + [p])
  {
    hide TreeIndex, WF, Queued;
    if s >= MIN_LARGE_SIZE {
      var i := TreeIndex(s);
      SizeFitsBin(s);
      InsertWF(b.tb[i], p, s, TreeLo(i), TreeBit(i));
      InsertQueued(b.tb[i], p, s, TreeLo(i), TreeBit(i), s, q);
    }
  }

  /** Taking the first leaves the others in order. */
  lemma DrawnWaits(b: Bins, s: int, q: seq<int>)
    requires BinSize(s) && Waiting(b, s, q) && q != []
    ensures Waiting(Drawn(b, q[0], s), s, q[1..])
  {
    hide TreeIndex, WF, Queued;
    if s < MIN_LARGE_SIZE {
      assert DropAt(q, 0) == q[1..];
    } else {
      var i := TreeIndex(s);
      SizeFitsBin(s);
      RemoveQueued(b.tb[i], s, TreeLo(i), TreeBit(i), q);
      RemoveWF(b.tb[i], q[0], s, TreeLo(i), TreeBit(i));
    }
  }

  /** Neither disturbs those that wait at another size. */
  lemma OthersWait(b: Bins, p: int, s: int, u: int, q: seq<int>)
    requires BinSize(s) && BinSize(u) && u != s && Waiting(b, u, q) && p != 0
    ensures (MIN_LARGE_SIZE <= s && TrieAt(b, s) ==> !Holds(b.tb[TreeIndex(s)], p, s)) ==> Waiting(Filed(b, p, s), u, q)
    ensures (MIN_LARGE_SIZE <= s && TrieAt(b, s) ==> Holds(b.tb[TreeIndex(s)], p, s)) ==> Waiting(Drawn(b, p, s), u, q)
  {
    hide TreeIndex, WF, Queued;
    if MIN_LARGE_SIZE <= s && TrieAt(b, s) {
      var i := TreeIndex(s);
      var lo, bit := TreeLo(i), TreeBit(i);
      SizeFitsBin(s);
      if Holds(b.tb[i], p, s) {
        RemoveWF(b.tb[i], p, s, lo, bit);
        if MIN_LARGE_SIZE <= u && TreeIndex(u) == i {
          RemoveOthers(b.tb[i], p, s, lo, bit, u, q);
        }
      } else {
        InsertWF(b.tb[i], p, s, lo, bit);
        if MIN_LARGE_SIZE <= u && TreeIndex(u) == i {
          InsertQueued(b.tb[i], p, s, lo, bit, u, q);
        }
      }
    }
  }
}
