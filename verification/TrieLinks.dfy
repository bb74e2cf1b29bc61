/** Tries laid out in memory: child, parent and ring words of free chunks, and what insertion does to them. */
module TrieLinks {
  import opened Words
  import opened Layouts
  import opened Chains
  import opened Tries

  function Cycle(r: seq<int>): seq<int>
    requires |r| > 0
  {
    r + [r[0]]
  }

  /** A ring member outside the tree has neither parent nor children. */
  ghost predicate OffTree(mem: Mem, p: int) {
    Rd(mem, p + 32) == 0 && Rd(mem, p + 40) == 0 && Rd(mem, p + 48) == 0
  }

  ghost predicate MemberAt(mem: Mem, r: seq<int>, i: int, k: int) {
    0 <= k < |r| ==> Rd(mem, r[k] + 56) == i && (k > 0 ==> OffTree(mem, r[k]))
  }

  ghost predicate Members(mem: Mem, r: seq<int>, i: int) {
    forall k {:trigger MemberAt(mem, r, i, k)} :: MemberAt(mem, r, i, k)
  }

  /** Memory lays out t in bin i with parent word `par` at its root. */
  ghost predicate Linked(mem: Mem, t: Tree, par: int, i: int) {
    t.Node? ==>
      && |t.ring| > 0 && Chain(mem, Cycle(t.ring)) && Members(mem, t.ring, i)
      && Rd(mem, t.ring[0] + 48) == par
      && Rd(mem, t.ring[0] + 32) == Root(t.left) && Rd(mem, t.ring[0] + 40) == Root(t.right)
      && Linked(mem, t.left, t.ring[0], i) && Linked(mem, t.right, t.ring[0], i)
  }

  ghost predicate SameLinks(mem: Mem, mem': Mem, p: int) {
    && Rd(mem', p + 16) == Rd(mem, p + 16) && Rd(mem', p + 24) == Rd(mem, p + 24)
    && Rd(mem', p + 32) == Rd(mem, p + 32) && Rd(mem', p + 40) == Rd(mem, p + 40)
    && Rd(mem', p + 48) == Rd(mem, p + 48) && Rd(mem', p + 56) == Rd(mem, p + 56)
  }

  /** All but the child words agree. */
  ghost predicate SameHead(mem: Mem, mem': Mem, p: int) {
    && Rd(mem', p + 16) == Rd(mem, p + 16) && Rd(mem', p + 24) == Rd(mem, p + 24)
    && Rd(mem', p + 48) == Rd(mem, p + 48) && Rd(mem', p + 56) == Rd(mem, p + 56)
  }

  lemma RingFrame(mem: Mem, mem': Mem, r: seq<int>, i: int)
    requires |r| > 0 && Chain(mem, Cycle(r)) && Members(mem, r, i)
    requires SameHead(mem, mem', r[0])
    requires forall k {:trigger r[k]} | 0 < k < |r| :: SameLinks(mem, mem', r[k])
    ensures Chain(mem', Cycle(r)) && Members(mem', r, i)
  {
    var c := Cycle(r);
    forall k | 0 <= k < |c|
      ensures Rd(mem', c[k] + 16) == Rd(mem, c[k] + 16) && Rd(mem', c[k] + 24) == Rd(mem, c[k] + 24) {
      assert c[k] == r[if k == |r| then 0 else k];
    }
    ChainFrame(mem, mem', c);
    forall k ensures MemberAt(mem', r, i, k) {
      assert MemberAt(mem, r, i, k);
    }
  }

  /** A trie survives any change outside the link words of its chunks. */
  lemma {:induction false} LinkedFrame(mem: Mem, mem': Mem, t: Tree, par: int, i: int)
    requires Linked(mem, t, par, i)
    requires forall p, s {:trigger Holds(t, p, s)} :: Holds(t, p, s) ==> SameLinks(mem, mem', p)
    ensures Linked(mem', t, par, i)
  {
    if t.Node? {
      forall k | 0 <= k < |t.ring| ensures SameLinks(mem, mem', t.ring[k]) {
        assert Holds(t, t.ring[k], t.size);
      }
      RingFrame(mem, mem', t.ring, i);
      forall p, s | Holds(t.left, p, s) ensures SameLinks(mem, mem', p) {
        assert Holds(t, p, s);
      }
      forall p, s | Holds(t.right, p, s) ensures SameLinks(mem, mem', p) {
        assert Holds(t, p, s);
      }
      LinkedFrame(mem, mem', t.left, t.ring[0], i);
      LinkedFrame(mem, mem', t.right, t.ring[0], i);
    }
  }

  /** The chunks of t are free chunks of the layout, of the size t says. */
  ghost predicate StoredIn(L: Layout, t: Tree) {
    forall p, s {:trigger Holds(t, p, s)} :: Holds(t, p, s) ==> FreeAt(L, p, s) && MIN_LARGE_SIZE <= s
  }

  lemma StoredBelow(L: Layout, t: Tree)
    requires StoredIn(L, t) && t.Node?
    ensures StoredIn(L, t.left) && StoredIn(L, t.right)
  {
    forall p, s | Holds(t.left, p, s) || Holds(t.right, p, s) ensures FreeAt(L, p, s) && MIN_LARGE_SIZE <= s {
      assert Holds(t, p, s);
    }
  }

  ghost predicate Large(L: Layout, p: int) {
    p in L && L[p].kind.Free? && MIN_LARGE_SIZE <= L[p].size
  }

  /** Link words of two large free chunks never coincide. */
  lemma Distance(L: Layout, p: int, q: int)
    requires LayoutOk(L) && Large(L, p) && Large(L, q) && p != q
    ensures p + 64 <= q || q + 64 <= p
  {
    assert Apart(L, p, q);
  }

  /** Every word of W is a link word of the large chunk `at`. */
  ghost predicate LinkWords(W: set<int>, at: int) {
    forall w {:trigger w in W} :: w in W ==> at + 16 <= w < at + 64
  }

  lemma Untouched(L: Layout, mem: Mem, mem': Mem, x: int, at: int, W: set<int>, q: int)
    requires LayoutOk(L) && Large(L, x) && Large(L, at) && Large(L, q) && q != x && q != at
    requires Touched(mem, mem', x, 64, W) && LinkWords(W, at)
    ensures SameLinks(mem, mem', q)
  {
    Distance(L, q, x);
    Distance(L, q, at);
  }

  /** A subtree that holds neither x nor `at` is left alone. */
  lemma SubtreeUntouched(L: Layout, mem: Mem, mem': Mem, x: int, at: int, W: set<int>, t: Tree, par: int, i: int)
    requires LayoutOk(L) && Large(L, x) && Large(L, at) && StoredIn(L, t) && Linked(mem, t, par, i)
    requires Touched(mem, mem', x, 64, W) && LinkWords(W, at)
    requires !Holds(t, x, L[x].size) && !Holds(t, at, L[at].size)
    ensures Linked(mem', t, par, i)
  {
    forall p, s | Holds(t, p, s) ensures SameLinks(mem, mem', p) {
      Untouched(L, mem, mem', x, at, W, p);
    }
    LinkedFrame(mem, mem', t, par, i);
  }

  /** Where the walk for size s ends. */
  datatype Spot = Empty | Hang(at: int, slot: int) | Same(at: int)

  ghost function Walk(t: Tree, s: int, lo: int, b: int): Spot
    requires WF(t, lo, b)
  {
    match t
    case Nil => Empty
    case Node(ring, size, left, right) =>
      if size == s then Same(ring[0])
      else if GoesRight(s, lo, b) then
        if right.Nil? then Hang(ring[0], ring[0] + 40) else Walk(right, s, lo + Pow2(b), b - 1)
      else
        if left.Nil? then Hang(ring[0], ring[0] + 32) else Walk(left, s, lo, b - 1)
  }

  lemma {:induction false} WalkEnds(t: Tree, s: int, lo: int, b: int) returns (u: int)
    requires WF(t, lo, b) && t.Node?
    ensures var spot := Walk(t, s, lo, b);
      && !spot.Empty? && Holds(t, spot.at, u)
      && (spot.Same? ==> u == s)
      && (spot.Hang? ==> u != s && !HasSize(t, s) && (spot.slot == spot.at + 32 || spot.slot == spot.at + 40))
  {
    u := t.size;
    if t.size != s {
      if GoesRight(s, lo, b) {
        if t.right.Node? {
          u := WalkEnds(t.right, s, lo + Pow2(b), b - 1);
        }
        if HasSize(t.left, s) {
          SizesInRange(t.left, lo, b - 1, s);
        }
      } else {
        if t.left.Node? {
          u := WalkEnds(t.left, s, lo, b - 1);
        }
        if HasSize(t.right, s) {
          SizesInRange(t.right, lo + Pow2(b), b - 1, s);
        }
      }
    }
  }

  /** x was written as a new leaf below `at`. */
  ghost predicate Hung(mem: Mem, mem': Mem, x: int, i: int, at: int, slot: int) {
    && Touched(mem, mem', x, 64, {slot}) && Rd(mem', slot) == x
    && Rd(mem', x + 16) == x && Rd(mem', x + 24) == x && Rd(mem', x + 32) == 0 && Rd(mem', x + 40) == 0
    && Rd(mem', x + 48) == at && Rd(mem', x + 56) == i
  }

  lemma LoneLeaf(mem: Mem, x: int, s: int, i: int, par: int)
    requires Rd(mem, x + 16) == x && Rd(mem, x + 24) == x && Rd(mem, x + 32) == 0 && Rd(mem, x + 40) == 0
    requires Rd(mem, x + 48) == par && Rd(mem, x + 56) == i
    ensures Linked(mem, Node([x], s, Nil, Nil), par, i)
  {
    forall k ensures LinkAt(mem, Cycle([x]), k) {}
    forall k ensures MemberAt(mem, [x], i, k) {}
  }

  /** The sizes of a large chunk and of a stored chunk tell them apart. */
  lemma NotStored(L: Layout, t: Tree, p: int)
    requires StoredIn(L, t) && p in L && !HasSize(t, L[p].size)
    ensures forall s {:trigger Holds(t, p, s)} :: !Holds(t, p, s)
  {
    forall s ensures !Holds(t, p, s) {
      if Holds(t, p, s) {
        HeldHasSize(t, p, s);
      }
    }
  }

  /** The root's ring is kept when the change is confined to x and to the child words of `at`. */
  lemma RootRingKept(L: Layout, mem: Mem, mem': Mem, x: int, at: int, W: set<int>, t: Tree, par: int, i: int)
    requires LayoutOk(L) && Large(L, x) && Large(L, at) && StoredIn(L, t) && t.Node? && Linked(mem, t, par, i)
    requires Touched(mem, mem', x, 64, W) && LinkWords(W, at) && NoDup(t.ring)
    requires L[x].size != t.size
    requires at in t.ring ==> at == t.ring[0] && forall w :: w in W ==> w == at + 32 || w == at + 40
    ensures Chain(mem', Cycle(t.ring)) && Members(mem', t.ring, i) && Rd(mem', t.ring[0] + 48) == par
    ensures at !in t.ring ==> SameLinks(mem, mem', t.ring[0])
  {
    forall k | 0 <= k < |t.ring|
      ensures k > 0 || at !in t.ring ==> SameLinks(mem, mem', t.ring[k])
      ensures k == 0 ==> SameHead(mem, mem', t.ring[k])
    {
      var q := t.ring[k];
      assert Holds(t, q, t.size);
      if q != at {
        Untouched(L, mem, mem', x, at, W, q);
      } else {
        Distance(L, x, at);
      }
    }
    RingFrame(mem, mem', t.ring, i);
  }

  ghost function Near(t: Tree, s: int, lo: int, b: int): Tree
    requires t.Node? && b >= 0
  {
    if GoesRight(s, lo, b) then t.right else t.left
  }

  ghost function Far(t: Tree, s: int, lo: int, b: int): Tree
    requires t.Node? && b >= 0
  {
    if GoesRight(s, lo, b) then t.left else t.right
  }

  /** Chunk `at`, stored in one branch, is neither in the root's ring nor in the other branch. */
  lemma InOneBranch(L: Layout, t: Tree, s: int, lo: int, b: int, at: int, u: int)
    requires StoredIn(L, t) && t.Node? && WF(t, lo, b) && Holds(Near(t, s, lo, b), at, u)
    ensures Large(L, at) && L[at].size == u && HasSize(t, u)
    ensures at !in t.ring && !HasSize(Far(t, s, lo, b), u) && u != t.size
  {
    var near := Near(t, s, lo, b);
    assert Holds(t, at, u);
    HeldHasSize(near, at, u);
    RingStored(L, t);
    if HasSize(Far(t, s, lo, b), u) {
      LeftBelowRight(t, lo, b, u, u);
    }
  }

  /** One step of the walk: where it ends relative to this node. */
  lemma WalkStep(L: Layout, t: Tree, s: int, lo: int, b: int)
    requires StoredIn(L, t) && t.Node? && WF(t, lo, b) && t.size != s && !Walk(t, s, lo, b).Empty?
    ensures var near, at := Near(t, s, lo, b), Walk(t, s, lo, b).at;
      && Large(L, at) && !HasSize(Far(t, s, lo, b), L[at].size)
      && (near.Nil? ==> at == t.ring[0])
      && (near.Node? ==> at !in t.ring && L[at].size != t.size)
  {
    var near, at := Near(t, s, lo, b), Walk(t, s, lo, b).at;
    if near.Nil? {
      assert Holds(t, at, t.size);
    } else {
      var u := WalkEnds(near, s, if GoesRight(s, lo, b) then lo + Pow2(b) else lo, b - 1);
      InOneBranch(L, t, s, lo, b, at, u);
    }
  }

  /** One step of the walk: everything but the branch taken stays, and so does the other branch. */
  lemma HangRoot(L: Layout, mem: Mem, mem': Mem, t: Tree, par: int, i: int, x: int, s: int, lo: int, b: int)
    requires LayoutOk(L) && StoredIn(L, t) && t.Node? && WF(t, lo, b) && Linked(mem, t, par, i)
    requires Large(L, x) && L[x].size == s && !HasSize(t, s)
    requires var spot := Walk(t, s, lo, b); spot.Hang? && Hung(mem, mem', x, i, spot.at, spot.slot)
    ensures Chain(mem', Cycle(t.ring)) && Members(mem', t.ring, i) && Rd(mem', t.ring[0] + 48) == par
    ensures Linked(mem', Far(t, s, lo, b), t.ring[0], i)
    ensures Near(t, s, lo, b).Node? ==> SameLinks(mem, mem', t.ring[0])
  {
    var at, slot := Walk(t, s, lo, b).at, Walk(t, s, lo, b).slot;
    var u := WalkEnds(t, s, lo, b);
    StoredBelow(L, t);
    WalkStep(L, t, s, lo, b);
    NotStored(L, Far(t, s, lo, b), x);
    NotStored(L, Far(t, s, lo, b), at);
    assert Near(t, s, lo, b).Nil? ==> at == t.ring[0];
    RootRingKept(L, mem, mem', x, at, {slot}, t, par, i);
    SubtreeUntouched(L, mem, mem', x, at, {slot}, Far(t, s, lo, b), t.ring[0], i);
  }

  /** The new leaf hangs from the root itself. */
  lemma HangHere(L: Layout, mem: Mem, mem': Mem, t: Tree, par: int, i: int, x: int, s: int, lo: int, b: int)
    requires LayoutOk(L) && StoredIn(L, t) && t.Node? && WF(t, lo, b) && Linked(mem, t, par, i)
    requires Large(L, x) && L[x].size == s && !HasSize(t, s) && Near(t, s, lo, b).Nil?
    requires var spot := Walk(t, s, lo, b); spot.Hang? && Hung(mem, mem', x, i, spot.at, spot.slot)
    ensures Linked(mem', Insert(t, x, s, lo, b), par, i)
  {
    HangRoot(L, mem, mem', t, par, i, x, s, lo, b);
    LoneLeaf(mem', x, s, i, t.ring[0]);
    assert Holds(t, t.ring[0], t.size);
    Distance(L, x, t.ring[0]);
  }

  lemma {:induction false} HangLinked(L: Layout, mem: Mem, mem': Mem, t: Tree, par: int, i: int, x: int, s: int,
          lo: int, b: int)
    requires LayoutOk(L) && StoredIn(L, t) && t.Node? && WF(t, lo, b) && Linked(mem, t, par, i)
    requires Large(L, x) && L[x].size == s && !HasSize(t, s)
    requires var spot := Walk(t, s, lo, b); spot.Hang? && Hung(mem, mem', x, i, spot.at, spot.slot)
    ensures Linked(mem', Insert(t, x, s, lo, b), par, i)
  {
    if Near(t, s, lo, b).Nil? {
      HangHere(L, mem, mem', t, par, i, x, s, lo, b);
    } else {
      StoredBelow(L, t);
      HangRoot(L, mem, mem', t, par, i, x, s, lo, b);
      HangLinked(L, mem, mem', Near(t, s, lo, b), t.ring[0], i, x, s, if GoesRight(s, lo, b) then lo + Pow2(b)
        else lo, b - 1);
    }
  }

  /** x was written into the ring of `at`, right after it. */
  ghost predicate Ringed(mem: Mem, mem': Mem, x: int, i: int, at: int) {
    var next := Rd(mem, at + 16);
    && Touched(mem, mem', x, 64, {at + 16, next + 24}) && Rd(mem', at + 16) == x && Rd(mem', next + 24) == x
    && Rd(mem', x + 16) == next && Rd(mem', x + 24) == at && Rd(mem', x + 56) == i && OffTree(mem', x)
  }

  /** The chunks of one ring are spread out, and clear of any other large chunk. */
  lemma RingSpread(L: Layout, r: seq<int>)
    requires LayoutOk(L) && |r| > 0 && NoDup(r)
    requires forall k {:trigger r[k]} | 0 <= k < |r| :: Large(L, r[k])
    ensures Spread(Cycle(r))
  {
    var c := Cycle(r);
    forall i, j ensures SpreadAt(c, i, j) {
      if 0 <= i < j < |c| {
        var j' := if j == |r| then 0 else j;
        assert c[i] == r[i] && c[j] == r[j'];
        if r[i] != r[j'] {
          Distance(L, r[i], r[j']);
        }
      }
    }
  }

  lemma RingStored(L: Layout, t: Tree)
    requires StoredIn(L, t) && t.Node?
    ensures forall k {:trigger t.ring[k]} | 0 <= k < |t.ring| :: Large(L, t.ring[k]) && L[t.ring[k]].size == t.size
  {
    forall k | 0 <= k < |t.ring| ensures Large(L, t.ring[k]) && L[t.ring[k]].size == t.size {
      assert Holds(t, t.ring[k], t.size);
    }
  }

  lemma RingClear(L: Layout, r: seq<int>, x: int)
    requires LayoutOk(L) && |r| > 0 && Large(L, x) && x !in r
    requires forall k {:trigger r[k]} | 0 <= k < |r| :: Large(L, r[k])
    ensures Clear(Cycle(r), x, 64)
  {
    var c := Cycle(r);
    forall k | 0 <= k < |c| ensures c[k] + 32 <= x + 16 || x + 64 <= c[k] + 16 {
      assert c[k] == r[if k == |r| then 0 else k];
      Distance(L, c[k], x);
    }
  }

  /** A chunk in neither x nor the two ring neighbours is left alone. */
  lemma UntouchedByRing(L: Layout, mem: Mem, mem': Mem, x: int, a: int, b: int, q: int)
    requires LayoutOk(L) && Large(L, x) && Large(L, a) && Large(L, b) && Large(L, q) && q != x && q != a && q != b
    requires Touched(mem, mem', x, 64, {a + 16, b + 24})
    ensures SameLinks(mem, mem', q)
  {
    Distance(L, q, x);
    Distance(L, q, a);
    Distance(L, q, b);
  }

  lemma RingJoins(L: Layout, mem: Mem, mem': Mem, t: Tree, par: int, i: int, x: int)
    requires LayoutOk(L) && StoredIn(L, t) && t.Node? && Linked(mem, t, par, i) && NoDup(t.ring)
    requires Large(L, x) && x !in t.ring && Ringed(mem, mem', x, i, t.ring[0])
    ensures Chain(mem', Cycle([t.ring[0], x] + t.ring[1..]))
  {
    var r := t.ring;
    var c := Cycle(r);
    RingStored(L, t);
    RingSpread(L, r);
    RingClear(L, r, x);
    assert LinkAt(mem, c, 0);
    ChainInsert(mem, mem', c, 0, x, 64);
    assert c[..1] + [x] + c[1..] == Cycle([r[0], x] + r[1..]);
  }

  /** Ring members other than the two neighbours keep all their words. */
  lemma RingMembersJoin(L: Layout, mem: Mem, mem': Mem, t: Tree, par: int, i: int, x: int)
    requires LayoutOk(L) && StoredIn(L, t) && t.Node? && Linked(mem, t, par, i) && NoDup(t.ring)
    requires Large(L, x) && x !in t.ring && Ringed(mem, mem', x, i, t.ring[0])
    ensures Members(mem', [t.ring[0], x] + t.ring[1..], i)
    ensures Rd(mem', t.ring[0] + 48) == par
    ensures Rd(mem', t.ring[0] + 32) == Root(t.left) && Rd(mem', t.ring[0] + 40) == Root(t.right)
  {
    var r := t.ring;
    var r' := [r[0], x] + r[1..];
    var next := Cycle(r)[1];
    RingStored(L, t);
    assert LinkAt(mem, Cycle(r), 0) && next in r;
    forall q | q in r ensures SameTail(mem, mem', q) {
      NeighbourWords(L, mem, mem', r[0], next, x, q);
    }
    assert SameTail(mem, mem', r[0]);
    forall k ensures MemberAt(mem', r', i, k) {
      if 0 <= k < |r'| && k != 1 {
        var k' := if k == 0 then 0 else k - 1;
        assert r'[k] == r[k'] && MemberAt(mem, r, i, k') && SameTail(mem, mem', r[k']);
      }
    }
  }

  ghost predicate SameTail(mem: Mem, mem': Mem, p: int) {
    && Rd(mem', p + 32) == Rd(mem, p + 32) && Rd(mem', p + 40) == Rd(mem, p + 40)
    && Rd(mem', p + 48) == Rd(mem, p + 48) && Rd(mem', p + 56) == Rd(mem, p + 56)
  }

  lemma NeighbourWords(L: Layout, mem: Mem, mem': Mem, a: int, b: int, x: int, q: int)
    requires LayoutOk(L) && Large(L, x) && Large(L, a) && Large(L, b) && Large(L, q) && q != x
    requires Touched(mem, mem', x, 64, {a + 16, b + 24})
    ensures SameTail(mem, mem', q)
  {
    Distance(L, q, x);
    if q != a {
      Distance(L, q, a);
    }
    if q != b {
      Distance(L, q, b);
    }
  }

  /** Subtrees of the node whose ring x joins are left alone. */
  lemma BranchesJoin(L: Layout, mem: Mem, mem': Mem, t: Tree, i: int, x: int, branch: Tree, par: int)
    requires LayoutOk(L) && StoredIn(L, branch) && Linked(mem, branch, par, i)
    requires Large(L, x) && !HasSize(branch, L[x].size)
    requires t.Node? && |t.ring| > 0 && StoredIn(L, t) && Chain(mem, Cycle(t.ring)) && t.size == L[x].size
    requires Ringed(mem, mem', x, i, t.ring[0])
    ensures Linked(mem', branch, par, i)
  {
    RingStored(L, t);
    var next := Cycle(t.ring)[1];
    assert LinkAt(mem, Cycle(t.ring), 0) && next in t.ring;
    forall p, s | Holds(branch, p, s) ensures SameLinks(mem, mem', p) {
      HeldHasSize(branch, p, s);
      UntouchedByRing(L, mem, mem', x, t.ring[0], next, p);
    }
    LinkedFrame(mem, mem', branch, par, i);
  }

  lemma JoinHere(L: Layout, mem: Mem, mem': Mem, t: Tree, par: int, i: int, x: int, lo: int, b: int)
    requires LayoutOk(L) && StoredIn(L, t) && t.Node? && WF(t, lo, b) && Linked(mem, t, par, i)
    requires Large(L, x) && x !in t.ring && t.size == L[x].size
    requires Ringed(mem, mem', x, i, t.ring[0])
    ensures Linked(mem', Insert(t, x, t.size, lo, b), par, i)
  {
    StoredBelow(L, t);
    RingJoins(L, mem, mem', t, par, i, x);
    RingMembersJoin(L, mem, mem', t, par, i, x);
    BranchesJoin(L, mem, mem', t, i, x, t.left, t.ring[0]);
    BranchesJoin(L, mem, mem', t, i, x, t.right, t.ring[0]);
  }

  /** The ring neighbour of a stored chunk has the same size. */
  lemma {:induction false} NextInRing(L: Layout, mem: Mem, t: Tree, par: int, i: int, at: int, u: int)
    requires StoredIn(L, t) && Linked(mem, t, par, i) && Holds(t, at, u)
    ensures Holds(t, Rd(mem, at + 16), u)
  {
    StoredBelow(L, t);
    if Holds(t.left, at, u) {
      NextInRing(L, mem, t.left, t.ring[0], i, at, u);
    } else if Holds(t.right, at, u) {
      NextInRing(L, mem, t.right, t.ring[0], i, at, u);
    } else {
      var k := IndexOf(t.ring, at);
      assert LinkAt(mem, Cycle(t.ring), k);
    }
  }

  /** Above the ring that x joins nothing changes but the branch taken. */
  lemma JoinRoot(L: Layout, mem: Mem, mem': Mem, t: Tree, par: int, i: int, x: int, at: int, s: int, lo: int, b: int)
    requires LayoutOk(L) && StoredIn(L, t) && t.Node? && WF(t, lo, b) && Linked(mem, t, par, i)
    requires Large(L, x) && L[x].size == s && Holds(Near(t, s, lo, b), at, s)
    requires Ringed(mem, mem', x, i, at)
    ensures Chain(mem', Cycle(t.ring)) && Members(mem', t.ring, i) && SameLinks(mem, mem', t.ring[0])
    ensures Linked(mem', Far(t, s, lo, b), t.ring[0], i)
  {
    StoredBelow(L, t);
    var near, far := Near(t, s, lo, b), Far(t, s, lo, b);
    var next := Rd(mem, at + 16);
    NextInRing(L, mem, near, t.ring[0], i, at, s);
    InOneBranch(L, t, s, lo, b, at, s);
    InOneBranch(L, t, s, lo, b, next, s);
    RingStored(L, t);
    forall k | 0 <= k < |t.ring| ensures SameLinks(mem, mem', t.ring[k]) {
      UntouchedByRing(L, mem, mem', x, at, next, t.ring[k]);
    }
    RingFrame(mem, mem', t.ring, i);
    forall p, u | Holds(far, p, u) ensures SameLinks(mem, mem', p) {
      HeldHasSize(far, p, u);
      UntouchedByRing(L, mem, mem', x, at, next, p);
    }
    LinkedFrame(mem, mem', far, t.ring[0], i);
  }

  lemma SameBelow(t: Tree, s: int, lo: int, b: int)
    requires t.Node? && WF(t, lo, b) && t.size != s && Walk(t, s, lo, b).Same?
    ensures var near, lo' := Near(t, s, lo, b), if GoesRight(s, lo, b) then lo + Pow2(b) else lo;
      near.Node? && WF(near, lo', b - 1) && Walk(near, s, lo', b - 1) == Walk(t, s, lo, b)
      && Holds(near, Walk(t, s, lo, b).at, s)
  {
    var near, lo' := Near(t, s, lo, b), if GoesRight(s, lo, b) then lo + Pow2(b) else lo;
    var u := WalkEnds(near, s, lo', b - 1);
  }

  lemma {:induction false} JoinLinked(L: Layout, mem: Mem, mem': Mem, t: Tree, par: int, i: int, x: int, s: int,
          lo: int, b: int)
    requires LayoutOk(L) && StoredIn(L, t) && t.Node? && WF(t, lo, b) && Linked(mem, t, par, i)
    requires Large(L, x) && L[x].size == s && !Holds(t, x, s)
    requires var spot := Walk(t, s, lo, b); spot.Same? && Ringed(mem, mem', x, i, spot.at)
    ensures Linked(mem', Insert(t, x, s, lo, b), par, i)
  {
    if t.size == s {
      JoinHere(L, mem, mem', t, par, i, x, lo, b);
    } else {
      SameBelow(t, s, lo, b);
      StoredBelow(L, t);
      JoinRoot(L, mem, mem', t, par, i, x, Walk(t, s, lo, b).at, s, lo, b);
      JoinLinked(L, mem, mem', Near(t, s, lo, b), t.ring[0], i, x, s, if GoesRight(s, lo, b) then lo + Pow2(b)
        else lo, b - 1);
    }
  }
}
