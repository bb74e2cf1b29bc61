/** Doubly linked chains of chunks, threaded through the fd and bk words of memory. */
module Chains {
  import opened Words

  /** Neighbours k and k + 1 of the chain point at each other. */
  ghost predicate LinkAt(mem: Mem, r: seq<int>, k: int) {
    0 <= k < |r| - 1 ==> Rd(mem, r[k] + 16) == r[k + 1] && Rd(mem, r[k + 1] + 24) == r[k]
  }

  ghost predicate Chain(mem: Mem, r: seq<int>) {
    forall k {:trigger LinkAt(mem, r, k)} :: LinkAt(mem, r, k)
  }

  /** The link words of distinct members do not overlap. */
  ghost predicate Gap(a: int, b: int) {
    a == b || a + 16 <= b || b + 16 <= a
  }

  /** Members are spread out, and only the two ends may be the same node. */
  ghost predicate SpreadAt(r: seq<int>, i: int, j: int) {
    0 <= i < j < |r| ==> Gap(r[i], r[j]) && (r[i] == r[j] ==> i == 0 && j == |r| - 1)
  }

  ghost predicate Spread(r: seq<int>) {
    forall i, j {:trigger SpreadAt(r, i, j)} :: SpreadAt(r, i, j)
  }

  /** Memory changed at most in the body of x (n bytes from its start) and at the words in W. */
  ghost predicate Touched(mem: Mem, mem': Mem, x: int, n: int, W: set<int>) {
    forall a {:trigger Rd(mem', a)} :: !(x + 16 <= a < x + n) && a !in W ==> Rd(mem', a) == Rd(mem, a)
  }

  ghost predicate Clear(r: seq<int>, x: int, n: int) {
    forall i {:trigger r[i]} | 0 <= i < |r| :: r[i] + 32 <= x + 16 || x + n <= r[i] + 16
  }

  lemma InsertLink(mem: Mem, mem': Mem, r: seq<int>, k: nat, x: int, n: int, j: int)
    requires Chain(mem, r) && Spread(r) && k + 1 < |r| && 32 <= n && Clear(r, x, n)
    requires Touched(mem, mem', x, n, {r[k] + 16, r[k + 1] + 24})
    requires Rd(mem', r[k] + 16) == x && Rd(mem', r[k + 1] + 24) == x
    requires Rd(mem', x + 16) == r[k + 1] && Rd(mem', x + 24) == r[k]
    ensures LinkAt(mem', r[..k + 1] + [x] + r[k + 1..], j)
  {
    var r' := r[..k + 1] + [x] + r[k + 1..];
    if 0 <= j < |r'| - 1 && j != k && j != k + 1 {
      var i := if j < k then j else j - 1;
      assert r'[j] == r[i] && r'[j + 1] == r[i + 1];
      assert LinkAt(mem, r, i) && SpreadAt(r, i, k) && SpreadAt(r, k, i);
      assert SpreadAt(r, i + 1, k + 1) && SpreadAt(r, k + 1, i + 1);
      assert SpreadAt(r, i, k + 1) && SpreadAt(r, k + 1, i) && SpreadAt(r, i + 1, k) && SpreadAt(r, k, i + 1);
    }
  }

  /** Linking x between neighbours k and k + 1 yields the chain with x there. */
  lemma ChainInsert(mem: Mem, mem': Mem, r: seq<int>, k: nat, x: int, n: int)
    requires Chain(mem, r) && Spread(r) && k + 1 < |r| && 32 <= n && Clear(r, x, n)
    requires Touched(mem, mem', x, n, {r[k] + 16, r[k + 1] + 24})
    requires Rd(mem', r[k] + 16) == x && Rd(mem', r[k + 1] + 24) == x
    requires Rd(mem', x + 16) == r[k + 1] && Rd(mem', x + 24) == r[k]
    ensures Chain(mem', r[..k + 1] + [x] + r[k + 1..])
  {
    var r' := r[..k + 1] + [x] + r[k + 1..];
    forall j ensures LinkAt(mem', r', j) {
      InsertLink(mem, mem', r, k, x, n, j);
    }
  }

  lemma RemoveLink(mem: Mem, mem': Mem, r: seq<int>, k: nat, j: int)
    requires Chain(mem, r) && Spread(r) && 0 < k < |r| - 1
    requires Touched(mem, mem', 0, 0, {r[k - 1] + 16, r[k + 1] + 24})
    requires Rd(mem', r[k - 1] + 16) == r[k + 1] && Rd(mem', r[k + 1] + 24) == r[k - 1]
    ensures LinkAt(mem', r[..k] + r[k + 1..], j)
  {
    var r' := r[..k] + r[k + 1..];
    if 0 <= j < |r'| - 1 && j != k - 1 {
      var i := if j < k then j else j + 1;
      assert r'[j] == r[i] && r'[j + 1] == r[i + 1];
      assert LinkAt(mem, r, i) && SpreadAt(r, i, k - 1) && SpreadAt(r, k - 1, i);
      assert SpreadAt(r, i + 1, k + 1) && SpreadAt(r, k + 1, i + 1);
      assert SpreadAt(r, i, k + 1) && SpreadAt(r, k + 1, i) && SpreadAt(r, i + 1, k - 1) && SpreadAt(r, k - 1, i + 1);
    }
  }

  /** Joining the neighbours of member k yields the chain without it. */
  lemma ChainRemove(mem: Mem, mem': Mem, r: seq<int>, k: nat)
    requires Chain(mem, r) && Spread(r) && 0 < k < |r| - 1
    requires Touched(mem, mem', 0, 0, {r[k - 1] + 16, r[k + 1] + 24})
    requires Rd(mem', r[k - 1] + 16) == r[k + 1] && Rd(mem', r[k + 1] + 24) == r[k - 1]
    ensures Chain(mem', r[..k] + r[k + 1..])
  {
    var r' := r[..k] + r[k + 1..];
    forall j ensures LinkAt(mem', r', j) {
      RemoveLink(mem, mem', r, k, j);
    }
  }

  /** A chain survives any change outside the link words of its members. */
  lemma ChainFrame(mem: Mem, mem': Mem, r: seq<int>)
    requires Chain(mem, r)
    requires forall i {:trigger r[i]} | 0 <= i < |r| ::
      Rd(mem', r[i] + 16) == Rd(mem, r[i] + 16) && Rd(mem', r[i] + 24) == Rd(mem, r[i] + 24)
    ensures Chain(mem', r)
  {
    forall k ensures LinkAt(mem', r, k) {
      assert LinkAt(mem, r, k);
    }
  }
}
