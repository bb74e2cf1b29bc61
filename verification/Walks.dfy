/** Steps of the trie walks that the search and insertion loops take. */
module Walks {
  import opened Words
  import opened Layouts
  import opened Tries
  import opened TrieLinks
  import opened Sizes
  import opened Keys
  import opened Views
  import opened TreeBins

  /** The pointer t stands at the root of sub, a subtree of bin i, and key k steers for size s. */
  ghost predicate Standing(v: View, sub: Tree, par: int, i: int, s: int, lo: int, b: int, k: int, t: int) {
    && sub.Node? && WF(sub, lo, b) && Fits(s, lo, b) && b <= 63 && k == Key(s, lo, b) && t == Root(sub)
    && StoredIn(v.lay, sub) && Linked(v.mem, sub, par, i)
  }

  ghost function NearLo(s: int, lo: int, b: int): int
    requires b >= 0
  {
    if GoesRight(s, lo, b) then lo + Pow2(b) else lo
  }

  lemma RootNonzero(v: View, t: Tree)
    requires Base(v) && StoredIn(v.lay, t) && (t.Node? ==> |t.ring| > 0)
    ensures t.Node? <==> Root(t) != 0
  {
    if t.Node? {
      assert Holds(t, Root(t), t.size);
      assert ChunkOk(v.lay, Root(t));
    }
  }

  lemma StandingSize(v: View, sub: Tree, par: int, i: int, s: int, lo: int, b: int, k: int, t: int)
    requires Base(v) && Standing(v, sub, par, i, s, lo, b, k, t)
    ensures 0 < t && FreeAt(v.lay, t, sub.size) && ChunkSize(Rd(v.mem, t + 8)) == sub.size
  {
    assert Holds(sub, t, sub.size);
    assert Tag(v.lay, v.mem, t) && ChunkOk(v.lay, t);
    HeadDecodes(sub.size, false, Pin(v.lay, t));
  }

  /** The branch that the key's top bit selects, and what its pointer says. */
  lemma StandingStep(v: View, sub: Tree, par: int, i: int, s: int, lo: int, b: int, k: int, t: int)
    requires Base(v) && Standing(v, sub, par, i, s, lo, b, k, t) && sub.size != s
    ensures b >= 3 && Rd(v.mem, t + 32 + 8 * (k / TWO63)) == Root(Near(sub, s, lo, b))
    ensures k / TWO63 == if GoesRight(s, lo, b) then 1 else 0
    ensures Near(sub, s, lo, b).Node? <==> Root(Near(sub, s, lo, b)) != 0
    ensures var near := Near(sub, s, lo, b);
      near.Node? ==> Standing(v, near, t, i, s, NearLo(s, lo, b), b - 1, k * 2 % TWO64, Root(near))
  {
    BranchFits(sub, s, lo, b);
    KeySteps(s, lo, b);
    StoredBelow(v.lay, sub);
    assert WF(Near(sub, s, lo, b), NearLo(s, lo, b), b - 1);
    RootNonzero(v, Near(sub, s, lo, b));
  }

  /** The walk of an insertion goes on in the branch, or ends at its empty slot. */
  lemma WalkGoesOn(v: View, sub: Tree, par: int, i: int, s: int, lo: int, b: int, k: int, t: int)
    requires Base(v) && Standing(v, sub, par, i, s, lo, b, k, t) && sub.size != s
    ensures var near := Near(sub, s, lo, b);
      Walk(sub, s, lo, b) == if near.Nil? then Hang(t, t + 32 + 8 * (k / TWO63))
        else Walk(near, s, NearLo(s, lo, b), b - 1)
  {
    KeySteps(s, lo, b);
  }

  lemma StandingStarts(v: View, i: int, s: int)
    requires Base(v) && 0 <= i < 32 && |v.tb| == 32 && v.tb[i].Node?
    requires MIN_LARGE_SIZE <= s < TWO64 && s % 8 == 0 && i == TreeIndex(s)
    ensures 0 <= LeftShift(i)
    ensures Standing(v, v.tb[i], TreeSlot(v.ms, i), i, s, TreeLo(i), TreeBit(i), s * Pow2(LeftShift(i)) % TWO64,
      Rd(v.mem, TreeSlot(v.ms, i)))
  {
    assert TreeAt(v, i);
    SizeFitsBin(s);
    KeyStarts(s);
    TreeStored(v, i);
  }
}
