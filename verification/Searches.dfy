/** Best-fit search in tries: what is still pending at each step of the two walks. */
module Searches {
  import opened Words
  import opened Tries
  import opened TrieLinks

  /** The one unsigned comparison accepts exactly the sizes that fit and improve on rsize. */
  lemma FitTest(c: int, nb: int, rsize: int)
    requires 0 <= c < TWO64 && 0 < nb < TWO64 && 0 <= rsize <= TWO64 - nb
    ensures Sub64(c, nb) < rsize <==> nb <= c < nb + rsize
    ensures nb <= c ==> Sub64(c, nb) == c - nb
  {
    if c < nb {
      assert Sub64(c, nb) == c - nb + TWO64;
    } else {
      assert Sub64(c, nb) == c - nb;
    }
  }

  ghost predicate Above(t: Tree, s: int) {
    forall u {:trigger HasSize(t, u)} :: HasSize(t, u) ==> u < s
  }

  ghost predicate AtLeast(t: Tree, nb: int) {
    forall u {:trigger HasSize(t, u)} :: HasSize(t, u) ==> nb <= u
  }

  /** Size s may still be met below cur, or is larger than everything there. */
  ghost predicate Pending(cur: Tree, s: int) {
    cur.Node? && (HasSize(cur, s) || Above(cur, s))
  }

  /** Every fitting size of t is no better than the remainder found, or still pending. */
  ghost predicate Covered(t: Tree, nb: int, rsize: int, cur: Tree) {
    forall s {:trigger HasSize(t, s)} :: HasSize(t, s) && nb <= s ==> nb + rsize <= s || Pending(cur, s)
  }

  ghost function LeftmostChild(t: Tree): Tree
    requires t.Node?
  {
    if t.left.Node? then t.left else t.right
  }

  /** The remainder after looking at a chunk of size c. */
  ghost function Improve(c: int, nb: int, rsize: int): int {
    if nb <= c < nb + rsize then c - nb else rsize
  }

  /** A pending size is found here, beaten here, or pending on the leftmost path. */
  lemma LeftmostSize(cur: Tree, nb: int, rsize: int, lo: int, b: int, s: int)
    requires cur.Node? && WF(cur, lo, b) && AtLeast(cur, nb) && Pending(cur, s) && nb <= s < nb + rsize
    ensures nb + Improve(cur.size, nb, rsize) <= s || Pending(LeftmostChild(cur), s)
  {
    assert HasSize(cur, cur.size);
    if HasSize(cur.right, s) && cur.left.Node? {
      forall u | HasSize(cur.left, u) ensures u < s {
        LeftBelowRight(cur, lo, b, u, s);
      }
      assert Above(cur.left, s);
    }
    assert HasSize(cur.left, s) ==> cur.left.Node?;
    assert HasSize(cur.right, s) ==> cur.right.Node?;
  }

  lemma LeftmostAtLeast(cur: Tree, nb: int)
    requires cur.Node? && AtLeast(cur, nb)
    ensures AtLeast(LeftmostChild(cur), nb) && nb <= cur.size
  {
    assert HasSize(cur, cur.size);
    forall u | HasSize(LeftmostChild(cur), u) ensures nb <= u {
      assert HasSize(cur, u);
    }
  }

  /** One step down the leftmost path. */
  lemma LeftmostStep(t: Tree, nb: int, rsize: int, cur: Tree, lo: int, b: int)
    requires Covered(t, nb, rsize, cur) && cur.Node? && WF(cur, lo, b) && 0 <= rsize
    requires rsize == 0 || AtLeast(cur, nb)
    ensures var r, next := Improve(cur.size, nb, rsize), LeftmostChild(cur);
      Covered(t, nb, r, next) && (r == 0 || AtLeast(next, nb))
  {
    var r, next := Improve(cur.size, nb, rsize), LeftmostChild(cur);
    forall s | HasSize(t, s) && nb <= s ensures nb + r <= s || Pending(next, s) {
      if s < nb + rsize {
        LeftmostSize(cur, nb, rsize, lo, b, s);
      }
    }
    if rsize != 0 {
      LeftmostAtLeast(cur, nb);
    }
  }

  /** Along the bit path: a fitting size is beaten, below sub, or pending at the untaken right subtree. */
  ghost predicate PathCovered(t: Tree, nb: int, rsize: int, sub: Tree, rst: Tree) {
    && (forall s {:trigger HasSize(t, s)} :: HasSize(t, s) && nb <= s ==>
       nb + rsize <= s || HasSize(sub, s) || Pending(rst, s))
    && (forall u, w {:trigger HasSize(sub, u), HasSize(rst, w)} :: HasSize(sub, u) && HasSize(rst, w) ==> u < w)
    && AtLeast(rst, nb)
  }

  /** Sizes of the branch not taken, seen from the size searched for. */
  lemma FarSizes(sub: Tree, nb: int, lo: int, b: int, u: int)
    requires sub.Node? && WF(sub, lo, b) && Fits(nb, lo, b) && HasSize(Far(sub, nb, lo, b), u)
    ensures if GoesRight(nb, lo, b) then u < nb else nb < u
  {
    if GoesRight(nb, lo, b) {
      SizesInRange(sub.left, lo, b - 1, u);
    } else {
      SizesInRange(sub.right, lo + Pow2(b), b - 1, u);
    }
  }

  /** The right subtree left behind by going left. */
  ghost function Untaken(sub: Tree, nb: int, lo: int, b: int, rst: Tree): Tree
    requires sub.Node? && b >= 0
  {
    if !GoesRight(nb, lo, b) && sub.right.Node? then sub.right else rst
  }

  lemma PathStep(t: Tree, nb: int, rsize: int, sub: Tree, rst: Tree, lo: int, b: int)
    requires PathCovered(t, nb, rsize, sub, rst) && sub.Node? && WF(sub, lo, b) && Fits(nb, lo, b) && 0 <= rsize
    ensures PathCovered(t, nb, Improve(sub.size, nb, rsize), Near(sub, nb, lo, b), Untaken(sub, nb, lo, b, rst))
  {
    var near, far, r, rst' := Near(sub, nb, lo, b), Far(sub, nb, lo, b), Improve(sub.size, nb, rsize),
      Untaken(sub, nb, lo, b, rst);
    forall s | HasSize(t, s) && nb <= s ensures nb + r <= s || HasSize(near, s) || Pending(rst', s) {
      PathStepSize(t, nb, rsize, sub, rst, lo, b, s);
    }
    forall u, w | HasSize(near, u) && HasSize(rst', w) ensures u < w {
      assert HasSize(sub, u);
      if rst' != rst {
        LeftBelowRight(sub, lo, b, u, w);
      }
    }
    forall u | HasSize(rst', u) ensures nb <= u {
      if rst' != rst {
        FarSizes(sub, nb, lo, b, u);
      }
    }
  }

  lemma PathStepSize(t: Tree, nb: int, rsize: int, sub: Tree, rst: Tree, lo: int, b: int, s: int)
    requires PathCovered(t, nb, rsize, sub, rst) && sub.Node? && WF(sub, lo, b) && Fits(nb, lo, b) && 0 <= rsize
    requires HasSize(t, s) && nb <= s
    ensures nb + Improve(sub.size, nb, rsize) <= s || HasSize(Near(sub, nb, lo, b), s)
      || Pending(Untaken(sub, nb, lo, b, rst), s)
  {
    var near, far, rst' := Near(sub, nb, lo, b), Far(sub, nb, lo, b), Untaken(sub, nb, lo, b, rst);
    if HasSize(far, s) {
      FarSizes(sub, nb, lo, b, s);
    }
    if Pending(rst, s) && rst' != rst {
      assert HasSize(rst, rst.size);
      forall u | HasSize(rst', u) ensures u < s {
        assert HasSize(sub, u);
      }
    }
  }
}
