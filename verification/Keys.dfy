/** The ranges of the tree bins, and the shifted size whose top bit steers a trie walk. */
module Keys {
  import opened Words
  import opened Tries
  import opened Sizes

  function TreeLo(i: nat): int {
    if i == 31 then 0 else MinSizeForTreeIndex(i)
  }

  /** The first size bit that the bin does not fix. */
  function TreeBit(i: nat): nat {
    if i == 31 then 63 else i / 2 + 6
  }

  function LeftShift(i: nat): int {
    if i == 31 then 0 else 63 - (i / 2 + 8 - 2)
  }

  lemma {:induction false} PowAdd(m: nat, n: nat)
    ensures Pow2(m) * Pow2(n) == Pow2(m + n)
  {
    if m > 0 {
      PowAdd(m - 1, n);
      TwiceTimes(Pow2(m - 1), Pow2(n));
    }
  }

  lemma TwiceTimes(a: int, b: int)
    ensures (2 * a) * b == 2 * (a * b)
  {}

  lemma Pow63()
    ensures Pow2(63) == TWO63
  {
    PowTable();
    PowAdd(16, 16);
    PowAdd(32, 16);
    PowAdd(48, 15);
  }

  lemma Doublings(k: nat)
    ensures Pow2(k + 7) == 2 * Pow2(k + 6) && Pow2(k + 8) == 4 * Pow2(k + 6) && Pow2(k + 9) == 8 * Pow2(k + 6)
    ensures (4 * Pow2(k + 6)) % 8 == 0 && (6 * Pow2(k + 6)) % 8 == 0
  {
    hide Pow2;
    NextPow(k + 6);
    NextPow(k + 7);
    NextPow(k + 8);
    HalfWidth(k);
    Eights46(Pow2(k + 6), Pow2(k));
  }

  lemma NextPow(k: nat)
    ensures Pow2(k + 1) == 2 * Pow2(k)
  {}

  lemma Eights46(x: int, y: int)
    requires x == 64 * y
    ensures (4 * x) % 8 == 0 && (6 * x) % 8 == 0
  {}

  lemma BinRangeAt(k: nat, odd: bool)
    requires k < 16
    ensures var i := if odd then 2 * k + 1 else 2 * k;
      && MinSizeForTreeIndex(i) == (if odd then 6 * Pow2(k + 6) else 4 * Pow2(k + 6))
      && MinSizeForTreeIndex(i + 1) == MinSizeForTreeIndex(i) + 2 * Pow2(k + 6)
      && MinSizeForTreeIndex(i) % 8 == 0
  {
    Doublings(k);
    MinSizes(k);
  }

  /** A bin's least size is an even multiple of its first free bit, and its range is two of those. */
  lemma BinRange(i: nat)
    requires i < 31
    ensures TreeLo(i) == if i % 2 == 0 then 4 * Pow2(TreeBit(i)) else 6 * Pow2(TreeBit(i))
    ensures MinSizeForTreeIndex(i + 1) == TreeLo(i) + 2 * Pow2(TreeBit(i))
    ensures TreeLo(i) % 8 == 0
  {
    hide Pow2;
    BinRangeAt(i / 2, i % 2 == 1);
  }

  /** A large size fits the range of the bin that its index names. */
  lemma SizeFitsBin(s: int)
    requires MIN_LARGE_SIZE <= s < TWO64 && s % 8 == 0
    ensures 0 <= TreeIndex(s) < 32 && Fits(s, TreeLo(TreeIndex(s)), TreeBit(TreeIndex(s)))
  {
    TreeIndexIs(s);
    if TreeIndex(s) < 31 {
      BinRange(TreeIndex(s));
    } else {
      Pow63();
    }
  }

  ghost function Key(s: int, lo: int, b: int): int
    requires 0 <= b <= 63
  {
    (s - lo) * Pow2(63 - b)
  }

  lemma MulMono(x: int, y: int, w: int)
    requires w > 0
    ensures x < y <==> x * w < y * w
    ensures x >= 0 ==> x * w >= 0
  {
    assert (y - x) * w == y * w - x * w;
  }

  lemma WeightedBound(d: int, p: int, w: int)
    requires 0 <= d < 2 * p && w > 0 && p * w == TWO63
    ensures 0 <= d * w < TWO64
    ensures TWO63 <= d * w <==> p <= d
  {
    assert (2 * p) * w == TWO64;
    MulMono(d, 2 * p, w);
    MulMono(d, p, w);
  }

  lemma HalfWeight(b: nat)
    requires b <= 63
    ensures Pow2(b) * Pow2(63 - b) == TWO63
  {
    PowAdd(b, 63 - b);
    Pow63();
  }

  lemma KeyBound(s: int, lo: int, b: int)
    requires 0 <= b <= 63 && lo <= s < lo + 2 * Pow2(b)
    ensures 0 <= Key(s, lo, b) < TWO64
    ensures TWO63 <= Key(s, lo, b) <==> GoesRight(s, lo, b)
  {
    hide Pow2;
    HalfWeight(b);
    WeightedBound(s - lo, Pow2(b), Pow2(63 - b));
  }

  lemma KeySplit(s: int, lo: int, p: int, w: int, m: int)
    requires lo == 2 * m * p && p * w == TWO63
    requires 0 <= (s - lo) * w < TWO64
    ensures s * w % TWO64 == (s - lo) * w
  {
    assert lo * w == m * TWO64 by {
      assert lo * w == 2 * m * (p * w);
    }
    assert s * w == (s - lo) * w + m * TWO64;
  }

  lemma KeyStartsAt(s: int, lo: int, b: int, odd: bool)
    requires 0 <= b <= 63 && lo == (if odd then 6 * Pow2(b) else 4 * Pow2(b)) && lo <= s < lo + 2 * Pow2(b)
    ensures s * Pow2(63 - b) % TWO64 == Key(s, lo, b)
  {
    KeyBound(s, lo, b);
    HalfWeight(b);
    if odd {
      KeySplit(s, lo, Pow2(b), Pow2(63 - b), 3);
    } else {
      KeySplit(s, lo, Pow2(b), Pow2(63 - b), 2);
    }
  }

  lemma KeyStartsIn(s: int, i: nat)
    requires i < 32 && Fits(s, TreeLo(i), TreeBit(i))
    ensures 0 <= LeftShift(i) && s * Pow2(LeftShift(i)) % TWO64 == Key(s, TreeLo(i), TreeBit(i))
  {
    if i < 31 {
      hide MinSizeForTreeIndex;
      BinRange(i);
      KeyStartsAt(s, TreeLo(i), TreeBit(i), i % 2 == 1);
      assert LeftShift(i) == 63 - TreeBit(i);
    } else {
      KeyBound(s, 0, 63);
    }
  }

  /** The shifted size starts as the key of the bin's range. */
  lemma KeyStarts(s: int)
    requires MIN_LARGE_SIZE <= s < TWO64 && s % 8 == 0
    ensures var i := TreeIndex(s);
      && 0 <= i < 32 && 0 <= LeftShift(i)
      && s * Pow2(LeftShift(i)) % TWO64 == Key(s, TreeLo(i), TreeBit(i))
  {
    SizeFitsBin(s);
    KeyStartsIn(s, TreeIndex(s));
  }

  lemma WeightedStep(d: int, p: int, w: int)
    requires 0 <= d < 2 * p && w > 0 && p * w == TWO63
    ensures d * w / TWO63 == if p <= d then 1 else 0
    ensures d * w * 2 % TWO64 == (if p <= d then d - p else d) * (2 * w)
  {
    WeightedBound(d, p, w);
    assert d * (2 * w) == 2 * (d * w);
    assert (d - p) * (2 * w) == 2 * (d * w) - TWO64;
  }

  /** The top bit of the key selects the branch, and shifting it out gives the key of that branch. */
  lemma KeySteps(s: int, lo: int, b: int)
    requires 1 <= b <= 63 && lo <= s < lo + 2 * Pow2(b)
    ensures var k, right := Key(s, lo, b), GoesRight(s, lo, b);
      && k / TWO63 == (if right then 1 else 0)
      && k * 2 % TWO64 == Key(s, if right then lo + Pow2(b) else lo, b - 1)
  {
    hide Pow2;
    HalfWeight(b);
    WeightedStep(s - lo, Pow2(b), Pow2(63 - b));
    NextPow(63 - b);
  }
}
