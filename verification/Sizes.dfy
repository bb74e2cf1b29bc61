/** Request padding and the branch-free tree index, in unsigned machine arithmetic. */
module Sizes {
  import opened Words
  import opened Tries

  /** Add the overhead and round up to the alignment; the sum wraps at 2^64. */
  function PadRequest(req: int): int {
    var x := (req + CHUNK_OVERHEAD + 7) % TWO64;
    x - x % 8
  }

  function Request2Size(req: int): int {
    if req < MIN_REQUEST then MIN_CHUNK_SIZE else PadRequest(req)
  }

  /** Below the maximum, padding never wraps and wastes less than a word. */
  lemma PaddingFits(req: int)
    requires 0 <= req < MAX_REQUEST
    ensures var nb := Request2Size(req);
      && nb % 8 == 0 && MIN_CHUNK_SIZE <= nb < TWO64 - 112 && req + CHUNK_OVERHEAD <= nb
      && (req < MIN_REQUEST ==> nb == MIN_CHUNK_SIZE) && (MIN_REQUEST <= req ==> nb < req + CHUNK_OVERHEAD + 8)
      && (req <= MAX_SMALL_REQUEST <==> nb < MIN_LARGE_SIZE)
  {
    var x := req + CHUNK_OVERHEAD + 7;
    assert x % TWO64 == x;
  }

  const GRANULARITY: int := 0x1_0000

  /** Round up past s to the unit of system requests; the sum wraps at 2^64. */
  function GranularityAlign(s: int): int {
    var x := (s + GRANULARITY) % TWO64;
    x - x % GRANULARITY
  }

  /** Rounding up to the granularity gives a multiple of it, or wraps to nothing. */
  lemma GranularityIs(rs: int)
    requires 0 <= rs < TWO64
    ensures GranularityAlign(rs) % GRANULARITY == 0 && 0 <= GranularityAlign(rs) < TWO64
    ensures rs + GRANULARITY < TWO64 ==> rs < GranularityAlign(rs) <= rs + GRANULARITY
    ensures TWO64 <= rs + GRANULARITY ==> GranularityAlign(rs) == 0
  {
    var x := (rs + GRANULARITY) % TWO64;
    assert x == if rs + GRANULARITY < TWO64 then rs + GRANULARITY else rs + GRANULARITY - TWO64;
  }

  lemma GranularityEights(x: int)
    requires x % GRANULARITY == 0
    ensures x % 8 == 0
  {}

  /** The size of the region asked of the system for a request. */
  function MmapSize(nb: int): int {
    GranularityAlign((nb + TOP_FOOT_SIZE + 1) % TWO64)
  }

  /** The wrap check accepts a region exactly when it can hold the request and the overhead of a segment. */
  lemma MmapSizeFits(nb: int)
    requires 0 <= nb < TWO64
    ensures MmapSize(nb) % GRANULARITY == 0 && 0 <= MmapSize(nb) < TWO64
    ensures nb < MmapSize(nb) <==> nb + TOP_FOOT_SIZE + 1 + GRANULARITY < TWO64
    ensures nb < MmapSize(nb) ==> nb + TOP_FOOT_SIZE + 1 < MmapSize(nb) <= nb + TOP_FOOT_SIZE + 1 + GRANULARITY
    ensures nb < MmapSize(nb) && nb % 8 == 0 ==> nb + TOP_FOOT_SIZE + 8 <= MmapSize(nb) && MmapSize(nb) % 8 == 0
  {
    PaddedGranularity(nb, TOP_FOOT_SIZE + 1);
    GranularityEights(MmapSize(nb));
  }

  /** The size a direct mapping would need: six words and alignment slack on top of the chunk. */
  function DirectSize(nb: int): int {
    GranularityAlign((nb + 6 * WORD + 7) % TWO64)
  }

  /**
   * The wrap check of a direct mapping refuses exactly the sizes whose sum wraps, the impossible request among them.
   */
  lemma DirectSizeFits(nb: int)
    requires 0 <= nb < TWO64
    ensures nb < DirectSize(nb) <==> nb + 6 * WORD + 7 + GRANULARITY < TWO64
    ensures nb < DirectSize(nb) ==> nb + 6 * WORD + 7 < DirectSize(nb) <= nb + 6 * WORD + 7 + GRANULARITY
  {
    PaddedGranularity(nb, 6 * WORD + 7);
  }

  lemma PaddedGranularity(nb: int, pad: int)
    requires 0 <= nb < TWO64 && 0 < pad < 256
    ensures var g := GranularityAlign((nb + pad) % TWO64);
      && g % GRANULARITY == 0 && 0 <= g < TWO64
      && (nb < g <==> nb + pad + GRANULARITY < TWO64)
      && (nb < g ==> nb + pad < g <= nb + pad + GRANULARITY)
  {
    hide GranularityAlign;
    var s := (nb + pad) % TWO64;
    assert s == if nb + pad < TWO64 then nb + pad else nb + pad - TWO64;
    GranularityIs(s);
  }

  /** The bit that the 32-bit difference v - d leaves at position `bit` of its upper half. */
  function Borrow(v: int, d: int, bit: int): int
    requires bit > 0
  {
    (v - d) % TWO32 / 0x1_0000 / bit % 2 * bit
  }

  function Shifted(v: int, d: int, bit: int): int
    requires bit > 0
  {
    var n := Borrow(v, d, bit);
    if 0 <= n then v * Pow2(n) % TWO32 else 0
  }

  /** Four branch-free steps shift x up to bit 14 or 15 and count. */
  function FloorLog(x: int): int {
    var y1 := Shifted(x, 0x100, 8);
    var y2 := Shifted(y1, 0x1000, 4);
    var y3 := Shifted(y2, 0x4000, 2);
    14 - (Borrow(x, 0x100, 8) + Borrow(y1, 0x1000, 4) + Borrow(y2, 0x4000, 2)) + y3 / 0x8000
  }

  /** The index of a chunk size among the 32 tree bins, as the portable macro computes it. */
  function TreeIndex(s: int): int {
    var x := s / 0x100;
    if x == 0 then 0
    else if x > 0xFFFF then 31
    else
      var k := FloorLog(x);
      if 0 <= k then 2 * k + s / Pow2(k + 7) % 2 else 0
  }

  function MinSizeForTreeIndex(i: nat): int {
    Pow2(i / 2 + 8) + if i % 2 == 1 then Pow2(i / 2 + 7) else 0
  }

  lemma PowTable()
    ensures Pow2(0) == 1 && Pow2(1) == 2 && Pow2(2) == 4 && Pow2(3) == 8 && Pow2(4) == 0x10 && Pow2(5) == 0x20
    ensures Pow2(6) == 0x40 && Pow2(7) == 0x80 && Pow2(8) == 0x100 && Pow2(9) == 0x200 && Pow2(10) == 0x400
    ensures Pow2(11) == 0x800 && Pow2(12) == 0x1000 && Pow2(13) == 0x2000 && Pow2(14) == 0x4000
    ensures Pow2(15) == 0x8000 && Pow2(16) == 0x1_0000
  {}

  lemma BorrowIs(v: int)
    requires 0 <= v < 0x1_0000
    ensures Borrow(v, 0x100, 8) == if v < 0x100 then 8 else 0
    ensures Borrow(v, 0x1000, 4) == if v < 0x1000 then 4 else 0
    ensures Borrow(v, 0x4000, 2) == if v < 0x4000 then 2 else 0
  {
    assert v < 0x100 ==> (v - 0x100) % TWO32 == v - 0x100 + TWO32;
    assert v < 0x1000 ==> (v - 0x1000) % TWO32 == v - 0x1000 + TWO32;
    assert v < 0x4000 ==> (v - 0x4000) % TWO32 == v - 0x4000 + TWO32;
  }

  lemma ShiftedIs(v: int)
    requires 0 <= v < 0x1_0000
    ensures Shifted(v, 0x100, 8) == if v < 0x100 then 0x100 * v else v
    ensures Shifted(v, 0x1000, 4) == if v < 0x1000 then 0x10 * v else v
    ensures Shifted(v, 0x4000, 2) == if v < 0x4000 then 4 * v else v
  {
    BorrowIs(v);
    PowTable();
  }

  /** The borrows add up to the shift that brings x to bit 14 or 15. */
  lemma ShiftCount(x: int) returns (n: nat, y: int)
    requires 1 <= x <= 0xFFFF
    ensures n == 0 || n == 2 || n == 4 || n == 6 || n == 8 || n == 10 || n == 12 || n == 14
    ensures y == x * Pow2(n) && 0x4000 <= y < 0x1_0000 && FloorLog(x) == 14 - n + y / 0x8000
  {
    var y1, y2 := Shifted(x, 0x100, 8), Shifted(Shifted(x, 0x100, 8), 0x1000, 4);
    BorrowIs(x);
    ShiftedIs(x);
    BorrowIs(y1);
    ShiftedIs(y1);
    BorrowIs(y2);
    ShiftedIs(y2);
    n, y := Borrow(x, 0x100, 8) + Borrow(y1, 0x1000, 4) + Borrow(y2, 0x4000, 2), Shifted(y2, 0x4000, 2);
    ShiftsAdd(x, y1, y2, y);
  }

  lemma ShiftsAdd(x: int, y1: int, y2: int, y3: int)
    requires y1 == if x < 0x100 then 0x100 * x else x
    requires y2 == if y1 < 0x1000 then 0x10 * y1 else y1
    requires y3 == if y2 < 0x4000 then 4 * y2 else y2
    ensures var n := (if x < 0x100 then 8 else 0) + (if y1 < 0x1000 then 4 else 0) + if y2 < 0x4000 then 2 else 0;
      y3 == x * Pow2(n)
  {
    PowTable();
  }

  /** The branch-free count is the position of the highest bit. */
  lemma FloorLogIs(x: int)
    requires 1 <= x <= 0xFFFF
    ensures 0 <= FloorLog(x) <= 15 && Pow2(FloorLog(x)) <= x < 2 * Pow2(FloorLog(x))
  {
    hide FloorLog, Pow2;
    var n, y := ShiftCount(x);
    TopBit(y);
    var k := FloorLog(x);
    Complements(n, k);
    Between(x, Pow2(n), Pow2(k));
  }

  lemma TopBit(y: int)
    requires 0x4000 <= y < 0x1_0000
    ensures y / 0x8000 == if y < 0x8000 then 0 else 1
  {}

  lemma Complements(n: int, k: int)
    requires n == 0 || n == 2 || n == 4 || n == 6 || n == 8 || n == 10 || n == 12 || n == 14
    requires k == 14 - n || k == 15 - n
    ensures Pow2(k) * Pow2(n) == if k == 14 - n then 0x4000 else 0x8000
  {
    PowTable();
  }

  lemma Between(x: int, c: int, p: int)
    requires c > 0 && p * c <= x * c < 2 * (p * c)
    ensures p <= x < 2 * p
  {
    assert x < p ==> (p - x - 1) * c >= 0;
    assert x >= 2 * p ==> (x - 2 * p) * c >= 0;
  }

  lemma {:induction false} HalfWidth(k: nat)
    ensures Pow2(k + 7) == 0x80 * Pow2(k)
  {
    if k == 0 {
      PowTable();
    } else {
      HalfWidth(k - 1);
    }
  }

  lemma QuotientIs(s: int, h: int, q: int)
    requires h > 0 && q * h <= s < q * h + h
    ensures s / h == q
  {
    DivisionIs(s, q, h, s - q * h);
  }

  /** The bit below the highest one tells the halves of a power-of-two range apart. */
  lemma HalfBit(s: int, k: nat)
    requires s >= 0 && Pow2(k) <= s / 0x100 < 2 * Pow2(k)
    ensures Pow2(k + 8) <= s < Pow2(k + 9)
    ensures s / Pow2(k + 7) % 2 == if s < Pow2(k + 8) + Pow2(k + 7) then 0 else 1
  {
    var h := Pow2(k + 7);
    assert Pow2(k + 8) == 2 * h && Pow2(k + 9) == 2 * Pow2(k + 8);
    HalfWidth(k);
    QuotientIs(s, h, if s < 3 * h then 2 else 3);
  }

  lemma MinSizes(k: nat)
    ensures MinSizeForTreeIndex(2 * k) == Pow2(k + 8)
    ensures MinSizeForTreeIndex(2 * k + 1) == Pow2(k + 8) + Pow2(k + 7)
    ensures MinSizeForTreeIndex(2 * k + 2) == Pow2(k + 9)
  {
    assert (2 * k) / 2 == k && (2 * k + 1) / 2 == k && (2 * k + 2) / 2 == k + 1;
    assert (2 * k) % 2 == 0 && (2 * k + 1) % 2 == 1 && (2 * k + 2) % 2 == 0;
  }

  lemma TopBin(s: int)
    requires 0x100_0000 <= s
    ensures MinSizeForTreeIndex(31) <= s
  {
    MinSizes(15);
    HalfWidth(15);
    HalfWidth(16);
    PowTable();
  }

  lemma InHalf(k: nat, s: int, i: int)
    requires Pow2(k + 8) <= s < Pow2(k + 9)
    requires i == if s < Pow2(k + 8) + Pow2(k + 7) then 2 * k else 2 * k + 1
    ensures 0 <= i && MinSizeForTreeIndex(i) <= s < MinSizeForTreeIndex(i + 1)
  {
    hide MinSizeForTreeIndex, Pow2;
    MinSizes(k);
  }

  lemma IndexByHalf(s: int, k: nat)
    requires MIN_LARGE_SIZE <= s && s / 0x100 <= 0xFFFF && k == FloorLog(s / 0x100) < 16
    requires Pow2(k) <= s / 0x100 < 2 * Pow2(k)
    ensures Pow2(k + 8) <= s < Pow2(k + 9)
    ensures TreeIndex(s) == if s < Pow2(k + 8) + Pow2(k + 7) then 2 * k else 2 * k + 1
  {
    hide FloorLog, Pow2;
    HalfBit(s, k);
  }

  /** Every large size falls in its bin's range: at least the bin's least size, and below the next bin's. */
  lemma TreeIndexIs(s: int)
    requires MIN_LARGE_SIZE <= s < TWO64
    ensures 0 <= TreeIndex(s) < 32 && MinSizeForTreeIndex(TreeIndex(s)) <= s
    ensures TreeIndex(s) < 31 ==> s < MinSizeForTreeIndex(TreeIndex(s) + 1)
  {
    hide FloorLog, Pow2, MinSizeForTreeIndex;
    if s / 0x100 <= 0xFFFF {
      var k := FloorLog(s / 0x100);
      FloorLogIs(s / 0x100);
      IndexByHalf(s, k);
      hide TreeIndex;
      InHalf(k, s, TreeIndex(s));
    } else {
      TopBin(s);
    }
  }

  lemma MinSizeGrows(i: nat)
    ensures MinSizeForTreeIndex(i) < MinSizeForTreeIndex(i + 1)
  {
    MinSizes(i / 2);
    assert Pow2(i / 2 + 8) == 2 * Pow2(i / 2 + 7) && Pow2(i / 2 + 9) == 2 * Pow2(i / 2 + 8);
  }

  lemma {:induction false} MinSizesAscend(i: nat, j: nat)
    requires i <= j
    ensures MinSizeForTreeIndex(i) <= MinSizeForTreeIndex(j)
  {
    if i < j {
      MinSizesAscend(i, j - 1);
      MinSizeGrows(j - 1);
    }
  }

  /** The index is monotone: a chunk of a later bin is larger than any of an earlier one. */
  lemma TreeIndexMonotone(s: int, u: int)
    requires MIN_LARGE_SIZE <= s <= u < TWO64
    ensures TreeIndex(s) <= TreeIndex(u)
  {
    hide MinSizeForTreeIndex, TreeIndex;
    TreeIndexIs(s);
    TreeIndexIs(u);
    if TreeIndex(u) < TreeIndex(s) {
      MinSizesAscend(TreeIndex(u) + 1, TreeIndex(s));
    }
  }
}
