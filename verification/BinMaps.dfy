/** The 32-bit bin maps, and the bit tricks that pick a bin from them. */
module BinMaps {

  // ----- one operation each, so that proofs about bins need not look into words

  function Double(x: bv32): bv32 {
    x << 1
  }

  function Half(x: bv32): bv32 {
    x >> 1
  }

  function With(m: bv32, b: bv32): bv32 {
    m | b
  }

  function Without(m: bv32, b: bv32): bv32 {
    m & !b
  }

  function Masked(m: bv32, x: bv32): bv32 {
    m & x
  }

  /** No bit of x is lower than the single bit b. */
  predicate NoLower(x: bv32, b: bv32) {
    x & (b - 1) == 0
  }

  /** Shift left or right by a bin index. */
  function Shl(x: bv32, i: nat): bv32 {
    if i == 0 then x else Double(Shl(x, i - 1))
  }

  function Shr(x: bv32, i: nat): bv32 {
    if i == 0 then x else Half(Shr(x, i - 1))
  }

  function Idx2Bit(i: nat): bv32 {
    Shl(1, i)
  }

  function LeastBit(x: bv32): bv32 {
    x & (0 - x)
  }

  function LeftBits(x: bv32): bv32 {
    (x << 1) | (0 - (x << 1))
  }

  /** The branch-free index of a one-bit word. */
  function Bit2Idx(x: bv32): int {
    var y0 := x - 1;
    var k0 := (y0 >> 12) & 16;
    var y1 := y0 >> k0;
    var k1 := (y1 >> 5) & 8;
    var y2 := y1 >> k1;
    var k2 := (y2 >> 2) & 4;
    var y3 := y2 >> k2;
    var k3 := (y3 >> 1) & 2;
    var y4 := y3 >> k3;
    var k4 := y4 & 1;
    ((k0 + k1 + k2 + k3 + k4) + (y4 >> k4)) as int
  }

  predicate Hits(m: bv32, b: bv32) {
    m & b != 0
  }

  predicate Marked(m: bv32, i: int) {
    0 <= i < 32 && Hits(m, Idx2Bit(i))
  }

  /** The marking macro, and its use by the insertions: only an unmarked bin is marked. */
  function SetBit(m: bv32, i: nat): bv32 {
    With(m, Idx2Bit(i))
  }

  function Mark(m: bv32, i: nat): bv32 {
    if Marked(m, i) then m else SetBit(m, i)
  }

  function Unmark(m: bv32, i: nat): bv32 {
    Without(m, Idx2Bit(i))
  }

  predicate Single(b: bv32) {
    b != 0 && b & (b - 1) == 0
  }

  lemma SingleDoubles(b: bv32)
    requires Single(b) && b < 0x8000_0000
    ensures Single(Double(b)) && b < Double(b) && Half(Double(b)) == b
  {}

  lemma BitTable()
    ensures Idx2Bit(0) == 0x1 && Idx2Bit(1) == 0x2 && Idx2Bit(2) == 0x4 && Idx2Bit(3) == 0x8
    ensures Idx2Bit(4) == 0x10 && Idx2Bit(5) == 0x20 && Idx2Bit(6) == 0x40 && Idx2Bit(7) == 0x80
    ensures Idx2Bit(8) == 0x100 && Idx2Bit(9) == 0x200 && Idx2Bit(10) == 0x400 && Idx2Bit(11) == 0x800
    ensures Idx2Bit(12) == 0x1000 && Idx2Bit(13) == 0x2000 && Idx2Bit(14) == 0x4000 && Idx2Bit(15) == 0x8000
    ensures Idx2Bit(16) == 0x10000 && Idx2Bit(17) == 0x20000 && Idx2Bit(18) == 0x40000 && Idx2Bit(19) == 0x80000
    ensures Idx2Bit(20) == 0x100000 && Idx2Bit(21) == 0x200000 && Idx2Bit(22) == 0x400000 && Idx2Bit(23) == 0x800000
    ensures Idx2Bit(24) == 0x1000000 && Idx2Bit(25) == 0x2000000 && Idx2Bit(26) == 0x4000000 && Idx2Bit(27) == 0x8000000
    ensures Idx2Bit(28) == 0x10000000 && Idx2Bit(29) == 0x20000000 && Idx2Bit(30) == 0x40000000
      && Idx2Bit(31) == 0x80000000
  {}

  lemma Bit2IdxTable()
    ensures Bit2Idx(0x1) == 0 && Bit2Idx(0x2) == 1 && Bit2Idx(0x4) == 2 && Bit2Idx(0x8) == 3
    ensures Bit2Idx(0x10) == 4 && Bit2Idx(0x20) == 5 && Bit2Idx(0x40) == 6 && Bit2Idx(0x80) == 7
    ensures Bit2Idx(0x100) == 8 && Bit2Idx(0x200) == 9 && Bit2Idx(0x400) == 10 && Bit2Idx(0x800) == 11
    ensures Bit2Idx(0x1000) == 12 && Bit2Idx(0x2000) == 13 && Bit2Idx(0x4000) == 14 && Bit2Idx(0x8000) == 15
    ensures Bit2Idx(0x10000) == 16 && Bit2Idx(0x20000) == 17 && Bit2Idx(0x40000) == 18 && Bit2Idx(0x80000) == 19
    ensures Bit2Idx(0x100000) == 20 && Bit2Idx(0x200000) == 21 && Bit2Idx(0x400000) == 22 && Bit2Idx(0x800000) == 23
    ensures Bit2Idx(0x1000000) == 24 && Bit2Idx(0x2000000) == 25 && Bit2Idx(0x4000000) == 26 && Bit2Idx(0x8000000) == 27
    ensures Bit2Idx(0x10000000) == 28 && Bit2Idx(0x20000000) == 29 && Bit2Idx(0x40000000) == 30
      && Bit2Idx(0x80000000) == 31
  {}

  ghost predicate Below32(i: int) {
    || i == 0 || i == 1 || i == 2 || i == 3 || i == 4 || i == 5 || i == 6 || i == 7
    || i == 8 || i == 9 || i == 10 || i == 11 || i == 12 || i == 13 || i == 14 || i == 15
    || i == 16 || i == 17 || i == 18 || i == 19 || i == 20 || i == 21 || i == 22 || i == 23
    || i == 24 || i == 25 || i == 26 || i == 27 || i == 28 || i == 29 || i == 30 || i == 31
  }

  lemma BitIsSingle(i: nat)
    requires i < 32
    ensures Single(Idx2Bit(i))
    ensures i < 31 ==> Idx2Bit(i) < 0x8000_0000
  {
    BitTable();
    assert Below32(i);
  }

  lemma BitsBounded(i: nat)
    requires i < 32
    ensures i == 31 <==> Idx2Bit(i) >= 0x8000_0000
  {
    BitTable();
    BitIsSingle(i);
  }

  /** The branch-free code inverts `Idx2Bit`. */
  lemma Bit2IdxInverts(i: nat)
    requires i < 32
    ensures Bit2Idx(Idx2Bit(i)) == i
  {
    BitTable();
    Bit2IdxTable();
    assert Below32(i);
  }

  lemma {:induction false} BitsAscend(i: nat, j: nat)
    requires i < j < 32
    ensures Idx2Bit(i) < Idx2Bit(j)
  {
    BitIsSingle(j - 1);
    SingleDoubles(Idx2Bit(j - 1));
    if i < j - 1 {
      BitsAscend(i, j - 1);
    }
  }

  lemma BitsDiffer(i: nat, j: nat)
    requires i < 32 && j < 32
    ensures Single(Idx2Bit(i)) && Single(Idx2Bit(j))
    ensures Idx2Bit(i) == Idx2Bit(j) <==> i == j
    ensures Idx2Bit(i) < Idx2Bit(j) <==> i < j
  {
    BitIsSingle(i);
    BitIsSingle(j);
    if i < j {
      BitsAscend(i, j);
    } else if j < i {
      BitsAscend(j, i);
    }
  }

  lemma SingleMeets(a: bv32, b: bv32)
    requires a != 0 && a & (a - 1) == 0 && b != 0 && b & (b - 1) == 0
    ensures a & b == if a == b then a else 0
  {}

  lemma OrMeets(m: bv32, a: bv32, b: bv32)
    ensures (m | a) & b == (m & b) | (a & b)
  {}

  lemma NotMeets(m: bv32, a: bv32, b: bv32)
    ensures (m & !a) & b == (m & b) & !(a & b)
  {}

  lemma OrNothing(x: bv32, b: bv32)
    ensures x | 0 == x && x & !0 == x && (x & b) & !b == 0 && (b != 0 ==> (x & b) | b != 0)
  {}

  lemma WithSingle(m: bv32, a: bv32, b: bv32)
    requires Single(a) && Single(b)
    ensures Hits(With(m, a), b) <==> a == b || Hits(m, b)
  {
    SingleMeets(a, b);
    OrMeets(m, a, b);
    OrNothing(m & b, b);
    OrNothing(m, b);
  }

  lemma WithoutSingle(m: bv32, a: bv32, b: bv32)
    requires Single(a) && Single(b)
    ensures Hits(Without(m, a), b) <==> a != b && Hits(m, b)
  {
    SingleMeets(a, b);
    NotMeets(m, a, b);
    OrNothing(m & b, b);
    OrNothing(m, b);
  }

  lemma MarkBits(m: bv32, i: nat, j: nat)
    requires i < 32 && j < 32
    ensures Hits(With(m, Idx2Bit(i)), Idx2Bit(j)) <==> i == j || Hits(m, Idx2Bit(j))
  {
    hide Hits, Single, Idx2Bit, With, Without;
    BitsDiffer(i, j);
    WithSingle(m, Idx2Bit(i), Idx2Bit(j));
  }

  lemma ClearBits(m: bv32, i: nat, j: nat)
    requires i < 32 && j < 32
    ensures Hits(Without(m, Idx2Bit(i)), Idx2Bit(j)) <==> i != j && Hits(m, Idx2Bit(j))
  {
    hide Hits, Single, Idx2Bit, With, Without;
    BitsDiffer(i, j);
    WithoutSingle(m, Idx2Bit(i), Idx2Bit(j));
  }

  lemma MarkedAfter(m: bv32, i: nat, j: nat)
    requires i < 32 && j < 32
    ensures Marked(Mark(m, i), j) <==> j == i || Marked(m, j)
  {
    hide Hits, Idx2Bit, With;
    MarkBits(m, i, j);
  }

  lemma UnmarkedAfter(m: bv32, i: nat, j: nat)
    requires i < 32 && j < 32
    ensures Marked(Unmark(m, i), j) <==> j != i && Marked(m, j)
  {
    hide Hits, Idx2Bit, Without;
    ClearBits(m, i, j);
  }

  /** Marking and clearing a bin changes the mark of that bin alone. */
  lemma MarkSets(m: bv32, i: nat, j: int)
    requires i < 32
    ensures Marked(Mark(m, i), j) <==> j == i || Marked(m, j)
    ensures Marked(Unmark(m, i), j) <==> j != i && Marked(m, j)
  {
    if 0 <= j < 32 {
      hide Mark, Unmark;
      MarkedAfter(m, i, j);
      UnmarkedAfter(m, i, j);
    }
  }

  lemma MarkAgain(m: bv32, i: nat)
    ensures Marked(m, i) ==> Mark(m, i) == m
    ensures !Marked(m, i) ==> Mark(m, i) == SetBit(m, i)
  {}

  lemma SingleHalves(b: bv32)
    requires Single(b) && b != 1
    ensures Single(Half(b)) && Half(b) < b && Double(Half(b)) == b && Half(b) < 0x8000_0000
  {}

  lemma {:induction false} SingleIsBit(b: bv32) returns (i: nat)
    requires Single(b)
    ensures i < 32 && b == Idx2Bit(i)
    decreases b
  {
    hide Single, Half, Double;
    if b == 1 {
      i := 0;
    } else {
      SingleHalves(b);
      i := SingleIsBit(Half(b));
      BitsBounded(i);
      i := i + 1;
    }
  }

  lemma LeastIsSingle(x: bv32)
    requires x != 0
    ensures Single(LeastBit(x)) && Hits(x, LeastBit(x)) && NoLower(x, LeastBit(x))
  {}

  lemma SmallerSingle(x: bv32, b: bv32, c: bv32)
    requires Single(b) && Single(c) && c < b && NoLower(x, b)
    ensures !Hits(x, c)
  {}

  lemma NoneBefore(x: bv32, i: nat, j: nat)
    requires j < i < 32 && NoLower(x, Idx2Bit(i))
    ensures !Marked(x, j)
  {
    hide Hits, Single, Idx2Bit, NoLower;
    BitsDiffer(j, i);
    SmallerSingle(x, Idx2Bit(i), Idx2Bit(j));
  }

  lemma LeastBitExists(x: bv32) returns (i: nat)
    requires x != 0
    ensures i < 32 && LeastBit(x) == Idx2Bit(i) && Hits(x, Idx2Bit(i)) && NoLower(x, Idx2Bit(i))
  {
    hide Hits, Single, Idx2Bit, NoLower, LeastBit;
    LeastIsSingle(x);
    i := SingleIsBit(LeastBit(x));
  }

  /** The least bit of a non-empty map names its first marked bin. */
  lemma LeastBitIsFirst(x: bv32) returns (i: nat)
    requires x != 0
    ensures i < 32 && LeastBit(x) == Idx2Bit(i) && Bit2Idx(LeastBit(x)) == i && Marked(x, i)
    ensures forall j {:trigger Marked(x, j)} | 0 <= j < i :: !Marked(x, j)
  {
    hide Hits, Idx2Bit, NoLower, LeastBit, Bit2Idx;
    i := LeastBitExists(x);
    Bit2IdxInverts(i);
    forall j: int | 0 <= j < i ensures !Marked(x, j) {
      NoneBefore(x, i, j);
    }
  }

  /** The bins of a map after i, as masking with the left bits of i leaves them. */
  function LaterBins(x: bv32, i: nat): bv32 {
    Masked(LeftBits(Idx2Bit(i)), x)
  }

  lemma LeftMeets(b: bv32, c: bv32)
    requires b != 0 && b & (b - 1) == 0 && c != 0 && c & (c - 1) == 0
    ensures ((b << 1) | (0 - (b << 1))) & c == if b < c then c else 0
  {}

  lemma AndSwaps(m: bv32, x: bv32, c: bv32)
    ensures (m & x) & c == x & (m & c) && x & 0 == 0
  {}

  lemma LeftOfSingle(x: bv32, b: bv32, c: bv32)
    requires Single(b) && Single(c)
    ensures Hits(Masked(LeftBits(b), x), c) <==> b < c && Hits(x, c)
  {
    LeftMeets(b, c);
    AndSwaps(LeftBits(b), x, c);
  }

  lemma LeftBitsMask(x: bv32, i: nat, j: nat)
    requires i < 32 && j < 32
    ensures Hits(Masked(LeftBits(Idx2Bit(i)), x), Idx2Bit(j)) <==> i < j && Hits(x, Idx2Bit(j))
  {
    hide Hits, Single, Idx2Bit, LeftBits, Masked;
    BitsDiffer(i, j);
    LeftOfSingle(x, Idx2Bit(i), Idx2Bit(j));
  }

  /** `LeftBits` of a bin's bit keeps exactly the bins after it. */
  lemma LeftBitsSelect(x: bv32, i: nat, j: int)
    requires i < 32
    ensures Marked(LaterBins(x, i), j) <==> i < j && Marked(x, j)
  {
    if 0 <= j < 32 {
      hide Hits, Idx2Bit, LeftBits, Masked;
      LeftBitsMask(x, i, j);
    }
  }

  lemma ShiftHits(y: bv32, b: bv32)
    requires Single(b) && b < 0x8000_0000
    ensures Hits(Half(y), b) <==> Hits(y, Double(b))
  {}

  lemma ShrStep(y: bv32, j: nat)
    requires j + 1 < 32
    ensures Hits(Half(y), Idx2Bit(j)) <==> Hits(y, Idx2Bit(j + 1))
  {
    hide Hits, Half, Double, Single;
    BitIsSingle(j);
    ShiftHits(y, Idx2Bit(j));
  }

  /** Shifting the map right by a bin index renumbers the bins from there. */
  lemma {:induction false} ShrMarks(x: bv32, i: nat, j: nat)
    requires i + j < 32
    ensures Marked(Shr(x, i), j) <==> Marked(x, i + j)
  {
    if i > 0 {
      hide Hits, Idx2Bit, Half;
      ShrMarks(x, i - 1, j + 1);
      ShrStep(Shr(x, i - 1), j);
    }
  }

  lemma TopBitGoes(y: bv32)
    ensures !Hits(Half(y), 0x8000_0000)
  {}

  lemma HalfTop(y: bv32)
    ensures !Hits(Half(y), Idx2Bit(31))
  {
    hide Hits, Half;
    BitTable();
    TopBitGoes(y);
  }

  /** A bin shifted in from beyond the map is not marked. */
  lemma {:induction false} ShrEnds(x: bv32, i: nat, j: nat)
    requires j < 32 <= i + j && i > 0
    ensures !Marked(Shr(x, i), j)
  {
    hide Hits, Idx2Bit, Half;
    if j == 31 {
      HalfTop(Shr(x, i - 1));
    } else {
      ShrStep(Shr(x, i - 1), j);
      ShrEnds(x, i - 1, j + 1);
    }
  }

  lemma AnyMarked(x: bv32)
    ensures x == 0 <==> forall j {:trigger Marked(x, j)} :: !Marked(x, j)
  {
    if x != 0 {
      var i := LeastBitIsFirst(x);
    }
  }

  // ----- picking a small bin

  /** Whether one of the first two bins is marked, and which of them to use. */
  predicate LowTwo(x: bv32) {
    x & 3 != 0
  }

  function MissBit(x: bv32): int {
    (!x & 1) as int
  }

  lemma LowBits(x: bv32)
    ensures LowTwo(x) <==> Marked(x, 0) || Marked(x, 1)
    ensures MissBit(x) == if Marked(x, 0) then 0 else 1
  {
    assert Idx2Bit(0) == 1 && Idx2Bit(1) == 2;
  }

  lemma DoubleHits(y: bv32, b: bv32)
    requires Single(b) && b < 0x8000_0000
    ensures Hits(Double(y), Double(b)) <==> Hits(y, b)
    ensures !Hits(Double(y), 1)
  {}

  lemma ShlStep(y: bv32, j: nat)
    requires j < 32
    ensures Hits(Double(y), Idx2Bit(j)) <==> j > 0 && Hits(y, Idx2Bit(j - 1))
  {
    hide Hits, Double, Single;
    if j > 0 {
      BitIsSingle(j - 1);
      DoubleHits(y, Idx2Bit(j - 1));
    } else {
      DoubleHits(y, 1);
    }
  }

  lemma {:induction false} ShlMarks(y: bv32, i: nat, j: nat)
    requires j < 32
    ensures Marked(Shl(y, i), j) <==> i <= j && Marked(y, j - i)
  {
    if i > 0 {
      hide Hits, Idx2Bit, Double;
      ShlStep(Shl(y, i - 1), j);
      if j > 0 {
        ShlMarks(y, i - 1, j - 1);
      }
    }
  }

  /** The marked bins after i, as the map shifted down and back up and masked gives them. */
  function BinsAfter(x: bv32, i: nat): bv32 {
    LaterBins(Shl(Shr(x, i), i), i)
  }

  lemma DownAndUp(x: bv32, i: nat, j: nat)
    requires i < 32 && j < 32
    ensures Marked(Shl(Shr(x, i), i), j) <==> i <= j && Marked(x, j)
  {
    hide Hits, Idx2Bit, Shl, Shr;
    ShlMarks(Shr(x, i), i, j);
    if i <= j {
      ShrMarks(x, i, j - i);
    }
  }

  lemma BinsAfterMarks(x: bv32, i: nat, j: int)
    requires i < 32
    ensures Marked(BinsAfter(x, i), j) <==> i < j && Marked(x, j)
  {
    hide Hits, Idx2Bit, LaterBins, Shl, Shr;
    LeftBitsSelect(Shl(Shr(x, i), i), i, j);
    if 0 <= j < 32 {
      DownAndUp(x, i, j);
    }
  }
}
