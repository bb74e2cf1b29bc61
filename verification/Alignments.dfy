/**
 * Alignment arithmetic: the power-of-two test, rounding an alignment and an address up, in 64-bit unsigned arithmetic.
 */
module Alignments {
  import opened Words
  import opened Tries
  import opened Sizes
  import opened Keys

  /** Bitwise and. */
  function And(x: nat, y: nat): nat {
    if x == 0 || y == 0 then 0 else (x % 2) * (y % 2) + 2 * And(x / 2, y / 2)
  }

  lemma AndZero(x: nat)
    ensures And(x, 0) == 0 && And(0, x) == 0
  {}

  ghost predicate PowerOfTwo(a: int) {
    exists k: nat {:trigger Pow2(k)} :: a == Pow2(k)
  }

  lemma PowerHalves(a: nat)
    requires a > 1 && a % 2 == 0
    ensures PowerOfTwo(a) <==> PowerOfTwo(a / 2)
  {
    if PowerOfTwo(a) {
      var k: nat :| a == Pow2(k);
      assert k > 0;
      assert a / 2 == Pow2(k - 1);
    }
    if PowerOfTwo(a / 2) {
      var k: nat :| a / 2 == Pow2(k);
      assert a == Pow2(k + 1);
    }
  }

  lemma LowBit(x: nat)
    ensures (x % 2) * (x % 2) == x % 2 && x % 2 + 2 * (x / 2) == x
  {}

  lemma {:induction false} AndSelf(x: nat)
    ensures And(x, x) == x
  {
    if x > 0 {
      AndSelf(x / 2);
      LowBit(x);
    }
  }

  lemma OddPower(a: nat)
    requires a % 2 == 1
    ensures PowerOfTwo(a) <==> a == 1
  {
    assert Pow2(0) == 1;
    if PowerOfTwo(a) {
      var k: nat :| a == Pow2(k);
      assert k > 0 ==> Pow2(k) == 2 * Pow2(k - 1);
    }
  }

  /** Clearing the lowest set bit leaves nothing exactly for a power of two. */
  lemma {:induction false} PowerTest(a: nat)
    requires a > 0
    ensures And(a, a - 1) == 0 <==> PowerOfTwo(a)
  {
    if a % 2 == 1 {
      OddPower(a);
      assert (a - 1) / 2 == a / 2 && (a - 1) % 2 == 0;
      AndSelf(a / 2);
    } else {
      PowerHalves(a);
      PowerTest(a / 2);
      assert (a - 1) / 2 == a / 2 - 1 && (a - 1) % 2 == 1;
      assert And(a, a - 1) == 2 * And(a / 2, a / 2 - 1);
    }
  }

  lemma {:induction false} AndOnes(x: nat, w: nat)
    requires x < Pow2(w)
    ensures And(x, Pow2(w) - 1) == x
  {
    if w > 0 && x > 0 {
      AndOnes(x / 2, w - 1);
      assert (Pow2(w) - 1) / 2 == Pow2(w - 1) - 1 && (Pow2(w) - 1) % 2 == 1;
    }
  }

  lemma HalfMod(x: nat, d: nat)
    requires d > 0
    ensures x % (2 * d) == x % 2 + 2 * ((x / 2) % d)
  {
    var q := (x / 2) / d;
    var r := (x / 2) % d;
    assert x / 2 == q * d + r;
    assert x == q * (2 * d) + (2 * r + x % 2);
    DivisionIs(x, q, 2 * d, 2 * r + x % 2);
  }

  /** The greatest multiple of d that is not above x. */
  function RoundDown(x: int, d: int): int
    requires d > 0
  {
    x - x % d
  }

  /** Masking with the negation of a power of two rounds down to a multiple of it. */
  lemma {:induction false} MaskRoundsDown(x: nat, k: nat, w: nat)
    requires x < Pow2(w) && k <= w
    ensures Pow2(k) <= Pow2(w) && And(x, Pow2(w) - Pow2(k)) == RoundDown(x, Pow2(k))
    decreases k
  {
    hide And, RoundDown;
    if k == 0 {
      AndOnes(x, w);
      RoundToOne(x);
    } else {
      hide *;
      HalfBelow(x, w);
      MaskRoundsDown(x / 2, k - 1, w - 1);
      HalfBelow(x, k);
      MaskStep(x, Pow2(k - 1), Pow2(w - 1), Pow2(k), Pow2(w));
    }
  }

  lemma RoundToOne(x: int)
    ensures RoundDown(x, 1) == x
  {}

  /** One bit more on both sides of the mask. */
  lemma MaskStep(x: nat, p: nat, q: nat, a: nat, b: nat)
    requires 0 < p <= q && a == 2 * p && b == 2 * q && And(x / 2, q - p) == RoundDown(x / 2, p)
    ensures And(x, b - a) == RoundDown(x, a)
  {
    hide And, RoundDown;
    AndEven(x, q - p);
    HalfRounded(x, p);
  }

  lemma HalfRounded(x: nat, d: nat)
    requires d > 0
    ensures RoundDown(x, 2 * d) == 2 * RoundDown(x / 2, d)
  {
    HalfMod(x, d);
    LowBit(x);
  }

  lemma HalfBelow(x: nat, w: nat)
    requires w > 0
    ensures Pow2(w) == 2 * Pow2(w - 1) && (x < Pow2(w) ==> x / 2 < Pow2(w - 1))
  {}

  /** Masking with an even word masks the halves. */
  lemma AndEven(x: nat, y: nat)
    ensures And(x, 2 * y) == 2 * And(x / 2, y)
  {
    assert (2 * y) / 2 == y && (2 * y) % 2 == 0;
    AndZero(x / 2);
    AndZero(y);
  }

  // ----- rounding an alignment up to a power of two

  /** Doubling without bound. */
  function DoubleTo(a: int, x: int): int
    requires a > 0
    decreases x - a
  {
    if a >= x then a else DoubleTo(2 * a, x)
  }

  /** One turn of the doubling loop. */
  lemma DoublesOn(b: int, x: int)
    requires 0 < b && b % 16 == 0
    ensures b < x <= TWO63 ==> b * 2 % TWO64 == 2 * b && (2 * b) % 16 == 0 && DoubleTo(b, x) == DoubleTo(2 * b, x)
    ensures x <= b ==> DoubleTo(b, x) == b
  {}

  /** The power of two that memalign uses for an alignment above eight. */
  function Rounded(alignment: int): int
    requires alignment > 0
  {
    var x := if alignment < MIN_CHUNK_SIZE then MIN_CHUNK_SIZE else alignment;
    if And(x, x - 1) != 0 then DoubleTo(16, x) else x
  }

  lemma {:induction false} DoubleToIs(a: int, x: int)
    requires a > 0 && PowerOfTwo(a)
    ensures PowerOfTwo(DoubleTo(a, x)) && x <= DoubleTo(a, x) && (a < x ==> DoubleTo(a, x) < 2 * x)
    decreases x - a
  {
    if a < x {
      var k: nat :| a == Pow2(k);
      assert 2 * a == Pow2(k + 1);
      DoubleToIs(2 * a, x);
    }
  }

  /** The least power of two that is at least the alignment and a minimal chunk. */
  lemma RoundedIs(alignment: int)
    requires alignment > 0
    ensures var a, x := Rounded(alignment), if alignment < MIN_CHUNK_SIZE then MIN_CHUNK_SIZE else alignment;
      PowerOfTwo(a) && x <= a < 2 * x
  {
    var x := if alignment < MIN_CHUNK_SIZE then MIN_CHUNK_SIZE else alignment;
    PowerTest(x);
    assert Pow2(4) == 16;
    DoubleToIs(16, x);
  }

  /** The doubling loop in machine arithmetic, where the shift drops the top bit. */
  function Doubled(k: nat): int {
    if k == 0 then 16 else Doubled(k - 1) * 2 % TWO64
  }

  lemma {:induction false} PowGrows(i: nat, j: nat)
    requires i <= j
    ensures Pow2(i) <= Pow2(j)
  {
    if i < j {
      PowGrows(i, j - 1);
    }
  }

  lemma DoublingStep(x: int)
    ensures 0 <= x < TWO63 ==> x * 2 % TWO64 == 2 * x
    ensures TWO63 * 2 % TWO64 == 0
  {}

  lemma {:induction false} DoubledIs(k: nat)
    ensures Doubled(k) == if k <= 59 then Pow2(k + 4) else 0
  {
    assert Pow2(4) == 16;
    if k > 0 {
      DoubledIs(k - 1);
      Pow63();
      if k <= 59 {
        PowGrows(k + 4, 63);
      }
      DoublingStep(Doubled(k - 1));
    }
  }

  /** The loop's variable never exceeds 2^63, and gets there. */
  lemma DoubledWithin(k: nat)
    ensures Doubled(k) <= TWO63 && Doubled(59) == TWO63
  {
    hide Doubled, Pow2;
    DoubledIs(k);
    DoubledIs(59);
    Pow63();
    if k <= 59 {
      PowGrows(k + 4, 63);
    }
  }

  lemma LoopEnds(alignment: int)
    requires 0 <= alignment < TWO64
    ensures (exists k: nat {:trigger Doubled(k)} :: Doubled(k) >= alignment) <==> alignment <= TWO63
  {
    hide Doubled;
    DoubledWithin(59);
    if exists k: nat {:trigger Doubled(k)} :: Doubled(k) >= alignment {
      var k: nat :| Doubled(k) >= alignment;
      DoubledWithin(k);
    }
  }

  lemma NoLargePower(a: int)
    requires TWO63 < a < TWO64
    ensures !PowerOfTwo(a)
  {
    Pow63();
    if PowerOfTwo(a) {
      var k: nat :| a == Pow2(k);
      if k <= 63 {
        PowGrows(k, 63);
      } else {
        PowGrows(64, k);
      }
    }
  }

  /** Rounding an alignment up ends, at once or by doubling, if and only if the alignment is at most 2^63. */
  lemma RoundingEnds(alignment: int)
    requires MIN_CHUNK_SIZE <= alignment < TWO64
    ensures And(alignment, alignment - 1) == 0 || (exists k: nat {:trigger Doubled(k)} :: Doubled(k) >= alignment) <==>
      alignment <= TWO63
  {
    LoopEnds(alignment);
    PowerTest(alignment);
    if TWO63 < alignment {
      NoLargePower(alignment);
    }
  }

  /** One past 2^63 is not a power of two, so the loop is entered, and it never ends. */
  lemma RoundingDiverges(k: nat)
    ensures var a := TWO63 + 1; And(a, a - 1) != 0 && Doubled(k) < a
  {
    PowerTest(TWO63 + 1);
    OddPower(TWO63 + 1);
    LoopEnds(TWO63 + 1);
  }

  // ----- rounding an address up

  /** (a + alignment - 1) & -alignment */
  function AlignUp(m: int, a: int): int {
    var x := (m + a - 1) % TWO64;
    if 0 <= a <= TWO64 then And(x, TWO64 - a) else 0
  }

  lemma SmallPower(a: int) returns (k: nat)
    requires PowerOfTwo(a) && a <= TWO63
    ensures a == Pow2(k) && k <= 63
  {
    k :| a == Pow2(k);
    Pow63();
    if k > 63 {
      PowGrows(64, k);
    }
  }

  lemma Pow64()
    ensures Pow2(64) == TWO64
  {
    Pow63();
  }

  lemma PowerPositive(a: int)
    requires PowerOfTwo(a)
    ensures a >= 1
  {}

  lemma AlignUpIs(m: int, a: int)
    requires PowerOfTwo(a) && a <= TWO63 && 0 <= m && m + a - 1 < TWO64
    ensures AlignUp(m, a) % a == 0 && m <= AlignUp(m, a) < m + a && (m % a == 0 ==> AlignUp(m, a) == m)
  {
    hide And, Pow2, RoundDown;
    var k := SmallPower(a);
    Pow64();
    var x := m + a - 1;
    PowerPositive(a);
    MaskRoundsDown(x, k, 64);
    RoundedDown(x, a);
    Multiples(m, AlignUp(m, a), a);
  }

  lemma RoundedDown(x: int, a: int)
    requires a > 0
    ensures RoundDown(x, a) % a == 0 && x - a < RoundDown(x, a) <= x
  {
    DivisionIs(x - x % a, x / a, a, 0);
  }

  /** Two multiples less than one step apart are equal. */
  lemma Multiples(m: int, u: int, a: int)
    requires a > 0 && u % a == 0 && m <= u < m + a
    ensures m % a == 0 ==> u == m
  {
    if m % a == 0 {
      var i, j := m / a, u / a;
      assert m == i * a && u == j * a;
      assert (j - i) * a == u - m;
      StepApart(j - i, a);
    }
  }

  /** A multiple of a power of two of at least eight is a multiple of eight. */
  lemma EightDivides(u: int, a: int)
    requires PowerOfTwo(a) && a >= 32 && u % a == 0
    ensures u % 8 == 0 && a % 8 == 0
  {
    hide Pow2;
    var k: nat :| a == Pow2(k);
    PowTable();
    if k < 3 {
      PowGrows(k, 3);
    }
    PowAdd(3, k - 3);
    Eighth(u, a, Pow2(k - 3));
  }

  lemma Eighth(u: int, a: int, b: int)
    requires a == 8 * b && a > 0 && u % a == 0
    ensures u % 8 == 0 && a % 8 == 0
  {
    var q := u / a;
    assert u == q * (8 * b);
    EightTimes(q, b);
  }

  lemma EightTimes(q: int, b: int)
    ensures q * (8 * b) == 8 * (q * b)
  {}

  lemma RoundedFits(alignment: int)
    requires 0 < alignment <= TWO63
    ensures Rounded(alignment) <= TWO63
  {
    RoundedIs(alignment);
    var k: nat :| Rounded(alignment) == Pow2(k);
    Pow63();
    if k > 63 {
      PowGrows(64, k);
    } else {
      PowGrows(k, 63);
    }
  }
}
