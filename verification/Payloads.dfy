/** User data: writing a payload, and copying and clearing bytes in little-endian words. */
module Payloads {
  import opened Words
  import opened Layouts
  import opened Tries
  import opened Sizes
  import opened Keys
  import opened Views
  import opened Relayout
  import opened TagOps
  import opened Segments
  import opened Areas
  import opened Frames
  import opened Heaps

  /** The low n bytes of a word; the whole word when n is eight or more. */
  function Low(w: int, n: int): int
    requires n > 0
  {
    if n >= 8 then w else w % Pow2(8 * n)
  }

  /** The low n bytes of w put in place of those of u. */
  function PutLow(u: int, w: int, n: int): int
    requires n > 0
  {
    if n >= 8 then w else u - u % Pow2(8 * n) + w % Pow2(8 * n)
  }

  lemma PutLowReads(u: int, w: int, n: int)
    requires n > 0
    ensures Low(PutLow(u, w, n), n) == Low(w, n)
  {
    if n < 8 {
      Replaced(u, w, Pow2(8 * n));
    }
  }

  lemma Replaced(u: int, w: int, d: int)
    requires d > 0
    ensures (u - u % d + w % d) % d == w % d
  {
    var q := u / d;
    assert u - u % d + w % d == q * d + w % d;
    DivisionIs(q * d + w % d, q, d, w % d);
  }

  /** Putting low bytes keeps the others. */
  lemma PutLowKeeps(u: int, w: int, n: int)
    requires 0 < n < 8
    ensures PutLow(u, w, n) / Pow2(8 * n) == u / Pow2(8 * n)
  {
    var d := Pow2(8 * n);
    DivisionIs(PutLow(u, w, n), u / d, d, w % d);
  }

  /** Byte j of a word, the least significant first. */
  ghost function ByteOf(w: int, j: nat): int {
    w / Pow2(8 * j) % 256
  }

  ghost predicate SameByte(w: int, u: int, j: nat) {
    ByteOf(w, j) == ByteOf(u, j)
  }

  /** The low n bytes of two words are equal if and only if each of those bytes is. */
  lemma LowBytes(w: int, u: int, n: int)
    requires 0 < n <= 8 && 0 <= w < TWO64 && 0 <= u < TWO64
    ensures Low(w, n) == Low(u, n) <==> forall j: nat {:trigger SameByte(w, u, j)} | j < n :: SameByte(w, u, j)
  {
    hide Pow2, SameByte;
    Pow63();
    NextPow(63);
    ModBytes(w, u, n);
  }

  lemma {:induction false} ModBytes(w: int, u: int, n: nat)
    ensures w % Pow2(8 * n) == u % Pow2(8 * n) <==>
      forall j: nat {:trigger SameByte(w, u, j)} | j < n :: SameByte(w, u, j)
  {
    if n == 0 {
      assert Pow2(8 * n) == 1;
    } else {
      ModBytes(w, u, n - 1);
      ModPeels(w, n - 1);
      ModPeels(u, n - 1);
      SumsEqual(w, u, n - 1);
    }
  }

  lemma ModPeels(w: int, k: nat)
    ensures w % Pow2(8 * (k + 1)) == w % Pow2(8 * k) + Pow2(8 * k) * ByteOf(w, k)
  {
    hide Pow2;
    PowAdd(8 * k, 8);
    PowTable();
    SplitMod(w, Pow2(8 * k), 256);
  }

  lemma SplitMod(w: int, d: int, c: int)
    requires d > 0 && c > 0
    ensures d * c > 0 && w % (d * c) == w % d + d * (w / d % c)
  {
    var q, r := w / d, w % d;
    var k, m := q / c, q % c;
    Distributes(d, k, c, m);
    BelowProduct(d, c, m, r);
    DivisionIs(w, k, d * c, d * m + r);
  }

  lemma Distributes(d: int, k: int, c: int, m: int)
    ensures d * (k * c + m) == k * (d * c) + d * m
  {}

  lemma BelowProduct(d: int, c: int, m: int, r: int)
    requires 0 < d && 0 <= m < c && 0 <= r < d
    ensures 0 < d * c && 0 <= d * m + r < d * c
  {
    StepApart(c - m, d);
    StepApart(m, d);
    StepApart(c, d);
    SumOfProducts(d, m, c - m);
  }

  lemma SumOfProducts(d: int, a: int, b: int)
    ensures d * (a + b) == a * d + b * d && d * a == a * d
  {}

  /** A low part and a byte above it are both equal when the sums are. */
  lemma SumsEqual(w: int, u: int, k: nat)
    ensures w % Pow2(8 * k) + Pow2(8 * k) * ByteOf(w, k) == u % Pow2(8 * k) + Pow2(8 * k) * ByteOf(u, k) <==>
      w % Pow2(8 * k) == u % Pow2(8 * k) && SameByte(w, u, k)
  {
    var d := Pow2(8 * k);
    var x, y := ByteOf(w, k), ByteOf(u, k);
    if w % d + d * x == u % d + d * y {
      DivisionIs(w % d + d * x, x, d, w % d);
      DivisionIs(u % d + d * y, y, d, u % d);
    }
  }

  ghost predicate SameAt(mem: Mem, a: int, mem': Mem, b: int, n: int, k: int) {
    0 <= k < n && k % 8 == 0 ==> Low(Rd(mem', b + k), n - k) == Low(Rd(mem, a + k), n - k)
  }

  ghost predicate CopiedTo(mem: Mem, a: int, mem': Mem, b: int, n: int, end: int) {
    forall k {:trigger SameAt(mem, a, mem', b, n, k)} :: k < end ==> SameAt(mem, a, mem', b, n, k)
  }

  /** The n bytes at a in mem are the n bytes at b in mem'. */
  ghost predicate SameBytes(mem: Mem, a: int, mem': Mem, b: int, n: int) {
    CopiedTo(mem, a, mem', b, n, n)
  }

  lemma ModOfMod(w: int, a: int, b: int)
    requires a > 0 && b > 0
    ensures a * b > 0 && (w % (a * b)) % a == w % a
  {
    assert a * b > 0;
    var q, r := w / (a * b), w % (a * b);
    assert w == q * (a * b) + r;
    var k, m := r / a, r % a;
    assert w == (q * b + k) * a + m;
    DivisionIs(w, q * b + k, a, m);
  }

  /** Equal low bytes are equal on fewer bytes. */
  lemma LowShrinks(w: int, w': int, m: int, n: int)
    requires 0 < m <= n && Low(w, n) == Low(w', n)
    ensures Low(w, m) == Low(w', m)
  {
    if n < 8 {
      PowAdd(8 * m, 8 * (n - m));
      ModOfMod(w, Pow2(8 * m), Pow2(8 * (n - m)));
      ModOfMod(w', Pow2(8 * m), Pow2(8 * (n - m)));
    }
  }

  lemma BytesTrans(m0: Mem, a: int, m1: Mem, b: int, m2: Mem, c: int, n: int, n': int)
    requires SameBytes(m0, a, m1, b, n) && SameBytes(m1, b, m2, c, n') && n <= n'
    ensures SameBytes(m0, a, m2, c, n)
  {
    hide Low;
    forall k ensures SameAt(m0, a, m2, c, n, k) {
      if 0 <= k < n && k % 8 == 0 {
        assert SameAt(m0, a, m1, b, n, k) && SameAt(m1, b, m2, c, n', k);
        LowShrinks(Rd(m2, c + k), Rd(m1, b + k), n - k, n' - k);
      }
    }
  }

  ghost predicate ZeroAt(mem: Mem, m: int, n: int, k: int) {
    0 <= k < n && k % 8 == 0 ==> Low(Rd(mem, m + k), n - k) == 0
  }

  ghost predicate ZeroBelow(mem: Mem, m: int, n: int, end: int) {
    forall k {:trigger ZeroAt(mem, m, n, k)} :: k < end ==> ZeroAt(mem, m, n, k)
  }

  ghost predicate ZeroBytes(mem: Mem, m: int, n: int) {
    ZeroBelow(mem, m, n, n)
  }

  /** Only words of the payload of p change. */
  ghost predicate PayloadTouch(L: Layout, mem: Mem, mem': Mem, p: int) {
    p in L && forall a {:trigger Rd(mem', a)} :: Rd(mem', a) == Rd(mem, a) || p + 16 <= a <= p + L[p].size
  }

  /** Writing a payload disturbs neither the heap nor any other payload. */
  lemma PayloadWrites(v: View, mem': Mem, p: int)
    requires Steady(v) && p in v.lay && v.lay[p].kind.Used? && p != v.ms && PayloadTouch(v.lay, v.mem, mem', p)
    ensures Steady(v.(mem := mem')) && PayloadSame(UsedOf(v.lay) - {p}, v.ms, v.mem, mem')
  {
    var v' := v.(mem := mem');
    assert ChunkOk(v.lay, p);
    forall a ensures Rd(mem', a) == Rd(v.mem, a) || exists c {:trigger Own(v.lay, c, a)} ::
      c in {p} && Own(v.lay, c, a) {
      assert p + 16 <= a <= p + v.lay[p].size ==> Own(v.lay, p, a);
    }
    OwnIsTagArea(v, mem', p, {p});
    TagTouchQuiet(v, mem', p);
    forall q ensures Tag(v.lay, mem', q) {
      assert Tag(v.lay, v.mem, q);
      if q in v.lay && q != p {
        TagElsewhere(v.lay, v.lay, v.mem, mem', {p}, q);
      }
    }
    assert Relaid(v, v');
    RelaidBase(v, v');
  }

  lemma PayloadFrame(L: Layout, mem: Mem, mem': Mem, p: int)
    requires LayoutOk(L) && PayloadTouch(L, mem, mem', p) && L[p].kind.Used?
    ensures Frame(L, L, mem, mem')
  {
    forall a ensures Rd(mem', a) == Rd(mem, a) || InChunk(L, a) {
      if p + 16 <= a <= p + L[p].size {
        OwnIn(L, p, a);
      }
    }
  }

  lemma PayloadHeap(v: View, mem': Mem, h: Heads, segs: seq<Segment>, p: int)
    requires HeapMid(v, h, segs, {}) && p in v.lay && v.lay[p].kind.Used? && p != v.ms
      && PayloadTouch(v.lay, v.mem, mem', p)
    ensures HeapMid(v.(mem := mem'), h, segs, {}) && PayloadSame(UsedOf(v.lay) - {p}, v.ms, v.mem, mem')
  {
    hide Base, PayloadSame;
    PayloadWrites(v, mem', p);
  }

  /** A word of the first n bytes from m. */
  ghost predicate WordOf(m: int, n: int, a: int) {
    m <= a < m + n && (a - m) % 8 == 0
  }

  /** Only words of the first n bytes from m change. */
  ghost predicate WordsTouch(mem: Mem, mem': Mem, m: int, n: int) {
    forall a {:trigger Rd(mem', a)} :: Rd(mem', a) == Rd(mem, a) || WordOf(m, n, a)
  }

  lemma WordsInPayload(L: Layout, mem: Mem, mem': Mem, p: int, n: int)
    requires LayoutOk(L) && p in L && WordsTouch(mem, mem', p + 16, n) && n <= L[p].size - CHUNK_OVERHEAD
    ensures PayloadTouch(L, mem, mem', p)
  {
    assert ChunkOk(L, p);
    forall a ensures Rd(mem', a) == Rd(mem, a) || p + 16 <= a <= p + L[p].size {
      if WordOf(p + 16, n, a) {
        WordEnds(p + 16, n, a, L[p].size - CHUNK_OVERHEAD);
      }
    }
  }

  lemma WordEnds(m: int, n: int, a: int, e: int)
    requires WordOf(m, n, a) && n <= e && e % 8 == 0
    ensures a + 8 <= m + e
  {}

  lemma WordsStep(mem: Mem, mem': Mem, m: int, k: int, n: int, w: int)
    requires 0 <= k < n && k % 8 == 0 && WordsTouch(mem, mem', m, k)
    ensures WordsTouch(mem, mem'[m + k := w], m, if k + 8 < n then k + 8 else n)
  {
    var next := mem'[m + k := w];
    forall a ensures Rd(next, a) == Rd(mem, a) || WordOf(m, if k + 8 < n then k + 8 else n, a) {
      assert a != m + k ==> Rd(next, a) == Rd(mem', a);
    }
  }

  /** The bytes of the last word behind the first n bytes from m are as they were. */
  ghost predicate TailKept(mem: Mem, mem': Mem, m: int, n: int) {
    n % 8 != 0 ==>
      var a, d := m + n - n % 8, Pow2(8 * (n % 8));
      Rd(mem', a) / d == Rd(mem, a) / d
  }

  lemma NoTail(mem: Mem, m: int)
    ensures TailKept(mem, mem, m, 0)
  {}

  lemma TailStep(mem: Mem, mem': Mem, m: int, k: int, n: int, w: int)
    requires 0 <= k < n && k % 8 == 0 && n <= k + 8 && WordsTouch(mem, mem', m, k)
    ensures TailKept(mem, mem'[m + k := PutLow(Rd(mem', m + k), w, n - k)], m, n)
  {
    hide PutLow;
    if n < k + 8 {
      assert n % 8 == n - k;
      assert Rd(mem', m + k) == Rd(mem, m + k);
      PutLowKeeps(Rd(mem', m + k), w, n - k);
    }
  }

  /** One more word cleared. */
  lemma ZeroStep(mem: Mem, mem': Mem, m: int, k: int, n: int)
    requires 0 <= k < n && k % 8 == 0 && WordsTouch(mem, mem', m, k) && ZeroBelow(mem', m, n, k)
    ensures var next := mem'[m + k := PutLow(Rd(mem', m + k), 0, n - k)];
      && WordsTouch(mem, next, m, if k + 8 < n then k + 8 else n) && ZeroBelow(next, m, n, k + 8)
  {
    hide WordsTouch, Low, PutLow;
    var w := PutLow(Rd(mem', m + k), 0, n - k);
    var next := mem'[m + k := w];
    PutLowReads(Rd(mem', m + k), 0, n - k);
    LowZero(n - k);
    WordsStep(mem, mem', m, k, n, w);
    forall j | j < k + 8 ensures ZeroAt(next, m, n, j) {
      if j != k {
        assert j < k ==> ZeroAt(mem', m, n, j);
        assert Rd(next, m + j) == Rd(mem', m + j);
      }
    }
  }

  lemma LowZero(n: int)
    requires n > 0
    ensures Low(0, n) == 0
  {}

  lemma SourceKept(mem: Mem, mem': Mem, s: int, d: int, k: int, n: int)
    requires 0 <= k < n && WordsTouch(mem, mem', d, k) && (s + n <= d || d + n <= s)
    ensures Rd(mem', s + k) == Rd(mem, s + k)
  {}

  /** One more word copied. */
  lemma CopyStep(mem: Mem, mem': Mem, s: int, d: int, k: int, n: int)
    requires 0 <= k < n && k % 8 == 0 && WordsTouch(mem, mem', d, k) && (s + n <= d || d + n <= s)
    requires CopiedTo(mem, s, mem', d, n, k)
    ensures var next := mem'[d + k := PutLow(Rd(mem', d + k), Rd(mem', s + k), n - k)];
      && WordsTouch(mem, next, d, if k + 8 < n then k + 8 else n) && CopiedTo(mem, s, next, d, n, k + 8)
  {
    hide WordsTouch, Low, PutLow;
    var w := PutLow(Rd(mem', d + k), Rd(mem', s + k), n - k);
    var next := mem'[d + k := w];
    PutLowReads(Rd(mem', d + k), Rd(mem', s + k), n - k);
    SourceKept(mem, mem', s, d, k, n);
    WordsStep(mem, mem', d, k, n, w);
    forall j | j < k + 8 ensures SameAt(mem, s, next, d, n, j) {
      if j != k {
        assert j < k ==> SameAt(mem, s, mem', d, n, j);
        assert Rd(next, d + j) == Rd(mem', d + j);
      }
    }
  }
}
