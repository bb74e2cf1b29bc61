/** Setting up top: its head word, and the trailing overhead word that may fall between two words of memory. */
module Tops {
  import opened Words
  import opened Regions

  /** 256 to the power k. */
  function Scale(k: nat): (r: int)
    ensures r >= 1 && (k > 0 ==> r % 256 == 0 && r >= 256)
  {
    if k == 0 then 1 else
      var s := Scale(k - 1);
      Times256(s);
      256 * s
  }

  lemma Times256(s: int)
    ensures (256 * s) % 256 == 0
  {}

  /** Store a word at any address: one that is no multiple of eight shares its bytes between two words. */
  function StoreWord(mem: Mem, a: int, x: int): Mem {
    var k := a % 8;
    var lo := a - k;
    if k == 0 then mem[a := x] else
      var low, high := Rd(mem, lo), Rd(mem, lo + 8);
      mem[lo := low % Scale(k) + x % Scale(8 - k) * Scale(k)][lo + 8 := high / Scale(k) * Scale(k) + x / Scale(8 - k)]
  }

  /** A head word as the accessors read it: this size, a chunk not in use, the one before it in use. */
  predicate HeadSays(head: int, size: int) {
    ChunkSize(head) == size && !Cinuse(head) && Pinuse(head)
  }

  /** The sizes of top whose head can be read back. */
  predicate ReadableTop(size: int) {
    size % 4 == 0 && 8 <= size <= TWO64 - 8
  }

  function FootOf(p: int, size: int): int {
    (p + size + 8) % TWO64
  }

  function TopMem(mem: Mem, p: int, size: int): Mem {
    StoreWord(mem[p + 8 := SetPinuse(size)], FootOf(p, size), TOP_FOOT_SIZE)
  }

  ghost predicate TopScope(p: int, size: int) {
    0 <= p && p % 8 == 0 && p + 16 <= TWO64 && 0 <= size < TWO64
  }

  lemma FootIs(p: int, size: int)
    requires TopScope(p, size)
    ensures FootOf(p, size) == if p + size + 8 < TWO64 then p + size + 8 else p + size + 8 - TWO64
    ensures FootOf(p, size) % 8 == size % 8
  {}

  /** Only the head and the words that hold the foot change. */
  ghost predicate TopTouch(mem: Mem, mem': Mem, p: int, foot: int) {
    forall a {:trigger Rd(mem', a)} | a % 8 == 0 :: Rd(mem', a) == Rd(mem, a) || a == p + 8 || foot - 8 < a < foot + 8
  }

  lemma TopTouched(mem: Mem, p: int, size: int)
    ensures TopTouch(mem, TopMem(mem, p, size), p, FootOf(p, size))
  {}

  lemma SmallFoot(k: int)
    requires 1 <= k < 8
    ensures TOP_FOOT_SIZE % Scale(k) == TOP_FOOT_SIZE && TOP_FOOT_SIZE / Scale(k) == 0
  {
    assert TOP_FOOT_SIZE < Scale(k);
    DivisionIs(TOP_FOOT_SIZE, 0, Scale(k), TOP_FOOT_SIZE);
  }

  lemma EvenTimes(q: int, s: int)
    ensures (q * (2 * s)) % 2 == 0
  {
    assert q * (2 * s) == 2 * (q * s);
  }

  lemma MultipleEven(q: int, k: int)
    requires 1 <= k < 8
    ensures (q * Scale(k)) % 2 == 0
  {
    hide Scale;
    EvenTimes(q, Scale(k) / 2);
  }

  /** The two words that a store at an unaligned address changes. */
  lemma StoreReads(mem: Mem, a: int, x: int)
    ensures var k := a % 8; var m := StoreWord(mem, a, x);
      if k == 0 then Rd(m, a) == x else
        && Rd(m, a - k) == Rd(mem, a - k) % Scale(k) + x % Scale(8 - k) * Scale(k)
        && Rd(m, a - k + 8) == Rd(mem, a - k + 8) / Scale(k) * Scale(k) + x / Scale(8 - k)
  {
    hide Scale;
  }

  lemma HeadSwells(head: int, k: int, size: int)
    requires 1 <= k < 8 && 0 <= size < 8
    ensures !HeadSays(head % Scale(k) + TOP_FOOT_SIZE * Scale(k), size)
  {}

  lemma BitCleared(head: int, k: int, size: int)
    requires 1 <= k < 8
    ensures !HeadSays(head / Scale(k) * Scale(k), size)
  {
    MultipleEven(head / Scale(k), k);
  }

  /** A foot that starts inside the head makes it too large; one that ends inside it clears its lowest bit. */
  lemma FootHitsHead(mem: Mem, p: int, size: int)
    requires TopScope(p, size) && (0 <= size < 8 || TWO64 - 8 < size)
    ensures !HeadSays(Rd(TopMem(mem, p, size), p + 8), size)
  {
    hide StoreWord, HeadSays, SetPinuse, Scale, FootOf;
    FootIs(p, size);
    var m, k := mem[p + 8 := SetPinuse(size)], FootOf(p, size) % 8;
    StoreReads(m, FootOf(p, size), TOP_FOOT_SIZE);
    if size == 0 {
      FootItself();
    } else if size < 8 {
      SmallFoot(8 - k);
      HeadSwells(SetPinuse(size), k, size);
    } else {
      SmallFoot(8 - k);
      BitCleared(SetPinuse(size), k, size);
    }
  }

  lemma FootItself()
    ensures !HeadSays(TOP_FOOT_SIZE, 0)
  {}

  lemma FootMissesHead(mem: Mem, p: int, size: int)
    requires TopScope(p, size) && 8 <= size <= TWO64 - 8
    ensures Rd(TopMem(mem, p, size), p + 8) == SetPinuse(size)
  {
    FootIs(p, size);
  }

  lemma HeadOfSize(size: int)
    ensures HeadSays(SetPinuse(size), size) <==> size % 4 == 0
  {}

  lemma FootReads(mem: Mem, p: int, size: int)
    requires TopScope(p, size) && size % 8 == 0
    ensures Rd(TopMem(mem, p, size), FootOf(p, size)) == TOP_FOOT_SIZE
  {
    FootIs(p, size);
  }

  /**
   * The head of a new top reads back exactly when its size is a multiple of four and the foot lies clear of the head.
   */
  lemma TopReads(mem: Mem, p: int, size: int)
    requires TopScope(p, size)
    ensures HeadSays(Rd(TopMem(mem, p, size), p + 8), size) <==> ReadableTop(size)
    ensures size % 8 == 0 ==> Rd(TopMem(mem, p, size), FootOf(p, size)) == TOP_FOOT_SIZE
  {
    hide TopMem, FootOf, HeadSays, SetPinuse;
    HeadOfSize(size);
    if 8 <= size <= TWO64 - 8 {
      FootMissesHead(mem, p, size);
    } else {
      FootHitsHead(mem, p, size);
    }
    if size % 8 == 0 {
      FootReads(mem, p, size);
    }
  }

  /** On aligned sizes that end within the address space the writes are those of a top that grows. */
  lemma TopMemAligned(mem: Mem, p: int, size: int)
    requires TopScope(p, size) && size % 8 == 0 && p + size + 8 < TWO64
    ensures TopMem(mem, p, size) == ExtendMem(mem, p, size)
  {
    FootIs(p, size);
  }
}
