/** Word-addressed memory and the size constants of the allocator, for 8-byte words. */
module Words {
  const TWO16: int := 0x1_0000
  const TWO32: int := 0x1_0000_0000
  const TWO63: int := 0x8000_0000_0000_0000
  const TWO64: int := 0x1_0000_0000_0000_0000
  const MAX_SIZE_T: int := TWO64 - 1

  const WORD: int := 8
  const CHUNK_OVERHEAD: int := 8
  const MIN_CHUNK_SIZE: int := 32
  const MIN_REQUEST: int := 23
  const MAX_REQUEST: int := TWO64 - 128
  const MAX_SMALL_REQUEST: int := 240
  const MIN_LARGE_SIZE: int := 256
  const TOP_FOOT_SIZE: int := 72
  const SEGMENT_CHUNK_SIZE: int := 40

  /** Memory holds one word at each multiple of eight; a word never written reads as zero. */
  type Mem = map<int, int>

  function Rd(m: Mem, a: int): int {
    if a in m then m[a] else 0
  }

  /** Unsigned 64-bit subtraction. */
  function Sub64(x: int, y: int): int {
    (x - y) % TWO64
  }

  /** The bytes to add to an address to make it a multiple of eight. */
  function AlignOffset(a: int): int {
    if a % 8 == 0 then 0 else (8 - a % 8) % 8
  }

  /** A head word: the size with the in-use bits of this chunk and of its predecessor. */
  function Head(size: int, cinuse: bool, pinuse: bool): int {
    size + (if cinuse then 2 else 0) + (if pinuse then 1 else 0)
  }

  function ChunkSize(head: int): int {
    head - head % 4
  }

  predicate Cinuse(head: int) {
    head % 4 >= 2
  }

  predicate Pinuse(head: int) {
    head % 2 == 1
  }

  function SetPinuse(head: int): int {
    if Pinuse(head) then head else head + 1
  }

  function ClearPinuse(head: int): int {
    if Pinuse(head) then head - 1 else head
  }

  lemma Remainders(k: int)
    ensures (8 * k) % 4 == 0 && (8 * k + 1) % 4 == 1 && (8 * k + 2) % 4 == 2 && (8 * k + 3) % 4 == 3
    ensures (8 * k) % 2 == 0 && (8 * k + 1) % 2 == 1 && (8 * k + 2) % 2 == 0 && (8 * k + 3) % 2 == 1
  {}

  /** What the accessors read back from a head word. */
  lemma HeadDecodes(size: int, c: bool, p: bool)
    requires size % 8 == 0
    ensures ChunkSize(Head(size, c, p)) == size
    ensures Cinuse(Head(size, c, p)) == c && Pinuse(Head(size, c, p)) == p
    ensures SetPinuse(Head(size, c, p)) == Head(size, c, true)
    ensures ClearPinuse(Head(size, c, p)) == Head(size, c, false)
  {
    Remainders(size / 8);
  }

  lemma StepApart(d: int, a: int)
    requires a > 0
    ensures d >= 1 ==> d * a >= a
    ensures d <= -1 ==> d * a <= -a
  {
    assert d >= 1 ==> (d - 1) * a >= 0;
    assert d <= -1 ==> (-d - 1) * a >= 0;
  }

  /** Quotient and remainder are unique. */
  lemma DivisionIs(x: int, q: int, d: int, r: int)
    requires d > 0 && x == q * d + r && 0 <= r < d
    ensures x / d == q && x % d == r
  {
    var k, m := x / d, x % d;
    assert x == k * d + m;
    var g := k - q;
    assert g * d == r - m;
    StepApart(g, d);
  }
}
