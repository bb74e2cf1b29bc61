/** calloc's overflow test, and what writing the new chunk's payload keeps. */
module Callocs {
  import opened Words
  import opened Layouts
  import opened Views
  import opened Scratch
  import opened Segments
  import opened Areas
  import opened Heaps
  import opened Gains
  import opened Systems
  import opened Payloads

  /** The product, or an impossible size when the wrapped product does not divide back. */
  function CallocRequest(n: int, e: int): int {
    if n == 0 then 0 else
      var req := n * e % TWO64;
      if (n >= TWO16 || e >= TWO16) && req / n != e then MAX_SIZE_T else req
  }

  lemma SmallProduct(n: int, e: int)
    requires 0 <= n < TWO16 && 0 <= e < TWO16
    ensures 0 <= n * e < TWO64
  {
    MulBound(n, e, TWO16, TWO16);
  }

  lemma MulBound(a: int, b: int, c: int, d: int)
    requires 0 <= a <= c && 0 <= b <= d
    ensures 0 <= a * b <= c * d
  {
    assert a * b <= c * b by { assert (c - a) * b >= 0; }
    assert c * b <= c * d by { assert c * (d - b) >= 0; }
  }

  lemma DividesBack(n: int, e: int)
    requires n > 0
    ensures (n * e) / n == e
  {
    DivisionIs(n * e, e, n, 0);
  }

  lemma WrapShows(n: int, e: int, req: int)
    requires 0 < n && 0 <= req <= n * e - TWO64 && n < TWO64
    ensures req / n != e
  {
    var q := req / n;
    assert req == q * n + req % n;
    assert q == e ==> q * n == n * e;
  }

  /** The request is exactly n * e when that is a size, and otherwise one that no allocation satisfies. */
  lemma CallocRequestIs(n: int, e: int)
    requires 0 <= n < TWO64 && 0 <= e < TWO64
    ensures CallocRequest(n, e) == if n * e < TWO64 then n * e else MAX_SIZE_T
  {
    if n > 0 {
      var req := n * e % TWO64;
      assert 0 <= n * e by { MulBound(n, e, n, e); }
      if n * e < TWO64 {
        DividesBack(n, e);
      } else {
        if n < TWO16 && e < TWO16 {
          SmallProduct(n, e);
        }
        ModAtMost(n * e);
        WrapShows(n, e, req);
      }
    }
  }

  lemma ModAtMost(x: int)
    requires x >= TWO64
    ensures 0 <= x % TWO64 <= x - TWO64
  {}

  /** Writing the new chunk's payload keeps what the allocation gave. */
  lemma ServedWrites(v: View, v1: View, h: Heads, segs: seq<Segment>, mem': Mem, p: int, nb: int, n: int)
    requires Base(v) && HeapMid(v1, h, segs, {}) && Served(v, v1, p, nb) && 0 <= n <= nb - CHUNK_OVERHEAD
    requires WordsTouch(v1.mem, mem', p + 16, n)
    ensures HeapMid(v1.(mem := mem'), h, segs, {}) && Served(v, v1.(mem := mem'), p, nb)
  {
    hide Base, HeapMid, PayloadSame, Frame;
    LayoutOf(v);
    MidBase(v1, h, segs, {});
    LayoutOf(v1);
    WordsInPayload(v1.lay, v1.mem, mem', p, n);
    assert v.ms in UsedOf(v.lay);
    PayloadHeap(v1, mem', h, segs, p);
    var r :| ServedWith(v, v1, p, nb, r);
    PayloadSub(UsedOf(v1.lay) - {p}, UsedOf(v.lay), v.ms, v1.mem, mem');
    PayloadTrans(UsedOf(v.lay), v.ms, v.mem, v1.mem, mem');
    PayloadFrame(v1.lay, v1.mem, mem', p);
    FrameTrans(v.lay, v1.lay, v1.lay, v.mem, v1.mem, mem');
    assert ServedWith(v, v1.(mem := mem'), p, nb, r);
  }

  lemma ProductSign(n: int, e: int)
    requires 0 <= n && 0 <= e
    ensures 0 <= n * e
  {}
}
