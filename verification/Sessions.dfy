/**
 * Whole sessions of a caller with a space: every public operation, growth by system memory, and the caller's own
 * writes.
 */
module Sessions {
  import opened Words
  import opened Layouts
  import opened Canonical
  import opened Views
  import opened TagOps
  import opened FreeOps
  import opened Areas
  import opened Segments
  import opened Heaps
  import opened Growth
  import opened Frees
  import opened Choices
  import opened Systems
  import opened Payloads
  import opened Prepends
  import opened Reallocs
  import opened Memaligns
  import opened Runs

  /**
   * malloc or calloc, memalign, realloc of a block, free, and a write of the caller into its block; `at` is the chunk.
   */
  datatype Call = Serve(at: int, nb: int) | Align(at: int, nb: int) | Resize(from: int, at: int,
    bytes: int) | Drop(at: int) | Store(at: int)

  /** What the contract of each operation promises about the space before and after. */
  ghost predicate Done(a: Moment, c: Call, b: Moment) {
    && Steady(a.v) && Steady(b.v)
    && match c
       case Serve(p, nb) => Served(a.v, b.v, p, nb)
       case Align(p, nb) => Aligned(a.v, b.v, p, nb)
       case Resize(o, p, bytes) => Resized(a.v, b.v, o, p, bytes)
       case Drop(p) => Lost(a.v, a.h, b.v, b.h, p)
       case Store(p) => Stored(a.v, b.v, p)
  }

  ghost predicate Resized(v: View, v': View, o: int, p: int, bytes: int) {
    && 0 <= bytes < MAX_REQUEST && Freeable(v.lay, o) && o != v.ms
    && Moved(v, v', o, p, ChunkRequest(bytes), Least(v.lay[o].size - CHUNK_OVERHEAD, bytes))
  }

  ghost predicate Stored(v: View, v': View, p: int) {
    Freeable(v.lay, p) && p != v.ms && v' == v.(mem := v'.mem) && PayloadTouch(v.lay, v.mem, v'.mem, p)
  }

  ghost predicate DoneAt(r: seq<Moment>, cs: seq<Call>, i: int) {
    0 <= i < |cs| && i + 1 < |r| ==> Done(r[i], cs[i], r[i + 1])
  }

  ghost predicate Session(r: seq<Moment>, cs: seq<Call>) {
    |r| == |cs| + 1 && Steady(r[0].v) && forall i {:trigger DoneAt(r, cs, i)} :: DoneAt(r, cs, i)
  }

  lemma DoneSteady(a: Moment, c: Call, b: Moment)
    requires Done(a, c, b)
    ensures Steady(a.v) && Steady(b.v) && b.v.ms == a.v.ms
  {
    hide Base, PayloadSame, PayloadTouch, Pieces, SameBytes, Freed, Frame;
    match c
    case Serve(p, nb) =>
      var r :| ServedWith(a.v, b.v, p, nb, r);
    case Align(p, nb) =>
      AlignedKnown(a.v, b.v, p, nb);
    case _ =>
  }

  /** Every moment of a session is steady, with the same state chunk. */
  lemma {:induction false} SessionSteady(r: seq<Moment>, cs: seq<Call>, i: nat)
    requires Session(r, cs) && i <= |cs|
    ensures Steady(r[i].v) && r[i].v.ms == r[0].v.ms
  {
    hide Base, Done;
    if i > 0 {
      SessionSteady(r, cs, i - 1);
      assert DoneAt(r, cs, i - 1);
      DoneSteady(r[i - 1], cs[i - 1], r[i]);
    }
  }

  /** At every moment of a session, chunks do not overlap, in use or not. */
  lemma BlocksApart(r: seq<Moment>, cs: seq<Call>, i: nat, p: int, q: int)
    requires Session(r, cs) && i <= |cs| && p in r[i].v.lay && q in r[i].v.lay && p < q
    ensures p + r[i].v.lay[p].size <= q
  {
    hide Base, Done;
    SessionSteady(r, cs, i);
    SettledOf(r[i].v);
    assert Apart(r[i].v.lay, p, q) && ChunkOk(r[i].v.lay, p) && ChunkOk(r[i].v.lay, q);
  }

  lemma AlignedKnown(v: View, v': View, p: int, nb: int)
    requires Aligned(v, v', p, nb)
    ensures v'.ms == v.ms && PayloadSame(UsedOf(v.lay), v.ms, v.mem, v'.mem) && KeepsFreeable(v.lay, v'.lay)
    ensures forall q {:trigger q in UsedOf(v.lay)} :: q in UsedOf(v.lay) ==>
      q in UsedOf(v'.lay) && UsedOf(v'.lay)[q] == UsedOf(v.lay)[q]
  {
    hide PayloadSame, Frame;
    var r :| AlignedWith(v, v', p, nb, r);
  }

  // ----- blocks that no call names

  ghost predicate Names(c: Call, p: int) {
    match c
    case Resize(o, _, _) => o == p
    case Drop(q) => q == p
    case Store(q) => q == p
    case _ => false
  }

  /** p is a block of s bytes in both, with the same contents. */
  ghost predicate Keeps(v: View, v': View, p: int, s: int) {
    v'.ms == v.ms && Freeable(v'.lay, p) && v'.lay[p].size == s && SameBlock(v.mem, v'.mem, p, s)
  }

  lemma PayloadBlock(used: map<int, int>, v: View, v': View, p: int, s: int)
    requires PayloadSame(used, v.ms, v.mem, v'.mem) && p in used && used[p] == s && p != v.ms
    ensures SameBlock(v.mem, v'.mem, p, s)
  {
    forall k | p + 16 <= k <= p + s ensures Rd(v'.mem, k) == Rd(v.mem, k) {
      assert InPayload(used, p, k);
    }
  }

  lemma ResizeKeeps(v: View, v': View, o: int, p: int, bytes: int, q: int, s: int)
    requires Resized(v, v', o, p, bytes) && Freeable(v.lay, q) && v.lay[q].size == s && q != v.ms && q != o
    ensures Keeps(v, v', q, s)
  {
    hide Base, PayloadSame, Frame, SameBytes, SameBlock;
    var r :| MovedWith(v, v', o, p, ChunkRequest(bytes), r);
    var used := UsedOf(v.lay) - {o};
    assert q in used && used[q] == s;
    PayloadBlock(used, v, v', q, s);
    assert UsedOf(v'.lay)[q] == s;
  }

  lemma StoreKeeps(v: View, v': View, p: int, q: int, s: int)
    requires Steady(v) && Stored(v, v', p) && Freeable(v.lay, q) && v.lay[q].size == s && q != v.ms && q != p
    ensures Keeps(v, v', q, s)
  {
    hide PayloadSame, SameBlock, PayloadTouch;
    PayloadWrites(v, v'.mem, p);
    PayloadBlock(UsedOf(v.lay) - {p}, v, v', q, s);
  }

  /** No operation disturbs a block it does not name. */
  lemma CallKeepsBlock(a: Moment, c: Call, b: Moment, p: int, s: int)
    requires Done(a, c, b) && !Names(c, p) && Freeable(a.v.lay, p) && a.v.lay[p].size == s && p != a.v.ms
    ensures Keeps(a.v, b.v, p, s)
  {
    hide Base, PayloadSame, Frame, PayloadTouch, SameBytes, SameBlock, Freed, Aligned, Resized, Stored;
    assert p in UsedOf(a.v.lay) && UsedOf(a.v.lay)[p] == s;
    match c
    case Serve(q, nb) =>
      var r :| ServedWith(a.v, b.v, q, nb, r);
      PayloadBlock(UsedOf(a.v.lay), a.v, b.v, p, s);
      assert UsedOf(b.v.lay)[p] == s;
    case Align(q, nb) =>
      AlignedKnown(a.v, b.v, q, nb);
      PayloadBlock(UsedOf(a.v.lay), a.v, b.v, p, s);
      assert UsedOf(b.v.lay)[p] == s;
    case Resize(o, q, bytes) =>
      ResizeKeeps(a.v, b.v, o, q, bytes, p, s);
    case Drop(q) =>
      LostKeepsBlock(a, b, q, p, s);
    case Store(q) =>
      StoreKeeps(a.v, b.v, q, p, s);
  }

  ghost predicate Unnamed(cs: seq<Call>, p: int, i: int) {
    0 <= i < |cs| ==> !Names(cs[i], p)
  }

  lemma KeepsTrans(v: View, v1: View, v2: View, p: int, s: int)
    requires Keeps(v, v1, p, s) && Keeps(v1, v2, p, s)
    ensures Keeps(v, v2, p, s)
  {}

  /**
   * Through any session whose calls do not free, resize or write it, a block stays where it is, with its size and its
   * contents, and may still be freed: whatever else is allocated, moved or freed, and however the space grows.
   */
  lemma {:induction false} BlockSurvives(r: seq<Moment>, cs: seq<Call>, p: int, s: int, i: nat)
    requires Session(r, cs) && i <= |cs| && Freeable(r[0].v.lay, p) && r[0].v.lay[p].size == s && p != r[0].v.ms
    requires forall j {:trigger Unnamed(cs, p, j)} :: Unnamed(cs, p, j)
    ensures Keeps(r[0].v, r[i].v, p, s)
  {
    hide Base, Done;
    if i > 0 {
      BlockSurvives(r, cs, p, s, i - 1);
      assert DoneAt(r, cs, i - 1) && Unnamed(cs, p, i - 1);
      CallKeepsBlock(r[i - 1], cs[i - 1], r[i], p, s);
      KeepsTrans(r[0].v, r[i - 1].v, r[i].v, p, s);
    }
  }

  // ----- blocks that are resized on the way

  lemma BlockBytes(v: View, v': View, p: int, s: int, n: int)
    requires Keeps(v, v', p, s) && n <= s - CHUNK_OVERHEAD && s % 8 == 0
    ensures SameBytes(v.mem, p + 16, v'.mem, p + 16, n)
  {
    hide Low;
    var m := p + 16;
    forall k ensures SameAt(v.mem, m, v'.mem, m, n, k) {
      if 0 <= k < n && k % 8 == 0 {
        WordEnds(m, n, m + k, s - CHUNK_OVERHEAD);
        assert Rd(v'.mem, m + k) == Rd(v.mem, m + k);
      }
    }
  }

  /** Where the block at p is after the first i calls. */
  ghost function PlaceAfter(cs: seq<Call>, p: int, i: nat): int
    requires i <= |cs|
  {
    if i == 0 then p else
      var q := PlaceAfter(cs, p, i - 1);
      if cs[i - 1].Resize? && cs[i - 1].from == q then cs[i - 1].at else q
  }

  /** Call i may resize the block that began at p, to n bytes or more, but neither frees nor writes it. */
  ghost predicate Spares(cs: seq<Call>, p: int, n: int, i: int) {
    0 <= i < |cs| ==>
      (Names(cs[i], PlaceAfter(cs, p, i)) ==> cs[i].Resize? && n <= cs[i].bytes)
  }

  /** A block of at least n bytes at q that starts with the n bytes at p. */
  ghost predicate Follows(v: View, p: int, v': View, q: int, n: int) {
    && v'.ms == v.ms && Freeable(v'.lay, q) && q != v'.ms && n <= v'.lay[q].size - CHUNK_OVERHEAD
    && SameBytes(v.mem, p + 16, v'.mem, q + 16, n)
  }

  lemma ResizeFollows(v: View, v': View, o: int, p: int, bytes: int, n: int)
    requires Base(v) && Resized(v, v', o, p, bytes) && n <= v.lay[o].size - CHUNK_OVERHEAD && n <= bytes
    ensures v'.ms == v.ms && Freeable(v'.lay, p) && p != v'.ms && n <= v'.lay[p].size - CHUNK_OVERHEAD
    ensures SameBytes(v.mem, o + 16, v'.mem, p + 16, Least(v.lay[o].size - CHUNK_OVERHEAD, bytes))
  {
    hide Base, PayloadSame, Frame, SameBytes;
    ChunkRequestIs(bytes);
    LayoutOf(v);
    var r :| MovedWith(v, v', o, p, ChunkRequest(bytes), r);
    assert v.ms in UsedOf(v.lay) - {o};
  }

  lemma CallFollows(v: View, p: int, a: Moment, q: int, c: Call, b: Moment, n: int)
    requires Done(a, c, b) && Follows(v, p, a.v, q, n)
    requires Names(c, q) ==> c.Resize? && n <= c.bytes
    ensures Follows(v, p, b.v, if c.Resize? && c.from == q then c.at else q, n)
  {
    hide Base, PayloadSame, Frame, PayloadTouch, SameBytes, SameBlock, Freed, Aligned, Served, Lost, Resized, Stored;
    LayoutOf(a.v);
    assert ChunkOk(a.v.lay, q);
    if Names(c, q) {
      ResizeFollows(a.v, b.v, q, c.at, c.bytes, n);
      BytesTrans(v.mem, p + 16, a.v.mem, q + 16, b.v.mem, c.at + 16, n,
        Least(a.v.lay[q].size - CHUNK_OVERHEAD, c.bytes));
    } else {
      CallKeepsBlock(a, c, b, q, a.v.lay[q].size);
      BlockBytes(a.v, b.v, q, a.v.lay[q].size, n);
      BytesTrans(v.mem, p + 16, a.v.mem, q + 16, b.v.mem, q + 16, n, n);
    }
  }

  lemma FollowsSelf(v: View, p: int, n: int)
    requires Freeable(v.lay, p) && p != v.ms && n <= v.lay[p].size - CHUNK_OVERHEAD
    ensures Follows(v, p, v, p, n)
  {
    var m := p + 16;
    forall k ensures SameAt(v.mem, m, v.mem, m, n, k) {}
  }

  /**
   * Through any session, a block that is never freed nor written can be followed from one reallocation to the next: its
   * first n bytes stay what they were, for every n that fits the block and that each of its reallocations asks for.
   */
  lemma {:induction false} BlockFollowed(r: seq<Moment>, cs: seq<Call>, p: int, n: int, i: nat)
    requires Session(r, cs) && i <= |cs| && Freeable(r[0].v.lay, p) && p != r[0].v.ms
      && n <= r[0].v.lay[p].size - CHUNK_OVERHEAD
    requires forall j {:trigger Spares(cs, p, n, j)} :: Spares(cs, p, n, j)
    ensures Follows(r[0].v, p, r[i].v, PlaceAfter(cs, p, i), n)
  {
    hide Base, Done, Follows;
    if i == 0 {
      FollowsSelf(r[0].v, p, n);
    } else {
      BlockFollowed(r, cs, p, n, i - 1);
      assert DoneAt(r, cs, i - 1) && Spares(cs, p, n, i - 1);
      CallFollows(r[0].v, p, r[i - 1], PlaceAfter(cs, p, i - 1), cs[i - 1], r[i], n);
    }
  }

  // ----- sessions in one arena

  /** No call of the session has made the space grow. */
  ghost predicate KeptAt(r: seq<Moment>, i: int) {
    0 <= i && i + 1 < |r| ==> ArenaKept(r[i].v, r[i].h, r[i + 1].v, r[i + 1].h)
  }

  ghost predicate LocalSession(r: seq<Moment>, cs: seq<Call>) {
    && Session(r, cs) && OneTop(r[0].v.lay, r[0].h.top)
    && forall i {:trigger KeptAt(r, i)} :: KeptAt(r, i)
  }

  lemma {:induction false} LocalArena(r: seq<Moment>, cs: seq<Call>, i: nat)
    requires LocalSession(r, cs) && i <= |cs|
    ensures ArenaKept(r[0].v, r[0].h, r[i].v, r[i].h)
  {
    hide Base, Done;
    if i > 0 {
      LocalArena(r, cs, i - 1);
      assert KeptAt(r, i - 1);
    }
  }

  /**
   * Two sessions from the same start, of any operations that do not make the space grow, that leave the same chunks in
   * use leave the same layout: every extent, in use and free.
   */
  lemma SessionsAgree(r: seq<Moment>, cs: seq<Call>, s: seq<Moment>, ds: seq<Call>, i: nat, j: nat)
    requires LocalSession(r, cs) && LocalSession(s, ds) && i <= |cs| && j <= |ds| && r[0] == s[0]
    requires UsedOf(r[i].v.lay) == UsedOf(s[j].v.lay)
    ensures r[i].v.lay == s[j].v.lay && r[i].h.top == s[j].h.top
  {
    hide Base, Done;
    SessionSteady(r, cs, i);
    SessionSteady(s, ds, j);
    LocalArena(r, cs, i);
    LocalArena(s, ds, j);
    SettledOf(r[i].v);
    SettledOf(s[j].v);
    UsedDetermines(r[i].v.lay, s[j].v.lay, r[i].h.top, s[j].h.top);
  }

  // ----- confinement

  lemma DoneFrame(a: Moment, c: Call, b: Moment)
    requires Done(a, c, b)
    ensures Frame(a.v.lay, b.v.lay, a.v.mem, b.v.mem)
  {
    hide Base, PayloadSame, PayloadTouch, Pieces, SameBytes, Freed, Frame, Moved;
    match c
    case Serve(p, nb) =>
      ServedFrame(a.v, b.v, p, nb);
    case Align(p, nb) =>
      AlignedFrame(a.v, b.v, p, nb);
    case Resize(o, p, bytes) =>
      MovedFrame(a.v, b.v, o, p, ChunkRequest(bytes), Least(a.v.lay[o].size - CHUNK_OVERHEAD, bytes));
    case Drop(_) =>
    case Store(p) =>
      SettledOf(a.v);
      PayloadFrame(a.v.lay, a.v.mem, b.v.mem, p);
  }

  lemma FrameSelf(L: Layout, mem: Mem)
    ensures Frame(L, L, mem, mem)
  {}

  lemma {:induction false} SessionFrame(r: seq<Moment>, cs: seq<Call>, i: nat)
    requires Session(r, cs) && i <= |cs|
    ensures Frame(r[0].v.lay, r[i].v.lay, r[0].v.mem, r[i].v.mem)
  {
    hide Base, Done, Frame;
    FrameSelf(r[0].v.lay, r[0].v.mem);
    if i > 0 {
      SessionFrame(r, cs, i - 1);
      assert DoneAt(r, cs, i - 1);
      DoneFrame(r[i - 1], cs[i - 1], r[i]);
      FrameTrans(r[0].v.lay, r[i - 1].v.lay, r[i].v.lay, r[0].v.mem, r[i - 1].v.mem, r[i].v.mem);
    }
  }

  /** A session, with its caller's writes, changes no word that the space does not own at its end. */
  lemma SessionConfined(r: seq<Moment>, cs: seq<Call>, i: nat, segs: seq<Segment>)
    requires Session(r, cs) && i <= |cs| && HeapMid(r[i].v, r[i].h, segs, {})
    ensures Confined(segs, r[0].v.mem, r[i].v.mem)
  {
    hide Base, Done, Frame;
    SessionFrame(r, cs, i);
    FrameConfined(r[0].v, r[i].v, r[i].h, segs, {});
  }
}
