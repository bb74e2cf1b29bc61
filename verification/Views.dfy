/** One snapshot of a space: memory, its ghost layout and free index, and the invariant that ties them. */
module Views {
  import opened Words
  import opened Layouts
  import opened BinMaps
  import opened Chains
  import opened Tries
  import opened TrieLinks
  import opened Sizes
  import opened Keys

  const STATE_CHUNK_SIZE: int := 912
  const FENCEPOST_HEAD: int := 11

  /** `out` holds the free chunks that are in no bin. */
  datatype View = View(
    mem: Mem, lay: Layout, ms: int,
    smallmap: bv32, treemap: bv32, sb: seq<seq<int>>, tb: seq<Tree>, out: set<int>)

  // ----- boundary tags

  ghost predicate FenceHead(mem: Mem, a: int) {
    Rd(mem, a) == FENCEPOST_HEAD
  }

  /** Head, foot and trailer words say what the layout says. */
  ghost predicate Tag(L: Layout, mem: Mem, p: int) {
    p in L ==>
      var c := L[p];
      && (!c.kind.Fence? ==> Rd(mem, p + 8) == Head(c.size, c.kind.Used?, Pin(L, p)))
      && (c.kind.Free? ==> Rd(mem, p + c.size) == c.size)
      && (c.kind.Top? ==> Rd(mem, p + c.size + 8) == TOP_FOOT_SIZE)
      && (c.kind.Fence? ==>
         forall a {:trigger FenceHead(mem, a)} | p + 8 <= a < p + c.size && a % 8 == 0 :: FenceHead(mem, a))
  }

  ghost predicate TagsOk(L: Layout, mem: Mem) {
    forall p {:trigger Tag(L, mem, p)} :: Tag(L, mem, p)
  }

  // ----- bins

  /** The header of small bin i, placed so that its fd and bk are the bin array's words inside the state chunk. */
  function Header(ms: int, i: int): int {
    ms + 80 + 16 * i
  }

  /** The word of tree bin i. */
  function TreeSlot(ms: int, i: int): int {
    ms + 608 + 8 * i
  }

  function FullRing(ms: int, s: seq<int>, i: int): seq<int> {
    [Header(ms, i)] + s + [Header(ms, i)]
  }

  /** A small bin is read through its map bit: an empty bin may have stale header links. */
  ghost predicate SmallBinOk(mem: Mem, ms: int, map_: bv32, s: seq<int>, i: int) {
    && (Marked(map_, i) <==> s != []) && NoDup(s)
    && (s != [] ==> Chain(mem, FullRing(ms, s, i)))
  }

  ghost predicate TreeBinOk(mem: Mem, ms: int, map_: bv32, t: Tree, i: nat) {
    && (Marked(map_, i) <==> t.Node?) && WF(t, TreeLo(i), TreeBit(i))
    && Linked(mem, t, TreeSlot(ms, i), i) && Rd(mem, TreeSlot(ms, i)) == Root(t)
    && forall p, s {:trigger Holds(t, p, s)} :: Holds(t, p, s) ==> MIN_LARGE_SIZE <= s && TreeIndex(s) == i
  }

  ghost predicate SmallAt(v: View, i: int) {
    |v.sb| == 32 && (0 <= i < 32 ==> SmallBinOk(v.mem, v.ms, v.smallmap, v.sb[i], i))
  }

  ghost predicate TreeAt(v: View, i: int) {
    |v.tb| == 32 && (0 <= i < 32 ==> TreeBinOk(v.mem, v.ms, v.treemap, v.tb[i], i))
  }

  /** Chunk p of size s is in the bin its size selects. */
  ghost predicate Binned(sb: seq<seq<int>>, tb: seq<Tree>, p: int, s: int) {
    if s < MIN_LARGE_SIZE then 0 <= s && s % 8 == 0 && s / 8 < |sb| && p in sb[s / 8]
    else 0 <= TreeIndex(s) < |tb| && Holds(tb[TreeIndex(s)], p, s)
  }

  /** The index is exact: precisely the free chunks outside `out` are in bins, each in its own. */
  ghost predicate IndexAt(v: View, p: int, s: int) {
    Binned(v.sb, v.tb, p, s) <==> FreeAt(v.lay, p, s) && p !in v.out
  }

  ghost predicate Indexed(v: View) {
    && (forall p, s {:trigger IndexAt(v, p, s)} :: IndexAt(v, p, s))
    && (forall p {:trigger p in v.out} | p in v.out :: p in v.lay && v.lay[p].kind.Free?)
  }

  ghost predicate StateChunk(v: View) {
    v.ms in v.lay && v.lay[v.ms].kind.Used? && v.lay[v.ms].size == STATE_CHUNK_SIZE
  }

  ghost predicate Base(v: View) {
    && LayoutOk(v.lay) && TagsOk(v.lay, v.mem) && StateChunk(v)
    && (forall i {:trigger SmallAt(v, i)} :: SmallAt(v, i))
    && (forall i {:trigger TreeAt(v, i)} :: TreeAt(v, i))
    && Indexed(v)
  }

  // ----- where bins may be written

  /** A word inside a free chunk, clear of its own head and of its foot. */
  ghost predicate Interior(L: Layout, q: int, a: int) {
    q in L && L[q].kind.Free? && q + 16 <= a < q + L[q].size
  }

  ghost predicate BinArray(ms: int, a: int) {
    ms + 96 <= a < ms + 864
  }

  ghost predicate LinkArea(L: Layout, ms: int, a: int) {
    BinArray(ms, a) || exists q {:trigger Interior(L, q, a)} :: Interior(L, q, a)
  }

  ghost predicate OnlyLinks(L: Layout, ms: int, mem: Mem, mem': Mem) {
    forall a {:trigger Rd(mem', a)} :: Rd(mem', a) == Rd(mem, a) || LinkArea(L, ms, a)
  }

  /** User payloads: every word after the head of an in-use chunk, up to and including its successor's prev_foot. */
  ghost predicate PayloadSame(used: map<int, int>, ms: int, mem: Mem, mem': Mem) {
    forall q, a {:trigger InPayload(used, q, a)} :: InPayload(used, q, a) && q != ms ==> Rd(mem', a) == Rd(mem, a)
  }

  ghost predicate InPayload(used: map<int, int>, q: int, a: int) {
    q in used && q + 16 <= a <= q + used[q]
  }

  /** A word of the link area is never a tag word or a payload word. */
  lemma LinkAreaClear(L: Layout, ms: int, a: int, p: int)
    requires LayoutOk(L) && ms in L && L[ms].kind.Used? && L[ms].size == STATE_CHUNK_SIZE && LinkArea(L, ms, a)
    requires p in L
    ensures a != p + 8
    ensures L[p].kind.Free? ==> a != p + L[p].size
    ensures L[p].kind.Top? ==> a != p + L[p].size + 8
    ensures L[p].kind.Fence? ==> !(p + 8 <= a < p + L[p].size)
    ensures L[p].kind.Used? && p != ms ==> !(p + 16 <= a <= p + L[p].size)
  {
    assert ChunkOk(L, p);
    if BinArray(ms, a) {
      assert Apart(L, p, ms);
    } else {
      var q :| Interior(L, q, a);
      assert Apart(L, p, q);
    }
  }

  lemma OnlyLinksKeep(L: Layout, ms: int, mem: Mem, mem': Mem)
    requires LayoutOk(L) && ms in L && L[ms].kind.Used? && L[ms].size == STATE_CHUNK_SIZE
    requires OnlyLinks(L, ms, mem, mem')
    ensures TagsOk(L, mem) ==> TagsOk(L, mem')
    ensures PayloadSame(UsedOf(L), ms, mem, mem')
  {
    if TagsOk(L, mem) {
      forall p ensures Tag(L, mem', p) {
        OnlyLinksTag(L, ms, mem, mem', p);
      }
    }
    forall q, a | InPayload(UsedOf(L), q, a) && q != ms ensures Rd(mem', a) == Rd(mem, a) {
      if LinkArea(L, ms, a) {
        LinkAreaClear(L, ms, a, q);
      }
    }
  }

  lemma OnlyLinksTag(L: Layout, ms: int, mem: Mem, mem': Mem, p: int)
    requires LayoutOk(L) && ms in L && L[ms].kind.Used? && L[ms].size == STATE_CHUNK_SIZE
    requires OnlyLinks(L, ms, mem, mem') && Tag(L, mem, p)
    ensures Tag(L, mem', p)
  {
    if p in L {
      var c := L[p];
      forall a | a == p + 8 || (c.kind.Free? && a == p + c.size) || (c.kind.Top? && a == p + c.size + 8)
        || (c.kind.Fence? && p + 8 <= a < p + c.size)
        ensures Rd(mem', a) == Rd(mem, a)
      {
        if LinkArea(L, ms, a) {
          LinkAreaClear(L, ms, a, p);
        }
      }
      if c.kind.Fence? {
        forall a | p + 8 <= a < p + c.size && a % 8 == 0 ensures FenceHead(mem', a) {
          assert FenceHead(mem, a);
        }
      }
    }
  }
}
