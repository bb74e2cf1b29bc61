/** Small bins: linking a chunk in at the front and unlinking any member keep the invariant. */
module SmallBins {
  import opened Words
  import opened Layouts
  import opened BinMaps
  import opened Chains
  import opened Tries
  import opened TrieLinks
  import opened Sizes
  import opened Views
  import opened Areas

  lemma SmallMember(v: View, i: int, p: int)
    requires Base(v) && 0 <= i < 32 && p in v.sb[i]
    ensures FreeAt(v.lay, p, 8 * i) && p !in v.out && MIN_CHUNK_SIZE <= 8 * i
  {
    assert SmallAt(v, i);
    assert Binned(v.sb, v.tb, p, 8 * i) && IndexAt(v, p, 8 * i);
    assert ChunkOk(v.lay, p);
  }

  /** Two words of different chunks, or of a chunk and the bin array, are different. */
  lemma FreeGap(v: View, p: int, q: int)
    requires Base(v) && p in v.lay && v.lay[p].kind.Free? && q in v.lay && v.lay[q].kind.Free? && p != q
    ensures p + v.lay[p].size <= q || q + v.lay[q].size <= p
    ensures MIN_CHUNK_SIZE <= v.lay[p].size && MIN_CHUNK_SIZE <= v.lay[q].size
  {
    assert Apart(v.lay, p, q) && ChunkOk(v.lay, p) && ChunkOk(v.lay, q);
  }

  lemma StateGap(v: View, p: int)
    requires Base(v) && p in v.lay && v.lay[p].kind.Free?
    ensures p + v.lay[p].size <= v.ms || v.ms + STATE_CHUNK_SIZE <= p
    ensures MIN_CHUNK_SIZE <= v.lay[p].size
  {
    assert Apart(v.lay, p, v.ms) && ChunkOk(v.lay, p);
  }

  lemma FullRingSpread(v: View, i: int)
    requires Base(v) && 0 <= i < 32 && |v.sb| == 32
    ensures Spread(FullRing(v.ms, v.sb[i], i))
  {
    var s := v.sb[i];
    var r := FullRing(v.ms, s, i);
    assert SmallAt(v, i);
    forall j, k ensures SpreadAt(r, j, k) {
      if 0 <= j < k < |r| {
        if 0 < j {
          assert r[j] == s[j - 1];
          SmallMember(v, i, r[j]);
          StateGap(v, r[j]);
        }
        if k < |r| - 1 {
          assert r[k] == s[k - 1];
          SmallMember(v, i, r[k]);
          StateGap(v, r[k]);
        }
        if 0 < j && k < |r| - 1 {
          FreeGap(v, r[j], r[k]);
        }
      }
    }
  }

  lemma FullRingClear(v: View, i: int, p: int)
    requires Base(v) && 0 <= i < 32 && |v.sb| == 32 && p in v.lay && v.lay[p].kind.Free? && p !in v.sb[i]
    ensures Clear(FullRing(v.ms, v.sb[i], i), p, 32)
  {
    var r := FullRing(v.ms, v.sb[i], i);
    StateGap(v, p);
    forall j | 0 <= j < |r| ensures r[j] + 32 <= p + 16 || p + 32 <= r[j] + 16 {
      if 0 < j < |r| - 1 {
        assert r[j] == v.sb[i][j - 1];
        SmallMember(v, i, r[j]);
        FreeGap(v, r[j], p);
      }
    }
  }

  lemma SmallAtFrame(v: View, v': View, i: int)
    requires SmallAt(v, i) && 0 <= i < 32 && v'.ms == v.ms && |v'.sb| == 32 && v'.sb[i] == v.sb[i]
    requires Marked(v'.smallmap, i) <==> Marked(v.smallmap, i)
    requires var h := Header(v.ms, i);
      Rd(v'.mem, h + 16) == Rd(v.mem, h + 16) && Rd(v'.mem, h + 24) == Rd(v.mem, h + 24)
    requires forall p {:trigger p in v.sb[i]} :: p in v.sb[i] ==>
      Rd(v'.mem, p + 16) == Rd(v.mem, p + 16) && Rd(v'.mem, p + 24) == Rd(v.mem, p + 24)
    ensures SmallAt(v', i)
  {
    var s := v.sb[i];
    if s != [] {
      var r := FullRing(v.ms, s, i);
      forall k | 0 <= k < |r|
        ensures Rd(v'.mem, r[k] + 16) == Rd(v.mem, r[k] + 16) && Rd(v'.mem, r[k] + 24) == Rd(v.mem, r[k] + 24)
      {
        if 0 < k < |r| - 1 {
          assert r[k] == s[k - 1] && r[k] in s;
        }
      }
      ChainFrame(v.mem, v'.mem, r);
    }
  }

  lemma TreeAtFrame(v: View, v': View, i: int)
    requires TreeAt(v, i) && 0 <= i < 32 && v'.ms == v.ms && |v'.tb| == 32 && v'.tb[i] == v.tb[i]
    requires Marked(v'.treemap, i) <==> Marked(v.treemap, i)
    requires Rd(v'.mem, TreeSlot(v.ms, i)) == Rd(v.mem, TreeSlot(v.ms, i))
    requires forall p, s {:trigger Holds(v.tb[i], p, s)} :: Holds(v.tb[i], p, s) ==> SameLinks(v.mem, v'.mem, p)
    ensures TreeAt(v', i)
  {
    LinkedFrame(v.mem, v'.mem, v.tb[i], TreeSlot(v.ms, i), i);
  }

  lemma TreeMember(v: View, i: int, p: int, s: int)
    requires Base(v) && 0 <= i < 32 && |v.tb| == 32 && Holds(v.tb[i], p, s)
    ensures FreeAt(v.lay, p, s) && p !in v.out && MIN_LARGE_SIZE <= s && TreeIndex(s) == i
  {
    assert TreeAt(v, i);
    assert Binned(v.sb, v.tb, p, s) && IndexAt(v, p, s);
  }

  /** Words changed inside p, at the header of bin i and at the links of its neighbours n and m. */
  ghost predicate SmallTouch(v: View, mem': Mem, p: int, i: int, n: int, m: int) {
    var h := Header(v.ms, i);
    Touched(v.mem, mem', p, 32, {h + 16, h + 24, n + 16, n + 24, m + 16, m + 24})
  }

  /** A neighbour is the header or a member of the bin. */
  ghost predicate Neighbour(v: View, i: int, n: int) {
    n == Header(v.ms, i) || (0 <= i < |v.sb| && n in v.sb[i])
  }

  ghost predicate SmallScope(v: View, p: int, i: int, n: int, m: int) {
    && Base(v) && 0 <= i < 32 && |v.sb| == 32 && |v.tb| == 32
    && FreeAt(v.lay, p, 8 * i) && Neighbour(v, i, n) && Neighbour(v, i, m)
  }

  /** Another free chunk's body is not touched. */
  lemma SmallQuiet(v: View, mem': Mem, p: int, i: int, n: int, m: int, q: int, a: int)
    requires SmallScope(v, p, i, n, m) && SmallTouch(v, mem', p, i, n, m)
    requires q in v.lay && v.lay[q].kind.Free? && q != p && q != n && q != m && q + 16 <= a < q + v.lay[q].size
    ensures Rd(mem', a) == Rd(v.mem, a)
  {
    FreeGap(v, p, q);
    StateGap(v, q);
    if n in v.sb[i] {
      SmallMember(v, i, n);
      FreeGap(v, n, q);
    }
    if m in v.sb[i] {
      SmallMember(v, i, m);
      FreeGap(v, m, q);
    }
  }

  /** Other words of the bin array are not touched. */
  lemma SmallQuietArray(v: View, mem': Mem, p: int, i: int, n: int, m: int, a: int)
    requires SmallScope(v, p, i, n, m) && SmallTouch(v, mem', p, i, n, m)
    requires BinArray(v.ms, a) && a != Header(v.ms, i) + 16 && a != Header(v.ms, i) + 24
    ensures Rd(mem', a) == Rd(v.mem, a)
  {
    StateGap(v, p);
    if n in v.sb[i] {
      SmallMember(v, i, n);
      StateGap(v, n);
    }
    if m in v.sb[i] {
      SmallMember(v, i, m);
      StateGap(v, m);
    }
  }

  lemma OtherSmall(v: View, v': View, p: int, i: int, n: int, m: int, j: int)
    requires SmallScope(v, p, i, n, m) && SmallTouch(v, v'.mem, p, i, n, m) && 0 <= j < 32 && j != i
    requires v'.ms == v.ms && |v'.sb| == 32 && v'.sb[j] == v.sb[j]
      && (Marked(v'.smallmap, j) <==> Marked(v.smallmap, j))
    ensures SmallAt(v', j)
  {
    assert SmallAt(v, j);
    SmallQuietArray(v, v'.mem, p, i, n, m, Header(v.ms, j) + 16);
    SmallQuietArray(v, v'.mem, p, i, n, m, Header(v.ms, j) + 24);
    forall q | q in v.sb[j] ensures Rd(v'.mem, q + 16) == Rd(v.mem, q + 16) && Rd(v'.mem, q + 24) == Rd(v.mem, q + 24) {
      SmallMember(v, j, q);
      NotNeighbour(v, i, n, q);
      NotNeighbour(v, i, m, q);
      SmallQuiet(v, v'.mem, p, i, n, m, q, q + 16);
      SmallQuiet(v, v'.mem, p, i, n, m, q, q + 24);
    }
    SmallAtFrame(v, v', j);
  }

  lemma NotNeighbour(v: View, i: int, n: int, q: int)
    requires Base(v) && 0 <= i < 32 && |v.sb| == 32 && Neighbour(v, i, n)
    requires q in v.lay && v.lay[q].kind.Free? && v.lay[q].size != 8 * i
    ensures q != n
  {
    StateGap(v, q);
    if n in v.sb[i] {
      SmallMember(v, i, n);
    }
  }

  lemma OtherTree(v: View, v': View, p: int, i: int, n: int, m: int, j: int)
    requires SmallScope(v, p, i, n, m) && SmallTouch(v, v'.mem, p, i, n, m) && 0 <= j < 32
    requires v'.ms == v.ms && v'.tb == v.tb && v'.treemap == v.treemap
    ensures TreeAt(v', j)
  {
    assert TreeAt(v, j);
    SmallQuietArray(v, v'.mem, p, i, n, m, TreeSlot(v.ms, j));
    forall q, s | Holds(v.tb[j], q, s) ensures SameLinks(v.mem, v'.mem, q) {
      TreeMember(v, j, q, s);
      NotNeighbour(v, i, n, q);
      NotNeighbour(v, i, m, q);
      forall a | q + 16 <= a < q + 64 ensures Rd(v'.mem, a) == Rd(v.mem, a) {
        SmallQuiet(v, v'.mem, p, i, n, m, q, a);
      }
    }
    TreeAtFrame(v, v', j);
  }

  lemma SmallOnlyLinks(v: View, mem': Mem, p: int, i: int, n: int, m: int)
    requires SmallScope(v, p, i, n, m) && SmallTouch(v, mem', p, i, n, m)
    ensures OnlyLinks(v.lay, v.ms, v.mem, mem')
  {
    assert ChunkOk(v.lay, p);
    if n in v.sb[i] {
      SmallMember(v, i, n);
    }
    if m in v.sb[i] {
      SmallMember(v, i, m);
    }
    forall a ensures Rd(mem', a) == Rd(v.mem, a) || LinkArea(v.lay, v.ms, a) {
      assert p + 16 <= a < p + 32 ==> Interior(v.lay, p, a);
      assert n in v.sb[i] && (a == n + 16 || a == n + 24) ==> Interior(v.lay, n, a);
      assert m in v.sb[i] && (a == m + 16 || a == m + 24) ==> Interior(v.lay, m, a);
    }
  }

  // ----- linking in at the front

  ghost function SmallInserted(v: View, mem': Mem, p: int, i: nat): View
    requires i < |v.sb|
  {
    v.(mem := mem', smallmap := Mark(v.smallmap, i), sb := v.sb[i := [p] + v.sb[i]], out := v.out - {p})
  }

  /** The first member of bin i, or its header when the map says it is empty. */
  ghost function FirstOf(v: View, i: int): int
    requires 0 <= i < |v.sb|
  {
    if v.sb[i] == [] then Header(v.ms, i) else v.sb[i][0]
  }

  ghost predicate FrontWritten(v: View, mem': Mem, p: int, i: nat)
    requires i < |v.sb|
  {
    var h, f := Header(v.ms, i), FirstOf(v, i);
    && Touched(v.mem, mem', p, 32, {h + 16, f + 24})
    && Rd(mem', h + 16) == p && Rd(mem', f + 24) == p && Rd(mem', p + 16) == f && Rd(mem', p + 24) == h
  }

  ghost predicate InsertScope(v: View, p: int, i: int) {
    && Base(v) && 0 <= i < 32 && |v.sb| == 32 && |v.tb| == 32 && FreeAt(v.lay, p, 8 * i) && p in v.out
  }

  lemma FrontOfRing(ms: int, s: seq<int>, i: int, p: int)
    ensures var r := FullRing(ms, s, i); r[..1] + [p] + r[1..] == FullRing(ms, [p] + s, i)
  {}

  lemma InsertedChain(v: View, mem': Mem, p: int, i: nat)
    requires InsertScope(v, p, i) && FrontWritten(v, mem', p, i) && p !in v.sb[i]
    ensures Chain(mem', FullRing(v.ms, [p] + v.sb[i], i))
  {
    var s := v.sb[i];
    if s == [] {
      var c := FullRing(v.ms, [p], i);
      forall k ensures LinkAt(mem', c, k) {}
    } else {
      assert SmallAt(v, i);
      FullRingSpread(v, i);
      FullRingClear(v, i, p);
      ChainInsert(v.mem, mem', FullRing(v.ms, s, i), 0, p, 32);
      FrontOfRing(v.ms, s, i, p);
    }
  }

  lemma InsertedBin(v: View, mem': Mem, p: int, i: nat)
    requires InsertScope(v, p, i) && FrontWritten(v, mem', p, i)
    ensures SmallAt(SmallInserted(v, mem', p, i), i)
  {
    var s := v.sb[i];
    assert SmallAt(v, i);
    MarkSets(v.smallmap, i, i);
    if p in s {
      SmallMember(v, i, p);
    }
    InsertedChain(v, mem', p, i);
    assert NoDup([p] + s);
  }

  lemma InsertedIndex(v: View, mem': Mem, p: int, i: nat)
    requires InsertScope(v, p, i) && i < 32
    ensures Indexed(SmallInserted(v, mem', p, i))
  {
    var v' := SmallInserted(v, mem', p, i);
    forall q, s ensures IndexAt(v', q, s) {
      assert IndexAt(v, q, s);
      if 0 <= s < MIN_LARGE_SIZE && s % 8 == 0 {
        assert q in v'.sb[s / 8] <==> q in v.sb[s / 8] || (q == p && s == 8 * i);
      }
    }
  }

  /** Linking a free chunk in at the front of its small bin keeps the invariant. */
  lemma SmallInsertKeeps(v: View, mem': Mem, p: int, i: nat)
    requires InsertScope(v, p, i) && i < 32 && FrontWritten(v, mem', p, i)
    ensures Base(SmallInserted(v, mem', p, i))
    ensures PayloadSame(UsedOf(v.lay), v.ms, v.mem, mem') && Frame(v.lay, v.lay, v.mem, mem')
  {
    var v' := SmallInserted(v, mem', p, i);
    var h, f := Header(v.ms, i), FirstOf(v, i);
    forall j ensures SmallAt(v', j) {
      if j == i {
        InsertedBin(v, mem', p, i);
      } else if 0 <= j < 32 {
        MarkSets(v.smallmap, i, j);
        OtherSmall(v, v', p, i, h, f, j);
      }
    }
    forall j ensures TreeAt(v', j) {
      if 0 <= j < 32 {
        OtherTree(v, v', p, i, h, f, j);
      }
    }
    SmallOnlyLinks(v, mem', p, i, h, f);
    OnlyLinksKeep(v.lay, v.ms, v.mem, mem');
    LinksFrame(v, mem');
    InsertedIndex(v, mem', p, i);
  }

  // ----- unlinking

  ghost function SmallRemoved(v: View, mem': Mem, p: int, i: nat, k: nat): View
    requires i < |v.sb| && k < |v.sb[i]|
  {
    v.(mem := mem', smallmap := if |v.sb[i]| == 1 then Unmark(v.smallmap, i) else v.smallmap,
      sb := v.sb[i := DropAt(v.sb[i], k)], out := v.out + {p})
  }

  ghost predicate MemberWritten(v: View, mem': Mem, i: nat, k: nat)
    requires i < |v.sb| && k < |v.sb[i]|
  {
    var r := FullRing(v.ms, v.sb[i], i);
    var b, f := r[k], r[k + 2];
    if |v.sb[i]| == 1 then mem' == v.mem
    else Touched(v.mem, mem', 0, 0, {b + 16, f + 24}) && Rd(mem', b + 16) == f && Rd(mem', f + 24) == b
  }

  ghost predicate RemoveScope(v: View, p: int, i: int, k: int) {
    && Base(v) && 0 <= i < 32 && |v.sb| == 32 && |v.tb| == 32 && 0 <= k < |v.sb[i]| && v.sb[i][k] == p
  }

  /** The links of member k name its neighbours. */
  lemma SmallNeighbours(v: View, p: int, i: nat, k: nat)
    requires RemoveScope(v, p, i, k)
    ensures var r := FullRing(v.ms, v.sb[i], i);
      && Rd(v.mem, p + 16) == r[k + 2] && Rd(v.mem, p + 24) == r[k] && (r[k] == r[k + 2] <==> |v.sb[i]| == 1)
      && Neighbour(v, i, r[k]) && Neighbour(v, i, r[k + 2]) && r[k] != p && r[k + 2] != p
  {
    var r := FullRing(v.ms, v.sb[i], i);
    assert SmallAt(v, i);
    assert LinkAt(v.mem, r, k) && LinkAt(v.mem, r, k + 1);
    FullRingSpread(v, i);
    assert SpreadAt(r, k, k + 2) && SpreadAt(r, k, k + 1) && SpreadAt(r, k + 1, k + 2);
  }

  lemma RingWithout(ms: int, s: seq<int>, i: int, k: nat)
    requires k < |s|
    ensures var r := FullRing(ms, s, i); r[..k + 1] + r[k + 2..] == FullRing(ms, DropAt(s, k), i)
  {}

  lemma RemovedBin(v: View, mem': Mem, p: int, i: nat, k: nat)
    requires RemoveScope(v, p, i, k) && MemberWritten(v, mem', i, k)
    ensures SmallAt(SmallRemoved(v, mem', p, i, k), i)
  {
    var s := v.sb[i];
    assert SmallAt(v, i);
    MarkSets(v.smallmap, i, i);
    DropKeeps(s, k, 0);
    if |s| > 1 {
      FullRingSpread(v, i);
      ChainRemove(v.mem, mem', FullRing(v.ms, s, i), k + 1);
      RingWithout(v.ms, s, i, k);
    }
  }

  lemma RemovedIndex(v: View, mem': Mem, p: int, i: nat, k: nat)
    requires RemoveScope(v, p, i, k) && i < 32
    ensures Indexed(SmallRemoved(v, mem', p, i, k))
  {
    var v' := SmallRemoved(v, mem', p, i, k);
    SmallMember(v, i, p);
    assert SmallAt(v, i);
    forall q, s ensures IndexAt(v', q, s) {
      assert IndexAt(v, q, s);
      if 0 <= s < MIN_LARGE_SIZE && s % 8 == 0 && s / 8 == i {
        DropKeeps(v.sb[i], k, q);
      }
    }
  }

  /** Unlinking any member of a small bin keeps the invariant; the last one clears the bin's map bit only. */
  lemma SmallRemoveKeeps(v: View, mem': Mem, p: int, i: nat, k: nat)
    requires RemoveScope(v, p, i, k) && i < 32 && MemberWritten(v, mem', i, k)
    ensures Base(SmallRemoved(v, mem', p, i, k))
    ensures PayloadSame(UsedOf(v.lay), v.ms, v.mem, mem') && Frame(v.lay, v.lay, v.mem, mem')
  {
    var v' := SmallRemoved(v, mem', p, i, k);
    var r := FullRing(v.ms, v.sb[i], i);
    var b, f := r[k], r[k + 2];
    SmallNeighbours(v, p, i, k);
    SmallMember(v, i, p);
    forall j ensures SmallAt(v', j) {
      if j == i {
        RemovedBin(v, mem', p, i, k);
      } else if 0 <= j < 32 {
        MarkSets(v.smallmap, i, j);
        OtherSmall(v, v', p, i, b, f, j);
      }
    }
    forall j ensures TreeAt(v', j) {
      if 0 <= j < 32 {
        OtherTree(v, v', p, i, b, f, j);
      }
    }
    SmallOnlyLinks(v, mem', p, i, b, f);
    OnlyLinksKeep(v.lay, v.ms, v.mem, mem');
    LinksFrame(v, mem');
    RemovedIndex(v, mem', p, i, k);
  }
}
