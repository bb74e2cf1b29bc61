/** Tree bins: linking a large chunk in and unlinking any member keep the invariant. */
module TreeBins {
  import opened Words
  import opened Layouts
  import opened BinMaps
  import opened Chains
  import opened Tries
  import opened TrieLinks
  import opened TrieUnlink
  import opened Sizes
  import opened Keys
  import opened Views
  import opened Areas
  import opened SmallBins

  ghost predicate MemberWord(t: Tree, a: int) {
    exists q, s {:trigger Holds(t, q, s)} :: Holds(t, q, s) && q + 16 <= a < q + 64
  }

  /** The words an operation on tree bin i and chunk x may change. */
  ghost predicate TreeWord(v: View, x: int, i: int, a: int) {
    0 <= i < |v.tb| && (x + 16 <= a < x + 64 || a == TreeSlot(v.ms, i) || MemberWord(v.tb[i], a))
  }

  ghost predicate TreeTouch(v: View, mem': Mem, x: int, i: int) {
    forall a {:trigger Rd(mem', a)} :: Rd(mem', a) == Rd(v.mem, a) || TreeWord(v, x, i, a)
  }

  ghost predicate TreeScope(v: View, x: int, s: int, i: int) {
    && Base(v) && 0 <= i < 32 && |v.sb| == 32 && |v.tb| == 32
    && FreeAt(v.lay, x, s) && MIN_LARGE_SIZE <= s && TreeIndex(s) == i
  }

  /** A free chunk of another bin keeps its body. */
  lemma TreeQuiet(v: View, mem': Mem, x: int, s: int, i: int, q: int, a: int)
    requires TreeScope(v, x, s, i) && TreeTouch(v, mem', x, i)
    requires q in v.lay && v.lay[q].kind.Free? && q != x && q + 16 <= a < q + v.lay[q].size
    requires v.lay[q].size < MIN_LARGE_SIZE || TreeIndex(v.lay[q].size) != i
    ensures Rd(mem', a) == Rd(v.mem, a)
  {
    StateGap(v, q);
    FreeGap(v, x, q);
    if MemberWord(v.tb[i], a) {
      var m, u :| Holds(v.tb[i], m, u) && m + 16 <= a < m + 64;
      TreeMember(v, i, m, u);
      FreeGap(v, m, q);
    }
  }

  lemma TreeQuietArray(v: View, mem': Mem, x: int, s: int, i: int, a: int)
    requires TreeScope(v, x, s, i) && TreeTouch(v, mem', x, i)
    requires BinArray(v.ms, a) && a != TreeSlot(v.ms, i)
    ensures Rd(mem', a) == Rd(v.mem, a)
  {
    StateGap(v, x);
    if MemberWord(v.tb[i], a) {
      var m, u :| Holds(v.tb[i], m, u) && m + 16 <= a < m + 64;
      TreeMember(v, i, m, u);
      StateGap(v, m);
    }
  }

  lemma SmallBeside(v: View, v': View, x: int, s: int, i: int, j: int)
    requires TreeScope(v, x, s, i) && TreeTouch(v, v'.mem, x, i) && 0 <= j < 32
    requires v'.ms == v.ms && v'.sb == v.sb && v'.smallmap == v.smallmap
    ensures SmallAt(v', j)
  {
    assert SmallAt(v, j);
    TreeQuietArray(v, v'.mem, x, s, i, Header(v.ms, j) + 16);
    TreeQuietArray(v, v'.mem, x, s, i, Header(v.ms, j) + 24);
    forall q | q in v.sb[j] ensures Rd(v'.mem, q + 16) == Rd(v.mem, q + 16) && Rd(v'.mem, q + 24) == Rd(v.mem, q + 24) {
      SmallMember(v, j, q);
      TreeQuiet(v, v'.mem, x, s, i, q, q + 16);
      TreeQuiet(v, v'.mem, x, s, i, q, q + 24);
    }
    SmallAtFrame(v, v', j);
  }

  lemma TreeBeside(v: View, v': View, x: int, s: int, i: int, j: int)
    requires TreeScope(v, x, s, i) && TreeTouch(v, v'.mem, x, i) && 0 <= j < 32 && j != i
    requires v'.ms == v.ms && |v'.tb| == 32 && v'.tb[j] == v.tb[j] && (Marked(v'.treemap, j) <==> Marked(v.treemap, j))
    ensures TreeAt(v', j)
  {
    assert TreeAt(v, j);
    TreeQuietArray(v, v'.mem, x, s, i, TreeSlot(v.ms, j));
    forall q, u | Holds(v.tb[j], q, u) ensures SameLinks(v.mem, v'.mem, q) {
      TreeMember(v, j, q, u);
      forall a | q + 16 <= a < q + 64 ensures Rd(v'.mem, a) == Rd(v.mem, a) {
        TreeQuiet(v, v'.mem, x, s, i, q, a);
      }
    }
    TreeAtFrame(v, v', j);
  }

  lemma TreeOnlyLinks(v: View, mem': Mem, x: int, s: int, i: int)
    requires TreeScope(v, x, s, i) && TreeTouch(v, mem', x, i)
    ensures OnlyLinks(v.lay, v.ms, v.mem, mem')
  {
    forall a ensures Rd(mem', a) == Rd(v.mem, a) || LinkArea(v.lay, v.ms, a) {
      assert x + 16 <= a < x + 64 ==> Interior(v.lay, x, a);
      if MemberWord(v.tb[i], a) {
        var m, u :| Holds(v.tb[i], m, u) && m + 16 <= a < m + 64;
        TreeMember(v, i, m, u);
        assert Interior(v.lay, m, a);
      }
    }
  }

  lemma TreeStored(v: View, i: int)
    requires Base(v) && 0 <= i < 32 && |v.tb| == 32
    ensures StoredIn(v.lay, v.tb[i]) && OutsideWord(v.tb[i], TreeSlot(v.ms, i))
  {
    forall q, u | Holds(v.tb[i], q, u) ensures FreeAt(v.lay, q, u) && MIN_LARGE_SIZE <= u
      && (TreeSlot(v.ms, i) < q + 16 || q + 64 <= TreeSlot(v.ms, i))
    {
      TreeMember(v, i, q, u);
      StateGap(v, q);
    }
  }

  // ----- linking in

  ghost function TreeInserted(v: View, mem': Mem, x: int, s: int, i: nat): View
    requires i < |v.tb| && WF(v.tb[i], TreeLo(i), TreeBit(i))
  {
    v.(mem := mem', treemap := Mark(v.treemap, i), tb := v.tb[i := Insert(v.tb[i], x, s, TreeLo(i), TreeBit(i))], out :=
      v.out - {x})
  }

  /** Where the walk of an insertion ends, and what is written there. */
  ghost predicate TreeWritten(v: View, mem': Mem, x: int, s: int, i: nat)
    requires i < |v.tb| && WF(v.tb[i], TreeLo(i), TreeBit(i))
  {
    match Walk(v.tb[i], s, TreeLo(i), TreeBit(i))
    case Empty => Hung(v.mem, mem', x, i, TreeSlot(v.ms, i), TreeSlot(v.ms, i))
    case Hang(at, slot) => Hung(v.mem, mem', x, i, at, slot)
    case Same(at) => Ringed(v.mem, mem', x, i, at)
  }

  ghost predicate TreeInsertScope(v: View, x: int, s: int, i: int) {
    TreeScope(v, x, s, i) && x in v.out && WF(v.tb[i], TreeLo(i), TreeBit(i)) && Fits(s, TreeLo(i), TreeBit(i))
  }

  /** A chunk the walk ends at, or its ring neighbour: its words are words of the bin. */
  lemma HeldWords(v: View, i: nat, q: int, u: int)
    requires Base(v) && i < 32 && |v.tb| == 32 && Holds(v.tb[i], q, u)
    ensures forall a {:trigger MemberWord(v.tb[i], a)} :: q + 16 <= a < q + 64 ==>
      MemberWord(v.tb[i], a) && a != TreeSlot(v.ms, i)
  {
    TreeStored(v, i);
  }

  lemma TreeHangTouches(v: View, mem': Mem, x: int, s: int, i: nat, at: int, slot: int)
    requires TreeInsertScope(v, x, s, i) && v.tb[i].Node? && Walk(v.tb[i], s, TreeLo(i), TreeBit(i)) == Hang(at, slot)
    requires Touched(v.mem, mem', x, 64, {slot})
    ensures TreeTouch(v, mem', x, i) && Rd(mem', TreeSlot(v.ms, i)) == Rd(v.mem, TreeSlot(v.ms, i))
  {
    StateGap(v, x);
    var u := WalkEnds(v.tb[i], s, TreeLo(i), TreeBit(i));
    HeldWords(v, i, at, u);
    assert MemberWord(v.tb[i], slot);
  }

  lemma TreeRingTouches(v: View, mem': Mem, x: int, s: int, i: nat, at: int)
    requires TreeInsertScope(v, x, s, i) && v.tb[i].Node? && Walk(v.tb[i], s, TreeLo(i), TreeBit(i)) == Same(at)
    requires var next := Rd(v.mem, at + 16); Touched(v.mem, mem', x, 64, {at + 16, next + 24})
    ensures TreeTouch(v, mem', x, i) && Rd(mem', TreeSlot(v.ms, i)) == Rd(v.mem, TreeSlot(v.ms, i))
  {
    StateGap(v, x);
    var t, next := v.tb[i], Rd(v.mem, at + 16);
    var u := WalkEnds(t, s, TreeLo(i), TreeBit(i));
    assert TreeAt(v, i);
    TreeStored(v, i);
    NextInRing(v.lay, v.mem, t, TreeSlot(v.ms, i), i, at, u);
    HeldWords(v, i, at, u);
    HeldWords(v, i, next, u);
    assert MemberWord(t, at + 16) && MemberWord(t, next + 24);
  }

  lemma TreeInsertTouches(v: View, mem': Mem, x: int, s: int, i: nat)
    requires TreeInsertScope(v, x, s, i) && TreeWritten(v, mem', x, s, i)
    ensures TreeTouch(v, mem', x, i)
    ensures v.tb[i].Node? ==> Rd(mem', TreeSlot(v.ms, i)) == Rd(v.mem, TreeSlot(v.ms, i))
  {
    if v.tb[i].Node? {
      var u := WalkEnds(v.tb[i], s, TreeLo(i), TreeBit(i));
      match Walk(v.tb[i], s, TreeLo(i), TreeBit(i))
      case Empty =>
      case Hang(at, slot) => TreeHangTouches(v, mem', x, s, i, at, slot);
      case Same(at) => TreeRingTouches(v, mem', x, s, i, at);
    }
  }

  lemma TreeInsertLinks(v: View, mem': Mem, x: int, s: int, i: nat)
    requires TreeInsertScope(v, x, s, i) && TreeWritten(v, mem', x, s, i)
    ensures Linked(mem', Insert(v.tb[i], x, s, TreeLo(i), TreeBit(i)), TreeSlot(v.ms, i), i)
    ensures Rd(mem', TreeSlot(v.ms, i)) == Root(Insert(v.tb[i], x, s, TreeLo(i), TreeBit(i)))
  {
    var t, lo, b, h := v.tb[i], TreeLo(i), TreeBit(i), TreeSlot(v.ms, i);
    assert TreeAt(v, i);
    TreeStored(v, i);
    if t.Nil? {
      LoneLeaf(mem', x, s, i, h);
    } else {
      TreeInsertTouches(v, mem', x, s, i);
      var u := WalkEnds(t, s, lo, b);
      if Holds(t, x, s) {
        TreeMember(v, i, x, s);
      }
      if Walk(t, s, lo, b).Same? {
        JoinLinked(v.lay, v.mem, mem', t, h, i, x, s, lo, b);
      } else {
        HangLinked(v.lay, v.mem, mem', t, h, i, x, s, lo, b);
      }
    }
  }

  lemma TreeInsertedBin(v: View, mem': Mem, x: int, s: int, i: nat)
    requires TreeInsertScope(v, x, s, i) && TreeWritten(v, mem', x, s, i)
    ensures TreeAt(TreeInserted(v, mem', x, s, i), i)
  {
    var t, lo, b := v.tb[i], TreeLo(i), TreeBit(i);
    assert TreeAt(v, i);
    MarkSets(v.treemap, i, i);
    assert ChunkOk(v.lay, x);
    if Holds(t, x, s) {
      TreeMember(v, i, x, s);
    }
    InsertWF(t, x, s, lo, b);
    TreeInsertLinks(v, mem', x, s, i);
    forall p, u | Holds(Insert(t, x, s, lo, b), p, u) ensures MIN_LARGE_SIZE <= u && TreeIndex(u) == i {
      InsertHolds(t, x, s, lo, b, p, u);
    }
  }

  lemma TreeInsertedIndex(v: View, mem': Mem, x: int, s: int, i: nat)
    requires TreeInsertScope(v, x, s, i) && i < 32
    ensures Indexed(TreeInserted(v, mem', x, s, i))
  {
    var v' := TreeInserted(v, mem', x, s, i);
    forall q, u ensures IndexAt(v', q, u) {
      assert IndexAt(v, q, u);
      InsertHolds(v.tb[i], x, s, TreeLo(i), TreeBit(i), q, u);
    }
  }

  /** Linking a large free chunk into its trie keeps the invariant. */
  lemma TreeInsertKeeps(v: View, mem': Mem, x: int, s: int, i: nat)
    requires TreeInsertScope(v, x, s, i) && i < 32 && TreeWritten(v, mem', x, s, i)
    ensures Base(TreeInserted(v, mem', x, s, i))
    ensures PayloadSame(UsedOf(v.lay), v.ms, v.mem, mem') && Frame(v.lay, v.lay, v.mem, mem')
  {
    var v' := TreeInserted(v, mem', x, s, i);
    TreeInsertTouches(v, mem', x, s, i);
    forall j ensures SmallAt(v', j) {
      if 0 <= j < 32 {
        SmallBeside(v, v', x, s, i, j);
      }
    }
    forall j ensures TreeAt(v', j) {
      if j == i {
        TreeInsertedBin(v, mem', x, s, i);
      } else if 0 <= j < 32 {
        MarkSets(v.treemap, i, j);
        TreeBeside(v, v', x, s, i, j);
      }
    }
    TreeOnlyLinks(v, mem', x, s, i);
    OnlyLinksKeep(v.lay, v.ms, v.mem, mem');
    LinksFrame(v, mem');
    TreeInsertedIndex(v, mem', x, s, i);
  }
}
