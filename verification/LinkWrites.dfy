/** The exact words the tree insertion writes, case by case. */
module LinkWrites {
  import opened Words
  import opened Layouts
  import opened TrieLinks
  import opened Sizes
  import opened Keys
  import opened Views
  import opened Areas
  import opened SmallBins
  import opened TreeBins
  import opened Scratch

  /** Index and child words of x, written before the walk. */
  ghost function Prepared(mem: Mem, x: int, i: int): Mem {
    mem[x + 56 := i][x + 40 := 0][x + 32 := 0]
  }

  ghost function HangMem(mem: Mem, x: int, at: int, slot: int): Mem {
    mem[slot := x][x + 48 := at][x + 24 := x][x + 16 := x]
  }

  ghost function JoinMem(mem: Mem, x: int, at: int): Mem {
    var f := Rd(mem, at + 16);
    mem[f + 24 := x][at + 16 := x][x + 16 := f][x + 24 := at][x + 48 := 0]
  }

  ghost predicate Preparing(v: View, x: int, s: int) {
    Base(v) && FreeAt(v.lay, x, s) && x in v.out && MIN_LARGE_SIZE <= s
  }

  /** After the preparation: the invariant holds, and x has its bin's index and no children. */
  ghost predicate Ready4(v: View, x: int, s: int, i: int) {
    && TreeInsertScope(v, x, s, i)
    && Rd(v.mem, x + 56) == i && Rd(v.mem, x + 40) == 0 && Rd(v.mem, x + 32) == 0
  }

  lemma PreparedKeeps(v: View, x: int, s: int)
    requires Preparing(v, x, s)
    ensures var i := TreeIndex(s);
      && 0 <= i < 32 && s < TWO64 && s % 8 == 0
      && Ready4(v.(mem := Prepared(v.mem, x, i)), x, s, i)
      && PayloadSame(UsedOf(v.lay), v.ms, v.mem, Prepared(v.mem, x, i))
      && Frame(v.lay, v.lay, v.mem, Prepared(v.mem, x, i))
  {
    var i := TreeIndex(s);
    assert ChunkOk(v.lay, x);
    SizeFitsBin(s);
    var v1 := v.(mem := Prepared(v.mem, x, i));
    ScratchKeeps(v, v1.mem, x);
    assert SmallAt(v1, i) && TreeAt(v1, i);
  }

  lemma HangWrites(mem: Mem, x: int, i: int, at: int, slot: int)
    requires slot < x + 16 || x + 64 <= slot
    requires Rd(mem, x + 56) == i && Rd(mem, x + 40) == 0 && Rd(mem, x + 32) == 0
    ensures Hung(mem, HangMem(mem, x, at, slot), x, i, at, slot)
  {}

  lemma JoinWrites(mem: Mem, x: int, i: int, at: int)
    requires var f := Rd(mem, at + 16); (f + 64 <= x || x + 64 <= f) && (f == at || f + 64 <= at || at + 64 <= f)
    requires at + 64 <= x || x + 64 <= at
    requires Rd(mem, x + 56) == i && Rd(mem, x + 40) == 0 && Rd(mem, x + 32) == 0
    ensures Ringed(mem, JoinMem(mem, x, at), x, i, at)
  {}

  lemma RootHangs(v: View, x: int, s: int, i: nat)
    requires Ready4(v, x, s, i) && i < 32 && v.tb[i].Nil?
    ensures var m := HangMem(v.mem, x, TreeSlot(v.ms, i), TreeSlot(v.ms, i));
      Base(TreeInserted(v, m, x, s, i)) && PayloadSame(UsedOf(v.lay), v.ms, v.mem, m)
      && Frame(v.lay, v.lay, v.mem, m)
  {
    var h := TreeSlot(v.ms, i);
    StateGap(v, x);
    HangWrites(v.mem, x, i, h, h);
    TreeInsertKeeps(v, HangMem(v.mem, x, h, h), x, s, i);
  }

  lemma LeafHangs(v: View, x: int, s: int, i: nat, at: int, slot: int)
    requires Ready4(v, x, s, i) && i < 32 && v.tb[i].Node? && Walk(v.tb[i], s, TreeLo(i), TreeBit(i)) == Hang(at, slot)
    ensures var m := HangMem(v.mem, x, at, slot);
      Base(TreeInserted(v, m, x, s, i)) && PayloadSame(UsedOf(v.lay), v.ms, v.mem, m)
      && Frame(v.lay, v.lay, v.mem, m)
  {
    var u := WalkEnds(v.tb[i], s, TreeLo(i), TreeBit(i));
    TreeMember(v, i, at, u);
    FreeGap(v, x, at);
    HangWrites(v.mem, x, i, at, slot);
    TreeInsertKeeps(v, HangMem(v.mem, x, at, slot), x, s, i);
  }

  lemma MemberJoins(v: View, x: int, s: int, i: nat, at: int)
    requires Ready4(v, x, s, i) && i < 32 && v.tb[i].Node? && Walk(v.tb[i], s, TreeLo(i), TreeBit(i)) == Same(at)
    ensures var m := JoinMem(v.mem, x, at);
      Base(TreeInserted(v, m, x, s, i)) && PayloadSame(UsedOf(v.lay), v.ms, v.mem, m)
      && Frame(v.lay, v.lay, v.mem, m)
  {
    JoinApart(v, x, s, i, at);
    JoinWrites(v.mem, x, i, at);
    TreeInsertKeeps(v, JoinMem(v.mem, x, at), x, s, i);
  }

  lemma JoinApart(v: View, x: int, s: int, i: nat, at: int)
    requires Ready4(v, x, s, i) && i < 32 && v.tb[i].Node? && Walk(v.tb[i], s, TreeLo(i), TreeBit(i)) == Same(at)
    ensures var f := Rd(v.mem, at + 16);
      (f + 64 <= x || x + 64 <= f) && (f == at || f + 64 <= at || at + 64 <= f) && (at + 64 <= x || x + 64 <= at)
  {
    var t, f := v.tb[i], Rd(v.mem, at + 16);
    var u := WalkEnds(t, s, TreeLo(i), TreeBit(i));
    assert TreeAt(v, i);
    TreeStored(v, i);
    NextInRing(v.lay, v.mem, t, TreeSlot(v.ms, i), i, at, u);
    TreeMember(v, i, at, u);
    TreeMember(v, i, f, u);
    FreeGap(v, x, at);
    FreeGap(v, x, f);
    if f != at {
      FreeGap(v, f, at);
    }
  }
}
