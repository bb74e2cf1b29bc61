/** The field table of an archive: an ordered list of fields with names unique without case, and its packed encoding. */
module FieldTables {
  import opened Words
  import opened Bytes

  datatype Field = Field(name: seq<byte>, value: seq<byte>)

  const MAX_NSIZE: int := TWO16 - 1
  const MAX_VSIZE: int := TWO16 - 1

  /** Sizes with terminators, name, terminator, value, terminator. */
  function EncodeField(f: Field): seq<byte> {
    Encode16(|f.name| + 1) + Encode16(|f.value| + 1) + f.name + [0] + f.value + [0]
  }

  function EncodeFields(fs: seq<Field>): seq<byte> {
    if fs == [] then [] else EncodeField(fs[0]) + EncodeFields(fs[1..])
  }

  /** What the two size words of a field can express. */
  ghost predicate FieldOk(f: Field) {
    NoNul(f.name) && |f.name| + 1 <= MAX_NSIZE && |f.value| + 1 <= MAX_VSIZE
  }

  ghost predicate DistinctAt(fs: seq<Field>, i: int, j: int) {
    0 <= i < |fs| && 0 <= j < |fs| && i != j ==> !Alike(fs[i].name, fs[j].name)
  }

  ghost predicate EachOk(fs: seq<Field>) {
    forall f {:trigger f in fs} :: f in fs ==> FieldOk(f)
  }

  ghost predicate FieldsOk(fs: seq<Field>) {
    && EachOk(fs)
    && (forall i, j {:trigger DistinctAt(fs, i, j)} :: DistinctAt(fs, i, j))
  }

  /** The ordinal of the field with this name, or the number of fields. */
  ghost function Find(fs: seq<Field>, name: seq<byte>): (n: nat)
    ensures n <= |fs|
    ensures n < |fs| ==> Alike(fs[n].name, name)
    ensures forall i {:trigger fs[i]} | 0 <= i < n :: !Alike(fs[i].name, name)
  {
    if fs == [] then 0
    else if Alike(fs[0].name, name) then 0
    else Find(fs[1..], name) + 1
  }

  /** Put by name: in place at the ordinal of the name, or at the end. */
  ghost function PutField(fs: seq<Field>, f: Field): seq<Field> {
    var n := Find(fs, f.name);
    if n < |fs| then fs[n := f] else fs + [f]
  }

  function DropField(fs: seq<Field>, n: nat): seq<Field>
    requires n < |fs|
  {
    fs[..n] + fs[n + 1..]
  }

  // ----- the list stays a table

  /** A field other than the one a name finds has a name that differs in more than case. */
  lemma FoundAlone(fs: seq<Field>, name: seq<byte>, j: nat)
    requires FieldsOk(fs) && j < |fs| && j != Find(fs, name)
    ensures !Alike(name, fs[j].name) && !Alike(fs[j].name, name)
  {
    hide Alike;
    var n := Find(fs, name);
    AlikeSwaps(name, fs[j].name);
    if n < |fs| {
      assert DistinctAt(fs, n, j);
      if Alike(name, fs[j].name) {
        AlikeTrans(fs[n].name, name, fs[j].name);
      }
    }
  }

  lemma PutFieldOk(fs: seq<Field>, f: Field)
    requires FieldsOk(fs) && FieldOk(f)
    ensures FieldsOk(PutField(fs, f))
  {
    hide Alike;
    var n := Find(fs, f.name);
    var g := PutField(fs, f);
    forall h | h in g ensures FieldOk(h) {
      assert h == f || h in fs;
    }
    forall i, j ensures DistinctAt(g, i, j) {
      assert DistinctAt(fs, i, j);
      if 0 <= i < |fs| && i != n {
        FoundAlone(fs, f.name, i);
      }
      if 0 <= j < |fs| && j != n {
        FoundAlone(fs, f.name, j);
      }
    }
  }

  lemma PutValueOk(fs: seq<Field>, n: nat, value: seq<byte>)
    requires FieldsOk(fs) && n < |fs| && |value| + 1 <= MAX_VSIZE
    ensures FieldsOk(fs[n := Field(fs[n].name, value)])
  {
    var g := fs[n := Field(fs[n].name, value)];
    assert fs[n] in fs;
    forall h | h in g ensures FieldOk(h) {
      assert h == g[n] || h in fs;
    }
    forall i, j ensures DistinctAt(g, i, j) {
      assert DistinctAt(fs, i, j);
    }
  }

  lemma DropFieldOk(fs: seq<Field>, n: nat)
    requires FieldsOk(fs) && n < |fs|
    ensures FieldsOk(DropField(fs, n))
  {
    var g := DropField(fs, n);
    forall h | h in g ensures FieldOk(h) {
      assert h in fs;
    }
    forall i, j ensures DistinctAt(g, i, j) {
      assert DistinctAt(fs, if i < n then i else i + 1, if j < n then j else j + 1);
    }
  }

  /** In a table, each field is found by its own name, in any case. */
  lemma FindsEach(fs: seq<Field>, n: nat, name: seq<byte>)
    requires FieldsOk(fs) && n < |fs| && Alike(fs[n].name, name)
    ensures Find(fs, name) == n
  {
    hide Alike;
    if Find(fs, name) != n {
      FoundAlone(fs, name, n);
    }
  }

  /** A table finds a name at the one field of the same length whose bytes are equal or the two cases of a letter. */
  lemma FindIs(fs: seq<Field>, name: seq<byte>, n: nat)
    requires FieldsOk(fs) && n < |fs|
    ensures Find(fs, name) == n <==>
      && |name| == |fs[n].name|
      && forall i | 0 <= i < |name| :: var a: int, b: int := name[i], fs[n].name[i];
        a == b || (65 <= a <= 90 && b == a + 32) || (97 <= a <= 122 && b == a - 32)
  {
    hide FieldsOk;
    if Alike(fs[n].name, name) {
      FindsEach(fs, n, name);
      forall i | 0 <= i < |name| ensures SameLetter(fs[n].name[i], name[i]) {
        assert AlikeAt(fs[n].name, name, i);
      }
    } else if |name| == |fs[n].name| {
      var i :| !AlikeAt(fs[n].name, name, i);
      assert !SameLetter(fs[n].name[i], name[i]);
    }
  }

  /** What put by name changes: the ordinal of the name and nothing else. */
  lemma PutFinds(fs: seq<Field>, f: Field, name: seq<byte>)
    requires FieldsOk(fs) && FieldOk(f)
    ensures var g, n := PutField(fs, f), Find(fs, f.name);
      && Find(g, f.name) == n && n < |g| && g[n] == f && |g| == (if n < |fs| then |fs| else |fs| + 1)
      && (Alike(name, f.name) ==> Find(g, name) == n)
      && (!Alike(name, f.name) && Find(fs, name) < |fs| ==>
         Find(g, name) == Find(fs, name) && g[Find(g, name)] == fs[Find(fs, name)])
      && (!Alike(name, f.name) && Find(fs, name) == |fs| ==> Find(g, name) == |g|)
  {
    hide Alike, FieldsOk;
    var g, n := PutField(fs, f), Find(fs, f.name);
    PutFieldOk(fs, f);
    AlikeSelf(f.name);
    FindsEach(g, n, f.name);
    AlikeSwaps(f.name, name);
    if Alike(name, f.name) {
      FindsEach(g, n, name);
    } else {
      PutElsewhere(fs, f, name);
    }
  }

  lemma PutElsewhere(fs: seq<Field>, f: Field, name: seq<byte>)
    requires FieldsOk(fs) && FieldsOk(PutField(fs, f)) && !Alike(name, f.name) && !Alike(f.name, name)
    ensures var g, m := PutField(fs, f), Find(fs, name);
      Find(g, name) == (if m < |fs| then m else |g|) && (m < |fs| ==> g[m] == fs[m])
  {
    hide Alike, FieldsOk;
    var g, m, n := PutField(fs, f), Find(fs, name), Find(fs, f.name);
    if m < |fs| {
      if m == n {
        AlikeSwaps(fs[n].name, name);
        AlikeTrans(name, fs[n].name, f.name);
      }
      FindsEach(g, m, name);
    }
  }

  lemma DropGone(fs: seq<Field>, n: nat, name: seq<byte>)
    requires FieldsOk(fs) && n < |fs| && (Find(fs, name) == n || Find(fs, name) == |fs|)
    ensures Find(DropField(fs, n), name) == |fs| - 1
  {
    var g := DropField(fs, n);
    var k := Find(g, name);
    if k < |g| {
      var k' := if k < n then k else k + 1;
      assert fs[k'] == g[k];
      FindsEach(fs, k', name);
    }
  }

  /** What delete changes: the field is gone and later ordinals shift down by one. */
  lemma DropFinds(fs: seq<Field>, n: nat, name: seq<byte>)
    requires FieldsOk(fs) && n < |fs|
    ensures var g, m := DropField(fs, n), Find(fs, name);
      && |g| == |fs| - 1
      && (m == n || m == |fs| ==> Find(g, name) == |g|)
      && (m < n ==> Find(g, name) == m && g[m] == fs[m])
      && (n < m < |fs| ==> Find(g, name) == m - 1 && g[m - 1] == fs[m])
  {
    hide FieldsOk;
    var g, m := DropField(fs, n), Find(fs, name);
    DropFieldOk(fs, n);
    if m == |fs| || m == n {
      DropGone(fs, n, name);
    } else {
      FindsEach(g, if m < n then m else m - 1, name);
    }
  }

  // ----- the encoding

  lemma {:induction false} EncodeAppends(a: seq<Field>, b: seq<Field>)
    ensures EncodeFields(a + b) == EncodeFields(a) + EncodeFields(b)
  {
    if a != [] {
      assert (a + b)[1..] == a[1..] + b;
      EncodeAppends(a[1..], b);
    } else {
      assert a + b == b;
    }
  }

  lemma EncodeOne(f: Field)
    ensures EncodeFields([f]) == EncodeField(f)
  {
    assert EncodeFields([f]) == EncodeField(f) + EncodeFields([]);
  }

  /** Where field n lies in the packed table. */
  lemma FieldAt(fs: seq<Field>, n: nat)
    requires n < |fs|
    ensures EncodeFields(fs) == EncodeFields(fs[..n]) + EncodeField(fs[n]) + EncodeFields(fs[n + 1..])
    ensures |EncodeFields(fs[..n + 1])| == |EncodeFields(fs[..n])| + |EncodeField(fs[n])|
  {
    hide EncodeField;
    assert fs == fs[..n] + [fs[n]] + fs[n + 1..];
    EncodeAppends(fs[..n] + [fs[n]], fs[n + 1..]);
    EncodeAppends(fs[..n], [fs[n]]);
    EncodeOne(fs[n]);
    assert fs[..n + 1] == fs[..n] + [fs[n]];
  }

  /** Replacing one field's bytes replaces the field. */
  lemma ReplaceEncodes(fs: seq<Field>, n: nat, f: Field)
    requires n < |fs|
    ensures var off, len := |EncodeFields(fs[..n])|, |EncodeField(fs[n])|;
      off + len <= |EncodeFields(fs)| && Replace(EncodeFields(fs), off, len, EncodeField(f)) == EncodeFields(fs[n := f])
  {
    hide EncodeField, Replace;
    FieldAt(fs, n);
    FieldAt(fs[n := f], n);
    assert fs[n := f][..n] == fs[..n] && fs[n := f][n + 1..] == fs[n + 1..];
    ReplaceMiddle(EncodeFields(fs[..n]), EncodeField(fs[n]), EncodeFields(fs[n + 1..]), EncodeField(f));
  }

  lemma DropEncodes(fs: seq<Field>, n: nat)
    requires n < |fs|
    ensures var off, len := |EncodeFields(fs[..n])|, |EncodeField(fs[n])|;
      off + len <= |EncodeFields(fs)| && Replace(EncodeFields(fs), off, len, []) == EncodeFields(DropField(fs, n))
  {
    hide EncodeField, Replace;
    FieldAt(fs, n);
    EncodeAppends(fs[..n], fs[n + 1..]);
    ReplaceMiddle(EncodeFields(fs[..n]), EncodeField(fs[n]), EncodeFields(fs[n + 1..]), []);
    assert EncodeFields(fs[..n]) + [] == EncodeFields(fs[..n]);
  }

  lemma AppendEncodes(fs: seq<Field>, f: Field)
    ensures Replace(EncodeFields(fs), |EncodeFields(fs)|, 0, EncodeField(f)) == EncodeFields(fs + [f])
  {
    hide EncodeField, Replace;
    EncodeAppends(fs, [f]);
    EncodeOne(f);
    ReplaceMiddle(EncodeFields(fs), [], [], EncodeField(f));
    assert EncodeFields(fs) + [] + [] == EncodeFields(fs);
    assert EncodeFields(fs) + EncodeField(f) + [] == EncodeFields(fs) + EncodeField(f);
  }

  function Sizes4(f: Field): seq<byte> {
    Encode16(|f.name| + 1) + Encode16(|f.value| + 1)
  }

  lemma EncodeFieldParts(f: Field, rest: seq<byte>)
    ensures EncodeField(f) + rest == Sizes4(f) + (f.name + [0] + (f.value + [0] + rest))
    ensures |EncodeField(f)| == 4 + |f.name| + 1 + |f.value| + 1 && |Sizes4(f)| == 4
  {}

  lemma SizesRead(f: Field, t: seq<byte>)
    requires FieldOk(f)
    ensures Decode16(Sizes4(f) + t) == |f.name| + 1 && Decode16((Sizes4(f) + t)[2..]) == |f.value| + 1
  {
    EncodeDecodes(|f.name| + 1);
    EncodeDecodes(|f.value| + 1);
    var v := Encode16(|f.value| + 1);
    assert (Sizes4(f) + t)[2..] == v + t;
  }

  /** What the accessors read at a field. */
  lemma FieldReads(f: Field, rest: seq<byte>)
    requires FieldOk(f)
    ensures var s, n := EncodeField(f) + rest, |f.name| + 1;
      && |s| >= 4 && Decode16(s) == n && Decode16(s[2..]) == |f.value| + 1 && |EncodeField(f)| == 4 + n + |f.value| + 1
      && s[4..] == f.name + [0] + (f.value + [0] + rest) && s[4 + n..] == f.value + [0] + rest
  {
    hide EncodeField, Sizes4, Decode16;
    var t, u := f.name + [0] + (f.value + [0] + rest), f.value + [0] + rest;
    EncodeFieldParts(f, rest);
    SizesRead(f, t);
    Ends(Sizes4(f), t);
    Ends(f.name + [0], u);
    Ends(Sizes4(f) + (f.name + [0]), u);
    assert Sizes4(f) + t == Sizes4(f) + (f.name + [0]) + u;
  }

  lemma Cancels(a: seq<byte>, s: seq<byte>, b: seq<byte>, t: seq<byte>)
    requires |a| == |b| && a + s == b + t
    ensures a == b && s == t
  {
    Ends(a, s);
    Ends(b, t);
    assert a == (a + s)[..|a|] && b == (b + t)[..|b|];
  }

  lemma SameParts(f: Field, g: Field, s: seq<byte>, t: seq<byte>)
    requires |f.name| == |g.name| && |f.value| == |g.value|
    requires f.name + [0] + (f.value + [0] + s) == g.name + [0] + (g.value + [0] + t)
    ensures f == g && s == t
  {
    Cancels(f.name + [0], f.value + [0] + s, g.name + [0], g.value + [0] + t);
    Cancels(f.name, [0], g.name, [0]);
    Cancels(f.value + [0], s, g.value + [0], t);
    Cancels(f.value, [0], g.value, [0]);
  }

  lemma FirstDetermined(f: Field, g: Field, s: seq<byte>, t: seq<byte>)
    requires FieldOk(f) && FieldOk(g) && EncodeField(f) + s == EncodeField(g) + t
    ensures f == g && s == t
  {
    hide EncodeField, Decode16;
    FieldReads(f, s);
    FieldReads(g, t);
    SameParts(f, g, s, t);
  }

  lemma TailOk(fs: seq<Field>)
    requires EachOk(fs) && fs != []
    ensures FieldOk(fs[0]) && EachOk(fs[1..])
  {
    assert fs[0] in fs;
    forall f | f in fs[1..] ensures FieldOk(f) {
      assert f in fs;
    }
  }

  lemma EncodeFirst(fs: seq<Field>, rest: seq<byte>)
    ensures fs == [] ==> EncodeFields(fs) + rest == rest
    ensures fs != [] ==> EncodeFields(fs) + rest == EncodeField(fs[0]) + (EncodeFields(fs[1..]) + rest)
  {
    hide EncodeField;
  }

  /** The bytes and the number of fields determine the table, and where it ends. */
  lemma {:induction false} TableDetermined(fs: seq<Field>, gs: seq<Field>, rest: seq<byte>, rest': seq<byte>)
    requires EachOk(fs) && EachOk(gs) && |fs| == |gs| && EncodeFields(fs) + rest == EncodeFields(gs) + rest'
    ensures fs == gs && rest == rest'
  {
    hide EncodeField, EncodeFields, FieldOk, EachOk;
    EncodeFirst(fs, rest);
    EncodeFirst(gs, rest');
    if fs != [] {
      TailOk(fs);
      TailOk(gs);
      FirstDetermined(fs[0], gs[0], EncodeFields(fs[1..]) + rest, EncodeFields(gs[1..]) + rest');
      TableDetermined(fs[1..], gs[1..], rest, rest');
      assert fs == [fs[0]] + fs[1..] && gs == [gs[0]] + gs[1..];
    }
  }

  // ----- writing a field into its resized region

  /** The bytes of a field whose name is stored as the given stem, terminator included if it has one. */
  function RawField(stem: seq<byte>, value: seq<byte>): seq<byte> {
    Encode16(|stem|) + Encode16(|value| + 1) + stem + value + [0]
  }

  /** The five writes of a put by name, in the order they are made. */
  function RawWrites(b: seq<byte>, p: nat, stem: seq<byte>, value: seq<byte>): seq<byte>
    requires p + 4 + |stem| + |value| + 1 <= |b|
  {
    var b1 := Patch(b, p, Encode16(|stem|));
    var b2 := Patch(b1, p + 4, stem);
    ValueWrites(b2, p, |stem|, value)
  }

  function FieldWrites(b: seq<byte>, p: nat, f: Field): seq<byte>
    requires p + |EncodeField(f)| <= |b|
  {
    RawWrites(b, p, f.name + [0], f.value)
  }

  /** The three writes of a value behind a name of ns bytes. */
  function ValueWrites(b: seq<byte>, p: nat, ns: nat, value: seq<byte>): seq<byte>
    requires p + 4 + ns + |value| + 1 <= |b|
  {
    var b1 := Patch(b, p + 2, Encode16(|value| + 1));
    var b2 := Patch(b1, p + 4 + ns, value);
    Patch(b2, p + 4 + ns + |value|, [0])
  }

  lemma ValueWritesIs(a: seq<byte>, n2: seq<byte>, v2: seq<byte>, name: seq<byte>, x: seq<byte>, z: seq<byte>,
          value: seq<byte>)
    requires |n2| == 2 && |v2| == 2 && |x| == |value| + 1
    ensures ValueWrites(a + n2 + v2 + name + x + z, |a|, |name|, value)
      == a + n2 + Encode16(|value| + 1) + name + value + [0] + z
  {
    hide Patch;
    var w, y, t := Encode16(|value| + 1), x[..|value|], x[|value|..];
    var b := a + n2 + v2 + name + x + z;
    assert b == (a + n2) + v2 + (name + x + z);
    PatchMiddle(a + n2, v2, name + x + z, w);
    var b1 := (a + n2) + w + (name + x + z);
    assert x == y + t;
    assert b1 == (a + n2 + w + name) + y + (t + z);
    PatchMiddle(a + n2 + w + name, y, t + z, value);
    var b2 := (a + n2 + w + name) + value + (t + z);
    assert b2 == (a + n2 + w + name + value) + t + z;
    PatchMiddle(a + n2 + w + name + value, t, z, [0]);
  }

  lemma RawWritesIs(a: seq<byte>, x: seq<byte>, z: seq<byte>, stem: seq<byte>, value: seq<byte>)
    requires |x| == |RawField(stem, value)|
    ensures RawWrites(a + x + z, |a|, stem, value) == a + RawField(stem, value) + z
  {
    hide Patch, ValueWrites, Encode16;
    var ns, n2 := |stem|, Encode16(|stem|);
    EncodeDecodes(ns);
    EncodeDecodes(|value| + 1);
    var x1, x2, x3, x4 := x[..2], x[2..4], x[4..4 + ns], x[4 + ns..];
    assert x == x1 + x2 + x3 + x4;
    assert a + x + z == a + x1 + (x2 + x3 + x4 + z);
    PatchMiddle(a, x1, x2 + x3 + x4 + z, n2);
    assert a + n2 + (x2 + x3 + x4 + z) == (a + n2 + x2) + x3 + (x4 + z);
    PatchMiddle(a + n2 + x2, x3, x4 + z, stem);
    assert (a + n2 + x2) + stem + (x4 + z) == a + n2 + x2 + stem + x4 + z;
    ValueWritesIs(a, n2, x2, stem, x4, z, value);
    RawIs(a, n2, Encode16(|value| + 1), stem, value, z);
  }

  lemma RawIs(a: seq<byte>, n2: seq<byte>, v2: seq<byte>, stem: seq<byte>, value: seq<byte>, z: seq<byte>)
    ensures a + n2 + v2 + stem + value + [0] + z == a + (n2 + v2 + stem + value + [0]) + z
  {
    assert a + (n2 + v2 + stem + value + [0]) == a + n2 + v2 + stem + value + [0];
  }

  lemma RawOfField(f: Field)
    ensures RawField(f.name + [0], f.value) == EncodeField(f)
  {
    var n2, v2 := Encode16(|f.name| + 1), Encode16(|f.value| + 1);
    assert n2 + v2 + (f.name + [0]) + f.value + [0] == n2 + v2 + f.name + [0] + f.value + [0];
  }

  lemma FieldIs(a: seq<byte>, f: Field, z: seq<byte>)
    ensures a + Encode16(|f.name| + 1) + Encode16(|f.value| + 1) + (f.name + [0]) + f.value + [0] + z ==
      a + EncodeField(f) + z
  {
    RawOfField(f);
    RawIs(a, Encode16(|f.name| + 1), Encode16(|f.value| + 1), f.name + [0], f.value, z);
  }

  lemma FieldWritesIs(a: seq<byte>, x: seq<byte>, z: seq<byte>, f: Field)
    requires |x| == |EncodeField(f)|
    ensures FieldWrites(a + x + z, |a|, f) == a + EncodeField(f) + z
  {
    hide RawField, RawWrites;
    RawOfField(f);
    RawWritesIs(a, x, z, f.name + [0], f.value);
  }

  /** Put by name: the resized region is written entirely. */
  lemma PutWrites(b: seq<byte>, p: nat, len: nat, f: Field)
    requires p + len <= |b|
    ensures var r := Resized(b, p, len, |EncodeField(f)|);
      p + |EncodeField(f)| <= |r| && FieldWrites(r, p, f) == Replace(b, p, len, EncodeField(f))
  {
    hide FieldWrites, EncodeField, Resized;
    var n := |EncodeField(f)|;
    var r := Resized(b, p, len, n);
    ResizedKeeps(b, p, len, n);
    var k := if len < n then len else n;
    assert r[..p] == r[..p + k][..p] && b[..p] == b[..p + k][..p];
    assert r == b[..p] + r[p..p + n] + b[p + len..];
    FieldWritesIs(b[..p], r[p..p + n], b[p + len..], f);
  }

  /** Put by ordinal: the name's bytes are never rewritten, yet the region becomes the new field. */
  lemma PutValueWrites(b: seq<byte>, p: nat, f: Field, value: seq<byte>)
    requires p + |EncodeField(f)| <= |b| && b[p..p + |EncodeField(f)|] == EncodeField(f)
    ensures var g := Field(f.name, value);
      var r := Resized(b, p, |EncodeField(f)|, |EncodeField(g)|);
      && p + 4 + |f.name| + 1 + |value| + 1 <= |r|
      && ValueWrites(r, p, |f.name| + 1, value) == Replace(b, p, |EncodeField(f)|, EncodeField(g))
  {
    hide ValueWrites, Resized, EncodeField;
    var g := Field(f.name, value);
    var len, n, ns := |EncodeField(f)|, |EncodeField(g)|, |f.name| + 1;
    EncodeFieldParts(f, []);
    EncodeFieldParts(g, []);
    var r := Resized(b, p, len, n);
    ResizedKeeps(b, p, len, n);
    var a, z, x := b[..p], b[p + len..], r[p + 4 + ns..p + n];
    NameKept(b, r, p, f, if len < n then len else n);
    var n2, v2, name := Encode16(ns), Encode16(|f.value| + 1), f.name + [0];
    assert r == r[..p + 4 + ns] + x + r[p + n..];
    assert a + (n2 + v2 + name) == a + n2 + v2 + name;
    ValueWritesIs(a, n2, v2, name, x, z, value);
    FieldIs(a, g, z);
  }

  lemma NameKept(b: seq<byte>, r: seq<byte>, p: nat, f: Field, k: nat)
    requires p + |EncodeField(f)| <= |b| && b[p..p + |EncodeField(f)|] == EncodeField(f)
    requires 4 + |f.name| + 1 <= k && p + k <= |b| && p + k <= |r| && r[..p + k] == b[..p + k] && |EncodeField(f)| >= k
    ensures r[..p + 4 + |f.name| + 1] == b[..p] + (Encode16(|f.name| + 1) + Encode16(|f.value| + 1) + (f.name + [0]))
  {
    var h, ns := Encode16(|f.name| + 1) + Encode16(|f.value| + 1) + (f.name + [0]), |f.name| + 1;
    assert EncodeField(f) == h + (f.value + [0]);
    assert r[..p + 4 + ns] == r[..p + k][..p + 4 + ns] && b[..p + 4 + ns] == b[..p + k][..p + 4 + ns];
    assert b[..p + 4 + ns] == b[..p] + b[p..p + |EncodeField(f)|][..4 + ns];
  }

  // ----- a name without its terminator

  lemma DecodeFront(a: seq<byte>, t: seq<byte>)
    requires |a| == 2
    ensures Decode16(a + t) == Decode16(a)
  {}

  /** A field's bytes have a zero where the size of its name says. */
  lemma TerminatorAt(g: Field, rest: seq<byte>)
    requires FieldOk(g)
    ensures var s := EncodeField(g) + rest;
      |s| >= 5 && |s| > 3 + Decode16(s) >= 4 && s[3 + Decode16(s)] == 0
  {
    hide EncodeField, Decode16;
    FieldReads(g, rest);
    var s := EncodeField(g) + rest;
    assert s[4..][|g.name|] == 0;
  }

  lemma StemEnd(n2: seq<byte>, v2: seq<byte>, stem: seq<byte>, z: seq<byte>)
    requires |n2| == 2 && |v2| == 2 && stem != []
    ensures (n2 + v2 + stem + z)[3 + |stem|] == stem[|stem| - 1]
  {}

  /** The bytes of a field without terminator do not. */
  lemma NoTerminator(stem: seq<byte>, value: seq<byte>)
    requires NoNul(stem) && |stem| <= MAX_NSIZE
    ensures var s := RawField(stem, value);
      |s| >= 5 && Decode16(s) == |stem| && (stem != [] ==> |s| > 3 + |stem| && s[3 + |stem|] != 0)
  {
    hide Encode16, Decode16;
    EncodeDecodes(|stem|);
    EncodeDecodes(|value| + 1);
    var n2, v2 := Encode16(|stem|), Encode16(|value| + 1);
    assert RawField(stem, value) == n2 + (v2 + stem + value + [0]);
    DecodeFront(n2, v2 + stem + value + [0]);
    if stem != [] {
      assert n2 + v2 + stem + (value + [0]) == RawField(stem, value);
      StemEnd(n2, v2, stem, value + [0]);
      assert stem[|stem| - 1] in stem;
    }
  }

  lemma StemRead(stem: seq<byte>, value: seq<byte>, g: Field, rest: seq<byte>)
    requires FieldOk(g) && NoNul(stem) && |stem| <= MAX_NSIZE
    ensures EncodeField(g) + rest != RawField(stem, value)
  {
    hide EncodeField, RawField, Decode16;
    TerminatorAt(g, rest);
    NoTerminator(stem, value);
  }

  /** No table of fields has the bytes of a table followed by a field whose stored name has no terminator. */
  lemma {:induction false} NoTable(fs: seq<Field>, stem: seq<byte>, value: seq<byte>, gs: seq<Field>)
    requires EachOk(fs) && EachOk(gs) && NoNul(stem) && |stem| <= MAX_NSIZE
    ensures EncodeFields(gs) != EncodeFields(fs) + RawField(stem, value)
  {
    hide EncodeField, RawField;
    RawLength(stem, value);
    if gs != [] {
      TailOk(gs);
      if fs == [] {
        assert EncodeFields(fs) + RawField(stem, value) == RawField(stem, value);
        StemRead(stem, value, gs[0], EncodeFields(gs[1..]));
      } else {
        TailOk(fs);
        NoTable(fs[1..], stem, value, gs[1..]);
        FirstApart(fs[0], gs[0], EncodeFields(fs[1..]) + RawField(stem, value), EncodeFields(gs[1..]));
        assert EncodeField(fs[0]) + (EncodeFields(fs[1..]) + RawField(stem, value)) ==
          EncodeFields(fs) + RawField(stem, value);
      }
    }
  }

  lemma FirstApart(f: Field, g: Field, s: seq<byte>, t: seq<byte>)
    requires FieldOk(f) && FieldOk(g) && s != t
    ensures EncodeField(f) + s != EncodeField(g) + t
  {
    hide EncodeField;
    if EncodeField(f) + s == EncodeField(g) + t {
      FirstDetermined(f, g, s, t);
    }
  }

  lemma RawLength(stem: seq<byte>, value: seq<byte>)
    ensures |RawField(stem, value)| == 4 + |stem| + |value| + 1
  {}

  lemma NameLonger(f: Field, name: seq<byte>)
    requires FieldOk(f) && MAX_NSIZE <= |name|
    ensures !Alike(f.name, name)
  {}

  /** A name too long for the table is in none. */
  lemma LongNameMissing(fs: seq<Field>, name: seq<byte>)
    requires EachOk(fs) && MAX_NSIZE <= |name|
    ensures Find(fs, name) == |fs|
  {
    var n := Find(fs, name);
    if n < |fs| {
      assert fs[n] in fs;
      NameLonger(fs[n], name);
    }
  }
}
