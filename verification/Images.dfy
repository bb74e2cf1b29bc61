/** The bytes of an archive: leader, packed field table, body. */
module Images {
  import opened Words
  import opened Bytes
  import opened FieldTables

  const LEADER_SIZE: int := 16
  const PROTO: int := 3

  function Magic(): seq<byte> {
    [109, 97, 114, 0]
  }

  datatype Info = Info(proto: int, fields: int, hsize: int, bsize: int)

  /** The leader as it is written: each count and size keeps only the bits its word has. */
  function Leader(i: Info): seq<byte> {
    Magic() + Encode16(i.proto) + Encode16(i.fields) + Encode32(i.hsize) + Encode32(i.bsize)
  }

  /** The leader as it is read, or nothing when the magic number is wrong. */
  function ReadInfo(b: seq<byte>): (r: (bool, Info))
    requires |b| >= LEADER_SIZE
  {
    (b[..4] == Magic(), Info(Decode16(b[4..]), Decode16(b[6..]), Decode32(b[8..]), Decode32(b[12..])))
  }

  lemma LeaderParts(i: Info, rest: seq<byte>)
    ensures var s := Leader(i) + rest;
      && |Leader(i)| == LEADER_SIZE && s[..4] == Magic()
      && s[4..] == Encode16(i.proto) + (Encode16(i.fields) + Encode32(i.hsize) + Encode32(i.bsize) + rest)
      && s[6..] == Encode16(i.fields) + (Encode32(i.hsize) + Encode32(i.bsize) + rest)
      && s[8..] == Encode32(i.hsize) + (Encode32(i.bsize) + rest)
      && s[12..] == Encode32(i.bsize) + rest
  {
    var m, p, f, h, b := Magic(), Encode16(i.proto), Encode16(i.fields), Encode32(i.hsize), Encode32(i.bsize);
    var s := Leader(i) + rest;
    assert s == m + (p + (f + h + b + rest));
    assert s == (m + p) + (f + (h + b + rest));
    assert s == (m + p + f) + (h + (b + rest));
    assert s == (m + p + f + h) + (b + rest);
    Ends(m, p + (f + h + b + rest));
    Ends(m + p, f + (h + b + rest));
    Ends(m + p + f, h + (b + rest));
    Ends(m + p + f + h, b + rest);
  }

  lemma Decodes16(n: int, t: seq<byte>)
    ensures Decode16(Encode16(n) + t) == n % TWO16
  {
    EncodeDecodes(n);
  }

  lemma Decodes32(n: int, t: seq<byte>)
    ensures Decode32(Encode32(n) + t) == n % TWO32
  {
    EncodeDecodes(n);
    DecodesApart(Encode32(n), t);
  }

  /** Writing the leader and reading it back keeps the counts and sizes modulo their words. */
  lemma LeaderReadsBack(i: Info, rest: seq<byte>)
    ensures |Leader(i)| == LEADER_SIZE
    ensures ReadInfo(Leader(i) + rest) ==
      (true, Info(i.proto % TWO16, i.fields % TWO16, i.hsize % TWO32, i.bsize % TWO32))
  {
    hide Leader, Encode16, Encode32, Decode16, Decode32;
    LeaderParts(i, rest);
    Decodes16(i.proto, Encode16(i.fields) + Encode32(i.hsize) + Encode32(i.bsize) + rest);
    Decodes16(i.fields, Encode32(i.hsize) + Encode32(i.bsize) + rest);
    Decodes32(i.hsize, Encode32(i.bsize) + rest);
    Decodes32(i.bsize, rest);
  }

  /** What the cached info of an archive with this table and body is. */
  function InfoOf(fs: seq<Field>, body: seq<byte>): Info {
    Info(PROTO, |fs|, |EncodeFields(fs)|, |body|)
  }

  function Image(fs: seq<Field>, body: seq<byte>): seq<byte> {
    Leader(InfoOf(fs, body)) + EncodeFields(fs) + body
  }

  ghost predicate Fits(fs: seq<Field>, body: seq<byte>) {
    LEADER_SIZE + |EncodeFields(fs)| + |body| < TWO32
  }

  /** The leader of an image gives back its counts and sizes if and only if the fields can be counted in 16 bits. */
  lemma ImageReadsBack(fs: seq<Field>, body: seq<byte>)
    requires Fits(fs, body)
    ensures |Image(fs, body)| >= LEADER_SIZE && ReadInfo(Image(fs, body)).0
    ensures ReadInfo(Image(fs, body)).1 == InfoOf(fs, body).(fields := |fs| % TWO16)
    ensures ReadInfo(Image(fs, body)).1 == InfoOf(fs, body) <==> |fs| < TWO16
  {
    hide Leader, ReadInfo;
    var i := InfoOf(fs, body);
    LeaderReadsBack(i, EncodeFields(fs) + body);
    assert Image(fs, body) == Leader(i) + (EncodeFields(fs) + body);
    assert i.proto % TWO16 == i.proto && i.hsize % TWO32 == i.hsize && i.bsize % TWO32 == i.bsize;
  }

  /** An image determines its table and its body. */
  lemma ImageDetermines(fs: seq<Field>, body: seq<byte>, gs: seq<Field>, body': seq<byte>)
    requires EachOk(fs) && EachOk(gs) && Fits(fs, body) && Fits(gs, body') && |fs| < TWO16 && |gs| < TWO16
    requires Image(fs, body) == Image(gs, body')
    ensures fs == gs && body == body'
  {
    hide Leader, ReadInfo, EncodeFields, EachOk;
    ImageReadsBack(fs, body);
    ImageReadsBack(gs, body');
    LeaderReadsBack(InfoOf(fs, body), []);
    LeaderReadsBack(InfoOf(gs, body'), []);
    Ends(Leader(InfoOf(fs, body)), EncodeFields(fs) + body);
    Ends(Leader(InfoOf(gs, body')), EncodeFields(gs) + body');
    assert Image(fs, body) == Leader(InfoOf(fs, body)) + (EncodeFields(fs) + body);
    assert Image(gs, body') == Leader(InfoOf(gs, body')) + (EncodeFields(gs) + body');
    TableDetermined(fs, gs, body, body');
  }

  // ----- reading fields in place

  function NSizeAt(b: seq<byte>, p: nat): int
    requires p + 4 <= |b|
  {
    Decode16(b[p..])
  }

  function VSizeAt(b: seq<byte>, p: nat): int
    requires p + 4 <= |b|
  {
    Decode16(b[p + 2..])
  }

  function FieldSizeAt(b: seq<byte>, p: nat): int
    requires p + 4 <= |b|
  {
    4 + NSizeAt(b, p) + VSizeAt(b, p)
  }

  function Position(fs: seq<Field>, n: nat): nat
    requires n <= |fs|
  {
    LEADER_SIZE + |EncodeFields(fs[..n])|
  }

  /** What the accessors read of field n in the buffer. */
  lemma FieldIn(b: seq<byte>, lead: seq<byte>, fs: seq<Field>, body: seq<byte>, n: nat)
    requires b == lead + EncodeFields(fs) + body && |lead| == LEADER_SIZE && EachOk(fs) && n < |fs|
    ensures var p, f := Position(fs, n), fs[n];
      && p + 4 <= |b| && NSizeAt(b, p) == |f.name| + 1 && VSizeAt(b, p) == |f.value| + 1
      && FieldSizeAt(b, p) == |EncodeField(f)| && p + |EncodeField(f)| + |EncodeFields(fs[n + 1..])| + |body| == |b|
      && b[p + 4..] == f.name + [0] + (f.value + [0] + (EncodeFields(fs[n + 1..]) + body))
      && b[p + 4 + |f.name| + 1..] == f.value + [0] + (EncodeFields(fs[n + 1..]) + body)
      && Position(fs, n + 1) == p + |EncodeField(f)| && |EncodeField(f)| == 4 + |f.name| + 1 + |f.value| + 1
  {
    hide EncodeField, EncodeFields, Decode16;
    FieldAt(fs, n);
    assert fs[n] in fs;
    var a, e, z := lead + EncodeFields(fs[..n]), EncodeField(fs[n]), EncodeFields(fs[n + 1..]) + body;
    FieldReads(fs[n], z);
    assert b == a + (e + z);
    Ends(a, e + z);
    Slices(b, e + z, Position(fs, n), 2, 4, 4 + |fs[n].name| + 1);
  }

  lemma Slices(b: seq<byte>, s: seq<byte>, p: nat, i: nat, j: nat, k: nat)
    requires p <= |b| && b[p..] == s && i <= |s| && j <= |s| && k <= |s|
    ensures b[p + i..] == s[i..] && b[p + j..] == s[j..] && b[p + k..] == s[k..]
  {}

  /** Replacing within the table leaves leader and body. */
  lemma ReplaceInside(lead: seq<byte>, e: seq<byte>, body: seq<byte>, off: nat, len: nat, s: seq<byte>)
    requires off + len <= |e|
    ensures |lead| + off + len <= |lead + e + body|
    ensures Replace(lead + e + body, |lead| + off, len, s) == lead + Replace(e, off, len, s) + body
  {
    var a, m, z := e[..off], e[off..off + len], e[off + len..];
    assert e == a + m + z;
    hide Replace;
    ReplaceBetween(lead, a, m, z, body, s);
  }

  lemma ReplaceBetween(l: seq<byte>, a: seq<byte>, m: seq<byte>, z: seq<byte>, b: seq<byte>, s: seq<byte>)
    ensures Replace(l + (a + m + z) + b, |l| + |a|, |m|, s) == l + Replace(a + m + z, |a|, |m|, s) + b
  {
    hide Replace;
    ReplaceMiddle(a, m, z, s);
    ReplaceMiddle(l + a, m, z + b, s);
    Regroup(l, a, m, z, b);
    Regroup(l, a, s, z, b);
  }

  lemma Regroup(l: seq<byte>, a: seq<byte>, m: seq<byte>, z: seq<byte>, b: seq<byte>)
    ensures l + (a + m + z) + b == (l + a) + m + (z + b)
  {}

  // ----- the format, byte by byte

  /** The magic number, protocol, count and sizes in their places. */
  ghost predicate LeaderSays(b: seq<byte>, proto: int, fields: int, hsize: int, bsize: int) {
    && |b| >= 16 && Octet(b, 0) == 109 && Octet(b, 1) == 97 && Octet(b, 2) == 114 && Octet(b, 3) == 0
    && Number16(b, 4) == proto && Number16(b, 6) == fields && Number32(b, 8) == hsize && Number32(b, 12) == bsize
  }

  /** Where field n starts. */
  ghost function Start(fs: seq<Field>, n: nat): nat
    requires n <= |fs|
  {
    if n == 0 then 16 else Start(fs, n - 1) + |fs[n - 1].name| + |fs[n - 1].value| + 6
  }

  /** Field f at a place: two sizes that count a terminator, the name, a zero, the value, a zero. */
  ghost predicate FieldBytes(b: seq<byte>, p: nat, f: Field) {
    var v := p + 4 + |f.name| + 1;
    && v + |f.value| + 1 <= |b|
    && Number16(b, p) == |f.name| + 1 && Number16(b, p + 2) == |f.value| + 1
    && b[p + 4..v - 1] == f.name && b[v - 1] == 0 && b[v..v + |f.value|] == f.value && b[v + |f.value|] == 0
  }

  ghost predicate FieldStored(b: seq<byte>, fs: seq<Field>, n: nat) {
    n < |fs| ==> FieldBytes(b, Start(fs, n), fs[n])
  }

  /** Every byte of an archive: the leader, the fields one behind the other, the body. */
  ghost predicate ImageSays(b: seq<byte>, fs: seq<Field>, body: seq<byte>) {
    var e := Start(fs, |fs|);
    && LeaderSays(b, 3, |fs| % 0x1_0000, e - 16, |body|)
    && (forall n: nat {:trigger FieldStored(b, fs, n)} :: FieldStored(b, fs, n))
    && |b| == e + |body| && b[e..] == body
  }

  lemma DecodeIs(s: seq<byte>, p: nat)
    ensures p + 2 <= |s| ==> Decode16(s[p..]) == Number16(s, p)
    ensures p + 4 <= |s| ==> Decode32(s[p..]) == Number32(s, p)
  {
    if p + 4 <= |s| {
      assert s[p..][2..] == s[p + 2..];
    }
  }

  /** What is read as a leader, by place. */
  lemma LeaderRead(b: seq<byte>)
    requires |b| >= LEADER_SIZE
    ensures var i := ReadInfo(b).1;
      && i == Info(Number16(b, 4), Number16(b, 6), Number32(b, 8), Number32(b, 12))
      && (ReadInfo(b).0 <==> LeaderSays(b, i.proto, i.fields, i.hsize, i.bsize))
  {
    hide Decode16, Decode32, Number16, Number32;
    DecodeIs(b, 4);
    DecodeIs(b, 6);
    DecodeIs(b, 8);
    DecodeIs(b, 12);
    MagicRead(b);
  }

  /** A leader says, in its places, what it was made of. */
  lemma LeaderWritten(i: Info)
    requires 0 <= i.proto < TWO16 && 0 <= i.hsize < TWO32 && 0 <= i.bsize < TWO32
    ensures LeaderSays(Leader(i), i.proto, i.fields % TWO16, i.hsize, i.bsize)
  {
    hide Leader, ReadInfo, LeaderSays;
    LeaderReadsBack(i, []);
    assert Leader(i) + [] == Leader(i);
    LeaderRead(Leader(i));
  }

  lemma MagicRead(b: seq<byte>)
    requires |b| >= 4
    ensures b[..4] == Magic() <==> Octet(b, 0) == 109 && Octet(b, 1) == 97 && Octet(b, 2) == 114 && Octet(b, 3) == 0
  {
    assert b[..4] == [b[0], b[1], b[2], b[3]];
  }

  lemma {:induction false} StartIs(b: seq<byte>, lead: seq<byte>, fs: seq<Field>, body: seq<byte>, n: nat)
    requires b == lead + EncodeFields(fs) + body && |lead| == LEADER_SIZE && EachOk(fs) && n <= |fs|
    ensures Start(fs, n) == Position(fs, n)
  {
    hide EncodeField, EncodeFields;
    if n > 0 {
      StartIs(b, lead, fs, body, n - 1);
      FieldIn(b, lead, fs, body, n - 1);
    } else {
      NoFields(fs);
    }
  }

  lemma NoFields(fs: seq<Field>)
    ensures Position(fs, 0) == LEADER_SIZE
  {}

  lemma FieldStays(b: seq<byte>, lead: seq<byte>, fs: seq<Field>, body: seq<byte>, n: nat)
    requires b == lead + EncodeFields(fs) + body && |lead| == LEADER_SIZE && EachOk(fs) && n < |fs|
    ensures FieldBytes(b, Position(fs, n), fs[n])
  {
    hide EncodeField, EncodeFields, NSizeAt, VSizeAt, FieldSizeAt, FieldBytes, Position;
    FieldIn(b, lead, fs, body, n);
    FieldFromReads(b, Position(fs, n), fs[n], EncodeFields(fs[n + 1..]) + body);
  }

  lemma FieldFromReads(b: seq<byte>, p: nat, f: Field, rest: seq<byte>)
    requires p + 4 + |f.name| + 1 <= |b| && NSizeAt(b, p) == |f.name| + 1 && VSizeAt(b, p) == |f.value| + 1
    requires b[p + 4..] == f.name + [0] + (f.value + [0] + rest)
    requires b[p + 4 + |f.name| + 1..] == f.value + [0] + rest
    ensures FieldBytes(b, p, f)
  {
    hide Decode16, Number16;
    DecodeIs(b, p);
    DecodeIs(b, p + 2);
    NameThenValue(b, p + 4, f, rest);
  }

  lemma NameThenValue(b: seq<byte>, p: nat, f: Field, rest: seq<byte>)
    requires p + |f.name| + 1 <= |b| && b[p..] == f.name + [0] + (f.value + [0] + rest)
    requires b[p + |f.name| + 1..] == f.value + [0] + rest
    ensures var v := p + |f.name| + 1;
      && v + |f.value| + 1 <= |b|
      && b[p..v - 1] == f.name && b[v - 1] == 0 && b[v..v + |f.value|] == f.value && b[v + |f.value|] == 0
  {
    ZeroEnded(b, p, f.name, f.value + [0] + rest);
    ZeroEnded(b, p + |f.name| + 1, f.value, rest);
  }

  lemma ZeroEnded(b: seq<byte>, p: nat, s: seq<byte>, t: seq<byte>)
    requires p <= |b| && b[p..] == s + [0] + t
    ensures p + |s| < |b| && b[p..p + |s|] == s && b[p + |s|] == 0
  {
    assert s + [0] + t == s + ([0] + t);
    SliceIs(b, p, s, [0] + t);
  }

  lemma SliceIs(b: seq<byte>, p: nat, s: seq<byte>, rest: seq<byte>)
    requires p <= |b| && rest != []
    ensures b[p..] == s + rest ==> p + |s| < |b| && b[p..p + |s|] == s && b[p + |s|] == rest[0]
  {
    if b[p..] == s + rest {
      assert b[p..p + |s|] == b[p..][..|s|];
      assert b[p + |s|] == b[p..][|s|];
    }
  }

  /** The image of an archive, byte by byte. */
  lemma ImageBytes(fs: seq<Field>, body: seq<byte>)
    requires EachOk(fs) && Fits(fs, body)
    ensures ImageSays(Image(fs, body), fs, body)
  {
    hide EncodeField, EncodeFields, ReadInfo, LeaderSays, FieldBytes, EachOk, Position;
    var b, lead := Image(fs, body), Leader(InfoOf(fs, body));
    ImageReadsBack(fs, body);
    LeaderRead(b);
    LeaderReadsBack(InfoOf(fs, body), []);
    forall n: nat ensures FieldStored(b, fs, n) {
      if n < |fs| {
        StartIs(b, lead, fs, body, n);
        FieldStays(b, lead, fs, body, n);
      }
    }
    StartIs(b, lead, fs, body, |fs|);
    LastPosition(fs);
    Ends(lead + EncodeFields(fs), body);
  }

  lemma LastPosition(fs: seq<Field>)
    ensures Position(fs, |fs|) == LEADER_SIZE + |EncodeFields(fs)|
  {
    assert fs[..|fs|] == fs;
  }

  // ----- where the 16 bits run out

  /**
   * The size test of a put, on the incremented size: it rejects what 16 bits cannot hold, except the one size that
   * wraps to nothing.
   */
  lemma ValueLimit(size: int)
    requires 0 <= size < TWO32
    ensures MAX_VSIZE < (size + 1) % TWO32 <==> MAX_VSIZE < size + 1 && size != TWO32 - 1
  {}

  /** The incremented size of a name wraps to one that 16 bits can hold. */
  predicate NameSlips(len: nat) {
    TWO32 <= len + 1 && (len + 1) % TWO32 <= MAX_NSIZE
  }

  /** The size test on names, on the incremented size, accepts a name it should reject if and only if the size slips. */
  lemma NameLimit(len: nat)
    ensures (len + 1) % TWO32 <= MAX_NSIZE && MAX_NSIZE < len + 1 <==> NameSlips(len)
    ensures len + 1 <= MAX_NSIZE ==> (len + 1) % TWO32 == len + 1
    ensures NameSlips(TWO32 - 1) && (TWO32 - 1 + 1) % TWO32 == 0
  {}

  // ----- sizes in 32 bits

  /**
   * The end of a write, and the total size after a region of len bytes became size bytes, as unsigned sums give them.
   */
  function WrappedEnd(o: int, len: int): int {
    (o + len) % TWO32
  }

  function WrappedTotal(total: int, len: int, size: int): int {
    (total + (size - len) % TWO32) % TWO32
  }

  function Larger(a: int, b: int): int {
    if a < b then b else a
  }

  lemma EndWraps(o: int, len: int)
    requires 0 <= o < TWO32 && 0 <= len < TWO32
    ensures WrappedEnd(o, len) == if o + len < TWO32 then o + len else o + len - TWO32
  {}

  lemma TotalWraps(total: int, len: int, size: int)
    requires 0 <= len <= total < TWO32 && 0 <= size < TWO32
    ensures var t := total - len + size;
      && WrappedTotal(total, len, size) == (if t < TWO32 then t else t - TWO32)
      && (TWO32 <= t ==> t - TWO32 < total)
  {
    var d := (size - len) % TWO32;
    assert d == if len <= size then size - len else size - len + TWO32;
  }

  lemma Within32(x: int)
    ensures 0 <= x < TWO32 ==> x % TWO32 == x
  {}

  /**
   * The sizes computed for a write of len bytes at o are those of a byte file if and only if the archive needs less
   * than 2^32 bytes.
   */
  lemma SizesExact(hsize: int, bsize: int, o: int, len: int)
    requires 0 <= hsize && 0 <= bsize && LEADER_SIZE + hsize + bsize < TWO32 && 0 <= o < TWO32 && 0 <= len < TWO32
    ensures var end := WrappedEnd(o, len);
      && end == o + len
      && WrappedTotal(LEADER_SIZE + hsize + bsize, bsize, Larger(bsize, end)) ==
         LEADER_SIZE + hsize + Larger(bsize, o + len)
      <==> LEADER_SIZE + hsize + Larger(bsize, o + len) < TWO32
  {
    EndWraps(o, len);
    TotalWraps(LEADER_SIZE + hsize + bsize, bsize, Larger(bsize, WrappedEnd(o, len)));
  }

  /**
   * Two bytes written at the last 32-bit offset end at 1; an empty archive truncated to 2^32 - 1 bytes gets a buffer
   * of 15.
   */
  lemma SizesRunOut()
    ensures WrappedEnd(TWO32 - 1, 2) == 1 && WrappedTotal(LEADER_SIZE, 0, TWO32 - 1) == 15
  {}

  function NumberName(i: nat): seq<byte> {
    [128 + i / 4096 % 64, 128 + i / 64 % 64, 128 + i % 64]
  }

  function Numbered(n: nat): seq<Field> {
    if n == 0 then [] else Numbered(n - 1) + [Field(NumberName(n - 1), [])]
  }

  lemma {:induction false} NumberedIs(n: nat, i: nat)
    ensures |Numbered(n)| == n && |EncodeFields(Numbered(n))| == 9 * n
    ensures i < n ==> Numbered(n)[i] == Field(NumberName(i), [])
  {
    if n > 0 {
      NumberedIs(n - 1, i);
      var f := Field(NumberName(n - 1), []);
      EncodeAppends(Numbered(n - 1), [f]);
      EncodeOne(f);
      EncodeFieldParts(f, []);
    }
  }

  lemma SameDigits(i: nat, j: nat)
    requires i < 0x4_0000 && j < 0x4_0000 && NumberName(i) == NumberName(j)
    ensures i == j
  {
    Digits(i);
    Digits(j);
    var s, t := NumberName(i), NumberName(j);
    assert s[0] == t[0] && s[1] == t[1] && s[2] == t[2];
  }

  lemma NamesDiffer(i: nat, j: nat)
    requires i < 0x4_0000 && j < 0x4_0000
    ensures NoNul(NumberName(i)) && (Alike(NumberName(i), NumberName(j)) ==> i == j)
  {
    var s, t := NumberName(i), NumberName(j);
    if Alike(s, t) {
      assert AlikeAt(s, t, 0) && AlikeAt(s, t, 1) && AlikeAt(s, t, 2);
      SameDigits(i, j);
    }
  }

  lemma Digits(i: nat)
    requires i < 0x4_0000
    ensures i == 4096 * (i / 4096 % 64) + 64 * (i / 64 % 64) + i % 64
  {
    assert i / 4096 == i / 64 / 64;
  }

  /** A well-formed table of 65536 fields: its image reads back as one with no fields. */
  lemma CountRunsOut()
    ensures var fs := Numbered(TWO16);
      FieldsOk(fs) && Fits(fs, []) && |Image(fs, [])| >= LEADER_SIZE && ReadInfo(Image(fs, [])).1.fields == 0
  {
    var fs := Numbered(TWO16);
    NumberedIs(TWO16, 0);
    forall f | f in fs ensures FieldOk(f) {
      var i :| 0 <= i < |fs| && fs[i] == f;
      NumberedIs(TWO16, i);
      NamesDiffer(i, if i == 0 then 1 else 0);
    }
    forall i, j ensures DistinctAt(fs, i, j) {
      if 0 <= i < |fs| && 0 <= j < |fs| && i != j {
        NumberedIs(TWO16, i);
        NumberedIs(TWO16, j);
        NamesDiffer(i, j);
      }
    }
    ImageReadsBack(fs, []);
  }
}
