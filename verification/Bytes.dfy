/**
 * Byte sequences: big-endian integers, names compared without case, and the region primitives of an archive's buffer.
 */
module Bytes {
  import opened Words

  type byte = x: int | 0 <= x < 256

  // ----- integers

  function Encode16(n: int): seq<byte> {
    [n / 256 % 256, n % 256]
  }

  function Decode16(s: seq<byte>): int
    requires |s| >= 2
  {
    var hi: int, lo: int := s[0], s[1];
    256 * hi + lo
  }

  function Encode32(n: int): seq<byte> {
    Encode16(n / TWO16) + Encode16(n)
  }

  function Decode32(s: seq<byte>): int
    requires |s| >= 4
  {
    TWO16 * Decode16(s) + Decode16(s[2..])
  }

  /** Encoding keeps the low 16 or 32 bits. */
  lemma EncodeDecodes(n: int)
    ensures Decode16(Encode16(n)) == n % TWO16 && |Encode16(n)| == 2
    ensures Decode32(Encode32(n)) == n % TWO32 && |Encode32(n)| == 4
  {
    Low16(n);
    Low16(n / TWO16);
    assert Encode32(n)[2..] == Encode16(n);
    Halves(n);
  }

  function Octet(s: seq<byte>, i: nat): int {
    if i < |s| then s[i] else 0
  }

  /** The number that two or four bytes at a place stand for, the most significant first. */
  function Number16(s: seq<byte>, p: nat): int {
    256 * Octet(s, p) + Octet(s, p + 1)
  }

  function Number32(s: seq<byte>, p: nat): int {
    0x100_0000 * Octet(s, p) + 0x1_0000 * Octet(s, p + 1) + 256 * Octet(s, p + 2) + Octet(s, p + 3)
  }

  /** The most significant byte comes first. */
  lemma EncodePlaces(n: int)
    ensures var s := Encode16(n); |s| == 2 && 256 * Octet(s, 0) + Octet(s, 1) == n % 0x1_0000
    ensures var s := Encode32(n);
      |s| == 4 && 0x100_0000 * Octet(s, 0) + 0x1_0000 * Octet(s, 1) + 256 * Octet(s, 2) + Octet(s, 3) ==
        n % 0x1_0000_0000
  {
    Low16(n);
    Low16(n / TWO16);
    Halves(n);
  }

  lemma Low16(n: int)
    ensures 256 * (n / 256 % 256) + n % 256 == n % TWO16
  {
    var q, r := n / TWO16, n % TWO16;
    assert n == TWO16 * q + r;
    assert n / 256 == 256 * q + r / 256;
  }

  lemma Halves(n: int)
    ensures TWO16 * (n / TWO16 % TWO16) + n % TWO16 == n % TWO32
  {
    var q, r := n / TWO32, n % TWO32;
    assert n == TWO32 * q + r;
    assert n / TWO16 == TWO16 * q + r / TWO16;
  }

  lemma DecodesApart(s: seq<byte>, t: seq<byte>)
    requires |s| >= 4
    ensures Decode16(s + t) == Decode16(s) && Decode32(s + t) == Decode32(s)
  {
    assert (s + t)[2..] == s[2..] + t;
  }

  // ----- names

  function Lower(b: byte): byte {
    if 65 <= b <= 90 then b + 32 else b
  }

  /** The same byte, or the two cases of one letter. */
  predicate SameLetter(a: byte, b: byte) {
    a == b || (65 <= a <= 90 && b == a + 32) || (65 <= b <= 90 && a == b + 32)
  }

  predicate AlikeAt(a: seq<byte>, b: seq<byte>, i: int) {
    0 <= i < |a| && i < |b| ==> SameLetter(a[i], b[i])
  }

  /** The same name, but for the case of its letters. */
  ghost predicate Alike(a: seq<byte>, b: seq<byte>) {
    |a| == |b| && forall i {:trigger AlikeAt(a, b, i)} :: AlikeAt(a, b, i)
  }

  /** Lower-casing merges the two cases of each of the 26 letters, and nothing else. */
  lemma LowerMerges(a: byte, b: byte, k: nat)
    ensures k < 26 ==> Lower(65 + k) == Lower(97 + k)
    ensures Lower(a) == Lower(b) <==> SameLetter(a, b)
  {}

  lemma AlikeSelf(a: seq<byte>)
    ensures Alike(a, a)
  {
    forall i ensures AlikeAt(a, a, i) {}
  }

  lemma AlikeSwaps(a: seq<byte>, b: seq<byte>)
    ensures Alike(a, b) <==> Alike(b, a)
  {
    if Alike(a, b) || Alike(b, a) {
      forall i ensures AlikeAt(a, b, i) && AlikeAt(b, a, i) {
        assert AlikeAt(a, b, i) || AlikeAt(b, a, i);
      }
    }
  }

  lemma AlikeTrans(a: seq<byte>, b: seq<byte>, c: seq<byte>)
    requires Alike(a, b) && Alike(b, c)
    ensures Alike(a, c)
  {
    forall i ensures AlikeAt(a, c, i) {
      assert AlikeAt(a, b, i) && AlikeAt(b, c, i);
    }
  }

  lemma AlikeSplits(a: seq<byte>, b: seq<byte>)
    requires a != [] && b != []
    ensures Alike(a, b) <==> SameLetter(a[0], b[0]) && Alike(a[1..], b[1..])
  {
    if Alike(a, b) {
      assert AlikeAt(a, b, 0);
      forall i ensures AlikeAt(a[1..], b[1..], i) {
        assert AlikeAt(a, b, i + 1);
      }
    } else if SameLetter(a[0], b[0]) && Alike(a[1..], b[1..]) {
      forall i ensures AlikeAt(a, b, i) {
        assert i > 0 ==> AlikeAt(a[1..], b[1..], i - 1);
      }
    }
  }

  /** Comparison of at most n bytes, ending early where both strings end; 0 for no difference. */
  function StrNCaseCmp(a: seq<byte>, b: seq<byte>, n: nat): int {
    if n == 0 || a == [] || b == [] then 0
    else if Lower(a[0]) != Lower(b[0]) then Lower(a[0]) - Lower(b[0])
    else if a[0] == 0 then 0
    else StrNCaseCmp(a[1..], b[1..], n - 1)
  }

  ghost predicate NoNul(s: seq<byte>) {
    0 !in s
  }

  /**
   * Comparing as many bytes as a stored name has, terminator included, tells whether the whole names have the same
   * length and differ, byte by byte, at most in the case of a letter.
   */
  lemma {:induction false} CompareIsAlike(a: seq<byte>, b: seq<byte>, rest: seq<byte>)
    requires NoNul(a) && NoNul(b)
    ensures StrNCaseCmp(a + [0], b + [0] + rest, |b| + 1) == 0 <==> Alike(a, b)
  {
    if a != [] && b != [] {
      hide Alike;
      assert (a + [0])[1..] == a[1..] + [0];
      assert (b + [0] + rest)[1..] == b[1..] + [0] + rest;
      CompareIsAlike(a[1..], b[1..], rest);
      assert a[0] in a && b[0] in b;
      AlikeSplits(a, b);
      LowerMerges(a[0], b[0], 0);
    } else if a != [] {
      assert a[0] in a;
    } else if b != [] {
      assert b[0] in b;
    } else {
      AlikeSelf(a);
    }
  }

  // ----- buffers

  function Zeros(n: nat): seq<byte> {
    seq(n, i => 0)
  }

  /** The bytes with the len bytes at off replaced by s. */
  function Replace(b: seq<byte>, off: nat, len: nat, s: seq<byte>): seq<byte>
    requires off + len <= |b|
  {
    b[..off] + s + b[off + len..]
  }

  /** Overwrite in place. */
  function Patch(b: seq<byte>, at: nat, s: seq<byte>): seq<byte>
    requires at + |s| <= |b|
  {
    b[..at] + s + b[at + |s|..]
  }

  /** A region resized: the buffer is grown with zeros or cut, and what followed the region is moved behind it. */
  function Resized(b: seq<byte>, off: nat, len: nat, size: nat): seq<byte>
    requires off + len <= |b|
  {
    (b + if size > len then Zeros(size - len) else [])[..off + size] + b[off + len..]
  }

  /** Resizing keeps everything before the region, the region's common prefix, and everything behind it. */
  lemma ResizedKeeps(b: seq<byte>, off: nat, len: nat, size: nat)
    requires off + len <= |b|
    ensures var r, k := Resized(b, off, len, size), if len < size then len else size;
      && |r| == |b| - len + size && r[..off + k] == b[..off + k] && r[off + size..] == b[off + len..]
  {}

  /** Filling a resized region entirely replaces it. */
  lemma ResizedFilled(b: seq<byte>, off: nat, len: nat, s: seq<byte>)
    requires off + len <= |b|
    ensures |Resized(b, off, len, |s|)| == |b| - len + |s|
    ensures Patch(Resized(b, off, len, |s|), off, s) == Replace(b, off, len, s)
  {
    ResizedKeeps(b, off, len, |s|);
    var r := Resized(b, off, len, |s|);
    assert r[..off] == b[..off] by {
      var k := if len < |s| then len else |s|;
      assert r[..off] == r[..off + k][..off] && b[..off] == b[..off + k][..off];
    }
  }

  lemma PatchTwice(b: seq<byte>, at: nat, s: seq<byte>, t: seq<byte>)
    requires at + |s| + |t| <= |b|
    ensures Patch(Patch(b, at, s), at + |s|, t) == Patch(b, at, s + t)
  {
    var p := Patch(b, at, s);
    assert p[..at + |s|] == b[..at] + s;
    assert p[at + |s| + |t|..] == b[at + |s| + |t|..];
  }

  lemma Ends(a: seq<byte>, b: seq<byte>)
    ensures (a + b)[..|a|] == a && (a + b)[|a|..] == b
  {}

  lemma ReplaceMiddle(a: seq<byte>, e: seq<byte>, b: seq<byte>, x: seq<byte>)
    ensures Replace(a + e + b, |a|, |e|, x) == a + x + b
  {
    Ends(a, e + b);
    Ends(a + e, b);
    assert a + e + b == a + (e + b);
  }

  lemma PatchMiddle(a: seq<byte>, x: seq<byte>, z: seq<byte>, y: seq<byte>)
    requires |x| == |y|
    ensures Patch(a + x + z, |a|, y) == a + y + z
  {
    Ends(a, x + z);
    Ends(a + x, z);
    assert a + x + z == a + (x + z);
  }
}
