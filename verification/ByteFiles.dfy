/** The body of an archive as a byte file: writes fill gaps with zeros, reads stop at the end. */
module ByteFiles {
  import opened Bytes

  function Extended(b: seq<byte>, n: nat): seq<byte> {
    if n > |b| then b + Zeros(n - |b|) else b
  }

  /** The file cut or extended to n bytes. */
  function FileResize(b: seq<byte>, n: nat): seq<byte> {
    Extended(b, n)[..n]
  }

  function FileWrite(b: seq<byte>, o: nat, d: seq<byte>): seq<byte> {
    Patch(Extended(b, o + |d|), o, d)
  }

  function FileRead(b: seq<byte>, o: nat, n: nat): seq<byte> {
    if o >= |b| then [] else if o + n <= |b| then b[o..o + n] else b[o..]
  }

  /** Byte by byte, what a write leaves. */
  lemma WriteIs(b: seq<byte>, o: nat, d: seq<byte>, k: nat)
    ensures |FileWrite(b, o, d)| == if |b| < o + |d| then o + |d| else |b|
    ensures k < |FileWrite(b, o, d)| ==>
      FileWrite(b, o, d)[k] == if o <= k < o + |d| then d[k - o] else if k < |b| then b[k] else 0
  {}

  lemma ResizeIs(b: seq<byte>, n: nat, k: nat)
    ensures |FileResize(b, n)| == n
    ensures k < n ==> FileResize(b, n)[k] == if k < |b| then b[k] else 0
  {}

  lemma ReadIs(b: seq<byte>, o: nat, n: nat, k: nat)
    ensures |FileRead(b, o, n)| == if |b| <= o then 0 else if o + n <= |b| then n else |b| - o
    ensures k < |FileRead(b, o, n)| ==> FileRead(b, o, n)[k] == b[o + k]
  {}

  lemma ReadsBack(b: seq<byte>, o: nat, d: seq<byte>)
    ensures FileRead(FileWrite(b, o, d), o, |d|) == d
  {
    hide FileWrite, FileRead;
    var w := FileWrite(b, o, d);
    WriteIs(b, o, d, 0);
    var r := FileRead(w, o, |d|);
    ReadIs(w, o, |d|, 0);
    forall k | 0 <= k < |d| ensures |r| == |d| && r[k] == d[k] {
      WriteIs(b, o, d, o + k);
      ReadIs(w, o, |d|, k);
    }
  }

  lemma ReadsElsewhere(b: seq<byte>, o: nat, d: seq<byte>, p: nat, n: nat)
    requires p + n <= |b| && (p + n <= o || o + |d| <= p)
    ensures FileRead(FileWrite(b, o, d), p, n) == FileRead(b, p, n)
  {
    hide FileWrite, FileRead;
    var w := FileWrite(b, o, d);
    WriteIs(b, o, d, 0);
    ReadIs(w, p, n, 0);
    ReadIs(b, p, n, 0);
    var s, t := FileRead(w, p, n), FileRead(b, p, n);
    forall k | 0 <= k < |t| ensures |s| == |t| && s[k] == t[k] {
      WriteIs(b, o, d, p + k);
      ReadIs(w, p, n, k);
      ReadIs(b, p, n, k);
    }
    assert |s| == |t|;
  }

  /** What was written is read back; a read that does not meet the write and stays in the old file sees the old file. */
  lemma ReadAfterWrite(b: seq<byte>, o: nat, d: seq<byte>, p: nat, n: nat)
    ensures FileRead(FileWrite(b, o, d), o, |d|) == d
    ensures p + n <= |b| && (p + n <= o || o + |d| <= p) ==> FileRead(FileWrite(b, o, d), p, n) == FileRead(b, p, n)
  {
    hide FileWrite, FileRead;
    ReadsBack(b, o, d);
    if p + n <= |b| && (p + n <= o || o + |d| <= p) {
      ReadsElsewhere(b, o, d, p, n);
    }
  }

  /** Writing behind the end and then truncating to the old length changes nothing. */
  lemma TruncateUndoesAppend(b: seq<byte>, o: nat, d: seq<byte>)
    requires |b| <= o
    ensures FileResize(FileWrite(b, o, d), |b|) == b
  {
    var w := FileWrite(b, o, d);
    WriteIs(b, o, d, 0);
    ResizeIs(w, |b|, 0);
    forall k | 0 <= k < |b| ensures FileResize(w, |b|)[k] == b[k] {
      WriteIs(b, o, d, k);
      ResizeIs(w, |b|, k);
    }
  }

  // ----- runs of operations

  /** A write at an offset, a write at the end, a truncation, and a replacement of the whole. */
  datatype FileOp = Put(at: nat, data: seq<byte>) | Append(data: seq<byte>) | Cut(size: nat) | Reset(data: seq<byte>)

  function Apply(b: seq<byte>, op: FileOp): seq<byte> {
    match op
    case Put(at, d) => FileWrite(b, at, d)
    case Append(d) => FileWrite(b, |b|, d)
    case Cut(n) => FileResize(b, n)
    case Reset(d) => d
  }

  function ApplyAll(b: seq<byte>, ops: seq<FileOp>): seq<byte> {
    if ops == [] then b else Apply(ApplyAll(b, ops[..|ops| - 1]), ops[|ops| - 1])
  }

  /** What a place of a file holds: nothing beyond its end. */
  datatype Cell = Gone | Is(value: byte)

  function CellAt(b: seq<byte>, k: nat): Cell {
    if k < |b| then Is(b[k]) else Gone
  }

  /** Whether an operation on a file of len bytes writes, fills or cuts off byte k. */
  predicate Touches(op: FileOp, len: nat, k: nat) {
    match op
    case Put(at, d) => k < at + |d| && (at <= k || len <= k)
    case Append(d) => len <= k < len + |d|
    case Cut(n) => n <= k < len || len <= k < n
    case Reset(d) => true
  }

  /** What it leaves there. */
  function Leaves(op: FileOp, len: nat, k: nat): Cell
    requires Touches(op, len, k)
  {
    match op
    case Put(at, d) => if at <= k then Is(d[k - at]) else Is(0)
    case Append(d) => Is(d[k - len])
    case Cut(n) => if k < n then Is(0) else Gone
    case Reset(d) => CellAt(d, k)
  }

  /** One operation, place by place. */
  lemma ApplyIs(b: seq<byte>, op: FileOp, k: nat)
    ensures CellAt(Apply(b, op), k) == if Touches(op, |b|, k) then Leaves(op, |b|, k) else CellAt(b, k)
  {
    hide FileWrite, FileResize;
    match op
    case Put(at, d) =>
      WriteIs(b, at, d, k);
    case Append(d) =>
      WriteIs(b, |b|, d, k);
    case Cut(n) =>
      ResizeIs(b, n, k);
    case Reset(d) =>
  }

  /** Whether operation i of a run touches byte k. */
  predicate TouchesAt(b: seq<byte>, ops: seq<FileOp>, i: nat, k: nat) {
    i < |ops| && Touches(ops[i], |ApplyAll(b, ops[..i])|, k)
  }

  ghost predicate NoneTouches(b: seq<byte>, ops: seq<FileOp>, from: nat, k: nat) {
    forall i: nat {:trigger TouchesAt(b, ops, i, k)} :: from <= i ==> !TouchesAt(b, ops, i, k)
  }

  lemma Shorter(b: seq<byte>, ops: seq<FileOp>, n: nat, i: nat, k: nat)
    requires n <= |ops|
    ensures i < n ==> ops[..n][i] == ops[i] && ops[..n][..i] == ops[..i]
    ensures i < n ==> (TouchesAt(b, ops[..n], i, k) <==> TouchesAt(b, ops, i, k))
  {
    if i < n {
      assert ops[..n][..i] == ops[..i];
    }
  }

  lemma NoneBefore(b: seq<byte>, ops: seq<FileOp>, n: nat, from: nat, k: nat)
    requires n <= |ops| && NoneTouches(b, ops, from, k)
    ensures NoneTouches(b, ops[..n], from, k)
  {
    forall i: nat | from <= i ensures !TouchesAt(b, ops[..n], i, k) {
      Shorter(b, ops, n, i, k);
    }
  }

  /** The last operation of a run. */
  lemma LastOp(b: seq<byte>, ops: seq<FileOp>, k: nat)
    requires ops != []
    ensures var n := |ops| - 1;
      CellAt(ApplyAll(b, ops), k) ==
        if TouchesAt(b, ops, n, k) then Leaves(ops[n], |ApplyAll(b, ops[..n])|, k) else CellAt(ApplyAll(b, ops[..n]), k)
  {
    ApplyIs(ApplyAll(b, ops[..|ops| - 1]), ops[|ops| - 1], k);
  }

  /** After any run of operations a place holds what the last operation that touches it left there. */
  lemma {:induction false} LastWriteWins(b: seq<byte>, ops: seq<FileOp>, k: nat, i: nat)
    requires TouchesAt(b, ops, i, k) && NoneTouches(b, ops, i + 1, k)
    ensures CellAt(ApplyAll(b, ops), k) == Leaves(ops[i], |ApplyAll(b, ops[..i])|, k)
  {
    hide Touches, Leaves, CellAt, ApplyAll;
    LastOp(b, ops, k);
    var n := |ops| - 1;
    if i < n {
      assert !TouchesAt(b, ops, n, k);
      NoneBefore(b, ops, n, i + 1, k);
      Shorter(b, ops, n, i, k);
      LastWriteWins(b, ops[..n], k, i);
    }
  }

  /** A place that no operation touches holds what it did, or still nothing. */
  lemma {:induction false} UncoveredKept(b: seq<byte>, ops: seq<FileOp>, k: nat)
    requires NoneTouches(b, ops, 0, k)
    ensures CellAt(ApplyAll(b, ops), k) == CellAt(b, k)
  {
    if ops != [] {
      hide Touches, Leaves, CellAt;
      LastOp(b, ops, k);
      var n := |ops| - 1;
      assert !TouchesAt(b, ops, n, k);
      NoneBefore(b, ops, n, 0, k);
      UncoveredKept(b, ops[..n], k);
    }
  }
}
