/** Whole runs of requests to an archive: what they make of its fields and of its body. */
module Archives {
  import opened Words
  import opened Bytes
  import opened FieldTables
  import opened ByteFiles

  /** An archive as its callers see it. */
  datatype Archive = Archive(fs: seq<Field>, body: seq<byte>, offset: nat, access: int, append: bool)

  datatype Request =
    | Write(data: seq<byte>) | Truncate(size: nat) | SetContent(data: seq<byte>) | Read(size: nat)
    | Seek(off: int, whence: int)
    | PutAt(n: nat, value: seq<byte>) | PutNamed(name: seq<byte>, value: seq<byte>)
    | DropAt(n: nat) | DropNamed(name: seq<byte>) | Clear

  /** A request, and whether it was carried out. */
  datatype Event = Event(q: Request, ok: bool)

  /** What an event does to the byte file. */
  function OpsOf(a: Archive, e: Event): (ops: seq<FileOp>)
    ensures |ops| <= 1
  {
    if !e.ok then []
    else
      match e.q
      case Write(d) => [if a.append then Append(d) else Put(a.offset, d)]
      case Truncate(n) => [Cut(n)]
      case SetContent(d) => [Reset(d)]
      case _ => []
  }

  /** What it does to the fields. */
  ghost function FieldsAfter(fs: seq<Field>, e: Event): seq<Field> {
    if !e.ok then fs
    else
      match e.q
      case PutAt(n, value) => if n < |fs| then fs[n := Field(fs[n].name, value)] else fs
      case PutNamed(name, value) => PutField(fs, Field(name, value))
      case DropAt(n) => if n < |fs| then DropField(fs, n) else fs
      case DropNamed(name) => if Find(fs, name) < |fs| then DropField(fs, Find(fs, name)) else fs
      case Clear => []
      case _ => fs
  }

  function WritePlace(a: Archive): nat {
    if a.append then |a.body| else a.offset
  }

  /** Where it leaves the offset: a write in append mode moves it to the end even when the write then fails. */
  ghost predicate OffsetAfter(a: Archive, e: Event, offset: nat) {
    match e.q
    case Write(d) =>
      if e.ok then offset == WritePlace(a) + |d| else offset == a.offset || offset == WritePlace(a)
    case Read(n) => offset == if e.ok then a.offset + |FileRead(a.body, a.offset, n)| else a.offset
    case Seek(off, whence) =>
      var base := if whence == 0 then 0 else if whence == 1 then a.offset else |a.body|;
      offset == if e.ok then (base + off) % TWO32 else a.offset
    case _ => offset == a.offset
  }

  function BodyAfter(a: Archive, e: Event): seq<byte> {
    var ops := OpsOf(a, e);
    if ops == [] then a.body else Apply(a.body, ops[0])
  }

  /** b is what the event makes of a. */
  ghost predicate Answers(a: Archive, e: Event, b: Archive) {
    && b.access == a.access && b.append == a.append
    && b.fs == FieldsAfter(a.fs, e) && b.body == BodyAfter(a, e) && OffsetAfter(a, e, b.offset)
  }

  // ----- runs

  ghost predicate AnswersAt(r: seq<Archive>, es: seq<Event>, i: int) {
    0 <= i < |es| && i + 1 < |r| ==> Answers(r[i], es[i], r[i + 1])
  }

  ghost predicate Run(r: seq<Archive>, es: seq<Event>) {
    |r| == |es| + 1 && forall i {:trigger AnswersAt(r, es, i)} :: AnswersAt(r, es, i)
  }

  /** The operations on the byte file that the first i events amount to. */
  ghost function History(r: seq<Archive>, es: seq<Event>, i: nat): seq<FileOp>
    requires i <= |es| < |r|
  {
    if i == 0 then [] else History(r, es, i - 1) + OpsOf(r[i - 1], es[i - 1])
  }

  ghost function FieldHistory(fs: seq<Field>, es: seq<Event>): seq<Field> {
    if es == [] then fs else FieldsAfter(FieldHistory(fs, es[..|es| - 1]), es[|es| - 1])
  }

  lemma AppliesOn(b: seq<byte>, ops: seq<FileOp>, more: seq<FileOp>)
    requires |more| <= 1
    ensures ApplyAll(b, ops + more) == if more == [] then ApplyAll(b, ops) else Apply(ApplyAll(b, ops), more[0])
  {
    if more == [] {
      assert ops + more == ops;
    } else {
      assert (ops + more)[..|ops + more| - 1] == ops;
    }
  }

  /** The body is a byte file: the writes, truncations and replacements carried out, in order, and nothing else. */
  lemma {:induction false} BodyIsHistory(r: seq<Archive>, es: seq<Event>, i: nat)
    requires Run(r, es) && i <= |es|
    ensures r[i].body == ApplyAll(r[0].body, History(r, es, i))
  {
    hide OffsetAfter, Apply, FieldsAfter, OpsOf;
    if i > 0 {
      BodyIsHistory(r, es, i - 1);
      assert AnswersAt(r, es, i - 1);
      AppliesOn(r[0].body, History(r, es, i - 1), OpsOf(r[i - 1], es[i - 1]));
    }
  }

  /** The fields are the puts and deletes carried out, in order, and nothing else. */
  lemma {:induction false} FieldsAreHistory(r: seq<Archive>, es: seq<Event>, i: nat)
    requires Run(r, es) && i <= |es|
    ensures r[i].fs == FieldHistory(r[0].fs, es[..i])
  {
    hide OffsetAfter, FieldsAfter, ApplyAll;
    if i > 0 {
      FieldsAreHistory(r, es, i - 1);
      assert AnswersAt(r, es, i - 1);
      assert es[..i][..i - 1] == es[..i - 1];
    }
  }

  /** At any moment of a run a byte of the body is what the last operation that touched it left there. */
  lemma LastRequestWins(r: seq<Archive>, es: seq<Event>, i: nat, j: nat, k: nat)
    requires Run(r, es) && i <= |es| && TouchesAt(r[0].body, History(r, es, i), j, k)
    requires NoneTouches(r[0].body, History(r, es, i), j + 1, k)
    ensures var h := History(r, es, i);
      CellAt(r[i].body, k) == Leaves(h[j], |ApplyAll(r[0].body, h[..j])|, k)
  {
    hide Touches, Leaves, CellAt, ApplyAll, Answers;
    BodyIsHistory(r, es, i);
    LastWriteWins(r[0].body, History(r, es, i), k, j);
  }

  // ----- append mode

  ghost predicate Adds(e: Event) {
    !e.ok || (!e.q.Truncate? && !e.q.SetContent?)
  }

  ghost predicate AddsAt(es: seq<Event>, i: int) {
    0 <= i < |es| ==> Adds(es[i])
  }

  lemma AppendKeeps(b: seq<byte>, d: seq<byte>)
    ensures b <= Apply(b, Append(d))
  {
    hide FileWrite;
    var w := FileWrite(b, |b|, d);
    WriteIs(b, |b|, d, 0);
    forall k | 0 <= k < |b| ensures k < |w| && w[k] == b[k] {
      WriteIs(b, |b|, d, k);
    }
  }

  /** In append mode no byte ever changes, unless the body is truncated or replaced. */
  lemma {:induction false} AppendOnly(r: seq<Archive>, es: seq<Event>, i: nat)
    requires Run(r, es) && i <= |es| && r[0].append
    requires forall j {:trigger AddsAt(es, j)} :: AddsAt(es, j)
    ensures r[i].append && r[0].body <= r[i].body
  {
    hide OffsetAfter, FieldsAfter, Apply;
    if i > 0 {
      AppendOnly(r, es, i - 1);
      assert AnswersAt(r, es, i - 1) && AddsAt(es, i - 1);
      var a, e := r[i - 1], es[i - 1];
      if OpsOf(a, e) != [] {
        AppendKeeps(a.body, e.q.data);
      }
    }
  }
}
