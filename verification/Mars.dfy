/** An archive held in a flat buffer, with its counts and sizes cached until release. */
module Mars {
  import opened Words
  import opened Bytes
  import opened FieldTables
  import opened ByteFiles
  import opened Images
  import opened Archives

  datatype Option<T> = None | Some(value: T)

  /** Access modes by number: read only, write only, read and write. */
  predicate Readable(access: int) {
    access == 0 || access == 2
  }

  predicate Writable(access: int) {
    access == 1 || access == 2
  }

  class Mar {
    const access: int
    const append: bool
    var bytes: seq<byte>
    var roff: nat
    var rlen: nat
    var info: Info
    var offset: nat
    /** Whether some copy has gone outside the buffer; the code then has no defined behaviour. */
    var overrun: bool

    ghost var lead: seq<byte>
    ghost var fs: seq<Field>
    ghost var body: seq<byte>

    /** The buffer holds a leader, possibly out of date, the packed table and the body; the cached info is exact. */
    ghost predicate Valid()
      reads this
    {
      && !overrun && |lead| == LEADER_SIZE && ReadInfo(lead).0 && ReadInfo(lead).1.proto == PROTO
      && bytes == lead + EncodeFields(fs) + body && info == InfoOf(fs, body) && FieldsOk(fs) && Fits(fs, body)
         && offset < TWO32
    }

    /** What a caller sees. */
    ghost function State(): Archive
      reads this
    {
      Archive(fs, body, offset, access, append)
    }

    // ----- the buffer

    method SetRegion(off: nat, len: nat) returns (ok: bool)
      requires off + len < TWO32
      modifies `roff, `rlen
      ensures ok <==> off + len <= |bytes|
      ensures if ok then roff == off && rlen == len else roff == old(roff) && rlen == old(rlen)
    {
      ok := off + len <= |bytes|;
      if ok {
        roff := off;
        rlen := len;
      }
    }

    /**
     * Resize the region, moving what follows it, with sizes kept in 32 bits; fails when the buffer must grow and there
     * is no room. A total that does not fit 32 bits wraps and cuts the buffer instead.
     */
    method ResizeSeq(size: nat, room: bool) returns (ok: bool)
      requires roff + rlen <= |bytes| < TWO32 && size < TWO32
      modifies `bytes, `rlen, `overrun
      ensures if ok then rlen == size else bytes == old(bytes) && rlen == old(rlen) && overrun == old(overrun)
      ensures var total := |old(bytes)| - old(rlen) + size;
        if total < TWO32
        then overrun == old(overrun) && (ok <==> room || size <= old(rlen))
          && (ok ==> bytes == Resized(old(bytes), roff, old(rlen), size) && |bytes| == total)
        else ok && |bytes| == total - TWO32 && (old(overrun) ==> overrun)
    {
      hide Patch, Resized, WrappedTotal;
      ghost var b, len := bytes, rlen;
      var total := |bytes|;
      var tail := total - (roff + rlen);
      var newtotal := WrappedTotal(total, rlen, size);
      var behind := bytes[total - tail..];
      ok := true;
      ResizedKeeps(b, roff, len, size);
      TotalWraps(total, rlen, size);
      Within32(roff + size);
      if newtotal > total {
        if !room {
          return false;
        }
        bytes := bytes + Zeros(newtotal - total);
        PatchLength(bytes, (newtotal - tail) % TWO32, behind);
        MemCpy((newtotal - tail) % TWO32, behind);
      } else if newtotal < total {
        PatchLength(bytes, (newtotal - tail) % TWO32, behind);
        MemCpy((newtotal - tail) % TWO32, behind);
        bytes := bytes[..newtotal];
      }
      rlen := size;
      ResizedMoves(b, roff, len, size, tail);
    }

    /** Copy bytes to a place in the buffer; a copy that does not fit is an overrun. */
    method MemCpy(at: nat, s: seq<byte>)
      modifies `bytes, `overrun
      ensures if at + |s| <= |old(bytes)| then bytes == Patch(old(bytes), at, s) && overrun == old(overrun)
        else overrun && bytes == old(bytes)
    {
      if at + |s| <= |bytes| {
        bytes := Patch(bytes, at, s);
      } else {
        overrun := true;
      }
    }

    // ----- walking the table

    /** Where field n starts, from the start of the table. */
    method OffsetN(n: nat) returns (off: nat)
      requires Valid() && n <= |fs| && roff == LEADER_SIZE
      ensures roff + off == Position(fs, n)
    {
      hide EncodeFields;
      off := 0;
      var left := n;
      EncodeNone(fs);
      while left > 0
        invariant 0 <= left <= n <= |fs| && roff + off == Position(fs, n - left)
      {
        FieldIn(bytes, lead, fs, body, n - left);
        off := off + FieldSizeAt(bytes, roff + off);
        left := left - 1;
      }
    }

    /** The ordinal of a name, or the number of fields, and where that field starts or would start. */
    method OffsetP(name: seq<byte>) returns (off: nat, n: nat)
      requires Valid() && NoNul(name) && roff == LEADER_SIZE
      ensures n == Find(fs, name) && roff + off == Position(fs, n)
    {
      hide EncodeFields, Alike;
      off, n := 0, 0;
      EncodeNone(fs);
      while n < info.fields
        invariant n <= |fs| && roff + off == Position(fs, n)
        invariant forall i {:trigger fs[i]} | 0 <= i < n :: !Alike(fs[i].name, name)
      {
        FieldIn(bytes, lead, fs, body, n);
        NameHere(fs, n);
        var nsize := NSizeAt(bytes, roff + off);
        AlikeSwaps(name, fs[n].name);
        CompareIsAlike(name, fs[n].name, fs[n].value + [0] + (EncodeFields(fs[n + 1..]) + body));
        if StrNCaseCmp(name + [0], bytes[roff + off + 4..], nsize) == 0 {
          return;
        }
        off := off + FieldSizeAt(bytes, roff + off);
        n := n + 1;
      }
    }

    // ----- fields

    /** Replace the bytes of the region by a whole field, or by nothing. */
    method ClearFields() returns (r: int)
      requires Valid()
      modifies `bytes, `roff, `rlen, `info, `fs, `overrun
      ensures Valid() && r == |old(fs)| && fs == []
      ensures Answers(old(State()), Event(Request.Clear, true), State())
    {
      hide EncodeField;
      var ok := SetRegion(LEADER_SIZE, info.hsize);
      ok := ResizeSeq(0, false);
      CutRegion(old(bytes), lead, EncodeFields(fs), body, 0, info.hsize);
      r := info.fields;
      info := info.(fields := 0, hsize := 0);
      fs := [];
      assert lead + Replace(EncodeFields(old(fs)), 0, |EncodeFields(old(fs))|, []) + body == lead + [] + body;
    }

    method DelFieldN(n: nat) returns (r: int)
      requires Valid()
      modifies `bytes, `roff, `rlen, `info, `fs, `overrun
      ensures Valid()
      ensures if n < |old(fs)| then r == 0 && fs == DropField(old(fs), n)
        else r == -1 && fs == old(fs) && bytes == old(bytes)
      ensures Answers(old(State()), Event(Request.DropAt(n), r == 0), State())
    {
      hide EncodeField, EncodeFields;
      if n >= info.fields {
        return -1;
      }
      var ok := SetRegion(LEADER_SIZE, info.hsize);
      var off := OffsetN(n);
      Drop(off, n);
      r := 0;
    }

    /** Remove the field at a known place. */
    method Drop(off: nat, n: nat)
      requires Valid() && n < |fs| && LEADER_SIZE + off == Position(fs, n)
      modifies `bytes, `roff, `rlen, `info, `fs, `overrun
      ensures Valid() && fs == DropField(old(fs), n)
    {
      hide EncodeField, EncodeFields;
      FieldIn(bytes, lead, fs, body, n);
      var orig := FieldSizeAt(bytes, LEADER_SIZE + off);
      var ok := SetRegion(LEADER_SIZE + off, orig);
      ok := ResizeSeq(0, false);
      DropEncodes(fs, n);
      CutRegion(old(bytes), lead, EncodeFields(fs), body, off, orig);
      DropFieldOk(fs, n);
      info := info.(fields := info.fields - 1, hsize := info.hsize - orig);
      fs := DropField(fs, n);
    }

    method DelFieldP(name: seq<byte>) returns (r: int)
      requires Valid() && NoNul(name)
      modifies `bytes, `roff, `rlen, `info, `fs, `overrun
      ensures Valid()
      ensures var n := Find(old(fs), name);
        if n < |old(fs)| then r == n && fs == DropField(old(fs), n) else r == -1 && fs == old(fs) && bytes == old(bytes)
      ensures Answers(old(State()), Event(Request.DropNamed(name), r != -1), State())
    {
      hide EncodeField, EncodeFields;
      var ok := SetRegion(LEADER_SIZE, info.hsize);
      var off, n := OffsetP(name);
      if n == info.fields {
        return -1;
      }
      Drop(off, n);
      r := n;
    }

    /** The value of field n: a view of the bytes without the terminator. */
    method ValueAt(off: nat, ghost n: nat) returns (v: seq<byte>)
      requires Valid() && n < |fs| && LEADER_SIZE + off == Position(fs, n)
      ensures v == fs[n].value
    {
      hide EncodeField, EncodeFields;
      FieldIn(bytes, lead, fs, body, n);
      var p := LEADER_SIZE + off;
      var at := p + 4 + NSizeAt(bytes, p);
      v := bytes[at..at + VSizeAt(bytes, p) - 1];
      SliceOf(bytes, at, fs[n].value, [0] + (EncodeFields(fs[n + 1..]) + body));
    }

    method GetFieldN(n: nat) returns (r: int, value: Option<seq<byte>>)
      requires Valid()
      modifies `roff, `rlen
      ensures Valid()
      ensures if n < |fs| then value == Some(fs[n].value) && r == |fs[n].value| else value == None && r == 0
    {
      hide EncodeField, EncodeFields;
      if n >= info.fields {
        return 0, None;
      }
      var ok := SetRegion(LEADER_SIZE, info.hsize);
      var off := OffsetN(n);
      var v := ValueAt(off, n);
      r, value := |v|, Some(v);
    }

    method GetFieldP(name: seq<byte>) returns (r: int, value: Option<seq<byte>>)
      requires Valid() && NoNul(name)
      modifies `roff, `rlen
      ensures Valid()
      ensures var n := Find(fs, name);
        if n < |fs| then value == Some(fs[n].value) && r == |fs[n].value| else value == None && r == 0
    {
      hide EncodeField, EncodeFields;
      var ok := SetRegion(LEADER_SIZE, info.hsize);
      var off, n := OffsetP(name);
      if n == info.fields {
        return 0, None;
      }
      var v := ValueAt(off, n);
      r, value := |v|, Some(v);
    }

    /** The name of field n, up to its terminator. */
    method NameAt(off: nat, ghost n: nat) returns (name: seq<byte>)
      requires Valid() && n < |fs| && LEADER_SIZE + off == Position(fs, n)
      ensures name == fs[n].name
    {
      hide EncodeField, EncodeFields;
      FieldIn(bytes, lead, fs, body, n);
      var p := LEADER_SIZE + off;
      name := bytes[p + 4..p + 4 + NSizeAt(bytes, p) - 1];
      SliceOf(bytes, p + 4, fs[n].name, [0] + (fs[n].value + [0] + (EncodeFields(fs[n + 1..]) + body)));
    }

    method GetField(n: nat) returns (field: Option<Field>)
      requires Valid()
      modifies `roff, `rlen
      ensures Valid() && field == if n < |fs| then Some(fs[n]) else None
    {
      hide EncodeField, EncodeFields;
      if n >= info.fields {
        return None;
      }
      var ok := SetRegion(LEADER_SIZE, info.hsize);
      var off := OffsetN(n);
      var name := NameAt(off, n);
      var value := ValueAt(off, n);
      field := Some(Field(name, value));
    }

    method FieldNtoP(n: nat) returns (r: int, name: Option<seq<byte>>)
      requires Valid()
      modifies `roff, `rlen
      ensures Valid()
      ensures if n < |fs| then r == 0 && name == Some(fs[n].name) else r == -1 && name == None
    {
      hide EncodeField, EncodeFields;
      if n >= info.fields {
        return -1, None;
      }
      var ok := SetRegion(LEADER_SIZE, info.hsize);
      var off := OffsetN(n);
      var s := NameAt(off, n);
      r, name := 0, Some(s);
    }

    method FieldPtoN(name: seq<byte>) returns (r: int)
      requires Valid() && NoNul(name)
      modifies `roff, `rlen
      ensures Valid()
      ensures r == if Find(fs, name) < |fs| then Find(fs, name) else -1
    {
      var ok := SetRegion(LEADER_SIZE, info.hsize);
      var off, n := OffsetP(name);
      r := if n == info.fields then -1 else n;
    }

    /** Write a value's size, bytes and terminator behind a name of nsize bytes. */
    method WriteValue(p: nat, nsize: nat, value: seq<byte>, vsize: nat)
      requires |bytes| < TWO32 && vsize == (|value| + 1) % TWO32
      modifies `bytes, `overrun
      ensures if p + 4 + nsize + |value| + 1 <= |old(bytes)|
        then bytes == ValueWrites(old(bytes), p, nsize, value) && overrun == old(overrun) else overrun
    {
      hide Patch, Encode16;
      var size := |value|;
      Within32(size + 1);
      EncodeDecodes(vsize);
      PatchLength(bytes, p + 2, Encode16(vsize));
      MemCpy(p + 2, Encode16(vsize));
      PatchLength(bytes, p + 4 + nsize, value);
      MemCpy(p + 4 + nsize, value);
      MemCpy(p + 4 + nsize + size, [0]);
    }

    /** Write a whole field, nsize bytes of its name and terminator. */
    method WriteField(p: nat, name: seq<byte>, nsize: nat, value: seq<byte>, vsize: nat)
      requires |bytes| < TWO32 && vsize == (|value| + 1) % TWO32 && nsize <= |name| + 1
      modifies `bytes, `overrun
      ensures if p + 4 + nsize + |value| + 1 <= |old(bytes)|
        then bytes == RawWrites(old(bytes), p, Stem(name, nsize), value) && overrun == old(overrun) else overrun
    {
      hide Patch, Encode16, ValueWrites;
      EncodeDecodes(nsize);
      PatchLength(bytes, p, Encode16(nsize));
      MemCpy(p, Encode16(nsize));
      PatchLength(bytes, p + 4, Stem(name, nsize));
      MemCpy(p + 4, Stem(name, nsize));
      WriteValue(p, nsize, value, vsize);
    }

    /**
     * Set the value of field n; its name's bytes are kept as they are. The copy leaves the buffer exactly when the new
     * archive needs more than 32 bits, or the incremented value size does.
     */
    method PutFieldN(n: nat, value: seq<byte>, room: bool) returns (r: int)
      requires Valid() && |value| < TWO32
      modifies `bytes, `roff, `rlen, `info, `fs, `overrun
      ensures overrun <==> n < |old(fs)| && ValueOverruns(old(fs), body, n, value)
      ensures !overrun ==> Valid() && (r == 0 || r == -1)
      ensures !overrun ==>
        (r == -1 <==> n >= |old(fs)| || MAX_VSIZE < |value| + 1 || (!room && |old(fs)[n].value| < |value|))
      ensures !overrun && r == -1 ==> fs == old(fs) && bytes == old(bytes)
      ensures !overrun && r == 0 ==> fs == old(fs)[n := Field(old(fs)[n].name, value)]
      ensures !overrun ==> Answers(old(State()), Event(Request.PutAt(n, value), r == 0), State())
    {
      hide EncodeField, EncodeFields, Resized, ValueWrites, ReadInfo, FieldsOk;
      EachOf(fs);
      ValueLimit(|value|);
      if n >= info.fields {
        return -1;
      }
      var size := |value|;
      var vsize := (size + 1) % TWO32;
      if MAX_VSIZE < vsize {
        return -1;
      }
      var ok := SetRegion(LEADER_SIZE, info.hsize);
      var off := OffsetN(n);
      var p := LEADER_SIZE + off;
      FieldIn(bytes, lead, fs, body, n);
      PutValueSizes(bytes, lead, fs, body, n, value);
      var nsize := NSizeAt(bytes, p);
      var orig := VSizeAt(bytes, p);
      ok := StoreValue(p, n, nsize, orig, value, vsize, room);
      r := if ok then 0 else -1;
    }

    /** Resize field n for its new value and write the value behind the name. */
    method StoreValue(p: nat, n: nat, nsize: nat, orig: nat, value: seq<byte>, vsize: nat, room: bool)
            returns (ok: bool)
      requires Valid() && n < |fs| && |value| < TWO32 && vsize == (|value| + 1) % TWO32 && vsize <= MAX_VSIZE
      requires p == Position(fs, n) && nsize == |fs[n].name| + 1 && orig == |fs[n].value| + 1
      modifies `bytes, `roff, `rlen, `info, `fs, `overrun
      ensures overrun <==> ValueOverruns(old(fs), body, n, value)
      ensures !overrun ==> Valid() && (ok <==> room || |value| <= |old(fs)[n].value|)
      ensures !overrun ==>
        if ok then fs == old(fs)[n := Field(old(fs)[n].name, value)] else fs == old(fs) && bytes == old(bytes)
    {
      hide EncodeField, EncodeFields, Resized, ValueWrites, ReadInfo, FieldsOk;
      ValueLimit(|value|);
      PutValueSizes(bytes, lead, fs, body, n, value);
      if |value| + 1 <= MAX_VSIZE && !ValueOverruns(fs, body, n, value) {
        PutValueReady(bytes, lead, fs, body, n, value);
      }
      EachOf(fs);
      NameHere(fs, n);
      ok := SetRegion(p, 4 + nsize + orig);
      ok := ResizeSeq(4 + nsize + vsize, room);
      if ok {
        WriteValue(p, nsize, value, vsize);
        info := info.(hsize := info.hsize + vsize - orig);
        fs := fs[n := Field(fs[n].name, value)];
      }
    }

    /** Resize the field at n, or the empty region behind the last, and write the whole field there. */
    method StoreField(p: nat, n: nat, orig: nat, name: seq<byte>, value: seq<byte>, vsize: nat, room: bool)
            returns (ok: bool)
      requires Valid() && NoNul(name) && |name| + 1 <= MAX_NSIZE && |value| < TWO32 && vsize == (|value| + 1) % TWO32
        && vsize <= MAX_VSIZE
      requires n == Find(fs, name) && p == Position(fs, n) && orig == OldSize(fs, n)
      modifies `bytes, `roff, `rlen, `info, `fs, `overrun
      ensures overrun <==> FieldOverruns(old(fs), body, name, value, room)
      ensures !overrun ==>
        Valid() && (ok <==> |value| + 1 <= MAX_VSIZE && (room || |EncodeField(Field(name, value))| <= orig))
      ensures !overrun ==>
        if ok then fs == PutField(old(fs), Field(name, value)) else fs == old(fs) && bytes == old(bytes)
    {
      hide EncodeField, EncodeFields, Resized, FieldWrites, RawWrites, Stem, ReadInfo, PutField, FieldsOk;
      hide FieldOverruns, NoNul, FieldOk;
      hide OldSize, Find;
      ghost var f := Field(name, value);
      ValueLimit(|value|);
      PutSizes(bytes, lead, fs, body, f);
      FieldOutcome(fs, body, name, value, vsize, room);
      if |value| + 1 <= MAX_VSIZE {
        PutReady(bytes, lead, fs, body, f);
      }
      var fsize := 4 + |name| + 1 + vsize;
      ok := SetRegion(p, orig);
      ok := ResizeSeq(fsize, room);
      if ok {
        StemWrites(bytes, p, f);
        WriteField(p, name, |name| + 1, value, vsize);
        info := info.(
          fields := if n == info.fields then info.fields + 1 else info.fields,
          hsize := info.hsize + fsize - orig);
        fs := PutField(fs, f);
      }
    }

    /** No table of fields has the bytes between leader and body. */
    ghost predicate Garbled()
      reads this
    {
      forall gs: seq<Field> {:trigger EncodeFields(gs)} :: EachOk(gs) ==> bytes != lead + EncodeFields(gs) + body
    }

    /** Store a field behind the last under a name whose incremented size has wrapped to nsize. */
    method StoreSlipped(p: nat, name: seq<byte>, nsize: nat, value: seq<byte>, vsize: nat, room: bool)
            returns (ok: bool)
      requires Valid() && NoNul(name) && NameSlips(|name|) && nsize == (|name| + 1) % TWO32
      requires |value| < TWO32 && vsize == (|value| + 1) % TWO32 && vsize <= MAX_VSIZE
      requires p == LEADER_SIZE + |EncodeFields(fs)|
      modifies `bytes, `roff, `rlen, `info, `overrun
      ensures overrun <==> SlipOverruns(fs, body, |name|, value, room)
      ensures !overrun ==> (ok <==> room) && (ok ==> |value| + 1 <= MAX_VSIZE)
      ensures !overrun && !ok ==> Valid() && bytes == old(bytes)
      ensures !overrun && ok ==> !Valid() && Garbled()
    {
      hide EncodeField, EncodeFields, Resized, RawWrites, RawField, ReadInfo, FieldsOk;
      ValueLimit(|value|);
      ghost var b, stem := bytes, Stem(name, nsize);
      StemNoNul(name, nsize);
      EachOf(fs);
      RawLength(stem, value);
      RawReady(b, lead, fs, body, stem, value);
      var fsize := 4 + nsize + vsize;
      ok := SetRegion(p, 0);
      ok := ResizeSeq(fsize, room);
      if ok {
        WriteField(p, name, nsize, value, vsize);
        info := info.(fields := info.fields + 1, hsize := info.hsize + fsize);
        if !overrun {
          GarbledBy(bytes, lead, fs, body, stem, value);
        }
      }
    }

    /** Find the place of a name whose sizes have been accepted, and store the field there. */
    method StoreNamed(name: seq<byte>, nsize: nat, value: seq<byte>, vsize: nat, room: bool) returns (r: int)
      requires Valid() && NoNul(name) && nsize == (|name| + 1) % TWO32 && nsize <= MAX_NSIZE
      requires |value| < TWO32 && vsize == (|value| + 1) % TWO32 && vsize <= MAX_VSIZE
      modifies `bytes, `roff, `rlen, `info, `fs, `overrun
      ensures overrun <==> PutOverruns(old(fs), body, name, value, room)
      ensures !overrun ==> (r == -1 <==> !PutAccepted(old(fs), Some(name), value, room))
      ensures !overrun ==> (Valid() <==> !(r != -1 && NameSlips(|name|)))
      ensures !overrun && r == -1 ==> fs == old(fs) && bytes == old(bytes)
      ensures !overrun && r != -1 && !NameSlips(|name|) ==>
        fs == PutField(old(fs), Field(name, value)) && r == Find(old(fs), name)
      ensures !overrun && r != -1 && NameSlips(|name|) ==> Garbled()
    {
      hide EncodeField, EncodeFields, ReadInfo, PutField, FieldsOk, NoNul, Garbled, FieldOverruns, SlipOverruns;
      NameLimit(|name|);
      ValueLimit(|value|);
      var ok := SetRegion(LEADER_SIZE, info.hsize);
      var off, n := OffsetP(name);
      var p := LEADER_SIZE + off;
      EachOf(fs);
      if |name| + 1 != nsize {
        LongNameMissing(fs, name);
        EncodeFieldParts(Field(name, value), []);
        assert fs[..|fs|] == fs;
        ok := StoreSlipped(p, name, nsize, value, vsize, room);
        return if ok then n else -1;
      }
      var orig := 0;
      if n != info.fields {
        FieldIn(bytes, lead, fs, body, n);
        orig := FieldSizeAt(bytes, p);
      }
      ok := StoreField(p, n, orig, name, value, vsize, room);
      r := if ok then n else -1;
    }

    /**
     * Put a field by name: in place of the field with this name in any case, or at the end; yields its ordinal. The
     * copies leave the buffer exactly when the new archive needs more than 32 bits, or the incremented value size does.
     * A name whose incremented size wraps is stored without its terminator, and the fields are lost.
     */
    method PutFieldP(name: Option<seq<byte>>, value: seq<byte>, room: bool) returns (r: int)
      requires Valid() && |value| < TWO32 && (name.Some? ==> NoNul(name.value))
      modifies `bytes, `roff, `rlen, `info, `fs, `overrun
      ensures overrun <==> name.Some? && PutOverruns(old(fs), body, name.value, value, room)
      ensures !overrun ==> (r == -1 <==> !PutAccepted(old(fs), name, value, room))
      ensures !overrun ==> (Valid() <==> !(r != -1 && NameSlips(|name.value|)))
      ensures !overrun && r == -1 ==> fs == old(fs) && bytes == old(bytes)
      ensures !overrun && r != -1 && !NameSlips(|name.value|) ==>
        fs == PutField(old(fs), Field(name.value, value)) && r == Find(old(fs), name.value)
      ensures !overrun && r != -1 && NameSlips(|name.value|) ==> Garbled()
      ensures !overrun && name.Some? && Valid() ==>
        Answers(old(State()), Event(Request.PutNamed(name.value, value), r != -1), State())
    {
      hide EncodeField, EncodeFields, ReadInfo, PutField, FieldsOk, NoNul, Garbled;
      ValueLimit(|value|);
      if name.None? {
        return -1;
      }
      var nsize := (|name.value| + 1) % TWO32;
      NameLimit(|name.value|);
      var vsize := (|value| + 1) % TWO32;
      if MAX_NSIZE < nsize {
        return -1;
      }
      if MAX_VSIZE < vsize {
        return -1;
      }
      r := StoreNamed(name.value, nsize, value, vsize, room);
    }

    // ----- the body

    /**
     * Bring the body to n bytes, cutting it only if told to; new bytes are zero. The region is then the body.
     * Clearing the new bytes leaves the buffer exactly when the archive would need more than 32 bits.
     */
    method ResizeBody(n: nat, trunc: bool, room: bool) returns (ok: bool)
      requires Valid() && n < TWO32
      modifies `bytes, `roff, `rlen, `info, `body, `overrun
      ensures overrun <==> !BodyFits(fs, old(body), n)
      ensures !overrun ==> Valid() && (ok <==> room || n <= |old(body)|)
      ensures !overrun && ok ==> body == if n > |old(body)| || trunc then FileResize(old(body), n) else old(body)
      ensures !overrun && !ok ==> body == old(body) && bytes == old(bytes)
      ensures ok ==> roff == LEADER_SIZE + |EncodeFields(fs)|
      ensures |bytes| < TWO32
    {
      hide EncodeFields, ReadInfo, FieldsOk, Resized, Patch, FileResize;
      ok := SetRegion(LEADER_SIZE + info.hsize, info.bsize);
      ResizeBodyIs(bytes, lead, EncodeFields(fs), body, n);
      if info.bsize == n || (info.bsize > n && !trunc) {
        return true;
      }
      ok := ResizeSeq(n, room);
      if !ok {
        return false;
      }
      if info.bsize < n {
        MemCpy(roff + info.bsize, Zeros(n - info.bsize));
      }
      info := info.(bsize := n);
      body := FileResize(body, n);
    }

    method SetContent(data: seq<byte>, room: bool) returns (r: int)
      requires Valid() && |data| < TWO32
      modifies `bytes, `roff, `rlen, `info, `body, `overrun
      ensures overrun <==> Writable(access) && !BodyFits(fs, old(body), |data|)
      ensures !overrun ==> Valid()
      ensures !overrun ==> if Writable(access) && (room || |data| <= |old(body)|) then r == 0 && body == data
        else r == -1 && body == old(body) && bytes == old(bytes)
      ensures !overrun ==> Answers(old(State()), Event(Request.SetContent(data), r == 0), State())
    {
      hide EncodeFields, ReadInfo, FieldsOk, Patch, BodyFits;
      if !Writable(access) {
        return -1;
      }
      var ok := ResizeBody(|data|, true, room);
      if !ok {
        return -1;
      }
      if !overrun {
        BodyPatched(lead, EncodeFields(fs), body, 0, data);
        PatchAll(body, data);
      }
      MemCpy(roff, data);
      body := data;
      r := 0;
    }

    method Truncate(n: nat, room: bool) returns (r: int)
      requires Valid() && n < TWO32
      modifies `bytes, `roff, `rlen, `info, `body, `overrun
      ensures overrun <==> Writable(access) && !BodyFits(fs, old(body), n)
      ensures !overrun ==> Valid()
      ensures !overrun ==>
        if Writable(access) && (room || n <= |old(body)|) then r == 0 && body == FileResize(old(body), n)
        else r == -1 && body == old(body) && bytes == old(bytes)
      ensures !overrun ==> Answers(old(State()), Event(Request.Truncate(n), r == 0), State())
    {
      hide EncodeFields, ReadInfo, FieldsOk, BodyFits;
      if !Writable(access) {
        return -1;
      }
      var ok := ResizeBody(n, true, room);
      SameResize(old(body), n);
      r := if ok then 0 else -1;
    }

    /** Move the offset; only its low 32 bits are kept, though the whole position is returned. */
    method Seek(off: int, whence: int) returns (r: int)
      requires Valid() && -TWO63 <= off < TWO63
      requires (whence == 1 ==> offset + off < TWO63) && (whence == 2 ==> |body| + off < TWO63)
      modifies `offset
      ensures Valid()
      ensures var base := if whence == 0 then 0 else if whence == 1 then old(offset) else |body|;
        if 0 <= whence <= 2 && 0 <= base + off then r == base + off && offset == r % TWO32
          else r == -1 && offset == old(offset)
      ensures Answers(old(State()), Event(Request.Seek(off, whence), r != -1), State())
    {
      hide EncodeFields, ReadInfo, FieldsOk;
      var local;
      if whence == 0 {
        local := off;
      } else if whence == 1 {
        local := offset + off;
      } else if whence == 2 {
        local := info.bsize + off;
      } else {
        return -1;
      }
      if local < 0 {
        return -1;
      }
      offset := local % TWO32;
      r := local;
    }

    /** Where a write goes: the offset, or the end in append mode. */
    function WriteAt(): nat
      reads this
    {
      if append && 0 <= info.bsize then info.bsize else offset
    }

    /**
     * Write at an offset of the body. A copy leaves the buffer exactly when the end of the write, or the archive grown
     * to it, needs more than 32 bits; unless growing to the wrapped end already fails for lack of room.
     */
    method WriteBody(o: nat, data: seq<byte>, room: bool) returns (r: int)
      requires Valid() && o < TWO32 && |data| < TWO32
      modifies `bytes, `roff, `rlen, `info, `body, `overrun
      ensures overrun <==> WriteOverruns(fs, old(body), o, |data|, room)
      ensures !overrun ==> Valid()
      ensures !overrun ==>
        if WriteAccepted(fs, old(body), o, |data|, room) then r == |data| && body == FileWrite(old(body), o, data)
        else r == -1 && body == old(body) && bytes == old(bytes)
    {
      hide EncodeFields, ReadInfo, FieldsOk, Patch;
      var len := |data|;
      var n := WrappedEnd(o, len);
      EndWraps(o, len);
      var ok := ResizeBody(n, false, room);
      if !ok {
        return -1;
      }
      if !overrun && n == o + len {
        ExtendedIs(old(body), o + len);
        WriteIs(old(body), o, data, 0);
        BodyPatched(lead, EncodeFields(fs), body, o, data);
      }
      MemCpy(roff + o, data);
      body := if n == o + len then FileWrite(old(body), o, data) else body;
      r := len;
    }

    method Write(data: seq<byte>, room: bool) returns (r: int)
      requires Valid() && |data| < TWO32
      modifies `bytes, `roff, `rlen, `info, `body, `offset, `overrun
      ensures var o := old(WriteAt());
        && (overrun <==> Writable(access) && WriteOverruns(fs, old(body), o, |data|, room))
        && (!overrun ==> Valid())
        && (!overrun ==>
              if Writable(access) && WriteAccepted(fs, old(body), o, |data|, room)
              then r == |data| && body == FileWrite(old(body), o, data) && offset == o + |data|
              else
                r == -1 && body == old(body) && bytes == old(bytes)
                && offset == (if Writable(access) then o else old(offset)))
      ensures !overrun ==> Answers(old(State()), Event(Request.Write(data), r != -1), State())
    {
      hide EncodeFields, ReadInfo, FieldsOk, FileWrite;
      if !Writable(access) {
        return -1;
      }
      if append {
        r := Seek(0, 2);
        SeekEnd(info.bsize);
      }
      r := WriteBody(offset, data, room);
      if 0 < r {
        offset := (offset + r) % TWO32;
      }
    }

    method Read(n: nat) returns (r: int, data: seq<byte>)
      requires Valid()
      modifies `roff, `rlen, `offset
      ensures Valid()
      ensures if Readable(access) then data == FileRead(body, old(offset), n) && r == |data|
        && offset == old(offset) + |data|
        else r == -1 && data == [] && offset == old(offset)
      ensures Answers(old(State()), Event(Request.Read(n), r != -1), State())
    {
      hide EncodeFields, ReadInfo, FieldsOk;
      if !Readable(access) {
        return -1, [];
      }
      var bsize, len := info.bsize, n;
      if len == 0 || bsize <= offset {
        return 0, [];
      }
      bsize := bsize - offset;
      if bsize < len {
        len := bsize;
      }
      var ok := SetRegion(LEADER_SIZE + info.hsize, info.bsize);
      BodyRead(bytes, lead, EncodeFields(fs), body, offset, len);
      data := bytes[roff + offset..roff + offset + len];
      r := len;
      offset := offset + r;
    }

    // ----- opening and releasing

    constructor (b: seq<byte>, i: Info, mode: int, app: bool, ghost l: seq<byte>, ghost t: seq<Field>,
            ghost d: seq<byte>)
      ensures bytes == b && info == i && access == mode && append == app && offset == 0 && !overrun
      ensures lead == l && fs == t && body == d
    {
      access, append := mode, app;
      bytes, info, offset, roff, rlen, overrun := b, i, 0, 0, 0, false;
      lead, fs, body := l, t, d;
    }

    /** Write the cached counts and sizes into the leader. */
    method SetInfo()
      requires Valid()
      modifies `bytes, `roff, `rlen, `lead, `overrun
      ensures Valid() && lead == Leader(info)
      ensures LeaderSays(lead, PROTO, |fs| % TWO16, |EncodeFields(fs)|, |body|)
    {
      hide EncodeFields, FieldsOk, ReadInfo, Patch, Leader, Encode16, Encode32, LeaderSays;
      var ok := SetRegion(0, LEADER_SIZE);
      LeaderLengths(bytes, info);
      LeaderWrites(bytes, lead, EncodeFields(fs), body, info);
      InfoFits(fs, body);
      MemCpy(roff, Magic());
      MemCpy(roff + 4, Encode16(info.proto));
      MemCpy(roff + 6, Encode16(info.fields));
      MemCpy(roff + 8, Encode32(info.hsize));
      MemCpy(roff + 12, Encode32(info.bsize));
      lead := Leader(info);
      LeaderWritten(info);
    }

    /** Release: a writable archive whose cached info differs from its leader writes it back. Yields the bytes left. */
    method Release() returns (image: seq<byte>)
      requires Valid()
      modifies `bytes, `roff, `rlen, `lead, `overrun
      ensures Valid() && image == bytes && (Writable(access) ==> image == Image(fs, body))
        && (!Writable(access) ==> image == old(bytes))
      ensures Writable(access) ==> ImageSays(image, fs, body)
    {
      hide EncodeFields, FieldsOk, EachOk, Leader, ImageSays;
      EachOf(fs);
      ImageBytes(fs, body);
      if Writable(access) {
        var (magic, local) := ReadInfo(bytes);
        LeaderOnly(bytes, lead, EncodeFields(fs), body);
        if magic {
          if local != info {
            SetInfo();
          } else {
            LeaderIs(lead, info);
          }
        }
      }
      image := bytes;
    }

    /**
     * Open the bytes of an archive, or make an empty one of fewer bytes than a leader; null when they do not begin with
     * the magic number and protocol 3, or when there is no room for a leader.
     */
    static method Open(b: seq<byte>, mode: int, app: bool, room: bool, ghost t: seq<Field>, ghost d: seq<byte>)
            returns (m: Mar?)
      ensures m == null <==>
        if |b| >= 16 then
          !(Octet(b, 0) == 109 && Octet(b, 1) == 97 && Octet(b, 2) == 114 && Octet(b, 3) == 0
            && 256 * Octet(b, 4) + Octet(b, 5) == 3)
        else !room
      ensures m != null ==> fresh(m) && m.access == mode && m.append == app && m.offset == 0
      ensures m != null && |b| < LEADER_SIZE ==>
        m.Valid() && m.fs == [] && m.body == [] && ImageSays(m.bytes, [], [])
      ensures m != null && |b| >= 16 ==>
        m.bytes == b && m.info == Info(3, Number16(b, 6), Number32(b, 8), Number32(b, 12))
      ensures b == Image(t, d) && FieldsOk(t) && Fits(t, d) && |t| < TWO16 ==>
        m != null && m.Valid() && m.fs == t && m.body == d
    {
      hide EncodeFields, FieldsOk, Leader, ReadInfo, ImageSays;
      OpenReads(t, d);
      if |b| >= LEADER_SIZE {
        LeaderRead(b);
        var (magic, info) := ReadInfo(b);
        if !magic || info.proto != PROTO {
          return null;
        }
        m := new Mar(b, info, mode, app, Leader(InfoOf(t, d)), t, d);
      } else {
        if !room {
          return null;
        }
        var info := Info(PROTO, 0, 0, 0);
        OpenEmpty();
        ImageBytes([], []);
        m := new Mar(Leader(info), info, mode, app, Leader(info), [], []);
      }
    }
  }

  lemma NameHere(fs: seq<Field>, n: nat)
    requires EachOk(fs) && n < |fs|
    ensures NoNul(fs[n].name) && FieldOk(fs[n])
  {
    assert fs[n] in fs;
  }

  lemma EncodeNone(fs: seq<Field>)
    ensures EncodeFields(fs[..0]) == []
  {}

  /** The moves of a resize: grow and shift, or shift and cut. */
  lemma ResizedMoves(b: seq<byte>, off: nat, len: nat, size: nat, tail: nat)
    requires off + len + tail == |b|
    ensures var n, behind := |b| + size - len, b[|b| - tail..];
      && (size > len ==> Patch(b + Zeros(size - len), n - tail, behind) == Resized(b, off, len, size))
      && (size < len ==> Patch(b, n - tail, behind)[..n] == Resized(b, off, len, size))
      && (size == len ==> b == Resized(b, off, len, size))
  {}

  /** Cutting bytes out of the table. */
  lemma CutRegion(b: seq<byte>, lead: seq<byte>, e: seq<byte>, body: seq<byte>, off: nat, len: nat)
    requires b == lead + e + body && |lead| == LEADER_SIZE && off + len <= |e|
    ensures Resized(b, LEADER_SIZE + off, len, 0) == lead + Replace(e, off, len, []) + body
  {
    ReplaceInside(lead, e, body, off, len, []);
    ResizedFilled(b, LEADER_SIZE + off, len, []);
    var r := Resized(b, LEADER_SIZE + off, len, 0);
    assert Patch(r, LEADER_SIZE + off, []) == r;
  }

  lemma SliceOf(b: seq<byte>, at: nat, s: seq<byte>, rest: seq<byte>)
    requires at <= |b| && b[at..] == s + rest
    ensures at + |s| <= |b| && b[at..at + |s|] == s
  {
    assert b[at..at + |s|] == b[at..][..|s|];
  }

  // ----- when a copy leaves the buffer

  /** The archive with a body extended to n bytes has a 32-bit size. */
  ghost predicate BodyFits(fs: seq<Field>, body: seq<byte>, n: int) {
    LEADER_SIZE + |EncodeFields(fs)| + Larger(|body|, n) < TWO32
  }

  /** Growing to the wrapped end of a write fails when there is no room. */
  ghost predicate WriteFails(fs: seq<Field>, body: seq<byte>, o: nat, len: nat, room: bool) {
    !room && |body| < WrappedEnd(o, len) && BodyFits(fs, body, WrappedEnd(o, len))
  }

  ghost predicate WriteOverruns(fs: seq<Field>, body: seq<byte>, o: nat, len: nat, room: bool) {
    !BodyFits(fs, body, o + len) && !WriteFails(fs, body, o, len, room)
  }

  ghost predicate WriteAccepted(fs: seq<Field>, body: seq<byte>, o: nat, len: nat, room: bool) {
    room || o + len <= |body|
  }

  ghost predicate ValueOverruns(fs: seq<Field>, body: seq<byte>, n: nat, value: seq<byte>) {
    && n < |fs|
    && (|value| == TWO32 - 1 || (|value| + 1 <= MAX_VSIZE && !Fits(fs[n := Field(fs[n].name, value)], body)))
  }

  /** The total size after the field at the ordinal of the name has become size bytes. */
  ghost function PutTotal(fs: seq<Field>, body: seq<byte>, name: seq<byte>, size: int): int {
    LEADER_SIZE + |EncodeFields(fs)| + |body| - OldSize(fs, Find(fs, name)) + size
  }

  ghost predicate FieldOverruns(fs: seq<Field>, body: seq<byte>, name: seq<byte>, value: seq<byte>, room: bool) {
    var least := 4 + |name| + 1;
    || (|value| + 1 <= MAX_VSIZE && !Fits(PutField(fs, Field(name, value)), body))
    || (|value| == TWO32 - 1 && (room || least <= OldSize(fs, Find(fs, name))
       || TWO32 <= PutTotal(fs, body, name, least)))
  }

  /** The bytes of a name and its terminator that a put copies. */
  function Stem(name: seq<byte>, nsize: nat): seq<byte>
    requires nsize <= |name| + 1
  {
    (name + [0])[..nsize]
  }

  /** The same for a name whose incremented size has wrapped; it is in no table, so the field goes behind the last. */
  ghost predicate SlipOverruns(fs: seq<Field>, body: seq<byte>, len: nat, value: seq<byte>, room: bool) {
    var vsize := (|value| + 1) % TWO32;
    && vsize <= MAX_VSIZE
    && (TWO32 <= LEADER_SIZE + |EncodeFields(fs)| + |body| + 4 + (len + 1) % TWO32 + vsize
      || (|value| == TWO32 - 1 && room))
  }

  ghost predicate PutOverruns(fs: seq<Field>, body: seq<byte>, name: seq<byte>, value: seq<byte>, room: bool) {
    if NameSlips(|name|) then SlipOverruns(fs, body, |name|, value, room)
    else |name| + 1 <= MAX_NSIZE && FieldOverruns(fs, body, name, value, room)
  }

  lemma StemNoNul(name: seq<byte>, nsize: nat)
    requires NoNul(name) && nsize <= |name|
    ensures |Stem(name, nsize)| == nsize && NoNul(Stem(name, nsize))
  {
    var s := Stem(name, nsize);
    assert s == name[..nsize];
    forall x | x in s ensures x != 0 {
      assert x in name;
    }
  }

  /** A field stored behind the table. */
  lemma RawReady(b: seq<byte>, lead: seq<byte>, fs: seq<Field>, body: seq<byte>, stem: seq<byte>, value: seq<byte>)
    requires b == lead + EncodeFields(fs) + body && |lead| == LEADER_SIZE
    ensures var p, size := LEADER_SIZE + |EncodeFields(fs)|, 4 + |stem| + |value| + 1;
      var r := Resized(b, p, 0, size);
      && |r| == |b| + size && p + size <= |r|
      && RawWrites(r, p, stem, value) == lead + (EncodeFields(fs) + RawField(stem, value)) + body
  {
    hide EncodeFields, Resized, RawWrites, RawField;
    var a, size := lead + EncodeFields(fs), 4 + |stem| + |value| + 1;
    RawLength(stem, value);
    ResizedKeeps(b, |a|, 0, size);
    var r := Resized(b, |a|, 0, size);
    Ends(a, body);
    assert b[..|a|] == a && b[|a|..] == body;
    assert r == a + r[|a|..|a| + size] + body;
    RawWritesIs(a, r[|a|..|a| + size], body, stem, value);
    assert a + RawField(stem, value) + body == lead + (EncodeFields(fs) + RawField(stem, value)) + body;
  }

  lemma GarbledBy(b: seq<byte>, lead: seq<byte>, fs: seq<Field>, body: seq<byte>, stem: seq<byte>, value: seq<byte>)
    requires b == lead + (EncodeFields(fs) + RawField(stem, value)) + body && EachOk(fs)
    requires NoNul(stem) && |stem| <= MAX_NSIZE
    ensures forall gs: seq<Field> {:trigger EncodeFields(gs)} :: EachOk(gs) ==> b != lead + EncodeFields(gs) + body
  {
    hide EncodeFields, RawField;
    forall gs: seq<Field> | EachOk(gs) ensures b != lead + EncodeFields(gs) + body {
      NoTable(fs, stem, value, gs);
      MiddleApart(lead, EncodeFields(gs), EncodeFields(fs) + RawField(stem, value), body);
    }
  }

  lemma MiddleOf(a: seq<byte>, x: seq<byte>, z: seq<byte>)
    ensures (a + x + z)[|a|..|a + x + z| - |z|] == x
  {}

  lemma MiddleApart(a: seq<byte>, x: seq<byte>, y: seq<byte>, z: seq<byte>)
    requires x != y
    ensures a + x + z != a + y + z
  {
    MiddleOf(a, x, z);
    MiddleOf(a, y, z);
  }

  lemma StemWrites(b: seq<byte>, p: nat, f: Field)
    ensures Stem(f.name, |f.name| + 1) == f.name + [0]
    ensures |EncodeField(f)| == 4 + |f.name| + 1 + |f.value| + 1
    ensures p + |EncodeField(f)| <= |b| ==>
      RawWrites(b, p, Stem(f.name, |f.name| + 1), f.value) == FieldWrites(b, p, f)
  {
    hide RawWrites;
  }

  /** The total size decides whether a put by name overruns. */
  lemma FieldOutcome(fs: seq<Field>, body: seq<byte>, name: seq<byte>, value: seq<byte>, vsize: int, room: bool)
    requires NoNul(name) && |name| + 1 <= MAX_NSIZE && |value| < TWO32 && vsize == (|value| + 1) % TWO32
      && vsize <= MAX_VSIZE
    ensures var f, total := Field(name, value), PutTotal(fs, body, name, 4 + |name| + 1 + vsize);
      && (|value| + 1 <= MAX_VSIZE ==>
         vsize == |value| + 1 && FieldOk(f) && (Fits(PutField(fs, f), body) <==> total < TWO32))
      && (|value| + 1 <= MAX_VSIZE ==> (FieldOverruns(fs, body, name, value, room) <==> TWO32 <= total))
      && (MAX_VSIZE < |value| + 1 ==> vsize == 0 && |value| == TWO32 - 1)
      && (MAX_VSIZE < |value| + 1 ==> (FieldOverruns(fs, body, name, value, room)
            <==> room || 4 + |name| + 1 + vsize <= OldSize(fs, Find(fs, name)) || TWO32 <= total))
  {
    hide EncodeField, PutField;
    ValueLimit(|value|);
    TotalOf(fs, body, Field(name, value));
  }

  lemma TotalOf(fs: seq<Field>, body: seq<byte>, f: Field)
    ensures PutTotal(fs, body, f.name, |EncodeField(f)|) == LEADER_SIZE + |EncodeFields(PutField(fs, f))| + |body|
    ensures |EncodeField(f)| == 4 + |f.name| + 1 + |f.value| + 1
  {
    hide EncodeField;
    EncodeFieldParts(f, []);
    PutEncodes(fs, f);
    ReplaceSize(EncodeFields(fs), |EncodeFields(fs[..Find(fs, f.name)])|, OldSize(fs, Find(fs, f.name)),
      EncodeField(f));
  }

  /** The place and the sizes of a put by ordinal. */
  lemma PutValueSizes(b: seq<byte>, lead: seq<byte>, fs: seq<Field>, body: seq<byte>, n: nat, value: seq<byte>)
    requires b == lead + EncodeFields(fs) + body && |lead| == LEADER_SIZE && FieldsOk(fs) && Fits(fs, body) && n < |fs|
    ensures var p, len, g, ns := Position(fs, n), |EncodeField(fs[n])|, Field(fs[n].name, value), |fs[n].name| + 1;
      var fs' := fs[n := g];
      && p + len <= |b| < TWO32 && len == 4 + ns + |fs[n].value| + 1 && |EncodeField(g)| == 4 + ns + |value| + 1
      && |EncodeFields(fs')| == |EncodeFields(fs)| - len + |EncodeField(g)| && |fs'| == |fs|
      && |b| - len + |EncodeField(g)| == LEADER_SIZE + |EncodeFields(fs')| + |body|
  {
    hide EncodeField;
    var g := Field(fs[n].name, value);
    FieldPlace(b, lead, fs, body, n);
    EncodeFieldParts(g, []);
    EncodeFieldParts(fs[n], []);
    ReplaceEncodes(fs, n, g);
    ReplaceSize(EncodeFields(fs), |EncodeFields(fs[..n])|, |EncodeField(fs[n])|, EncodeField(g));
  }

  /** Everything a put by ordinal relies on and leaves. */
  lemma PutValueReady(b: seq<byte>, lead: seq<byte>, fs: seq<Field>, body: seq<byte>, n: nat, value: seq<byte>)
    requires b == lead + EncodeFields(fs) + body && |lead| == LEADER_SIZE && FieldsOk(fs) && Fits(fs, body)
    requires n < |fs| && |value| + 1 <= MAX_VSIZE
    ensures Position(fs, n) + |EncodeField(fs[n])| <= |b|
    ensures var p, len, g, ns := Position(fs, n), |EncodeField(fs[n])|, Field(fs[n].name, value), |fs[n].name| + 1;
      var r, fs' := Resized(b, p, len, |EncodeField(g)|), fs[n := g];
      && |r| == |b| - len + |EncodeField(g)| && p + |EncodeField(g)| <= |r| && |EncodeField(g)| == 4 + ns + |value| + 1
      && ValueWrites(r, p, ns, value) == lead + EncodeFields(fs') + body && FieldsOk(fs')
  {
    hide EncodeField, Resized, ValueWrites;
    var g := Field(fs[n].name, value);
    PutValueSizes(b, lead, fs, body, n, value);
    FieldPlace(b, lead, fs, body, n);
    ResizedKeeps(b, Position(fs, n), |EncodeField(fs[n])|, |EncodeField(g)|);
    PutValueWrites(b, Position(fs, n), fs[n], value);
    ReplaceEncodes(fs, n, g);
    ReplaceInside(lead, EncodeFields(fs), body, |EncodeFields(fs[..n])|, |EncodeField(fs[n])|, EncodeField(g));
    PutValueOk(fs, n, value);
  }

  lemma ReplaceSize(b: seq<byte>, off: nat, len: nat, s: seq<byte>)
    requires off + len <= |b|
    ensures |Replace(b, off, len, s)| == |b| - len + |s|
  {}

  /** The bytes of field n in the buffer. */
  lemma FieldPlace(b: seq<byte>, lead: seq<byte>, fs: seq<Field>, body: seq<byte>, n: nat)
    requires b == lead + EncodeFields(fs) + body && |lead| == LEADER_SIZE && n < |fs|
    ensures var p, len := Position(fs, n), |EncodeField(fs[n])|; p + len <= |b| && b[p..p + len] == EncodeField(fs[n])
  {
    hide EncodeField, EncodeFields;
    FieldAt(fs, n);
    var a, e, z := lead + EncodeFields(fs[..n]), EncodeField(fs[n]), EncodeFields(fs[n + 1..]) + body;
    assert b == a + (e + z);
    Ends(a, e + z);
    Ends(e, z);
    assert b[|a|..|a| + |e|] == b[|a|..][..|e|];
  }

  /** The encoded size of the field a put replaces, 0 when it adds one. */
  function OldSize(fs: seq<Field>, n: nat): nat {
    if n < |fs| then |EncodeField(fs[n])| else 0
  }

  /** When a put by name succeeds: a name, sizes that 16 bits can hold, and room if the table must grow. */
  ghost predicate PutAccepted(fs: seq<Field>, name: Option<seq<byte>>, value: seq<byte>, room: bool) {
    && name.Some? && (|name.value| + 1 <= MAX_NSIZE || NameSlips(|name.value|)) && |value| + 1 <= MAX_VSIZE
    && (room || |EncodeField(Field(name.value, value))| <= OldSize(fs, Find(fs, name.value)))
  }

  /** The place and the sizes of a put by name. */
  lemma PutSizes(b: seq<byte>, lead: seq<byte>, fs: seq<Field>, body: seq<byte>, f: Field)
    requires b == lead + EncodeFields(fs) + body && |lead| == LEADER_SIZE && Fits(fs, body)
    ensures var n := Find(fs, f.name);
      var p, len, size, fs' := Position(fs, n), OldSize(fs, n), |EncodeField(f)|, PutField(fs, f);
      && p + len <= |b| < TWO32 && size == 4 + |f.name| + 1 + |f.value| + 1
      && |EncodeFields(fs')| == |EncodeFields(fs)| - len + size && |fs'| == (if n < |fs| then |fs| else |fs| + 1)
      && |b| == LEADER_SIZE + |EncodeFields(fs)| + |body|
      && |b| - len + size == LEADER_SIZE + |EncodeFields(fs')| + |body|
  {
    hide EncodeField;
    var n := Find(fs, f.name);
    PutPlace(b, lead, fs, body, n);
    EncodeFieldParts(f, []);
    PutEncodes(fs, f);
    ReplaceSize(EncodeFields(fs), |EncodeFields(fs[..n])|, OldSize(fs, n), EncodeField(f));
  }

  lemma PutEncodes(fs: seq<Field>, f: Field)
    ensures var n := Find(fs, f.name);
      && |EncodeFields(fs[..n])| + OldSize(fs, n) <= |EncodeFields(fs)|
      && Replace(EncodeFields(fs), |EncodeFields(fs[..n])|, OldSize(fs, n), EncodeField(f)) ==
         EncodeFields(PutField(fs, f))
  {
    hide EncodeField;
    var n := Find(fs, f.name);
    if n < |fs| {
      ReplaceEncodes(fs, n, f);
    } else {
      AppendEncodes(fs, f);
      assert fs[..n] == fs;
    }
  }

  /** Everything a put by name relies on and leaves. */
  lemma PutReady(b: seq<byte>, lead: seq<byte>, fs: seq<Field>, body: seq<byte>, f: Field)
    requires b == lead + EncodeFields(fs) + body && |lead| == LEADER_SIZE && FieldsOk(fs) && Fits(fs, body)
      && FieldOk(f)
    ensures Position(fs, Find(fs, f.name)) + OldSize(fs, Find(fs, f.name)) <= |b|
    ensures var n := Find(fs, f.name);
      var p, len, size := Position(fs, n), OldSize(fs, n), |EncodeField(f)|;
      var r, fs' := Resized(b, p, len, size), PutField(fs, f);
      && |r| == |b| - len + size && p + size <= |r|
      && FieldWrites(r, p, f) == lead + EncodeFields(fs') + body && FieldsOk(fs')
  {
    hide EncodeField, Resized, FieldWrites;
    var n := Find(fs, f.name);
    PutFieldOk(fs, f);
    PutPlace(b, lead, fs, body, n);
    PutEncodes(fs, f);
    var p, len := Position(fs, n), OldSize(fs, n);
    ResizedKeeps(b, p, len, |EncodeField(f)|);
    PutWrites(b, p, len, f);
    ReplaceInside(lead, EncodeFields(fs), body, |EncodeFields(fs[..n])|, len, EncodeField(f));
  }

  lemma PutPlace(b: seq<byte>, lead: seq<byte>, fs: seq<Field>, body: seq<byte>, n: nat)
    requires b == lead + EncodeFields(fs) + body && |lead| == LEADER_SIZE && n <= |fs|
    ensures Position(fs, n) + OldSize(fs, n) + |body| <= |b|
      && |EncodeFields(fs[..n])| + OldSize(fs, n) <= |EncodeFields(fs)|
  {
    hide EncodeField, EncodeFields;
    if n < |fs| {
      FieldAt(fs, n);
    } else {
      assert fs[..n] == fs;
    }
  }

  /** Resizing the last region and clearing what is new. */
  lemma ResizeBodyIs(b: seq<byte>, lead: seq<byte>, e: seq<byte>, body: seq<byte>, n: nat)
    requires b == lead + e + body
    ensures |lead + e| + |body| == |b| && |FileResize(body, n)| == n
    ensures var p := |lead + e|;
      var r := Resized(b, p, |body|, n);
      && |r| == p + n
      && (n <= |body| ==> r == lead + e + FileResize(body, n))
      && (n == |body| ==> FileResize(body, n) == body)
      && (n > |body| ==> Patch(r, p + |body|, Zeros(n - |body|)) == lead + e + FileResize(body, n))
  {
    var p := |lead + e|;
    ResizedKeeps(b, p, |body|, n);
    var r := Resized(b, p, |body|, n);
    if n > |body| {
      assert r[..p + |body|] == b;
      assert Patch(r, p + |body|, Zeros(n - |body|)) == b + Zeros(n - |body|);
    } else {
      assert r[..p + n] == b[..p + n];
    }
  }

  lemma SameResize(body: seq<byte>, n: nat)
    ensures n == |body| ==> FileResize(body, n) == body
  {}

  lemma ExtendedIs(body: seq<byte>, n: nat)
    ensures Extended(body, n) == if n > |body| then FileResize(body, n) else body
  {}

  lemma SeekEnd(n: int)
    ensures 0 <= n < TWO32 ==> (n + 0) % TWO32 == n
  {}

  lemma BodyPatched(lead: seq<byte>, e: seq<byte>, body: seq<byte>, o: nat, d: seq<byte>)
    requires o + |d| <= |body|
    ensures |lead + e| + o + |d| <= |lead + e + body|
    ensures Patch(lead + e + body, |lead + e| + o, d) == lead + e + Patch(body, o, d)
  {}

  lemma PatchAll(body: seq<byte>, d: seq<byte>)
    requires |d| == |body|
    ensures Patch(body, 0, d) == d
  {}

  lemma BodyRead(b: seq<byte>, lead: seq<byte>, e: seq<byte>, body: seq<byte>, o: nat, n: nat)
    requires b == lead + e + body && o + n <= |body|
    ensures |lead + e| + o + n <= |b| && b[|lead + e| + o..|lead + e| + o + n] == body[o..o + n]
  {}

  lemma LeaderPatched(l: seq<byte>, i: Info)
    requires |l| == LEADER_SIZE
    ensures Patch(Patch(Patch(Patch(Patch(l, 0, Magic()), 4, Encode16(i.proto)), 6, Encode16(i.fields)), 8,
      Encode32(i.hsize)), 12, Encode32(i.bsize)) == Leader(i)
  {
    var m, p, f, h, b := Magic(), Encode16(i.proto), Encode16(i.fields), Encode32(i.hsize), Encode32(i.bsize);
    PatchTwice(l, 0, m, p);
    PatchTwice(l, 0, m + p, f);
    PatchTwice(l, 0, m + p + f, h);
    PatchTwice(l, 0, m + p + f + h, b);
    PatchAll(l, m + p + f + h + b);
  }

  lemma PatchFront(l: seq<byte>, z: seq<byte>, at: nat, s: seq<byte>)
    requires at + |s| <= |l|
    ensures Patch(l + z, at, s) == Patch(l, at, s) + z && |Patch(l, at, s)| == |l|
  {}

  /** The five writes of the leader. */
  lemma LeaderWrites(b: seq<byte>, lead: seq<byte>, e: seq<byte>, body: seq<byte>, i: Info)
    requires b == lead + e + body && |lead| == LEADER_SIZE
    ensures |b| >= LEADER_SIZE
    ensures Patch(Patch(Patch(Patch(Patch(b, 0, Magic()), 4, Encode16(i.proto)), 6, Encode16(i.fields)), 8,
      Encode32(i.hsize)), 12, Encode32(i.bsize))
      == Leader(i) + e + body
  {
    hide Patch, Leader;
    var z := e + body;
    assert b == lead + z && Leader(i) + e + body == Leader(i) + z;
    PatchFront(lead, z, 0, Magic());
    var l1 := Patch(lead, 0, Magic());
    PatchFront(l1, z, 4, Encode16(i.proto));
    var l2 := Patch(l1, 4, Encode16(i.proto));
    PatchFront(l2, z, 6, Encode16(i.fields));
    var l3 := Patch(l2, 6, Encode16(i.fields));
    PatchFront(l3, z, 8, Encode32(i.hsize));
    var l4 := Patch(l3, 8, Encode32(i.hsize));
    PatchFront(l4, z, 12, Encode32(i.bsize));
    LeaderPatched(lead, i);
  }

  /** A leader just written is a leader. */
  /** The five writes of a leader fit a buffer that holds one. */
  lemma LeaderLengths(b: seq<byte>, i: Info)
    requires |b| >= LEADER_SIZE
    ensures |Magic()| == 4 && |Encode16(i.proto)| == 2 && |Encode16(i.fields)| == 2
      && |Encode32(i.hsize)| == 4 && |Encode32(i.bsize)| == 4
    ensures var b1 := Patch(b, 0, Magic());
      var b2 := Patch(b1, 4, Encode16(i.proto));
      var b3 := Patch(b2, 6, Encode16(i.fields));
      var b4 := Patch(b3, 8, Encode32(i.hsize));
      |b1| == |b| && |b2| == |b| && |b3| == |b| && |b4| == |b|
  {}

  lemma InfoFits(fs: seq<Field>, body: seq<byte>)
    requires Fits(fs, body)
    ensures |Leader(InfoOf(fs, body))| == LEADER_SIZE
    ensures ReadInfo(Leader(InfoOf(fs, body))).0 && ReadInfo(Leader(InfoOf(fs, body))).1.proto == PROTO
  {
    LeaderReadsBack(InfoOf(fs, body), []);
    assert Leader(InfoOf(fs, body)) + [] == Leader(InfoOf(fs, body));
  }

  /** The leader is read from the first bytes alone. */
  lemma LeaderOnly(b: seq<byte>, lead: seq<byte>, e: seq<byte>, body: seq<byte>)
    requires b == lead + e + body && |lead| == LEADER_SIZE
    ensures |b| >= LEADER_SIZE && ReadInfo(b) == ReadInfo(lead)
  {
    assert b == lead + (e + body);
    assert b[..4] == lead[..4];
    assert b[4..] == lead[4..] + (e + body) && b[6..] == lead[6..] + (e + body);
    assert b[8..] == lead[8..] + (e + body) && b[12..] == lead[12..] + (e + body);
    DecodesApart(lead[8..], e + body);
    DecodesApart(lead[12..], e + body);
  }

  lemma Encodes16(s: seq<byte>)
    requires |s| == 2
    ensures Encode16(Decode16(s)) == s
  {}

  lemma Encodes32(s: seq<byte>)
    requires |s| == 4
    ensures Encode32(Decode32(s)) == s
  {
    var hi, lo := Decode16(s), Decode16(s[2..]);
    Encodes16(s[..2]);
    Encodes16(s[2..]);
    assert Decode32(s) / TWO16 == hi && Decode16(s[..2]) == hi;
    EncodeLow(hi, lo);
    assert s == s[..2] + s[2..];
  }

  lemma EncodeLow(hi: int, lo: int)
    ensures Encode16(TWO16 * hi + lo) == Encode16(lo)
  {
    var n := TWO16 * hi + lo;
    assert n / 256 == 256 * hi + lo / 256;
  }

  /** A leader that reads as i is the leader of i. */
  lemma LeaderIs(lead: seq<byte>, i: Info)
    requires |lead| == LEADER_SIZE && ReadInfo(lead) == (true, i)
    ensures lead == Leader(i)
  {
    hide Encode16, Encode32, Decode16, Decode32;
    var p, f, h, b := lead[4..6], lead[6..8], lead[8..12], lead[12..16];
    assert lead == lead[..4] + p + f + h + b;
    Decode16Prefix(lead[4..], p);
    Decode16Prefix(lead[6..], f);
    Decode32Prefix(lead[8..], h);
    Decode32Prefix(lead[12..], b);
    Encodes16(p);
    Encodes16(f);
    Encodes32(h);
    Encodes32(b);
  }

  lemma Decode16Prefix(s: seq<byte>, p: seq<byte>)
    requires |s| >= 2 && p == s[..2]
    ensures Decode16(s) == Decode16(p)
  {}

  lemma Decode32Prefix(s: seq<byte>, p: seq<byte>)
    requires |s| >= 4 && p == s[..4]
    ensures Decode32(s) == Decode32(p)
  {
    assert s[2..][0] == p[2..][0] && s[2..][1] == p[2..][1];
  }

  /** What opening an image reads and finds. */
  lemma OpenReads(t: seq<Field>, d: seq<byte>)
    ensures Fits(t, d) && |t| < TWO16 ==>
      && |Image(t, d)| >= LEADER_SIZE && ReadInfo(Image(t, d)) == (true, InfoOf(t, d))
         && |Leader(InfoOf(t, d))| == LEADER_SIZE
      && ReadInfo(Leader(InfoOf(t, d))).0 && ReadInfo(Leader(InfoOf(t, d))).1.proto == PROTO
      && Image(t, d) == Leader(InfoOf(t, d)) + EncodeFields(t) + d
  {
    hide Leader, ReadInfo, EncodeFields;
    if Fits(t, d) && |t| < TWO16 {
      ImageReadsBack(t, d);
      InfoFits(t, d);
    }
  }

  lemma OpenEmpty()
    ensures var i := Info(PROTO, 0, 0, 0);
      && i == InfoOf([], []) && Fits([], []) && FieldsOk([]) && |Leader(i)| == LEADER_SIZE
      && ReadInfo(Leader(i)).0 && ReadInfo(Leader(i)).1.proto == PROTO && Leader(i) == Leader(i) + EncodeFields([]) + []
  {
    InfoFits([], []);
  }

  lemma EachOf(fs: seq<Field>)
    ensures FieldsOk(fs) ==> EachOk(fs)
  {}

  /** Overwriting keeps the length. */
  lemma PatchLength(b: seq<byte>, at: nat, s: seq<byte>)
    ensures at + |s| <= |b| ==> |Patch(b, at, s)| == |b|
  {}
}
