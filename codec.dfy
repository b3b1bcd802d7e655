/**
 * The byte layout of the scanner state (scanner_serialize / scanner_deserialize):
 * a 16-bit count of the records written, a 16-bit logical stack size, then one
 * record per tag from the bottom of the stack: `[type]`, or `[CUSTOM, length,
 * name bytes…]` for a custom element. Records that would reach the end of the
 * host's fixed buffer are dropped, and decoding accepts any bytes at all.
 */
module Codec {
  import opened Wrappers
  import opened Tags
  import opened TagStacks

  /** TREE_SITTER_SERIALIZATION_BUFFER_SIZE, the size of the host's state buffer. */
  const BufferSize := 1024
  /** UINT16_MAX: the largest count a header field holds. */
  const MaxCount := 65535
  /** Size of the header: two 16-bit fields. */
  const HeaderSize := 4

  /** A 16-bit header field, low byte first. */
  function Encode16(x: nat): (r: seq<Byte>)
    requires x <= MaxCount
    ensures |r| == 2
  {
    [(x % 256) as char, (x / 256) as char]
  }

  /** Reads back a 16-bit header field. */
  function Decode16(lo: Byte, hi: Byte): (x: nat)
    ensures x <= MaxCount
  {
    lo as int + 256 * hi as int
  }

  /** The two header encodings are inverse: every 16-bit count survives the trip. */
  lemma Decode16Encode16(x: nat)
    requires x <= MaxCount
    ensures Decode16(Encode16(x)[0], Encode16(x)[1]) == x
  {
  }

  /** The record of one tag. */
  function Record(t: Tag): (r: seq<Byte>)
    ensures 1 <= |r|
    ensures t.kind == CUSTOM ==> |r| == 2 + |t.customName|
    ensures t.kind != CUSTOM ==> |r| == 1
  {
    if t.kind == CUSTOM then [t.kind as char, |t.customName| as char] + t.customName
    else [t.kind as char]
  }

  /** A record starts with the tag's type, then, for a custom element, the name's length. */
  lemma RecordHead(t: Tag)
    ensures Record(t)[0] as int == t.kind
    ensures t.kind == CUSTOM ==> Record(t)[1] as int == |t.customName|
  {
  }

  /** After its type and length bytes, the record of a custom element holds its name. */
  lemma RecordName(t: Tag)
    requires t.kind == CUSTOM
    ensures Record(t)[2..] == t.customName
  {
  }

  /** The records of `tags`, bottom first, back to back: at least a byte per tag. */
  function RecordsOf(tags: seq<Tag>): (r: seq<Byte>)
    ensures |r| >= |tags|
  {
    if |tags| == 0 then [] else Record(tags[0]) + RecordsOf(tags[1..])
  }

  lemma {:induction false} RecordsOfAppend(tags: seq<Tag>, t: Tag)
    ensures RecordsOf(tags + [t]) == RecordsOf(tags) + Record(t)
  {
    if |tags| == 0 {
      assert tags + [t] == [t];
    } else {
      assert (tags + [t])[1..] == tags[1..] + [t];
      RecordsOfAppend(tags[1..], t);
    }
  }

  /** How many of the stack's records fit, and their bytes. */
  datatype Written = Written(count: nat, bytes: seq<Byte>)

  /**
   * The record loop of scanner_serialize from the `i`-th tag on, with `offset`
   * bytes already in the buffer: a record is written only while the buffer
   * still has a byte to spare after it, and the first one that does not fit
   * ends the loop.
   */
  function EncodeFrom(tags: seq<Tag>, limit: nat, i: nat, offset: nat): (w: Written)
    requires i <= limit <= |tags|
    ensures i <= w.count <= limit
    ensures offset < BufferSize ==> offset + |w.bytes| < BufferSize
    decreases limit - i
  {
    if i == limit then Written(i, [])
    else
      var rec := Record(tags[i]);
      if offset + |rec| >= BufferSize then Written(i, [])
      else
        var rest := EncodeFrom(tags, limit, i + 1, offset + |rec|);
        Written(rest.count, rec + rest.bytes)
  }

  /** The record loop stops early only at a record that would not leave a byte of the buffer to spare. */
  lemma {:induction false} EncodeFromStops(tags: seq<Tag>, limit: nat, i: nat, offset: nat)
    requires i <= limit <= |tags|
    ensures var w := EncodeFrom(tags, limit, i, offset);
      w.count < limit ==> offset + |w.bytes| + |Record(tags[w.count])| >= BufferSize
    decreases limit - i
  {
    if i < limit && offset + |Record(tags[i])| < BufferSize {
      var next := offset + |Record(tags[i])|;
      EncodeFromStops(tags, limit, i + 1, next);
      EncodeFromStopsStep(tags, limit, i, offset, next);
    } else {
      EncodeStopSize(tags, limit, i, offset);
    }
  }

  lemma EncodeStopSize(tags: seq<Tag>, limit: nat, i: nat, offset: nat)
    requires i <= limit <= |tags| && (i == limit || offset + |Record(tags[i])| >= BufferSize)
    ensures EncodeFrom(tags, limit, i, offset).count == i && |EncodeFrom(tags, limit, i, offset).bytes| == 0
  {
  }

  /** The record loop started at tag i and offset stops early only where the next record does not fit. */
  predicate StopsFull(tags: seq<Tag>, limit: nat, i: nat, offset: nat)
    requires i <= limit <= |tags|
  {
    var w := EncodeFrom(tags, limit, i, offset);
    w.count < limit ==> offset + |w.bytes| + |Record(tags[w.count])| >= BufferSize
  }

  lemma EncodeFromStopsStep(tags: seq<Tag>, limit: nat, i: nat, offset: nat, next: nat)
    requires i < limit <= |tags| && next == offset + |Record(tags[i])| < BufferSize
    requires StopsFull(tags, limit, i + 1, next)
    ensures StopsFull(tags, limit, i, offset)
  {
    EncodeStep(tags, limit, i, offset, next);
  }

  /** The record loop writes the records of the tags it passes, back to back. */
  lemma {:induction false} EncodeFromRecords(tags: seq<Tag>, limit: nat, i: nat, offset: nat)
    requires i <= limit <= |tags|
    ensures var w := EncodeFrom(tags, limit, i, offset); w.bytes == RecordsOf(tags[i..w.count])
    decreases limit - i
  {
    if i == limit || offset + |Record(tags[i])| >= BufferSize {
      EncodeStop(tags, limit, i, offset);
      assert tags[i..i] == [];
    } else {
      var next := offset + |Record(tags[i])|;
      EncodeFromRecords(tags, limit, i + 1, next);
      EncodeFromRecordsStep(tags, limit, i, offset, next);
    }
  }

  /** The record loop started at tag i and offset writes the records of the tags it passes. */
  predicate WritesRecords(tags: seq<Tag>, limit: nat, i: nat, offset: nat)
    requires i <= limit <= |tags|
  {
    var w := EncodeFrom(tags, limit, i, offset);
    w.bytes == RecordsOf(tags[i..w.count])
  }

  lemma EncodeFromRecordsStep(tags: seq<Tag>, limit: nat, i: nat, offset: nat, next: nat)
    requires i < limit <= |tags| && next == offset + |Record(tags[i])| < BufferSize
    requires WritesRecords(tags, limit, i + 1, next)
    ensures WritesRecords(tags, limit, i, offset)
  {
    var rest := EncodeFrom(tags, limit, i + 1, next);
    EncodeStep(tags, limit, i, offset, next);
    assert RecordsOf(tags[i..rest.count]) == Record(tags[i]) + RecordsOf(tags[i + 1..rest.count]) by {
      assert tags[i..rest.count][0] == tags[i];
      assert tags[i..rest.count][1..] == tags[i + 1..rest.count];
    }
  }

  /** The logical size scanner_serialize records: the stack size, capped at UINT16_MAX. */
  function CappedCount(n: nat): (c: nat)
    ensures c <= MaxCount && c <= n
    ensures n <= MaxCount ==> c == n
  {
    if n > MaxCount then MaxCount else n
  }

  /**
   * Records that scanner_serialize writes for a stack: those of its first
   * `count` tags, at most the capped size, leaving a byte of the buffer after
   * the header to spare; it stops early only at a record that would not leave that byte.
   */
  function EncodeRecords(tags: seq<Tag>): (w: Written)
    ensures w.count <= CappedCount(|tags|) && w.bytes == RecordsOf(tags[..w.count])
    ensures HeaderSize + |w.bytes| < BufferSize
    ensures w.count < CappedCount(|tags|) ==> HeaderSize + |w.bytes| + |Record(tags[w.count])| >= BufferSize
  {
    EncodeFromRecords(tags, CappedCount(|tags|), 0, HeaderSize);
    EncodeFromStops(tags, CappedCount(|tags|), 0, HeaderSize);
    EncodeFrom(tags, CappedCount(|tags|), 0, HeaderSize)
  }

  /**
   * The bytes scanner_serialize leaves in the buffer, as many as it returns:
   * shorter than the host buffer, a header holding the count written and the
   * capped size, then the records of the tags written.
   */
  function Encode(tags: seq<Tag>): (e: seq<Byte>)
    ensures |e| == HeaderSize + |EncodeRecords(tags).bytes| && |e| < BufferSize
    ensures Decode16(e[0], e[1]) == EncodeRecords(tags).count && Decode16(e[2], e[3]) == CappedCount(|tags|)
    ensures e[HeaderSize..] == RecordsOf(tags[..EncodeRecords(tags).count])
  {
    var w := EncodeRecords(tags);
    Decode16Encode16(w.count);
    Decode16Encode16(CappedCount(|tags|));
    Encode16(w.count) + Encode16(CappedCount(|tags|)) + w.bytes
  }

  /** A decoded tag and the offset just after its record. */
  datatype Decoded = Decoded(tag: Tag, next: nat)

  /**
   * One record of scanner_deserialize at `offset`: the type byte is taken as the
   * type; a CUSTOM record whose length byte is missing gives nothing, and a name
   * that runs past the end is cut short.
   */
  function DecodeRecord(b: seq<Byte>, offset: nat): (r: Option<Decoded>)
    ensures offset >= |b| ==> r.None?
    ensures r.Some? ==> offset < r.value.next <= |b| && Canonical(r.value.tag)
    ensures r.Some? ==> r.value.tag.kind == b[offset] as int
  {
    if offset >= |b| then None
    else
      var kind: TagType := b[offset] as int;
      if kind != CUSTOM then Some(Decoded(TagMake(kind), offset + 1))
      else if offset + 1 >= |b| then None
      else
        var wanted := b[offset + 1] as int;
        var length := if wanted > |b| - (offset + 2) then |b| - (offset + 2) else wanted;
        Some(Decoded(Tag(CUSTOM, b[offset + 2..offset + 2 + length]), offset + 2 + length))
  }

  /** The record loop of scanner_deserialize: at most `limit` records from `offset` on. */
  function DecodeFrom(b: seq<Byte>, limit: nat, offset: nat): (r: seq<Tag>)
    ensures |r| <= limit
    decreases limit
  {
    if limit == 0 then []
    else
      match DecodeRecord(b, offset)
      case None => []
      case Some(d) => [d.tag] + DecodeFrom(b, limit - 1, d.next)
  }

  /**
   * The stack scanner_deserialize rebuilds from `length` bytes: nothing for fewer
   * than the four header bytes; otherwise the decoded records followed by reset
   * tags up to the logical size in the header. Whatever the bytes, the size is
   * at most UINT16_MAX and every tag is canonical.
   */
  function Decode(b: seq<Byte>): (r: seq<Tag>)
    ensures |b| < HeaderSize ==> r == []
    ensures |b| >= HeaderSize ==> |r| == Decode16(b[2], b[3])
    ensures |r| <= MaxCount
    ensures forall i | 0 <= i < |r| :: Canonical(r[i])
  {
    if |b| < HeaderSize then []
    else
      DecodeFromCanonical(b, if Decode16(b[0], b[1]) < Decode16(b[2], b[3]) then Decode16(b[0], b[1]) else Decode16(b[2], b[3]), HeaderSize);
      var written := Decode16(b[0], b[1]);
      var size := Decode16(b[2], b[3]);
      var records := DecodeFrom(b, if written < size then written else size, HeaderSize);
      records + Resets(size - |records|)
  }

  // ---------------------------------------------------------------------------
  // Buffer bookkeeping for the imperative codec
  // ---------------------------------------------------------------------------

  /** `bytes` written over `x` from index `at` on. */
  function Splice(x: seq<Byte>, at: nat, bytes: seq<Byte>): (r: seq<Byte>)
    requires at + |bytes| <= |x|
    ensures |r| == |x|
  {
    x[..at] + bytes + x[at + |bytes|..]
  }

  lemma AppendAssociates<T>(a: seq<T>, b: seq<T>, c: seq<T>)
    ensures (a + b) + c == a + (b + c)
  {
  }

  /** Writing one byte is splicing it in. */
  lemma SpliceByte(x: seq<Byte>, at: nat, v: Byte)
    requires at < |x|
    ensures x[at := v] == Splice(x, at, [v])
  {
  }

  /** Two adjacent splices are one splice of both. */
  lemma SpliceTwice(x: seq<Byte>, at: nat, a: seq<Byte>, b: seq<Byte>)
    requires at + |a| + |b| <= |x|
    ensures Splice(Splice(x, at, a), at + |a|, b) == Splice(x, at, a + b)
  {
    var y := Splice(x, at, a);
    assert y[..at + |a|] == x[..at] + a;
    assert y[at + |a| + |b|..] == x[at + |a| + |b|..];
  }

  /** What a splice leaves before, in and after the spliced part. */
  lemma SpliceParts(x: seq<Byte>, at: nat, bytes: seq<Byte>)
    requires at + |bytes| <= |x|
    ensures Splice(x, at, bytes)[..at + |bytes|] == x[..at] + bytes
    ensures Splice(x, at, bytes)[at + |bytes|..] == x[at + |bytes|..]
    ensures Splice(x, at, bytes)[at..at + |bytes|] == bytes
  {
  }

  /** The buffer holds `base` with `written` laid over it from index 2 on. */
  predicate Laid(image: seq<Byte>, base: seq<Byte>, written: seq<Byte>)
  {
    |image| == |base| && 2 + |written| <= |base| && image == Splice(base, 2, written)
  }

  /** Writing the second header field. */
  lemma HeaderLaid(base: seq<Byte>, field: seq<Byte>)
    requires |field| == 2 && HeaderSize < |base|
    ensures Laid(base[2 := field[0]][3 := field[1]], base, field)
  {
    SpliceByte(base, 2, field[0]);
    SpliceByte(Splice(base, 2, [field[0]]), 3, field[1]);
    SpliceTwice(base, 2, [field[0]], [field[1]]);
    assert [field[0]] + [field[1]] == field;
  }

  /** Writing a record right after what was laid before extends what is laid by the record. */
  lemma RecordLaid(base: seq<Byte>, written: seq<Byte>, before: seq<Byte>, after: seq<Byte>, t: Tag)
    requires Laid(before, base, written) && 2 + |written| + |Record(t)| <= |base|
    requires after == Splice(before, 2 + |written|, Record(t))
    ensures Laid(after, base, written + Record(t))
  {
    SpliceTwice(base, 2, written, Record(t));
  }

  /** The records of one more tag of the stack. */
  lemma RecordsOfNext(tags: seq<Tag>, n: nat)
    requires n < |tags|
    ensures RecordsOf(tags[..n + 1]) == RecordsOf(tags[..n]) + Record(tags[n])
  {
    assert tags[..n + 1] == tags[..n] + [tags[n]];
    RecordsOfAppend(tags[..n], tags[n]);
  }

  /** The records of a longer run of the stack take at least as many bytes. */
  lemma {:induction false} RecordsOfPrefix(tags: seq<Tag>, j: nat, k: nat)
    requires j <= k <= |tags|
    ensures |RecordsOf(tags[..j])| <= |RecordsOf(tags[..k])|
    decreases k - j
  {
    if j < k {
      RecordsOfPrefix(tags, j, k - 1);
      RecordsOfNext(tags, k - 1);
    }
  }

  /**
   * The records scanner_serialize writes are the longest run of the stack's
   * first tags, at most the capped size, whose records leave a byte of the
   * buffer to spare: any such run that cannot be extended is exactly what it writes.
   */
  lemma EncodeRecordsIs(tags: seq<Tag>, n: nat)
    requires n <= CappedCount(|tags|) && HeaderSize + |RecordsOf(tags[..n])| < BufferSize
    requires n == CappedCount(|tags|) || HeaderSize + |RecordsOf(tags[..n])| + |Record(tags[n])| >= BufferSize
    ensures EncodeRecords(tags) == Written(n, RecordsOf(tags[..n]))
  {
    var w := EncodeRecords(tags);
    if w.count < n {
      RecordsOfNext(tags, w.count);
      RecordsOfPrefix(tags, w.count + 1, n);
    } else if w.count > n {
      RecordsOfNext(tags, n);
      RecordsOfPrefix(tags, n + 1, w.count);
    }
  }

  /**
   * The end of scanner_serialize: once the loop has stopped, filling in the
   * first header field with the number of records leaves exactly the encoding
   * in front of the untouched rest of the buffer.
   */
  lemma HeaderDone(tags: seq<Tag>, written: nat, offset: nat, base: seq<Byte>, out: seq<Byte>,
                   image: seq<Byte>, field: seq<Byte>, done: seq<Byte>)
    requires EncodeRecords(tags) == Written(written, out)
    requires Laid(image, base, Encode16(CappedCount(|tags|)) + out) && offset == HeaderSize + |out|
    requires field == Encode16(written) && done == image[0 := field[0]][1 := field[1]]
    ensures done[..offset] == Encode(tags) && done[offset..] == base[offset..]
  {
    var laid := Encode16(CappedCount(|tags|)) + out;
    HeaderBytes(image, base, laid, field, done, offset);
    EncodeShape(tags, written, out);
  }

  /** Writing the first header field in front of what is laid from index 2 on. */
  lemma HeaderBytes(image: seq<Byte>, base: seq<Byte>, laid: seq<Byte>, field: seq<Byte>, done: seq<Byte>, offset: nat)
    requires Laid(image, base, laid) && |field| == 2 && offset == 2 + |laid|
    requires done == image[0 := field[0]][1 := field[1]]
    ensures done[..offset] == field + laid && done[offset..] == base[offset..]
  {
    SpliceParts(base, 2, laid);
  }

  /** The encoding is the two header fields, then the records of the tags written, then nothing more. */
  lemma EncodeLayout(tags: seq<Tag>)
    ensures var w := EncodeRecords(tags);
      Encode(tags) == Encode16(w.count) + Encode16(CappedCount(|tags|)) + RecordsOf(tags[..w.count]) + []
  {
    var w := EncodeRecords(tags);
    assert Encode(tags) == Encode16(w.count) + Encode16(CappedCount(|tags|)) + w.bytes;
  }

  /** The encoding is the first header field, then the second, then the records. */
  lemma EncodeShape(tags: seq<Tag>, written: nat, out: seq<Byte>)
    requires EncodeRecords(tags) == Written(written, out)
    ensures written <= MaxCount && Encode(tags) == Encode16(written) + (Encode16(CappedCount(|tags|)) + out)
  {
    AppendAssociates(Encode16(written), Encode16(CappedCount(|tags|)), out);
  }

  /** One step of the record loop of scanner_serialize: the record fits and is written. */
  lemma EncodeStep(tags: seq<Tag>, limit: nat, i: nat, offset: nat, next: nat)
    requires i < limit <= |tags| && next == offset + |Record(tags[i])| < BufferSize
    ensures var rest := EncodeFrom(tags, limit, i + 1, next);
      EncodeFrom(tags, limit, i, offset) == Written(rest.count, Record(tags[i]) + rest.bytes)
  {
  }

  /** The record loop of scanner_serialize stops at the first record that does not fit. */
  lemma EncodeStop(tags: seq<Tag>, limit: nat, i: nat, offset: nat)
    requires i <= limit <= |tags| && (i == limit || offset + |Record(tags[i])| >= BufferSize)
    ensures EncodeFrom(tags, limit, i, offset) == Written(i, [])
  {
  }

  /** Overwriting the first reset slot with a decoded tag. */
  lemma FillReset(got: seq<Tag>, n: nat, t: Tag)
    requires n > 0
    ensures (got + Resets(n))[|got| := t] == (got + [t]) + Resets(n - 1)
  {
    assert Resets(n) == [TagReset()] + Resets(n - 1);
  }

  /** Decode with its header fields named. */
  lemma DecodeHeader(b: seq<Byte>, written: nat, size: nat)
    requires |b| >= HeaderSize && written == Decode16(b[0], b[1]) && size == Decode16(b[2], b[3])
    ensures var records := DecodeFrom(b, if written < size then written else size, HeaderSize);
      Decode(b) == records + Resets(size - |records|)
  {
  }

  /** Two runs of reset tags make one. */
  lemma {:induction false} ResetsAppend(m: nat, n: nat)
    ensures Resets(m) + Resets(n) == Resets(m + n)
    decreases n
  {
    if n > 0 {
      ResetsAppend(m, n - 1);
      AppendAssociates(Resets(m), Resets(n - 1), [TagReset()]);
    }
  }

  /**
   * Past the recorded number of records the decoded stack holds only reset
   * tags, so resetting those slots again leaves it as it is.
   */
  lemma DecodeEndsInResets(b: seq<Byte>, written: nat, size: nat)
    requires |b| >= HeaderSize && written == Decode16(b[0], b[1]) && size == Decode16(b[2], b[3])
    requires written < size
    ensures Decode(b)[..written] + Resets(size - written) == Decode(b)
  {
    var records := DecodeFrom(b, written, HeaderSize);
    ResetsAppend(written - |records|, size - written);
    assert Decode(b)[..written] == records + Resets(written - |records|);
  }

  /** One pass of the record loop of scanner_deserialize: the record at `offset` is the next one decoded. */
  lemma DecodeNext(b: seq<Byte>, left: nat, offset: nat, got: seq<Tag>, records: seq<Tag>, d: Decoded)
    requires left > 0 && got + DecodeFrom(b, left, offset) == records
    requires DecodeRecord(b, offset) == Some(d)
    ensures (got + [d.tag]) + DecodeFrom(b, left - 1, d.next) == records
  {
    DecodeFromStep(b, left - 1, offset, d);
    AppendAssociates(got, [d.tag], DecodeFrom(b, left - 1, d.next));
  }

  /** The record loop of scanner_deserialize has nothing more to decode once the data runs out. */
  lemma DecodeFromStop(b: seq<Byte>, limit: nat, offset: nat)
    requires limit == 0 || DecodeRecord(b, offset).None?
    ensures DecodeFrom(b, limit, offset) == []
  {
  }

  // ---------------------------------------------------------------------------
  // Properties
  // ---------------------------------------------------------------------------

  /** A stack of fewer than 1020 non-CUSTOM tags is always written in full, one byte per tag. */
  lemma EncodeWritesShortStacks(tags: seq<Tag>)
    requires forall i | 0 <= i < |tags| :: tags[i].kind != CUSTOM
    requires |tags| < BufferSize - HeaderSize
    ensures EncodeRecords(tags).count == |tags|
  {
    var w := EncodeRecords(tags);
    EncodeFromRecords(tags, |tags|, 0, HeaderSize);
    if w.count < |tags| {
      RecordsOfPlain(tags[..w.count]);
    }
  }

  lemma {:induction false} RecordsOfPlain(tags: seq<Tag>)
    requires forall i | 0 <= i < |tags| :: tags[i].kind != CUSTOM
    ensures |RecordsOf(tags)| == |tags|
  {
    if |tags| > 0 {
      RecordsOfPlain(tags[1..]);
    }
  }

  /** The form a tag takes after the trip: CUSTOM tags keep their name, other types lose it. */
  function Normal(t: Tag): (r: Tag)
    ensures Equals(r, t) && Canonical(r)
  {
    if t.kind == CUSTOM then t else TagMake(t.kind)
  }

  function NormalAll(tags: seq<Tag>): (r: seq<Tag>)
    ensures |r| == |tags| && forall i {:trigger r[i]} | 0 <= i < |tags| :: r[i] == Normal(tags[i])
  {
    if |tags| == 0 then [] else [Normal(tags[0])] + NormalAll(tags[1..])
  }

  /** A record between `pre` and `post` decodes to its tag, and decoding goes on right after it. */
  lemma DecodeOneRecord(b: seq<Byte>, pre: seq<Byte>, t: Tag, post: seq<Byte>)
    requires b == pre + Record(t) + post
    ensures DecodeRecord(b, |pre|) == Some(Decoded(Normal(t), |pre| + |Record(t)|))
  {
    var rec := Record(t);
    assert b[|pre|] == rec[0];
    RecordHead(t);
    if t.kind == CUSTOM {
      RecordName(t);
      assert b[|pre| + 1] == rec[1];
      assert b[|pre| + 2..|pre| + |rec|] == rec[2..];
    }
  }

  /** Decoding a run of records continues after the first one. */
  lemma DecodeFromStep(b: seq<Byte>, n: nat, offset: nat, d: Decoded)
    requires DecodeRecord(b, offset) == Some(d)
    ensures DecodeFrom(b, n + 1, offset) == [d.tag] + DecodeFrom(b, n, d.next)
  {
  }

  lemma Regroup(pre: seq<Byte>, rec: seq<Byte>, rest: seq<Byte>, post: seq<Byte>)
    ensures pre + (rec + rest) + post == (pre + rec) + rest + post
    ensures (pre + rec) + rest + post == pre + rec + (rest + post)
  {
  }

  /** Records found back to back between `pre` and `post` decode to the tags they came from. */
  lemma {:induction false} DecodeRecordsOf(b: seq<Byte>, pre: seq<Byte>, tags: seq<Tag>, post: seq<Byte>)
    requires b == pre + RecordsOf(tags) + post
    ensures DecodeFrom(b, |tags|, |pre|) == NormalAll(tags)
    decreases |tags|
  {
    if |tags| > 0 {
      var next := |pre + Record(tags[0])|;
      HeadRecord(b, pre, tags, post);
      DecodeRecordsOf(b, pre + Record(tags[0]), tags[1..], post);
      DecodeRecordsOfStep(b, |pre|, next, tags, NormalAll(tags[1..]));
      NormalAllCons(tags);
    }
  }

  /** The first of the records laid between `pre` and `post` decodes to the first tag; the others follow it. */
  lemma HeadRecord(b: seq<Byte>, pre: seq<Byte>, tags: seq<Tag>, post: seq<Byte>)
    requires |tags| > 0 && b == pre + RecordsOf(tags) + post
    ensures DecodeRecord(b, |pre|) == Some(Decoded(Normal(tags[0]), |pre + Record(tags[0])|))
    ensures b == (pre + Record(tags[0])) + RecordsOf(tags[1..]) + post
  {
    var rec := Record(tags[0]);
    var rest := RecordsOf(tags[1..]);
    RecordsOfCons(tags);
    Regroup(pre, rec, rest, post);
    DecodeOneRecord(b, pre, tags[0], rest + post);
  }

  lemma RecordsOfCons(tags: seq<Tag>)
    requires |tags| > 0
    ensures RecordsOf(tags) == Record(tags[0]) + RecordsOf(tags[1..])
  {
  }

  /** Decoding the first record, then what follows it. */
  lemma DecodeRecordsOfStep(b: seq<Byte>, offset: nat, next: nat, tags: seq<Tag>, rest: seq<Tag>)
    requires |tags| > 0 && DecodeRecord(b, offset) == Some(Decoded(Normal(tags[0]), next))
    requires DecodeFrom(b, |tags[1..]|, next) == rest
    ensures DecodeFrom(b, |tags|, offset) == [Normal(tags[0])] + rest
  {
    DecodeFromStep(b, |tags| - 1, offset, Decoded(Normal(tags[0]), next));
  }

  lemma NormalAllCons(tags: seq<Tag>)
    requires |tags| > 0
    ensures NormalAll(tags) == [Normal(tags[0])] + NormalAll(tags[1..])
  {
  }

  /**
   * Round trip: deserializing what scanner_serialize wrote gives a stack of the
   * recorded size whose written entries are the original ones (up to the name
   * bytes of non-CUSTOM tags, which tag_equals ignores) and whose other entries
   * are reset tags.
   */
  lemma RoundTrip(tags: seq<Tag>)
    ensures var w := EncodeRecords(tags);
      Decode(Encode(tags)) == NormalAll(tags[..w.count]) + Resets(CappedCount(|tags|) - w.count)
  {
    var w := EncodeRecords(tags);
    var e := Encode(tags);
    var prefix := tags[..w.count];
    var header := Encode16(w.count) + Encode16(CappedCount(|tags|));
    EncodeLayout(tags);
    DecodeRecordsOf(e, header, prefix, []);
    DecodeHeader(e, w.count, CappedCount(|tags|));
  }

  /**
   * When every tag was written (the header's two counts agree), the stack comes
   * back with the same size and each entry equal to the original under tag_equals.
   */
  lemma RoundTripComplete(tags: seq<Tag>)
    requires EncodeRecords(tags).count == |tags|
    ensures |Decode(Encode(tags))| == |tags|
    ensures forall i | 0 <= i < |tags| :: Equals(Decode(Encode(tags))[i], tags[i])
  {
    RoundTrip(tags);
    assert tags[..|tags|] == tags;
  }

  lemma {:induction false} DecodeFromCanonical(b: seq<Byte>, limit: nat, offset: nat)
    ensures forall i | 0 <= i < |DecodeFrom(b, limit, offset)| :: Canonical(DecodeFrom(b, limit, offset)[i])
    decreases limit
  {
    if limit > 0 {
      match DecodeRecord(b, offset)
      case None =>
      case Some(d) => DecodeFromCanonical(b, limit - 1, d.next);
    }
  }

}
