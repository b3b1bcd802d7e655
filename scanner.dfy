/**
 * The HTML external scanner as the program runs it: a Scanner object owning
 * the stack of open elements, the scan_* procedures driving the host lexer
 * step by step, and the state codec writing into and reading from the host's
 * byte buffer. Each procedure is proved to do exactly what the corresponding
 * function of Rules or Codec describes.
 */
module Scanners {
  import opened Wrappers
  import opened Tags
  import opened TagStacks
  import opened Lexers
  import opened Codec
  import Rules

  /**
   * scan_tag_name: reads the run of name characters, storing the first 255 of
   * them upper-cased.
   */
  method ScanTagName(lexer: Lexer) returns (found: bool, name: Name)
    modifies lexer
    ensures Rules.NameScan(found, name, lexer.View()) == Rules.ScanTagName(old(lexer.View()))
  {
    ghost var c := lexer.View();
    ghost var e := Rules.NameEnd(c.input, c.pos);
    var stored: Name := [];
    found := false;
    while Rules.IsNameChar(lexer.Lookahead())
      invariant lexer.View() == c.(pos := lexer.pos)
      invariant c.pos <= lexer.pos && (lexer.pos == c.pos || lexer.pos <= |c.input|)
      invariant Rules.NameEnd(c.input, lexer.pos) == e
      invariant found <==> lexer.pos > c.pos
      invariant found ==> lexer.pos <= |c.input| && stored == Rules.Stored(c.input, c.pos, lexer.pos)
      invariant !found ==> stored == []
      decreases |c.input| - lexer.pos
    {
      ghost var p := lexer.pos;
      Rules.CapUpperStep(c.input, c.pos, p);
      found := true;
      if |stored| < MaxCustomTagNameLength {
        stored := stored + [UpperByte(lexer.Lookahead())];
      }
      lexer.Advance(false);
    }
    if !found {
      return false, [];
    }
    name := stored;
  }

  /**
   * scan_comment, after `<!`: needs `--`, then counts the dashes in a row and
   * accepts the first `>` that follows at least two of them.
   */
  method ScanComment(lexer: Lexer) returns (ok: bool)
    modifies lexer
    ensures Rules.Lexed(ok, lexer.View()) == Rules.ScanComment(old(lexer.View()))
  {
    if lexer.Lookahead() != '-' {
      return false;
    }
    lexer.Advance(false);
    if lexer.Lookahead() != '-' {
      return false;
    }
    lexer.Advance(false);
    ghost var from := lexer.pos;
    ghost var target := Rules.CommentLoop(lexer.View(), from);
    var dashes: nat := 0;
    while lexer.Lookahead() != '\0'
      invariant from <= lexer.pos <= |lexer.input|
      invariant dashes == Rules.DashesBefore(lexer.input, from, lexer.pos)
      invariant Rules.CommentLoop(lexer.View(), from) == target
      decreases |lexer.input| - lexer.pos
    {
      var ch := lexer.Lookahead();
      if ch == '-' {
        dashes := dashes + 1;
      } else if ch == '>' && dashes >= 2 {
        lexer.Emit(COMMENT);
        lexer.Advance(false);
        lexer.MarkEnd();
        return true;
      } else {
        dashes := 0;
      }
      lexer.Advance(false);
    }
    return false;
  }

  /**
   * One record of scanner_serialize written at `offset`: the type byte, and for
   * a CUSTOM tag the name length and the name bytes.
   */
  method PutRecord(buffer: array<Byte>, offset: nat, tag: Tag) returns (next: nat)
    requires offset + |Record(tag)| <= buffer.Length
    modifies buffer
    ensures next == offset + |Record(tag)|
    ensures buffer[..] == Splice(old(buffer[..]), offset, Record(tag))
  {
    ghost var before := buffer[..];
    var kind: Byte := tag.kind as char;
    buffer[offset] := kind;
    assert buffer[..] == Splice(before, offset, [kind]) by {
      assert buffer[..] == before[offset := kind];
      SpliceByte(before, offset, kind);
    }
    next := offset + 1;
    if tag.kind == CUSTOM {
      ghost var typed: seq<Byte> := buffer[..];
      var nameLength: Byte := |tag.customName| as char;
      buffer[next] := nameLength;
      assert buffer[..] == Splice(before, offset, [kind, nameLength]) by {
        assert buffer[..] == typed[next := nameLength];
        SpliceByte(typed, next, nameLength);
        SpliceTwice(before, offset, [kind], [nameLength]);
        assert [kind] + [nameLength] == [kind, nameLength];
      }
      next := next + 1;
      ghost var sized: seq<Byte> := buffer[..];
      CopyBytes(buffer, next, tag.customName);
      assert buffer[..] == Splice(before, offset, Record(tag)) by {
        SpliceTwice(before, offset, [kind, nameLength], tag.customName);
        assert Record(tag) == [kind, nameLength] + tag.customName;
      }
      next := next + |tag.customName|;
    } else {
      assert Record(tag) == [kind];
    }
  }

  /** PutRecord right after what is already laid over `base` from index 2 on. */
  method AppendRecord(buffer: array<Byte>, offset: nat, tag: Tag, ghost base: seq<Byte>, ghost laid: seq<Byte>)
    returns (next: nat)
    requires Laid(buffer[..], base, laid) && offset == 2 + |laid| && offset + |Record(tag)| <= buffer.Length
    modifies buffer
    ensures next == offset + |Record(tag)| && Laid(buffer[..], base, laid + Record(tag))
  {
    ghost var before := buffer[..];
    next := PutRecord(buffer, offset, tag);
    RecordLaid(base, laid, before, buffer[..], tag);
  }

  /**
   * One pass of the record loop of scanner_serialize on the `serialized`-th
   * tag: the name length is cut to the longest name, and when the record would
   * not leave a byte to spare the loop stops with everything written so far;
   * otherwise the record goes right after the records written so far, and the
   * rest of the loop writes the rest of the output.
   */
  method PutNextRecord(buffer: array<Byte>, tag: Tag, ghost stack: seq<Tag>, count: nat, serialized: nat, offset: nat,
                       ghost base: seq<Byte>, ghost field: seq<Byte>, ghost out: seq<Byte>)
    returns (stop: bool, next: nat, ghost written: seq<Byte>)
    requires serialized < count == CappedCount(|stack|) && tag == stack[serialized]
    requires offset == HeaderSize + |out| < BufferSize && |field| == 2
    requires Laid(buffer[..], base, field + out) && buffer.Length == BufferSize
    requires out == RecordsOf(stack[..serialized])
    modifies buffer
    ensures stop ==> buffer[..] == old(buffer[..]) && next == offset && written == out
    ensures stop ==> EncodeRecords(stack) == Written(serialized, out)
    ensures !stop ==> next == offset + |Record(stack[serialized])| < BufferSize && written == out + Record(stack[serialized])
    ensures !stop ==> written == RecordsOf(stack[..serialized + 1]) && Laid(buffer[..], base, field + written)
  {
    var nameLength := |tag.customName|;
    if nameLength > MaxCustomTagNameLength {
      nameLength := MaxCustomTagNameLength;
    }
    if tag.kind == CUSTOM && offset + 2 + nameLength >= BufferSize {
      EncodeRecordsIs(stack, serialized);
      return true, offset, out;
    } else if tag.kind != CUSTOM && offset + 1 >= BufferSize {
      EncodeRecordsIs(stack, serialized);
      return true, offset, out;
    }
    stop := false;
    next := AppendRecord(buffer, offset, tag, base, field + out);
    written := out + Record(tag);
    AppendAssociates(field, out, Record(tag));
    RecordsOfNext(stack, serialized);
  }

  /**
   * The record loop of scanner_serialize over the first `size` tags of `data`:
   * records go in one after the other from the end of the header while the
   * buffer keeps a byte to spare; the first record that would not leave it
   * ends the loop. `field` is the second header field, already in place.
   */
  method PutRecords(buffer: array<Byte>, data: array<Tag>, size: nat, ghost base: seq<Byte>, ghost field: seq<Byte>)
    returns (serialized: nat, offset: nat, ghost out: seq<Byte>)
    requires size <= data.Length && buffer.Length == BufferSize
    requires field == Encode16(CappedCount(size)) && Laid(buffer[..], base, field)
    modifies buffer
    ensures offset == HeaderSize + |out| && Laid(buffer[..], base, field + out)
    ensures EncodeRecords(data[..size]) == Written(serialized, out)
  {
    ghost var stack := data[..size];
    var count := size;
    if count > MaxCount {
      count := MaxCount;
    }
    offset := HeaderSize;
    serialized := 0;
    out := [];
    assert stack[..0] == [];
    while serialized < count
      invariant serialized <= count == CappedCount(|stack|) && offset == HeaderSize + |out| < BufferSize
      invariant Laid(buffer[..], base, field + out)
      invariant out == RecordsOf(stack[..serialized])
      decreases count - serialized
    {
      var tag := data[serialized];
      var stop;
      stop, offset, out := PutNextRecord(buffer, tag, stack, count, serialized, offset, base, field, out);
      if stop {
        break;
      }
      serialized := serialized + 1;
    }
    if serialized == count {
      EncodeRecordsIs(stack, serialized);
    }
  }

  /**
   * One record of scanner_deserialize at `offset`, read from the first `length`
   * bytes: the type byte, and for a CUSTOM tag the length byte (cut to the
   * longest name and to the bytes left) and the name. Nothing is found when
   * the length byte of a CUSTOM record is missing.
   */
  method ReadRecord(buffer: seq<Byte>, length: nat, offset: nat) returns (found: bool, tag: Tag, next: nat)
    requires offset < length <= |buffer|
    ensures found <==> DecodeRecord(buffer[..length], offset).Some?
    ensures found ==> DecodeRecord(buffer[..length], offset) == Some(Decoded(tag, next))
  {
    ghost var b := buffer[..length];
    var kind: TagType := buffer[offset] as int;
    next := offset + 1;
    if kind != CUSTOM {
      return true, TagMake(kind), next;
    }
    if next >= length {
      return false, TagReset(), next;
    }
    var nameLength := buffer[next] as int;
    next := next + 1;
    if nameLength > MaxCustomTagNameLength {
      nameLength := MaxCustomTagNameLength;
    }
    if nameLength > length - next {
      nameLength := length - next;
    }
    assert buffer[next..next + nameLength] == b[next..next + nameLength];
    tag := Tag(CUSTOM, buffer[next..next + nameLength]);
    next := next + nameLength;
    found := true;
  }

  /**
   * One pass of the record loop of scanner_deserialize at slot `j`: nothing when
   * the data has run out; otherwise the record found at `offset` fills the
   * slot, and a CUSTOM record without its length byte leaves a reset tag there.
   * When nothing is found the loop ends, having decoded everything it will.
   */
  method GetNextRecord(buffer: seq<Byte>, length: nat, data: array<Tag>, count: nat, j: nat, offset: nat,
                       ghost got: seq<Tag>, ghost left: nat, ghost records: seq<Tag>)
    returns (found: bool, next: nat, ghost more: seq<Tag>, ghost rest: nat)
    requires length <= |buffer| && j < count <= data.Length && j == |got| && left > 0
    requires data[..count] == got + Resets(count - j)
    requires got + DecodeFrom(buffer[..length], left, offset) == records
    modifies data
    ensures found ==> |more| == j + 1 && data[..count] == more + Resets(count - (j + 1))
    ensures found ==> rest == left - 1 && more + DecodeFrom(buffer[..length], rest, next) == records
    ensures !found ==> data[..count] == more + Resets(count - j) && more == records && more == got
  {
    more, rest := got, left - 1;
    if offset >= length {
      DecodeFromStop(buffer[..length], left, offset);
      return false, offset, more, rest;
    }
    ghost var prev := data[..count];
    var tag;
    found, tag, next := ReadRecord(buffer, length, offset);
    if !found {
      data[j] := TagReset();
      assert data[..count] == prev[j := TagReset()];
      FillReset(got, count - j, TagReset());
      DecodeFromStop(buffer[..length], left, offset);
      return;
    }
    data[j] := tag;
    assert data[..count] == prev[j := tag];
    FillReset(got, count - j, tag);
    DecodeNext(buffer[..length], left, offset, got, records, Decoded(tag, next));
    more := got + [tag];
  }

  /**
   * The record loop of scanner_deserialize over `count` reset tags in `data`:
   * at most `written` records are decoded from the end of the header on, one
   * per slot, until the data runs out.
   */
  method GetRecords(buffer: seq<Byte>, length: nat, data: array<Tag>, written: nat, count: nat)
    requires HeaderSize <= length <= |buffer| && count <= data.Length
    requires data[..count] == Resets(count)
    modifies data
    ensures var records := DecodeFrom(buffer[..length], if written < count then written else count, HeaderSize);
      data[..count] == records + Resets(count - |records|)
  {
    ghost var limit := if written < count then written else count;
    ghost var records := DecodeFrom(buffer[..length], limit, HeaderSize);
    ghost var got: seq<Tag> := [];
    ghost var left: nat := limit;
    var offset: nat := HeaderSize;
    var j := 0;
    assert got + Resets(count) == Resets(count);
    while j < written && j < count
      invariant j == |got| <= limit && left == limit - j
      invariant data[..count] == got + Resets(count - j)
      invariant got + DecodeFrom(buffer[..length], left, offset) == records
      decreases count - j
    {
      var found;
      found, offset, got, left := GetNextRecord(buffer, length, data, count, j, offset, got, left, records);
      if !found {
        assert |records| == j;
        return;
      }
      j := j + 1;
    }
    DecodeFromStop(buffer[..length], left, offset);
    assert got == records && |records| == j;
  }

  /**
   * The two loops of scanner_deserialize over `size` reset slots: the records,
   * then a reset for every slot from the recorded number of records on.
   */
  method DecodeInto(buffer: seq<Byte>, length: nat, data: array<Tag>, written: nat, size: nat)
    requires HeaderSize <= length <= |buffer| && size <= data.Length
    requires written == Decode16(buffer[0], buffer[1]) && size == Decode16(buffer[2], buffer[3])
    requires data[..size] == Resets(size)
    modifies data
    ensures data[..size] == Decode(buffer[..length])
  {
    GetRecords(buffer, length, data, written, size);
    assert data[..size] == Decode(buffer[..length]) by {
      DecodeHeader(buffer[..length], written, size);
    }
    ResetFrom(data, written, size);
    if written < size {
      DecodeEndsInResets(buffer[..length], written, size);
    }
  }

  /** The closing loop of scanner_deserialize: every slot from `from` up to `size` is reset. */
  method ResetFrom(data: array<Tag>, from: nat, size: nat)
    requires size <= data.Length
    modifies data
    ensures from < size ==> data[..size] == old(data[..size])[..from] + Resets(size - from)
    ensures from >= size ==> data[..size] == old(data[..size])
  {
    var k := from;
    while k < size
      invariant from < size ==> from <= k <= size && data[..k] == old(data[..size])[..from] + Resets(k - from)
      invariant from >= size ==> k == from && data[..] == old(data[..])
      decreases size - k
    {
      data[k] := TagReset();
      assert data[..k + 1] == data[..k] + [TagReset()];
      k := k + 1;
    }
  }

  /** memcpy of `bytes` into the buffer at `at`. */
  method CopyBytes(buffer: array<Byte>, at: nat, bytes: seq<Byte>)
    requires at + |bytes| <= buffer.Length
    modifies buffer
    ensures buffer[..] == Splice(old(buffer[..]), at, bytes)
  {
    forall k | 0 <= k < |bytes| {
      buffer[at + k] := bytes[k];
    }
    assert buffer[..] == Splice(old(buffer[..]), at, bytes) by {
      assert buffer[..at] == old(buffer[..at]);
      assert buffer[at..at + |bytes|] == bytes;
      assert buffer[at + |bytes|..] == old(buffer[at + |bytes|..]);
      assert buffer[..] == buffer[..at] + buffer[at..at + |bytes|] + buffer[at + |bytes|..];
    }
  }

  /** The scanner's state: the stack of open elements. */
  class Scanner {
    const tags: TagStack

    /** scanner_new: a scanner with an empty stack. */
    constructor ()
      ensures tags.Valid() && tags.Contents() == [] && fresh(tags) && fresh(tags.data)
    {
      tags := new TagStack();
    }

    /** scanner_free: releases the stack. */
    method Free()
      requires tags.Valid()
      modifies tags
      ensures tags.Valid() && tags.Contents() == []
    {
      tags.Free();
    }

    /**
     * scan_raw_text: declines on an empty stack; otherwise marks the end, runs
     * the delimiter matcher and produces RAW_TEXT.
     */
    method ScanRawText(lexer: Lexer) returns (ok: bool)
      requires tags.Valid()
      modifies lexer
      ensures Rules.Lexed(ok, lexer.View()) == Rules.ScanRawText(old(lexer.View()), tags.Contents())
    {
      if tags.Empty() {
        return false;
      }
      lexer.MarkEnd();
      var top := tags.Top().value;
      var delimiter := if top.kind == SCRIPT then "</SCRIPT" else "</STYLE";
      assert delimiter == Rules.Delimiter(tags.Contents());
      var index := 0;
      ghost var target := Rules.RawLoop(lexer.View(), delimiter, 0);
      while lexer.Lookahead() != '\0'
        invariant index < |delimiter|
        invariant Rules.RawLoop(lexer.View(), delimiter, index) == target
        decreases |lexer.input| - lexer.pos
      {
        if UpperByte(lexer.Lookahead()) == delimiter[index] {
          index := index + 1;
          if index == |delimiter| {
            break;
          }
          lexer.Advance(false);
        } else {
          index := 0;
          lexer.Advance(false);
          lexer.MarkEnd();
        }
      }
      assert lexer.View() == target;
      lexer.Emit(RAW_TEXT);
      return true;
    }

    /**
     * scan_implicit_end_tag: closes a void element, an element that the
     * following start tag may not appear in, or an element left open inside the
     * one an end tag closes.
     */
    method ScanImplicitEndTag(lexer: Lexer) returns (ok: bool)
      requires tags.Valid()
      modifies lexer, tags
      ensures tags.Valid()
      ensures Rules.Outcome(ok, lexer.View(), tags.Contents())
           == Rules.ScanImplicitEndTag(old(lexer.View()), old(tags.Contents()))
    {
      var parent := tags.Top();
      var closing := false;
      if lexer.Lookahead() == '/' {
        closing := true;
        lexer.Advance(false);
      } else if parent.Some? && IsVoid(parent.value) {
        tags.Pop();
        lexer.Emit(IMPLICIT_END_TAG);
        return true;
      }
      var found, name := ScanTagName(lexer);
      if !found {
        return false;
      }
      var next := TagForName(name);
      if closing {
        if !tags.Empty() && Equals(tags.Top().value, next) {
          return false;
        }
        var open := tags.Contains(next);
        if open {
          tags.Pop();
          lexer.Emit(IMPLICIT_END_TAG);
          return true;
        }
      } else if parent.Some? && !CanContain(parent.value, next) {
        tags.Pop();
        lexer.Emit(IMPLICIT_END_TAG);
        return true;
      }
      return false;
    }

    /** scan_start_tag_name: pushes the element the name denotes and reports its kind of start tag. */
    method ScanStartTagName(lexer: Lexer) returns (ok: bool)
      requires tags.Valid()
      modifies lexer, tags, tags.data
      ensures tags.Valid()
      ensures Rules.Outcome(ok, lexer.View(), tags.Contents())
           == Rules.ScanStartTagName(old(lexer.View()), old(tags.Contents()))
    {
      var found, name := ScanTagName(lexer);
      if !found {
        return false;
      }
      var tag := TagForName(name);
      tags.Push(tag);
      if tag.kind == TEMPLATE {
        lexer.Emit(TEMPLATE_START_TAG_NAME);
      } else if tag.kind == SCRIPT {
        lexer.Emit(SCRIPT_START_TAG_NAME);
      } else if tag.kind == STYLE {
        lexer.Emit(STYLE_START_TAG_NAME);
      } else {
        lexer.Emit(START_TAG_NAME);
      }
      return true;
    }

    /** scan_end_tag_name: pops a matching top, and otherwise reports an erroneous end tag. */
    method ScanEndTagName(lexer: Lexer) returns (ok: bool)
      requires tags.Valid()
      modifies lexer, tags
      ensures tags.Valid()
      ensures Rules.Outcome(ok, lexer.View(), tags.Contents())
           == Rules.ScanEndTagName(old(lexer.View()), old(tags.Contents()))
    {
      var found, name := ScanTagName(lexer);
      if !found {
        return false;
      }
      var tag := TagForName(name);
      var top := tags.Top();
      if top.Some? && Equals(top.value, tag) {
        tags.Pop();
        lexer.Emit(END_TAG_NAME);
      } else {
        lexer.Emit(ERRONEOUS_END_TAG_NAME);
      }
      return true;
    }

    /** scan_self_closing_tag_delimiter: `/>` closes the top element, if any. */
    method ScanSelfClosingTagDelimiter(lexer: Lexer) returns (ok: bool)
      requires tags.Valid()
      modifies lexer, tags
      ensures tags.Valid()
      ensures Rules.Outcome(ok, lexer.View(), tags.Contents())
           == Rules.ScanSelfClosingTagDelimiter(old(lexer.View()), old(tags.Contents()))
    {
      lexer.Advance(false);
      if lexer.Lookahead() == '>' {
        lexer.Advance(false);
        if !tags.Empty() {
          tags.Pop();
          lexer.Emit(SELF_CLOSING_TAG_DELIMITER);
        }
        return true;
      }
      return false;
    }

    /** scanner_scan: skips whitespace, then hands over to the rule the lookahead and valid_symbols select. */
    method Scan(lexer: Lexer, valid: Valid) returns (ok: bool)
      requires tags.Valid()
      modifies lexer, tags, tags.data
      ensures tags.Valid()
      ensures Rules.Outcome(ok, lexer.View(), tags.Contents())
           == Rules.Scan(old(lexer.View()), old(tags.Contents()), valid)
    {
      while IsSpace(lexer.Lookahead())
        modifies lexer
        invariant Rules.SkipSpace(lexer.View()) == Rules.SkipSpace(old(lexer.View()))
        decreases |lexer.input| - lexer.pos
      {
        lexer.Advance(true);
      }
      assert Rules.Scan(old(lexer.View()), tags.Contents(), valid) == Rules.Dispatch(lexer.View(), tags.Contents(), valid);
      if valid[RAW_TEXT] && !valid[START_TAG_NAME] && !valid[END_TAG_NAME] {
        ok := ScanRawText(lexer);
        return;
      }
      var ch := lexer.Lookahead();
      if ch == '<' {
        lexer.MarkEnd();
        lexer.Advance(false);
        if lexer.Lookahead() == '!' {
          lexer.Advance(false);
          ok := ScanComment(lexer);
          return;
        }
        if valid[IMPLICIT_END_TAG] {
          ok := ScanImplicitEndTag(lexer);
          return;
        }
      } else if ch == '\0' {
        if valid[IMPLICIT_END_TAG] {
          ok := ScanImplicitEndTag(lexer);
          return;
        }
      } else if ch == '/' {
        if valid[SELF_CLOSING_TAG_DELIMITER] {
          ok := ScanSelfClosingTagDelimiter(lexer);
          return;
        }
      } else if (valid[START_TAG_NAME] || valid[END_TAG_NAME]) && !valid[RAW_TEXT] {
        if valid[START_TAG_NAME] {
          ok := ScanStartTagName(lexer);
          return;
        }
        ok := ScanEndTagName(lexer);
        return;
      }
      return false;
    }
  
    /**
     * scanner_serialize: the header, then each tag's record while it fits; the
     * first header field is filled in last, with the number of records written.
     */
    method Serialize(buffer: array<Byte>) returns (length: nat)
      requires tags.Valid() && buffer.Length == BufferSize
      modifies buffer
      ensures length <= BufferSize
      ensures buffer[..length] == Encode(tags.Contents())
      ensures buffer[length..] == old(buffer[length..])
    {
      var count := tags.size;
      if count > MaxCount {
        count := MaxCount;
      }
      ghost var stack := tags.Contents();
      ghost var base := buffer[..];
      var offset := 2;
      var field := Encode16(count);
      buffer[offset] := field[0];
      buffer[offset + 1] := field[1];
      assert Laid(buffer[..], base, field) by {
        assert buffer[..] == base[2 := field[0]][3 := field[1]];
        HeaderLaid(base, field);
      }
      offset := offset + 2;
      var serialized;
      ghost var out;
      serialized, offset, out := PutRecords(buffer, tags.data, tags.size, base, field);
      ghost var image: seq<Byte> := buffer[..];
      field := Encode16(serialized);
      buffer[0] := field[0];
      buffer[1] := field[1];
      assert buffer[..] == image[0 := field[0]][1 := field[1]];
      HeaderDone(stack, serialized, offset, base, out, image, field, buffer[..]);
      return offset;
    }

    /**
     * scanner_deserialize: takes the logical size from the header, exposes that
     * many reset tags, then overwrites them with the records found in the first
     * `length` bytes, stopping at the end of the data.
     */
    method Deserialize(buffer: seq<Byte>, length: nat)
      requires tags.Valid() && length <= |buffer|
      modifies tags, tags.data
      ensures tags.Valid()
      ensures tags.Contents() == Decode(buffer[..length])
    {
      tags.size := 0;
      if length == 0 {
        return;
      }
      if length < HeaderSize {
        return;
      }
      var written := Decode16(buffer[0], buffer[1]);
      var count := Decode16(buffer[2], buffer[3]);
      tags.Resize(count);
      assert tags.data[..count] == Resets(count) by {
        assert tags.Contents() == [] + Resets(count);
      }
      DecodeInto(buffer, length, tags.data, written, tags.size);
    }
  }
}
