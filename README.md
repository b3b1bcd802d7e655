# tree-sitter-vue3 external scanner, modelled in Dafny

This project models the external scanner of the tree-sitter grammar for Vue
single-file components. That is the hand-written C part of the lexer that the
generated parser calls whenever one of twelve external tokens may come next.
The scanner has four parts, and all four are modelled:

- **Tags** (`src/tree_sitter_html/tag.h`, module `Tags`, file `tags.dfy`).
  - The 125 known HTML element names: 23 void elements, the END_OF_VOID_TAGS
    separator, 102 container elements, then CUSTOM.
  - `tag_for_name`, which maps each name to its enumerator or to a custom tag
    carrying the name (at most 255 bytes).
  - `tag_equals`, `tag_is_void`, and the implicit-close table `tag_can_contain`.
- **The tag stack and the state codec** (`scanner.cc`; modules `TagStacks` and
  `Codec`, and the `Scanners` methods).
  - A growable array of open elements: capacity starts at 8 and doubles.
  - `scanner_serialize` writes the stack into the host's 1024-byte buffer:
    - a header of two 16-bit little-endian counts, first the number of tags
      written and then the stack size capped at 65535;
    - one record per tag, the type byte plus, for CUSTOM, a length byte and the
      name bytes;
    - it stops before the first record that would reach the end of the buffer.
  - `scanner_deserialize` reads such a buffer back. It recovers from any byte
    string: a short input, a truncated record, or a truncated name.
- **The token rules** (`scanner.cc`; module `Rules` as pure functions, class
  `Scanners.Scanner` as the imperative scanner).
  - tag names, comments and raw text;
  - implicit end tags, start and end tag names, and the self-closing delimiter;
  - the `scanner_scan` dispatcher.
- **The Vue entry point** (`src/scanner.c`, module `Vue`).
  - An error-recovery guard.
  - The text/interpolation pre-filter. It lexes TEXT_FRAGMENT and
    INTERPOLATION_TEXT tokens before the HTML scanner is consulted.

How the model is built:

- The host lexer (`TSLexer`) is the `Lexers.Lexer` class. It has a lookahead
  that is NUL at the end of the input, `advance` with its skip flag,
  `mark_end`, and `result_symbol`. `Lexers.Cursor` is the same state as a value.
- Every rule is written twice:
  - once as a pure function of a `Cursor` and the stack contents (module
    `Rules`, `Codec`, `Vue`);
  - once as a method on the objects the C code mutates (`Lexer`, `TagStack`,
    the `Scanner` class, the serialization `array`).
- Each method's postcondition equates its effect with the pure function.
- The properties are the pure functions' postconditions and lemmas about them.
- Loops in scanner.cc and scanner.c are `while` loops with invariants in the
  methods; the two table searches of tag.h (the `strcmp` loop of
  `tag_for_name` and the loop of `tag_type_allowed_in_paragraph`) are the
  recursive functions `Tags.FindEntry` and `Tags.AllowedFrom`.
- Where a declarative reading exists, the functions that recurse once per loop
  iteration are related to a reference definition, for example "the first
  stop", "the first closing `-->`" or "the longest run of name characters".

## Model

| member | source | states |
|---|---|---|
| Lexers.Cursor.Lookahead | src/tree_sitter_html/scanner.cc:275 | the lookahead is the character at the position, and NUL at the end of the input |
| Lexers.Cursor.Advance | src/tree_sitter_html/scanner.cc:427-429 | advance consumes one character unless at the end; a skipping advance moves the token start along; the mark and symbol stay |
| Lexers.Cursor.MarkEnd | src/tree_sitter_html/scanner.cc:300 | mark_end records the current position and changes nothing else |
| Lexers.Cursor.Emit | src/tree_sitter_html/scanner.cc:321 | setting result_symbol changes nothing else |
| Lexers.ToUpper | src/tree_sitter_html/scanner.cc:247 | towupper lowers an ASCII lower-case letter by 32 and leaves every other character alone |
| Lexers.UpperByte | src/tree_sitter_html/scanner.cc:247 | the `(char)` cast keeps the low eight bits of the upper-cased character |
| Lexers.Lexer.constructor | src/scanner.c:23 | the host lexer starts at a position with nothing marked |
| Lexers.Lexer.Lookahead | src/scanner.c:29 | the object's lookahead is that of its state |
| Lexers.Lexer.Advance | src/scanner.c:48 | the object's new state is Cursor.Advance of the old one |
| Lexers.Lexer.MarkEnd | src/scanner.c:30 | the object's new state is Cursor.MarkEnd of the old one |
| Lexers.Lexer.Emit | src/scanner.c:52 | the object's new state is Cursor.Emit of the old one |
| Tags.EntryType | src/tree_sitter_html/tag.h:144-153 | the enumerator of name-table entry i is never END_OF_VOID_TAGS or CUSTOM, and is below END_OF_VOID_TAGS exactly for the void entries |
| Tags.TagReset | src/tree_sitter_html/tag.h:166-171 | the reset tag has type END_OF_VOID_TAGS and an empty name, so it is neither void nor custom |
| Tags.TagMake | src/tree_sitter_html/tag.h:293-298 | tag_make gives the requested type with an empty name |
| Tags.SetCustomName | src/tree_sitter_html/tag.h:278-291 | the type is kept and the name becomes the first min(length, 255) bytes of the argument |
| Tags.FindEntry | src/tree_sitter_html/tag.h:305-309 | the linear search returns the first index whose entry equals the name, or the table length when there is none |
| Tags.FindEntryFinds | src/tree_sitter_html/tag.h:305-309 | the search finds an entry exactly when the name is in the table |
| Tags.TagNamesDistinct | src/tree_sitter_html/tag.h:15-142 | the 125 names of TAG_NAME_ENTRIES are pairwise distinct, so the first match is the only match |
| Tags.VoidNameNotContainerName | src/tree_sitter_html/tag.h:15-142 | no void element name reappears among the container names |
| Tags.TagNameCounts | src/tree_sitter_html/tag.h:15-142 | there are 23 void names, 102 container names and 125 entries |
| Tags.EnumeratorNames | src/tree_sitter_html/tag.h:144-153 | the enumerators used by the rules (COL, DIV, P, LI, TEMPLATE, SCRIPT, STYLE, …) have the values whose table names are their own names |
| Tags.TypeNameOfEntry | src/tree_sitter_html/tag.h:144-153 | the name of entry i's enumerator is the i-th name of TAG_NAME_ENTRIES, so enum order and table order agree |
| Tags.TagForNameOfEntry | src/tree_sitter_html/tag.h:300-309 | a listed name maps to tag_make of its own enumerator |
| Tags.TagForNameOfTypeName | src/tree_sitter_html/tag.h:300-309 | the name of any enumerator except the separator and CUSTOM maps back to that enumerator |
| Tags.TagForName | src/tree_sitter_html/tag.h:300-314 | the result is canonical; it is CUSTOM exactly when the name is not one of the table entries, and a CUSTOM result keeps the name capped to 255 bytes |
| Tags.TagForNameOfListedName | src/tree_sitter_html/tag.h:300-314 | tag_for_name always yields a canonical tag, and a non-custom result's enumerator is named by the input |
| Tags.TagForNameOfLowerCase | src/tree_sitter_html/tag.h:305-313 | matching is case-sensitive: "div" is a custom tag |
| Tags.TagForNameOfUpperCase | src/tree_sitter_html/tag.h:305-307 | "DIV" maps to DIV |
| Tags.IsVoid | src/tree_sitter_html/tag.h:213-215 | neither a CUSTOM tag nor the END_OF_VOID_TAGS separator is void (which entries are void is Tags.VoidExactlyTheVoidEntries) |
| Tags.VoidExactlyTheVoidEntries | src/tree_sitter_html/tag.h:213-215 | tag_is_void holds exactly for the 23 void list entries; it fails for the separator and for CUSTOM |
| Tags.NamesEqual | src/tree_sitter_html/tag.h:217-221 | the length check plus memcmp amounts to equality of the stored names |
| Tags.Equals | src/tree_sitter_html/tag.h:223-228 | tags of different types are never equal; two tags of one non-custom type are equal whatever their name bytes |
| Tags.EqualsCustom | src/tree_sitter_html/tag.h:223-228 | a CUSTOM tag is equal to another exactly when the two are the same value, type and name |
| Tags.EqualsIsEquivalence | src/tree_sitter_html/tag.h:217-228 | tag_equals is reflexive, symmetric and transitive |
| Tags.EqualsOnCanonical | src/tree_sitter_html/tag.h:217-228 | on canonical tags (no stray name on a non-custom tag) tag_equals is plain equality |
| Tags.NotAllowedInParagraphDistinct | src/tree_sitter_html/tag.h:182-209 | the table of types not allowed in a paragraph has 26 distinct entries |
| Tags.AllowedFrom | src/tree_sitter_html/tag.h:230-237 | the loop from index i answers true exactly when no entry from i on is the type |
| Tags.AllowedInParagraph | src/tree_sitter_html/tag.h:230-237 | a type is allowed in a paragraph iff it is not in TAG_TYPES_NOT_ALLOWED_IN_PARAGRAPHS |
| Tags.CanContain | src/tree_sitter_html/tag.h:239-276 | a parent outside the twelve listed types accepts every child; a P accepts exactly the types not in the paragraph list; only a COLGROUP refuses a custom child |
| Tags.CanContainRules | src/tree_sitter_html/tag.h:239-276 | each case of tag_can_contain as an if-and-only-if, and every other parent type accepts every child |
| Tags.CanContainIgnoresNames | src/tree_sitter_html/tag.h:239-276 | tag_can_contain depends only on the two types |
| Tags.ParagraphRejectsDiv | src/tree_sitter_html/tag.h:182-209 | a DIV cannot sit inside a P |
| Tags.ParagraphAcceptsList | src/tree_sitter_html/tag.h:230-237 | a UL can sit inside a P, since UL is not in the table |
| Tags.CustomAcceptsParagraph | src/tree_sitter_html/tag.h:273-274 | the default case: a custom parent accepts a P |
| TagStacks.Grow | src/tree_sitter_html/scanner.cc:54-57 | the doubling loop's result reaches the wanted capacity, is never below its start, and overshoots by less than a factor of two when any doubling happened |
| TagStacks.GrowBounds | src/tree_sitter_html/scanner.cc:54-57 | the doubling loop's result is its start times a power of two |
| TagStacks.NextCapacity | src/tree_sitter_html/scanner.cc:50-67 | the capacity after reserve is at least the requested value and the old one, is unchanged when already big enough, and is either 8 or below twice the request |
| TagStacks.Resets | src/tree_sitter_html/scanner.cc:74-78 | the slots exposed by resize are all the reset sentinel |
| TagStacks.Peek | src/tree_sitter_html/scanner.cc:99-102 | the top is absent exactly for an empty stack, and otherwise is the last entry |
| TagStacks.Drop | src/tree_sitter_html/scanner.cc:94-97 | pop removes exactly the last entry and is a no-op on an empty stack |
| TagStacks.StackContains | src/tree_sitter_html/scanner.cc:108-116 | a non-custom tag is on the stack iff some entry has its type; a custom tag iff the identical value is an entry |
| TagStacks.DropUndoesPush | src/tree_sitter_html/scanner.cc:84-102 | popping after a push restores the stack, the pushed tag is the new top, and re-pushing the old top undoes a pop |
| TagStacks.TagStack.constructor | src/tree_sitter_html/scanner.cc:35-40 | tag_stack_init: no entries and capacity 0 |
| TagStacks.TagStack.Free | src/tree_sitter_html/scanner.cc:42-48 | tag_stack_free: no entries and capacity 0 again |
| TagStacks.TagStack.Reserve | src/tree_sitter_html/scanner.cc:50-67 | the new capacity is the doubling result, at least the request and the old capacity; size and contents are unchanged; the storage is kept when no growth is needed |
| TagStacks.TagStack.Resize | src/tree_sitter_html/scanner.cc:69-82 | the size becomes the request; shrinking keeps a prefix, and growing appends reset sentinels |
| TagStacks.TagStack.Push | src/tree_sitter_html/scanner.cc:84-92 | the contents become the old contents plus the tag, after reserving size + 1 |
| TagStacks.TagStack.Pop | src/tree_sitter_html/scanner.cc:94-97 | the contents lose their last entry (none when empty); capacity and storage are unchanged |
| TagStacks.TagStack.Top | src/tree_sitter_html/scanner.cc:99-102 | the top of the contents, or none |
| TagStacks.TagStack.Empty | src/tree_sitter_html/scanner.cc:104-106 | empty exactly when there are no contents and no top |
| TagStacks.TagStack.Contains | src/tree_sitter_html/scanner.cc:108-116 | the linear search answers true iff some entry is tag_equals to the argument |
| Codec.Encode16 | src/tree_sitter_html/scanner.cc:141-146 | a 16-bit count occupies two bytes |
| Codec.Decode16 | src/tree_sitter_html/scanner.cc:189-193 | a decoded 16-bit count never exceeds 65535 |
| Codec.Decode16Encode16 | src/tree_sitter_html/scanner.cc:189-193 | reading back a written 16-bit count gives the count |
| Codec.Record | src/tree_sitter_html/scanner.cc:150-167 | a CUSTOM record is two bytes longer than the name, any other record is one byte |
| Codec.RecordHead | src/tree_sitter_html/scanner.cc:158-166 | a record starts with the type byte; for CUSTOM the next byte is the name length |
| Codec.RecordName | src/tree_sitter_html/scanner.cc:158-161 | after the type and length bytes, a CUSTOM record holds exactly the name bytes |
| Codec.RecordsOf | src/tree_sitter_html/scanner.cc:148-168 | the records take at least one byte per tag |
| Codec.RecordsOfAppend | src/tree_sitter_html/scanner.cc:148-168 | the records of a stack with one more tag are the old records followed by that tag's record |
| Codec.EncodeFrom | src/tree_sitter_html/scanner.cc:148-168 | the record loop from tag i stops at a count between i and the limit, and starting below the buffer end it stays below it |
| Codec.EncodeFromRecords | src/tree_sitter_html/scanner.cc:148-168 | the loop writes exactly the records of the tags it passes, back to back |
| Codec.EncodeFromStops | src/tree_sitter_html/scanner.cc:151-164 | when the loop stops before the limit, the next record would not leave a byte of the buffer spare |
| Codec.CappedCount | src/tree_sitter_html/scanner.cc:136-141 | the header count is the size, capped at 65535 |
| Codec.EncodeRecords | src/tree_sitter_html/scanner.cc:136-168 | the bytes written are the records of the first count tags, count is at most the capped size, header and records leave a byte of the 1024-byte buffer spare, and an early stop happens only at a record that would not leave it |
| Codec.EncodeRecordsIs | src/tree_sitter_html/scanner.cc:136-168 | any run of first tags, at most the capped size, whose records leave a byte spare and that cannot be extended (the capped size is reached or the next record does not fit) is exactly what serialize writes |
| Codec.RecordsOfPrefix | src/tree_sitter_html/scanner.cc:148-168 | the records of a longer run of the stack take at least as many bytes |
| Codec.DecodeRecord | src/tree_sitter_html/scanner.cc:201-225 | a record read starts inside the input, ends within it, yields a canonical tag whose type is the first byte, and fails at the end of the input |
| Codec.DecodeFrom | src/tree_sitter_html/scanner.cc:200-226 | the record loop yields at most the number of records asked for |
| Codec.Encode | src/tree_sitter_html/scanner.cc:133-172 | the output is shorter than the 1024-byte buffer; its header holds the count written and the capped size; the body is the records of the first count tags |
| Codec.EncodeWritesShortStacks | src/tree_sitter_html/scanner.cc:148-168 | a stack of fewer than 1020 non-custom tags is written in full |
| Codec.RecordsOfPlain | src/tree_sitter_html/scanner.cc:162-167 | non-custom tags take one byte each |
| Codec.Normal | src/tree_sitter_html/scanner.cc:205-225 | what deserialize stores for a tag is tag_equals to it and canonical |
| Codec.NormalAll | src/tree_sitter_html/scanner.cc:200-226 | normalisation tag by tag |
| Codec.DecodeOneRecord | src/tree_sitter_html/scanner.cc:204-225 | reading the record of a tag gives its normalisation and moves past the record |
| Codec.DecodeFromStep | src/tree_sitter_html/scanner.cc:200-226 | one successful record read followed by the rest of the loop |
| Codec.DecodeRecordsOf | src/tree_sitter_html/scanner.cc:200-226 | decoding the records of a list of tags gives their normalisations |
| Codec.DecodeHeader | src/tree_sitter_html/scanner.cc:189-230 | deserialize yields the records read, up to min(written, size), padded with reset sentinels to the header size |
| Codec.DecodeEndsInResets | src/tree_sitter_html/scanner.cc:228-230 | when fewer tags were written than the size, everything from the written count onwards is a reset sentinel |
| Codec.RoundTrip | src/tree_sitter_html/scanner.cc:133-231 | deserialize(serialize(s)) is the normalised written prefix of s, padded with reset sentinels to the capped size |
| Codec.RoundTripComplete | src/tree_sitter_html/scanner.cc:133-231 | when every tag was written, the round trip has the same size and is tag_equals element by element |
| Codec.DecodeFromCanonical | src/tree_sitter_html/scanner.cc:205-225 | every tag read is canonical |
| Codec.Decode | src/tree_sitter_html/scanner.cc:174-231 | fewer than four bytes give an empty stack; otherwise the size is the header's second count; for any bytes at all the stack has at most 65535 entries and every one is canonical |
| Rules.NameEnd | src/tree_sitter_html/scanner.cc:244 | the run of name characters (letters, digits, `-`, `:`) from a position is maximal |
| Rules.Cap | src/tree_sitter_html/scanner.cc:246-259 | the stored name is the first min(length, 255) bytes |
| Rules.CapUpperStep | src/tree_sitter_html/scanner.cc:246-248 | one loop pass appends the upper-cased byte only while fewer than 255 are stored |
| Rules.ScanTagName | src/tree_sitter_html/scanner.cc:233-266 | the lexer ends after the whole name run; the scan succeeds iff the run is non-empty; the name is the capped upper-cased run |
| Rules.DashesBeforeMeans | src/tree_sitter_html/scanner.cc:274-291 | the dash counter at `>` is at least 2 exactly when the position closes the comment |
| Rules.CommentStop | src/tree_sitter_html/scanner.cc:275-293 | the first position that is NUL or a closing `>` after the opening `<!--` |
| Rules.CommentLoop | src/tree_sitter_html/scanner.cc:274-294 | the loop only moves forward and keeps the token start; success reports COMMENT with the token ending at the lexer, past the `>`; a decline stops at a NUL lookahead with nothing else changed |
| Rules.CommentLoopMeans | src/tree_sitter_html/scanner.cc:274-294 | the loop succeeds iff it reaches a closing `>` before NUL; on success the token ends just after it with COMMENT set; otherwise the lexer is left at the NUL |
| Rules.ScanComment | src/tree_sitter_html/scanner.cc:268-295 | a successful comment scan reports COMMENT with the token ending at the lexer; a declined one has neither marked an end nor set a symbol |
| Rules.OpeningDashesDoNotClose | src/tree_sitter_html/scanner.cc:268-295 | the dashes of `<!--` do not count toward the close: `<!-->` and `<!--->` are not comments, `<!---->` is |
| Rules.Delimiter | src/tree_sitter_html/scanner.cc:303 | the raw-text delimiter starts with `<` |
| Rules.MatchedPrefixUpper | src/tree_sitter_html/scanner.cc:308 | the pointwise matched-prefix predicate equals the upper-cased slice matching the delimiter prefix |
| Rules.MatchedPrefixStep | src/tree_sitter_html/scanner.cc:308-313 | a matching character extends the matched prefix |
| Rules.RawLoop | src/tree_sitter_html/scanner.cc:307-319 | the matcher keeps the input, the token start and the symbol, only moves forward, and keeps a marked end |
| Rules.RawLoopMeans | src/tree_sitter_html/scanner.cc:307-319 | the mark only advances; between the mark and the lexer lies a proper prefix of the delimiter |
| Rules.RawLoopStop | src/tree_sitter_html/scanner.cc:307-319 | the loop stops only at NUL or on the delimiter's last character |
| Rules.ScanRawText | src/tree_sitter_html/scanner.cc:297-323 | raw text succeeds iff the stack is non-empty; a decline changes nothing; a success reports RAW_TEXT with a marked end |
| Rules.ScanRawTextMeans | src/tree_sitter_html/scanner.cc:297-323 | raw text succeeds iff the stack is non-empty; it sets RAW_TEXT; the token ends where a matched delimiter prefix begins; unless at NUL the whole delimiter is matched |
| Rules.RawLoopWithoutStart | src/tree_sitter_html/scanner.cc:307-319 | without a delimiter start character the raw text runs to the end of the input |
| Rules.DelimiterAfterLessThan | src/tree_sitter_html/scanner.cc:303 | `<</script>` does contain `</SCRIPT` once upper-cased |
| Rules.RawTextMissesDelimiterAfterLessThan | src/tree_sitter_html/scanner.cc:314-318 | yet a mismatch is not re-tested against `<`, so on `<</script>` the raw text runs to the end of the input |
| Rules.StartSymbol | src/tree_sitter_html/scanner.cc:375-388 | TEMPLATE, SCRIPT and STYLE get their own start symbols; every other tag gets START_TAG_NAME |
| Rules.ScanImplicitEndTag | src/tree_sitter_html/scanner.cc:325-362 | an implicit end tag either declines with the stack unchanged or pops exactly the last entry and reports IMPLICIT_END_TAG |
| Rules.ScanStartTagName | src/tree_sitter_html/scanner.cc:364-391 | success pushes exactly one tag and reports that tag's start symbol; a decline leaves the stack alone |
| Rules.ScanEndTagName | src/tree_sitter_html/scanner.cc:393-409 | END_TAG_NAME always comes with a pop of the last entry; ERRONEOUS_END_TAG_NAME and a decline leave the stack alone |
| Rules.ScanSelfClosingTagDelimiter | src/tree_sitter_html/scanner.cc:411-422 | success pops the last entry, if any; a decline leaves the stack alone |
| Rules.StartTagNamePushes | src/tree_sitter_html/scanner.cc:364-391 | success iff a name was read; then the tag for the name is pushed and its start symbol set; otherwise the stack is unchanged |
| Rules.EndTagNamePopsMatchingTop | src/tree_sitter_html/scanner.cc:393-409 | success iff a name was read; the top is popped with END_TAG_NAME iff it equals the tag, and otherwise ERRONEOUS_END_TAG_NAME leaves the stack alone |
| Rules.ImplicitEndTagAfterSlash | src/tree_sitter_html/scanner.cc:325-354 | after `</NAME`: one pop with IMPLICIT_END_TAG iff NAME is not the top but is somewhere in the stack |
| Rules.ImplicitEndTagWithoutSlash | src/tree_sitter_html/scanner.cc:325-361 | a void top is popped at once; otherwise one pop iff there is a top that cannot contain the tag named next |
| Rules.SelfClosingPopsOne | src/tree_sitter_html/scanner.cc:411-422 | success iff `/` is followed by `>`; then one pop with SELF_CLOSING_TAG_DELIMITER, except that on an empty stack the symbol is not set |
| Rules.SkipSpace | src/tree_sitter_html/scanner.cc:427-429 | the whitespace skip keeps the input, the mark and the symbol, only moves forward, and stops at a lookahead that is not whitespace |
| Rules.SkipSpaceMeans | src/tree_sitter_html/scanner.cc:427-429 | the whitespace skip stops at the first non-space, moves the token start past it, and changes nothing else |
| Rules.ScanSkipsWhitespace | src/tree_sitter_html/scanner.cc:427-429 | leading whitespace does not change what scanner_scan decides |
| Rules.RawTextModeDecides | src/tree_sitter_html/scanner.cc:431-433 | in raw-text mode (whitespace still skipped) the result is raw text, true iff the stack is non-empty; the stack is untouched |
| Rules.EndOfInputPopsOnlyVoid | src/tree_sitter_html/scanner.cc:450-453 | at the end of input only a void top is popped; a non-void top is left and the call declines |
| Rules.CommentKeepsStack | src/tree_sitter_html/scanner.cc:436-443 | `<!` goes to the comment rule, which never touches the stack and only sets COMMENT |
| Rules.Scan | src/tree_sitter_html/scanner.cc:424-473 | one scan leaves the stack as it was, pops exactly its last entry, or pushes exactly one tag; a push happens only for a start tag name, with that tag's start symbol |
| Rules.Dispatch | src/tree_sitter_html/scanner.cc:431-470 | the same bounds on the stack change after the whitespace, and raw-text mode never changes the stack |
| Scanners.ScanTagName | src/tree_sitter_html/scanner.cc:233-266 | the method's result and lexer state are those of Rules.ScanTagName |
| Scanners.ScanComment | src/tree_sitter_html/scanner.cc:268-295 | the method's result and lexer state are those of Rules.ScanComment |
| Scanners.PutRecord | src/tree_sitter_html/scanner.cc:158-166 | writes exactly one record at the offset and nothing else |
| Scanners.PutRecords | src/tree_sitter_html/scanner.cc:148-168 | after the loop the buffer body holds exactly the records serialize writes, and the count is the number of tags written |
| Scanners.ReadRecord | src/tree_sitter_html/scanner.cc:204-225 | reads a record iff the pure reader does, with the same tag and the same next offset |
| Scanners.GetRecords | src/tree_sitter_html/scanner.cc:200-226 | the first size slots become the records read, followed by reset sentinels |
| Scanners.DecodeInto | src/tree_sitter_html/scanner.cc:195-230 | the slots hold exactly the decoded stack |
| Scanners.ResetFrom | src/tree_sitter_html/scanner.cc:228-230 | the slots from serialized_tag_count onwards become reset sentinels and the earlier ones are kept |
| Scanners.Scanner.constructor | src/tree_sitter_html/scanner.cc:118-125 | a new scanner has an empty stack |
| Scanners.Scanner.Free | src/tree_sitter_html/scanner.cc:127-131 | freeing leaves an empty stack |
| Scanners.Scanner.ScanRawText | src/tree_sitter_html/scanner.cc:297-323 | the method agrees with Rules.ScanRawText |
| Scanners.Scanner.ScanImplicitEndTag | src/tree_sitter_html/scanner.cc:325-362 | the method agrees with Rules.ScanImplicitEndTag, including the new stack |
| Scanners.Scanner.ScanStartTagName | src/tree_sitter_html/scanner.cc:364-391 | the method agrees with Rules.ScanStartTagName, including the new stack |
| Scanners.Scanner.ScanEndTagName | src/tree_sitter_html/scanner.cc:393-409 | the method agrees with Rules.ScanEndTagName, including the new stack |
| Scanners.Scanner.ScanSelfClosingTagDelimiter | src/tree_sitter_html/scanner.cc:411-422 | the method agrees with Rules.ScanSelfClosingTagDelimiter, including the new stack |
| Scanners.Scanner.Scan | src/tree_sitter_html/scanner.cc:424-473 | scanner_scan: result, lexer state and stack are those of Rules.Scan |
| Scanners.Scanner.Serialize | src/tree_sitter_html/scanner.cc:133-172 | the returned length is within the buffer, the bytes before it are Codec.Encode of the stack, and the bytes after it are untouched |
| Scanners.Scanner.Deserialize | src/tree_sitter_html/scanner.cc:174-231 | the stack becomes Codec.Decode of the first length bytes, for any bytes |
| Vue.Stop | src/scanner.c:51-57 | after a break, a TEXT_FRAGMENT token is produced iff text was consumed; otherwise the lexer is handed on unchanged |
| Vue.VueScan | src/scanner.c:23-58 | when START_TAG_NAME and RAW_TEXT are both valid, or the lookahead is `<`, or neither text token is valid, the result is exactly scanner_scan's |
| Vue.FirstStop | src/scanner.c:28-50 | the first stop at or after a position: NUL, `<` before a letter or `!`, `?`, `/`; `{{`; or `}}` when interpolation text is valid |
| Vue.TextLoop | src/scanner.c:28-50 | the loop always marks an end and never moves back or moves the token start; once text was consumed it returns instead of falling through; a returned token is TEXT_FRAGMENT or INTERPOLATION_TEXT, only an empty interpolation text is declined, and a fall-through keeps the symbol |
| Vue.TextLoopMeans | src/scanner.c:28-50 | the loop ends at the first stop, marks the token end there, and has text exactly when it moved |
| Vue.VueScanText | src/scanner.c:26-57 | with the guard passed: `}}` gives INTERPOLATION_TEXT ending before it, true only if text came before; any other stop gives TEXT_FRAGMENT ending before it if text came before, and otherwise falls through to scanner_scan; the stack is unchanged unless scanner_scan runs |
| Vue.EmptyInterpolationDeclines | src/scanner.c:40-46 | `}}` with nothing before it returns false without falling through |
| Vue.InterpolationTextEndsBeforeBraces | src/scanner.c:40-46 | `a}}` gives the INTERPOLATION_TEXT token `a` |
| Vue.BracesAreTextOutsideInterpolation | src/scanner.c:40-48 | without INTERPOLATION_TEXT, `}}` is ordinary text |
| Vue.TextEndsBeforeTag | src/scanner.c:32-54 | in `ab<c` the text token ends before the `<` |
| Vue.LessThanBeforeSpaceIsText | src/scanner.c:32-35 | a `<` followed by a space stays in the text |
| Vue.LoneBraceIsText | src/scanner.c:36-39 | a lone `{` is ordinary text |
| Vue.OpeningBracesFallThrough | src/scanner.c:36-57 | `{{` at once falls through to scanner_scan, with the lexer past the first brace and the end marked before it |
| Vue.ScanText | src/scanner.c:27-50 | the `for` loop's exit (the `}}` return or a break, and the has_text flag) is that of the pure loop |
| Vue.ExternalScan | src/scanner.c:23-58 | tree_sitter_vue_external_scanner_scan: result, lexer state and stack are those of Vue.VueScan |

## Left out

- Allocation failure. `realloc` and `calloc` always succeed here, so
  `tag_stack_reserve`, `resize` and `push` never report failure, and the
  failure branches (scanner.cc:59-62, 70-72, 86-88, 119-122, 195-198, 371-373)
  are not modelled.
- NULL-pointer guards (`!stack`, `!scanner`, `!buffer`, `!tag`, `!name`): every
  reference in the model is non-null.
- The C entry-point wrappers (scanner.cc:475-501, scanner.c:7-21) only
  delegate. They are not separate members; the serialize and deserialize
  wrappers are `Scanners.Scanner.Serialize` and `Deserialize`.
- The character classes `iswalpha`, `iswalnum`, `iswspace` and `towupper` are
  read in the C locale: ASCII letters and digits, and the six ASCII space
  characters. `(char)towupper(c)` keeps the low eight bits of the upper-cased
  code point.
- Byte order and char signedness. The 16-bit counts are taken as
  little-endian, as `memcpy` writes them on the usual targets. Buffer bytes are
  unsigned, so a type byte above 127 is read back as itself. This is also what
  GCC and Clang do on a signed-`char` target: an enum without negative
  enumerators has type `unsigned int` there, so such a byte becomes a large
  unsigned type that is neither void nor CUSTOM and is written back as the same
  byte, as the byte-valued TagType does. Only a compiler whose enum is `int`
  (MSVC, for one) would read it as a negative type, which counts as void.
- `Tag` is a value (type and name bytes) instead of a fixed 256-byte struct.
  The NUL terminator and any bytes after the name are not represented, so
  `Scanners.Scanner.Serialize` writes exactly the name bytes.
- Fixed-width counters (`uint16_t serialized_tag_count`, `unsigned offset`)
  are unbounded integers. The 1024-byte buffer bound and the 65535 cap keep
  every value in range, so nothing wraps.
- Scanners.Scanner.Deserialize: the input buffer is a read-only sequence, not
  an array, since the C code only reads it.
- The serialize and deserialize loops have a loop body in a helper method
  (`PutNextRecord`, `GetNextRecord`), and the source's `break`s are `return`s
  from a method that holds only the loop. The order of reads and writes is
  unchanged.
- The tree-sitter host itself is out of scope: the generated parser, the
  grammar, how `valid_symbols` is chosen, and what a returned token means. The
  host lexer is reduced to the four operations the scanner uses.

## Behaviour modelled as written

- At the end of input, `scan_implicit_end_tag` pops only a void top. A non-void
  top stays, because the tag-name scan fails on NUL (`Rules.EndOfInputPopsOnlyVoid`).
- Whitespace is skipped before the raw-text check, so raw text never starts
  with whitespace (`Rules.RawTextModeDecides`, `Scanners.Scanner.Scan`).
- `}}` with no text before it returns false with INTERPOLATION_TEXT set. It
  does not fall through to `scanner_scan` (`Vue.EmptyInterpolationDeclines`).
- `/>` on an empty stack returns true without setting the result symbol
  (`Rules.SelfClosingPopsOne`).
- The raw-text matcher resets its index on a mismatch without re-testing that
  character against the delimiter's first byte. So `<</script>` is not ended
  by its `</script` (`Rules.RawTextMissesDelimiterAfterLessThan`).
- When the pre-filter breaks with nothing consumed, `scanner_scan` receives the
  lexer as the loop left it. After `{{` that is one past the first brace, with
  the end marked before it (`Vue.OpeningBracesFallThrough`).
