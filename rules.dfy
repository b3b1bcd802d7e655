/**
 * The token decisions of the HTML scanner (the scan_* functions and
 * scanner_scan of scanner.cc) as functions of the lexer state, the stack of
 * open elements and the valid_symbols flags. Each rule gives whether a token
 * was produced, the lexer state afterwards and the new stack.
 */
module Rules {
  import opened Wrappers
  import opened Tags
  import opened TagStacks
  import opened Lexers

  /** What a rule that does not touch the stack leaves behind. */
  datatype Lexed = Lexed(ok: bool, cur: Cursor)

  /** What a rule leaves behind: the return value, the lexer and the stack. */
  datatype Outcome = Outcome(ok: bool, cur: Cursor, tags: seq<Tag>)

  // ---------------------------------------------------------------------------
  // scan_tag_name
  // ---------------------------------------------------------------------------

  /** A character scan_tag_name takes into a name. */
  predicate IsNameChar(ch: char)
  {
    IsAlnum(ch) || ch == '-' || ch == ':'
  }

  /** The end of the run of name characters that starts at `i`. */
  function NameEnd(s: seq<char>, i: nat): (e: nat)
    ensures i <= e && (e == i || e <= |s|)
    ensures forall k | i <= k < e :: IsNameChar(s[k])
    ensures !IsNameChar(CharAt(s, e))
    decreases |s| - i
  {
    if IsNameChar(CharAt(s, i)) then NameEnd(s, i + 1) else i
  }

  /** The first MaxCustomTagNameLength bytes of a name. */
  function Cap(name: seq<Byte>): (r: Name)
    ensures |r| == if |name| <= MaxCustomTagNameLength then |name| else MaxCustomTagNameLength
    ensures r == name[..|r|]
  {
    if |name| <= MaxCustomTagNameLength then name else name[..MaxCustomTagNameLength]
  }

  /** One more character of the run: it is kept while fewer than 255 are stored, dropped after that. */
  lemma CapUpperStep(s: seq<char>, from: nat, p: nat)
    requires from <= p < |s|
    ensures var kept := Stored(s, from, p);
      Stored(s, from, p + 1) == if |kept| < MaxCustomTagNameLength then kept + [UpperByte(s[p])] else kept
  {
    assert s[from..p + 1] == s[from..p] + [s[p]];
    UpperBytesAppend(s[from..p], [s[p]]);
    var u := UpperBytes(s[from..p]);
    assert UpperBytes(s[from..p + 1]) == u + [UpperByte(s[p])];
    if |u| >= MaxCustomTagNameLength {
      assert (u + [UpperByte(s[p])])[..MaxCustomTagNameLength] == u[..MaxCustomTagNameLength];
    }
  }

  /** The bytes scan_tag_name has stored after reading the name characters from `from` to `p`. */
  function Stored(s: seq<char>, from: nat, p: nat): Name
    requires from <= p <= |s|
  {
    Cap(UpperBytes(s[from..p]))
  }

  /** The result of scan_tag_name: whether a name was read, the name buffer, and the lexer. */
  datatype NameScan = NameScan(found: bool, name: Name, cur: Cursor)

  /**
   * scan_tag_name: consumes the whole run of letters, digits, `-` and `:` and
   * keeps the first 255 of them upper-cased; fails, consuming nothing, when
   * the run is empty.
   */
  function ScanTagName(c: Cursor): (r: NameScan)
    ensures r.cur == c.(pos := NameEnd(c.input, c.pos))
    ensures r.found <==> NameEnd(c.input, c.pos) > c.pos
    ensures r.found ==> r.name == Cap(UpperBytes(c.input[c.pos..NameEnd(c.input, c.pos)]))
    ensures !r.found ==> r.name == []
  {
    var e := NameEnd(c.input, c.pos);
    if e == c.pos then NameScan(false, [], c)
    else NameScan(true, Cap(UpperBytes(c.input[c.pos..e])), c.(pos := e))
  }

  // ---------------------------------------------------------------------------
  // scan_comment
  // ---------------------------------------------------------------------------

  /** The value of the `dashes` counter at `k`: the dashes right before `k`, counted from `from`. */
  function DashesBefore(s: seq<char>, from: nat, k: nat): nat
    requires from <= k <= |s|
    decreases k - from
  {
    if k == from || s[k - 1] != '-' then 0 else 1 + DashesBefore(s, from, k - 1)
  }

  /** A `>` at `k` that closes a comment whose body starts at `from`: two dashes of the body right before it. */
  predicate Closes(s: seq<char>, from: nat, k: nat)
  {
    from + 2 <= k < |s| && s[k] == '>' && s[k - 1] == '-' && s[k - 2] == '-'
  }

  /** The counter reaches two exactly when the body has two dashes right before `k`. */
  lemma DashesBeforeMeans(s: seq<char>, from: nat, k: nat)
    requires from <= k < |s|
    ensures (s[k] == '>' && DashesBefore(s, from, k) >= 2) <==> Closes(s, from, k)
  {
    if k >= from + 1 && s[k - 1] == '-' {
      assert DashesBefore(s, from, k) == 1 + DashesBefore(s, from, k - 1);
    }
  }

  /** The loop of scan_comment from the cursor on, the body having started at `from`. */
  function CommentLoop(c: Cursor, from: nat): (r: Lexed)
    requires from <= c.pos <= |c.input|
    ensures r.cur.input == c.input && r.cur.start == c.start && c.pos <= r.cur.pos
    ensures r.ok ==> r.cur.symbol == COMMENT && r.cur.mark == Some(r.cur.pos) && c.pos < r.cur.pos
    ensures !r.ok ==> r.cur == c.(pos := r.cur.pos) && r.cur.Lookahead() == '\0'
    decreases |c.input| - c.pos
  {
    var ch := c.Lookahead();
    if ch == '\0' then Lexed(false, c)
    else if ch == '>' && DashesBefore(c.input, from, c.pos) >= 2 then
      Lexed(true, c.Emit(COMMENT).Advance(false).MarkEnd())
    else CommentLoop(c.Advance(false), from)
  }

  /**
   * scan_comment, after `<!`: needs `--`, then stops at the first `-->` whose
   * dashes belong to the body, or declines at a NUL or at the end of the input.
   * It reports COMMENT, ending the token after the `>`, whenever it succeeds;
   * when it declines it has neither marked an end nor set a symbol.
   */
  function ScanComment(c: Cursor): (r: Lexed)
    ensures r.cur.input == c.input && r.cur.start == c.start
    ensures r.ok ==> r.cur.symbol == COMMENT && r.cur.mark == Some(r.cur.pos)
    ensures !r.ok ==> r.cur.mark == c.mark && r.cur.symbol == c.symbol
  {
    if c.Lookahead() != '-' then Lexed(false, c)
    else
      var c1 := c.Advance(false);
      if c1.Lookahead() != '-' then Lexed(false, c1)
      else
        var c2 := c1.Advance(false);
        CommentLoop(c2, c2.pos)
  }

  /** The first `k` from `i` on that is a NUL, the end, or a closing `>`. */
  function CommentStop(s: seq<char>, from: nat, i: nat): (k: nat)
    requires from <= i <= |s|
    ensures i <= k <= |s|
    ensures CharAt(s, k) == '\0' || Closes(s, from, k)
    ensures forall j | i <= j < k :: s[j] != '\0' && !Closes(s, from, j)
    decreases |s| - i
  {
    if CharAt(s, i) == '\0' || Closes(s, from, i) then i else CommentStop(s, from, i + 1)
  }

  /**
   * The comment loop ends at the first NUL or closing `>`: at a `>` it succeeds
   * with the token ending just after it, otherwise it declines there.
   */
  lemma {:induction false} CommentLoopMeans(c: Cursor, from: nat)
    requires from <= c.pos <= |c.input|
    ensures var k := CommentStop(c.input, from, c.pos); var r := CommentLoop(c, from);
      (r.ok <==> Closes(c.input, from, k))
      && (r.ok ==> r.cur == c.(pos := k + 1, mark := Some(k + 1), symbol := COMMENT))
      && (!r.ok ==> r.cur == c.(pos := k))
    decreases |c.input| - c.pos
  {
    var s := c.input;
    if c.pos < |s| {
      DashesBeforeMeans(s, from, c.pos);
    }
    if c.Lookahead() != '\0' && !Closes(s, from, c.pos) {
      CommentLoopMeans(c.Advance(false), from);
    }
  }

  /** `<!-->` and `<!--->` do not close the comment: the opening dashes do not count. */
  lemma OpeningDashesDoNotClose()
    ensures !ScanComment(At("-->", 0)).ok
    ensures !ScanComment(At("--->", 0)).ok
    ensures ScanComment(At("---->", 0)).ok
  {
    TwoDashesDoNotClose();
    ThreeDashesDoNotClose();
    FourDashesClose();
  }

  lemma TwoDashesDoNotClose()
    ensures !ScanComment(At("-->", 0)).ok
  {
    var c := At("-->", 0).Advance(false).Advance(false);
    CommentLoopMeans(c, 2);
  }

  lemma ThreeDashesDoNotClose()
    ensures !ScanComment(At("--->", 0)).ok
  {
    var c := At("--->", 0).Advance(false).Advance(false);
    CommentLoopMeans(c, 2);
    assert !Closes("--->", 2, 2) && !Closes("--->", 2, 3);
  }

  lemma FourDashesClose()
    ensures ScanComment(At("---->", 0)).ok
  {
    var c := At("---->", 0).Advance(false).Advance(false);
    CommentLoopMeans(c, 2);
    assert CommentStop("---->", 2, 2) == 4 by {
      assert !Closes("---->", 2, 2) && !Closes("---->", 2, 3) && Closes("---->", 2, 4);
    }
  }

  // ---------------------------------------------------------------------------
  // scan_raw_text
  // ---------------------------------------------------------------------------

  /** The end delimiter of raw text: `</SCRIPT` under a SCRIPT element, `</STYLE` under any other. */
  function Delimiter(tags: seq<Tag>): (d: string)
    ensures |d| > 0 && d[0] == '<'
  {
    if |tags| > 0 && tags[|tags| - 1].kind == SCRIPT then "</SCRIPT" else "</STYLE"
  }

  /**
   * The matching loop of scan_raw_text, `idx` delimiter characters matched so
   * far. A mismatch resets the count, consumes the character without testing it
   * against the first delimiter character, and marks the end after it.
   */
  function RawLoop(c: Cursor, d: seq<char>, idx: nat): (r: Cursor)
    requires idx < |d|
    ensures r.input == c.input && r.start == c.start && r.symbol == c.symbol && c.pos <= r.pos
    ensures c.mark.Some? ==> r.mark.Some?
    decreases |c.input| - c.pos
  {
    var ch := c.Lookahead();
    if ch == '\0' then c
    else if UpperByte(ch) == d[idx] then
      if idx + 1 == |d| then c else RawLoop(c.Advance(false), d, idx + 1)
    else RawLoop(c.Advance(false).MarkEnd(), d, 0)
  }

  /**
   * scan_raw_text: declines on an empty stack; otherwise marks the end, runs the
   * matcher and produces RAW_TEXT, whatever the input.
   */
  function ScanRawText(c: Cursor, tags: seq<Tag>): (r: Lexed)
    ensures r.ok <==> |tags| > 0
    ensures !r.ok ==> r.cur == c
    ensures r.ok ==> r.cur.symbol == RAW_TEXT && r.cur.mark.Some? && r.cur.input == c.input && c.pos <= r.cur.pos
  {
    if |tags| == 0 then Lexed(false, c)
    else Lexed(true, RawLoop(c.MarkEnd(), Delimiter(tags), 0).Emit(RAW_TEXT))
  }

  /** The text from `m` to `p` upper-cases to the first `p - m` characters of the delimiter. */
  predicate MatchedPrefix(s: seq<char>, m: nat, p: nat, d: seq<char>)
  {
    m <= p <= |s| && p - m <= |d| && forall k | m <= k < p :: UpperByte(s[k]) == d[k - m]
  }

  /** The same, stated on the upper-cased slice. */
  lemma MatchedPrefixUpper(s: seq<char>, m: nat, p: nat, d: seq<char>)
    requires m <= p <= |s| && p - m <= |d|
    ensures MatchedPrefix(s, m, p, d) <==> UpperBytes(s[m..p]) == d[..p - m]
  {
    if MatchedPrefix(s, m, p, d) {
      assert forall k | 0 <= k < p - m :: UpperBytes(s[m..p])[k] == d[..p - m][k];
    }
    if UpperBytes(s[m..p]) == d[..p - m] {
      forall k | m <= k < p
        ensures UpperByte(s[k]) == d[k - m]
      {
        assert UpperBytes(s[m..p])[k - m] == UpperByte(s[k]);
      }
    }
  }

  /** A prefix of the delimiter followed by its next character is a longer prefix. */
  lemma MatchedPrefixStep(s: seq<char>, m: nat, p: nat, d: seq<char>)
    requires MatchedPrefix(s, m, p, d) && p < |s| && p - m < |d| && UpperByte(s[p]) == d[p - m]
    ensures MatchedPrefix(s, m, p + 1, d)
  {
  }

  /**
   * What the matcher guarantees: the token end `m` is never before the start and
   * never after the lookahead, and the characters between it and the lookahead
   * are an upper-cased proper prefix of the delimiter.
   */
  lemma {:induction false} RawLoopMeans(c: Cursor, d: seq<char>, idx: nat, from: nat)
    requires idx < |d| && from + idx <= c.pos <= |c.input|
    requires c.mark == Some(c.pos - idx)
    requires MatchedPrefix(c.input, c.pos - idx, c.pos, d)
    ensures var r := RawLoop(c, d, idx);
      r.input == c.input && r.start == c.start && r.symbol == c.symbol
      && r.mark.Some? && from <= r.mark.value && r.pos - r.mark.value < |d|
      && MatchedPrefix(c.input, r.mark.value, r.pos, d)
    decreases |c.input| - c.pos
  {
    var ch := c.Lookahead();
    if ch == '\0' {
    } else if UpperByte(ch) == d[idx] {
      if idx + 1 < |d| {
        MatchedPrefixStep(c.input, c.pos - idx, c.pos, d);
        RawLoopMeans(c.Advance(false), d, idx + 1, from);
      }
    } else {
      assert c.input[c.pos + 1..c.pos + 1] == [];
      RawLoopMeans(c.Advance(false).MarkEnd(), d, 0, from);
    }
  }

  /** Unless the matcher stopped at a NUL or the end, the lookahead completes the delimiter. */
  lemma {:induction false} RawLoopStop(c: Cursor, d: seq<char>, idx: nat)
    requires idx < |d| && idx <= c.pos && c.mark == Some(c.pos - idx)
    ensures var r := RawLoop(c, d, idx);
      r.mark.Some? && (r.Lookahead() == '\0' || (r.pos + 1 - r.mark.value == |d| && UpperByte(r.Lookahead()) == d[|d| - 1]))
    decreases |c.input| - c.pos
  {
    var ch := c.Lookahead();
    if ch == '\0' {
    } else if UpperByte(ch) == d[idx] {
      if idx + 1 < |d| {
        RawLoopStop(c.Advance(false), d, idx + 1);
      }
    } else {
      RawLoopStop(c.Advance(false).MarkEnd(), d, 0);
    }
  }

  /**
   * scan_raw_text never changes the stack, declines only on an empty stack, and
   * its token never covers any part of the delimiter it matched: the token ends
   * where a case-insensitive delimiter begins, or before a delimiter prefix that
   * reaches the end of the input.
   */
  lemma ScanRawTextMeans(c: Cursor, tags: seq<Tag>)
    requires c.pos <= |c.input|
    ensures var r := ScanRawText(c, tags); var d := Delimiter(tags);
      (r.ok <==> |tags| > 0)
      && (r.ok ==> r.cur.symbol == RAW_TEXT && r.cur.mark.Some? && c.pos <= r.cur.mark.value
                   && MatchedPrefix(c.input, r.cur.mark.value, r.cur.pos, d))
    ensures var r := ScanRawText(c, tags); var d := Delimiter(tags);
      r.ok && r.cur.Lookahead() != '\0' ==>
        MatchedPrefix(c.input, r.cur.mark.value, r.cur.pos + 1, d) && r.cur.pos + 1 - r.cur.mark.value == |d|
  {
    if |tags| > 0 {
      var s := c.input;
      var d := Delimiter(tags);
      assert s[c.pos..c.pos] == [];
      RawLoopMeans(c.MarkEnd(), d, 0, c.pos);
      RawLoopStop(c.MarkEnd(), d, 0);
      var r := RawLoop(c.MarkEnd(), d, 0);
      if r.Lookahead() != '\0' {
        MatchedPrefixStep(s, r.mark.value, r.pos, d);
      }
    }
  }

  /** With no character that could start the delimiter ahead, the matcher runs to the end, marking as it goes. */
  lemma {:induction false} RawLoopWithoutStart(c: Cursor, d: seq<char>)
    requires 0 < |d| && c.pos <= |c.input|
    requires forall j | c.pos <= j < |c.input| :: c.input[j] != '\0' && UpperByte(c.input[j]) != d[0]
    ensures RawLoop(c, d, 0) == if c.pos < |c.input| then c.(pos := |c.input|, mark := Some(|c.input|)) else c
    decreases |c.input| - c.pos
  {
    if c.pos < |c.input| {
      RawLoopWithoutStart(c.Advance(false).MarkEnd(), d);
    }
  }

  /** The text `</script` that follows the first character of `<</script>` upper-cases to the delimiter. */
  lemma DelimiterAfterLessThan()
    ensures UpperBytes("<</script>"[1..9]) == "</SCRIPT"
  {
    var t := "<</script>"[1..9];
    assert t == "</script";
    assert UpperBytes(t) == [UpperByte('<'), UpperByte('/'), UpperByte('s'), UpperByte('c'),
                             UpperByte('r'), UpperByte('i'), UpperByte('p'), UpperByte('t')];
  }

  /**
   * The mismatch quirk: in `<</script>` the second `<` is consumed by the failed
   * match of the first, so the end tag is not recognised and the whole input
   * becomes raw text, although the text from index 1 is the delimiter.
   */
  lemma RawTextMissesDelimiterAfterLessThan()
    ensures ScanRawText(At("<</script>", 0), [TagMake(SCRIPT)]).cur.mark == Some(10)
  {
    var s := "<</script>";
    var d := "</SCRIPT";
    var c0 := At(s, 0).MarkEnd();
    var c1 := c0.Advance(false);
    var c2 := c1.Advance(false).MarkEnd();
    assert c0.Lookahead() == '<' && c1.Lookahead() == '<';
    assert UpperByte('<') == '<';
    assert RawLoop(c0, d, 0) == RawLoop(c1, d, 1);
    assert RawLoop(c1, d, 1) == RawLoop(c2, d, 0);
    forall j | 2 <= j < |s|
      ensures s[j] != '\0' && UpperByte(s[j]) != d[0]
    {
      assert s[j] in "/script>";
      UpperByteOfByte(s[j]);
    }
    RawLoopWithoutStart(c2, d);
  }

  // ---------------------------------------------------------------------------
  // scan_implicit_end_tag, scan_start_tag_name, scan_end_tag_name,
  // scan_self_closing_tag_delimiter
  // ---------------------------------------------------------------------------

  /**
   * scan_implicit_end_tag: pops a void top before reading a name (unless at `/`);
   * after `</NAME` pops when NAME is an ancestor other than the top; after a
   * start tag name pops when the top may not contain it. It either declines
   * with the stack unchanged or pops exactly one entry.
   */
  function ScanImplicitEndTag(c: Cursor, tags: seq<Tag>): (r: Outcome)
    ensures !r.ok ==> r.tags == tags
    ensures r.ok ==> |tags| > 0 && r.tags == tags[..|tags| - 1] && r.cur.symbol == IMPLICIT_END_TAG
  {
    var parent := Peek(tags);
    var closing := c.Lookahead() == '/';
    if !closing && parent.Some? && IsVoid(parent.value) then
      Outcome(true, c.Emit(IMPLICIT_END_TAG), Drop(tags))
    else
      var n := ScanTagName(if closing then c.Advance(false) else c);
      if !n.found then Outcome(false, n.cur, tags)
      else
        var next := TagForName(n.name);
        if closing then
          if parent.Some? && Equals(parent.value, next) then Outcome(false, n.cur, tags)
          else if StackContains(tags, next) then Outcome(true, n.cur.Emit(IMPLICIT_END_TAG), Drop(tags))
          else Outcome(false, n.cur, tags)
        else if parent.Some? && !CanContain(parent.value, next) then
          Outcome(true, n.cur.Emit(IMPLICIT_END_TAG), Drop(tags))
        else Outcome(false, n.cur, tags)
  }

  /** The symbol a start tag name is reported as. */
  function StartSymbol(t: Tag): (s: nat)
    ensures s == TEMPLATE_START_TAG_NAME <==> t.kind == TEMPLATE
    ensures s == SCRIPT_START_TAG_NAME <==> t.kind == SCRIPT
    ensures s == STYLE_START_TAG_NAME <==> t.kind == STYLE
    ensures s == START_TAG_NAME <==> t.kind !in {TEMPLATE, SCRIPT, STYLE}
  {
    if t.kind == TEMPLATE then TEMPLATE_START_TAG_NAME
    else if t.kind == SCRIPT then SCRIPT_START_TAG_NAME
    else if t.kind == STYLE then STYLE_START_TAG_NAME
    else START_TAG_NAME
  }

  /**
   * scan_start_tag_name: pushes the element the name denotes and reports it by
   * its start symbol; declines with the stack unchanged.
   */
  function ScanStartTagName(c: Cursor, tags: seq<Tag>): (r: Outcome)
    ensures r.ok ==> |r.tags| == |tags| + 1 && r.tags[..|tags|] == tags && r.cur.symbol == StartSymbol(r.tags[|tags|])
    ensures !r.ok ==> r.tags == tags
  {
    var n := ScanTagName(c);
    if !n.found then Outcome(false, n.cur, tags)
    else
      var t := TagForName(n.name);
      Outcome(true, n.cur.Emit(StartSymbol(t)), tags + [t])
  }

  /**
   * scan_end_tag_name: pops when the name matches the top, otherwise reports an
   * erroneous end tag; END_TAG_NAME always comes with a pop, ERRONEOUS_END_TAG_NAME
   * and a declined call with the stack unchanged.
   */
  function ScanEndTagName(c: Cursor, tags: seq<Tag>): (r: Outcome)
    ensures !r.ok ==> r.tags == tags
    ensures r.ok ==> (r.cur.symbol == END_TAG_NAME && |tags| > 0 && r.tags == tags[..|tags| - 1])
                     || (r.cur.symbol == ERRONEOUS_END_TAG_NAME && r.tags == tags)
  {
    var n := ScanTagName(c);
    if !n.found then Outcome(false, n.cur, tags)
    else
      var t := TagForName(n.name);
      var top := Peek(tags);
      if top.Some? && Equals(top.value, t) then Outcome(true, n.cur.Emit(END_TAG_NAME), Drop(tags))
      else Outcome(true, n.cur.Emit(ERRONEOUS_END_TAG_NAME), tags)
  }

  /**
   * scan_self_closing_tag_delimiter, at `/`: `/>` closes the top element, if
   * there is one; a declined call leaves the stack alone.
   */
  function ScanSelfClosingTagDelimiter(c: Cursor, tags: seq<Tag>): (r: Outcome)
    ensures r.ok ==> r.tags == Drop(tags)
    ensures !r.ok ==> r.tags == tags
  {
    var c1 := c.Advance(false);
    if c1.Lookahead() == '>' then
      var c2 := c1.Advance(false);
      if |tags| > 0 then Outcome(true, c2.Emit(SELF_CLOSING_TAG_DELIMITER), Drop(tags))
      else Outcome(true, c2, tags)
    else Outcome(false, c1, tags)
  }

  // ---------------------------------------------------------------------------
  // scanner_scan
  // ---------------------------------------------------------------------------

  /**
   * The whitespace loop of scanner_scan: skipping advances over iswspace
   * characters, which leave the input, the marked end and the symbol alone.
   */
  function SkipSpace(c: Cursor): (r: Cursor)
    ensures r.input == c.input && r.mark == c.mark && r.symbol == c.symbol
    ensures c.pos <= r.pos && !IsSpace(r.Lookahead())
    decreases |c.input| - c.pos
  {
    if IsSpace(c.Lookahead()) then SkipSpace(c.Advance(true)) else c
  }

  /** Raw-text mode: RAW_TEXT is valid and neither kind of tag name is. */
  predicate RawTextMode(valid: Valid)
  {
    valid[RAW_TEXT] && !valid[START_TAG_NAME] && !valid[END_TAG_NAME]
  }

  /**
   * scanner_scan: skips whitespace, then dispatches. The stack changes by at
   * most one entry and a declined call leaves it alone; only scan_start_tag_name pushes:
   * a push happens only when START_TAG_NAME is valid outside raw-text mode, and
   * the pushed tag is reported as a start tag.
   */
  function Scan(c: Cursor, tags: seq<Tag>, valid: Valid): (r: Outcome)
    ensures ByAtMostOne(tags, r)
    ensures |r.tags| > |tags| ==>
      valid[START_TAG_NAME] && !valid[RAW_TEXT] && r.ok && r.cur.symbol == StartSymbol(r.tags[|tags|])
  {
    Dispatch(SkipSpace(c), tags, valid)
  }

  /**
   * The rest of scanner_scan after the whitespace: raw-text mode, or a switch
   * on the lookahead. Raw text and comments never touch the stack.
   */
  function Dispatch(c: Cursor, tags: seq<Tag>, valid: Valid): (r: Outcome)
    ensures ByAtMostOne(tags, r)
    ensures |r.tags| > |tags| ==>
      valid[START_TAG_NAME] && !valid[RAW_TEXT] && r.ok && r.cur.symbol == StartSymbol(r.tags[|tags|])
    ensures RawTextMode(valid) ==> r.tags == tags
  {
    if RawTextMode(valid) then
      var r := ScanRawText(c, tags);
      Outcome(r.ok, r.cur, tags)
    else
      var ch := c.Lookahead();
      if ch == '<' then
        var c2 := c.MarkEnd().Advance(false);
        if c2.Lookahead() == '!' then
          var r := ScanComment(c2.Advance(false));
          Outcome(r.ok, r.cur, tags)
        else if valid[IMPLICIT_END_TAG] then ScanImplicitEndTag(c2, tags)
        else Outcome(false, c2, tags)
      else if ch == '\0' then
        if valid[IMPLICIT_END_TAG] then ScanImplicitEndTag(c, tags) else Outcome(false, c, tags)
      else if ch == '/' then
        if valid[SELF_CLOSING_TAG_DELIMITER] then ScanSelfClosingTagDelimiter(c, tags) else Outcome(false, c, tags)
      else if (valid[START_TAG_NAME] || valid[END_TAG_NAME]) && !valid[RAW_TEXT] then
        if valid[START_TAG_NAME] then ScanStartTagName(c, tags) else ScanEndTagName(c, tags)
      else Outcome(false, c, tags)
  }


  // ---------------------------------------------------------------------------
  // Properties of the rules
  // ---------------------------------------------------------------------------

  /** The name scan_tag_name reads: the upper-cased run of name characters, capped at 255 bytes. */
  function RunName(c: Cursor): seq<Byte>
  {
    var e := NameEnd(c.input, c.pos);
    if e == c.pos then [] else Cap(UpperBytes(c.input[c.pos..e]))
  }

  /**
   * scan_start_tag_name pushes tag_for_name of the upper-cased name and reports
   * TEMPLATE, SCRIPT or STYLE start tags by their own symbols; it declines, with
   * the stack unchanged, on an empty name.
   */
  lemma StartTagNamePushes(c: Cursor, tags: seq<Tag>)
    ensures var r := ScanStartTagName(c, tags);
      (r.ok <==> NameEnd(c.input, c.pos) > c.pos)
      && (r.ok ==> r.tags == tags + [TagForName(RunName(c))] && r.cur.symbol == StartSymbol(TagForName(RunName(c))))
      && (!r.ok ==> r.tags == tags)
      && r.cur.pos == NameEnd(c.input, c.pos)
  {
  }

  /**
   * scan_end_tag_name pops and reports END_TAG_NAME exactly when the name equals
   * the top under tag_equals; otherwise it reports ERRONEOUS_END_TAG_NAME and
   * leaves the stack alone. It declines on an empty name.
   */
  lemma EndTagNamePopsMatchingTop(c: Cursor, tags: seq<Tag>)
    ensures var r := ScanEndTagName(c, tags); var t := TagForName(RunName(c));
      (r.ok <==> NameEnd(c.input, c.pos) > c.pos)
      && (r.ok ==> (r.cur.symbol == END_TAG_NAME <==> |tags| > 0 && Equals(tags[|tags| - 1], t)))
      && (r.ok ==> (r.cur.symbol == END_TAG_NAME || r.cur.symbol == ERRONEOUS_END_TAG_NAME))
      && (r.ok && r.cur.symbol == END_TAG_NAME ==> r.tags == tags[..|tags| - 1])
      && (r.ok && r.cur.symbol == ERRONEOUS_END_TAG_NAME ==> r.tags == tags)
      && (!r.ok ==> r.tags == tags)
  {
    var n := ScanTagName(c);
    if n.found {
      assert n.name == RunName(c);
      var top := Peek(tags);
      assert top.Some? <==> |tags| > 0;
    }
  }

  /**
   * After `</NAME`: the rule declines when NAME is the top or is not open at
   * all; when NAME is open only below the top, it pops exactly one entry.
   */
  lemma ImplicitEndTagAfterSlash(c: Cursor, tags: seq<Tag>)
    requires c.Lookahead() == '/'
    ensures var c1 := c.Advance(false); var r := ScanImplicitEndTag(c, tags); var t := TagForName(RunName(c1));
      (r.ok <==> NameEnd(c1.input, c1.pos) > c1.pos && !(|tags| > 0 && Equals(tags[|tags| - 1], t)) && StackContains(tags, t))
      && (r.ok ==> r.tags == tags[..|tags| - 1] && r.cur.symbol == IMPLICIT_END_TAG)
      && (!r.ok ==> r.tags == tags)
  {
  }

  /**
   * Without `/`: a void top is popped before any name is read; otherwise the
   * top is popped exactly when a name follows that the top may not contain.
   */
  lemma ImplicitEndTagWithoutSlash(c: Cursor, tags: seq<Tag>)
    requires c.Lookahead() != '/'
    ensures var r := ScanImplicitEndTag(c, tags);
      (|tags| > 0 && IsVoid(tags[|tags| - 1]) ==> r.ok && r.tags == tags[..|tags| - 1] && r.cur.pos == c.pos)
      && (!(|tags| > 0 && IsVoid(tags[|tags| - 1])) ==>
            (r.ok <==> |tags| > 0 && NameEnd(c.input, c.pos) > c.pos && !CanContain(tags[|tags| - 1], TagForName(RunName(c)))))
      && (r.ok ==> r.tags == tags[..|tags| - 1] && r.cur.symbol == IMPLICIT_END_TAG)
      && (!r.ok ==> r.tags == tags)
  {
  }

  /** `/>` pops exactly one entry of a non-empty stack; `/` followed by anything else declines. */
  lemma SelfClosingPopsOne(c: Cursor, tags: seq<Tag>)
    requires c.pos < |c.input|
    ensures var r := ScanSelfClosingTagDelimiter(c, tags);
      (r.ok <==> CharAt(c.input, c.pos + 1) == '>')
      && (r.ok && |tags| > 0 ==> r.tags == tags[..|tags| - 1] && r.cur.symbol == SELF_CLOSING_TAG_DELIMITER)
      && (r.ok && |tags| == 0 ==> r.tags == [] && r.cur.symbol == c.symbol)
      && (!r.ok ==> r.tags == tags && r.cur.pos == c.pos + 1)
  {
  }

  /** The whitespace loop stops at the first non-space character and moves the token start there. */
  lemma {:induction false} SkipSpaceMeans(c: Cursor)
    requires c.pos <= |c.input|
    ensures var r := SkipSpace(c);
      r.input == c.input && r.mark == c.mark && r.symbol == c.symbol
      && c.pos <= r.pos <= |c.input| && !IsSpace(r.Lookahead())
      && (forall k | c.pos <= k < r.pos :: IsSpace(c.input[k]))
      && (r.pos > c.pos ==> r.start == r.pos) && (r.pos == c.pos ==> r == c)
    decreases |c.input| - c.pos
  {
    if IsSpace(c.Lookahead()) {
      SkipSpaceMeans(c.Advance(true));
    }
  }

  /** Leading whitespace never matters, raw-text mode included: scanning after it gives the same result. */
  lemma ScanSkipsWhitespace(c: Cursor, tags: seq<Tag>, valid: Valid)
    requires c.pos <= |c.input|
    ensures Scan(c, tags, valid) == Scan(SkipSpace(c), tags, valid)
  {
    SkipSpaceMeans(c);
    assert SkipSpace(SkipSpace(c)) == SkipSpace(c);
  }

  /**
   * In raw-text mode the result is scan_raw_text's, whatever the lookahead:
   * RAW_TEXT exactly when the stack is non-empty, and the stack is unchanged.
   */
  lemma RawTextModeDecides(c: Cursor, tags: seq<Tag>, valid: Valid)
    requires RawTextMode(valid)
    ensures var r := Scan(c, tags, valid);
      (r.ok <==> |tags| > 0) && r.tags == tags && (r.ok ==> r.cur.symbol == RAW_TEXT)
  {
  }

  /** At the end of the input only a void top is closed implicitly; any other top stays open. */
  lemma EndOfInputPopsOnlyVoid(c: Cursor, tags: seq<Tag>, valid: Valid)
    requires c.pos >= |c.input| && !RawTextMode(valid) && valid[IMPLICIT_END_TAG]
    ensures var r := Scan(c, tags, valid);
      (r.ok <==> |tags| > 0 && IsVoid(tags[|tags| - 1]))
      && (r.ok ==> r.tags == tags[..|tags| - 1] && r.cur.symbol == IMPLICIT_END_TAG)
      && (!r.ok ==> r.tags == tags)
  {
    assert SkipSpace(c) == c;
  }

  /** A comment after `<!` never touches the stack. */
  lemma CommentKeepsStack(c: Cursor, tags: seq<Tag>, valid: Valid)
    requires !RawTextMode(valid)
    requires SkipSpace(c).Lookahead() == '<' && CharAt(c.input, SkipSpace(c).pos + 1) == '!'
    ensures var r := Scan(c, tags, valid);
      r.tags == tags && (r.ok ==> r.cur.symbol == COMMENT)
  {
    var c1 := SkipSpace(c);
    SkipSpaceMeans(c);
    var c2 := c1.MarkEnd().Advance(false);
    assert c2.Lookahead() == '!';
    DispatchComment(c1, tags, valid);
  }

  /** The `<!` branch of the dispatch hands over to the comment scan and keeps the stack. */
  lemma DispatchComment(c: Cursor, tags: seq<Tag>, valid: Valid)
    requires !RawTextMode(valid) && c.Lookahead() == '<' && c.MarkEnd().Advance(false).Lookahead() == '!'
    ensures var r := ScanComment(c.MarkEnd().Advance(false).Advance(false));
      Dispatch(c, tags, valid) == Outcome(r.ok, r.cur, tags)
  {
  }

  /** The stack changes by at most one entry, and a declined call leaves it alone. */
  predicate ByAtMostOne(tags: seq<Tag>, r: Outcome)
  {
    (!r.ok ==> r.tags == tags)
    && (r.tags == tags
        || (|tags| > 0 && r.tags == tags[..|tags| - 1])
        || (|r.tags| == |tags| + 1 && r.tags[..|tags|] == tags))
  }
}
