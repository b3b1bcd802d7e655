/**
 * The Vue entry point `tree_sitter_vue_external_scanner_scan`: a pre-filter that
 * lexes plain text and the text of an interpolation before the HTML scanner is
 * consulted, and the error-recovery guard that skips it.
 *
 * The pre-filter walks the input one character at a time and stops at the
 * first "stop": end of input, a `<` that opens a tag-like construct, `{{`, or
 * (when INTERPOLATION_TEXT is valid) `}}`. `TextLoop` is that loop as written;
 * `StopAt`, `FirstStop` and `Settle` describe its result declaratively, and
 * `TextLoopMeans` proves the two agree.
 */
module Vue {
  import opened Wrappers
  import opened Tags
  import opened Lexers
  import Rules
  import Scanners

  /** How the pre-filter loop ends: it either returned, or broke out and left the decision to what follows. */
  datatype TextResult = Fallthrough(cur: Cursor) | Done(ok: bool, cur: Cursor)

  // ---------------------------------------------------------------------------
  // The loop as written
  // ---------------------------------------------------------------------------

  /** After a `break`: a text token if anything was consumed, otherwise fall through. */
  function Stop(c: Cursor, hasText: bool): (r: TextResult)
    ensures hasText <==> r.Done?
    ensures hasText ==> r == Done(true, c.Emit(TEXT_FRAGMENT))
    ensures !hasText ==> r.cur == c
  {
    if hasText then Done(true, c.Emit(TEXT_FRAGMENT)) else Fallthrough(c)
  }

  /**
   * The `for (;; has_text = true)` loop, one iteration per call. It always marks
   * an end and never moves the token start; once text was consumed it returns
   * a token rather than falling through; a returned token is text or
   * interpolation text, and only an empty interpolation text is declined.
   */
  function TextLoop(c: Cursor, hasText: bool, interp: bool): (r: TextResult)
    ensures r.cur.input == c.input && r.cur.start == c.start && c.pos <= r.cur.pos && r.cur.mark.Some?
    ensures hasText ==> r.Done?
    ensures r.Done? ==> r.cur.symbol == TEXT_FRAGMENT || r.cur.symbol == INTERPOLATION_TEXT
    ensures r.Done? && !r.ok ==> r.cur.symbol == INTERPOLATION_TEXT
    ensures r.Fallthrough? ==> r.cur.symbol == c.symbol
    decreases |c.input| - c.pos
  {
    var ch := c.Lookahead();
    if ch == '\0' then
      Stop(c.MarkEnd(), hasText)
    else if ch == '<' then
      var c1 := c.MarkEnd().Advance(false);
      var n := c1.Lookahead();
      if IsAlpha(n) || n == '!' || n == '?' || n == '/' then Stop(c1, hasText)
      else TextLoop(c1, true, interp)
    else if ch == '{' then
      var c1 := c.MarkEnd().Advance(false);
      if c1.Lookahead() == '{' then Stop(c1, hasText)
      else TextLoop(c1, true, interp)
    else if ch == '}' && interp then
      var c1 := c.MarkEnd().Advance(false);
      if c1.Lookahead() == '}' then Done(hasText, c1.Emit(INTERPOLATION_TEXT))
      else TextLoop(c1, true, interp)
    else
      TextLoop(c.Advance(false), true, interp)
  }

  /** The whole entry point: error-recovery guard, pre-filter, then the HTML scanner. */
  function VueScan(c: Cursor, tags: seq<Tag>, valid: Valid): (r: Rules.Outcome)
    ensures valid[START_TAG_NAME] && valid[RAW_TEXT] ==> r == Rules.Scan(c, tags, valid)
    ensures c.Lookahead() == '<' ==> r == Rules.Scan(c, tags, valid)
    ensures !valid[TEXT_FRAGMENT] && !valid[INTERPOLATION_TEXT] ==> r == Rules.Scan(c, tags, valid)
  {
    var isErrorRecovery := valid[START_TAG_NAME] && valid[RAW_TEXT];
    if !isErrorRecovery && c.Lookahead() != '<' && (valid[TEXT_FRAGMENT] || valid[INTERPOLATION_TEXT]) then
      match TextLoop(c, false, valid[INTERPOLATION_TEXT])
      case Done(ok, cur) => Rules.Outcome(ok, cur, tags)
      case Fallthrough(cur) => Rules.Scan(cur, tags, valid)
    else
      Rules.Scan(c, tags, valid)
  }

  // ---------------------------------------------------------------------------
  // The same result, described declaratively
  // ---------------------------------------------------------------------------

  /** A character that can follow `<` at the start of a tag, a comment, a declaration or an end tag. */
  predicate OpensMarkup(ch: char)
  {
    IsAlpha(ch) || ch == '!' || ch == '?' || ch == '/'
  }

  /** Position `j` of `s` ends a run of text. */
  predicate StopAt(s: seq<char>, j: nat, interp: bool)
  {
    var ch := CharAt(s, j);
    var next := CharAt(s, j + 1);
    ch == '\0'
    || (ch == '<' && OpensMarkup(next))
    || (ch == '{' && next == '{')
    || (interp && ch == '}' && next == '}')
  }

  /** The first stop at or after `j`: there is always one, at the latest at the end of the input. */
  function FirstStop(s: seq<char>, j: nat, interp: bool): (k: nat)
    ensures j <= k && StopAt(s, k, interp)
    ensures k == j || k <= |s|
    ensures forall i | j <= i < k :: !StopAt(s, i, interp)
    decreases |s| - j
  {
    if StopAt(s, j, interp) then j else FirstStop(s, j + 1, interp)
  }

  /** The stop at `k` is the `}}` that closes an interpolation. */
  predicate ClosesInterpolation(s: seq<char>, k: nat, interp: bool)
  {
    interp && CharAt(s, k) == '}'
  }

  /** Where the lexer is left by the stop at `k`: on it at the end of the input, just past it otherwise. */
  function StopEnd(s: seq<char>, k: nat): nat
  {
    if CharAt(s, k) == '\0' then k else k + 1
  }

  /** The outcome of a run that stops at `k`, having consumed text when `hasText`. */
  function Settle(c: Cursor, k: nat, hasText: bool, interp: bool): TextResult
  {
    var end := c.(pos := StopEnd(c.input, k), mark := Some(k));
    if ClosesInterpolation(c.input, k, interp) then Done(hasText, end.Emit(INTERPOLATION_TEXT))
    else Stop(end, hasText)
  }

  /** The loop stops at the first stop, having marked its position, and has text exactly when it moved. */
  lemma {:induction false} TextLoopMeans(c: Cursor, hasText: bool, interp: bool)
    ensures var k := FirstStop(c.input, c.pos, interp);
      TextLoop(c, hasText, interp) == Settle(c, k, hasText || k > c.pos, interp)
    decreases |c.input| - c.pos
  {
    var s := c.input;
    if !StopAt(s, c.pos, interp) {
      var ch := c.Lookahead();
      var c1 := if ch == '<' || ch == '{' || (ch == '}' && interp) then c.MarkEnd().Advance(false) else c.Advance(false);
      assert c1.pos == c.pos + 1 && c1.input == s && c1.start == c.start && c1.symbol == c.symbol;
      assert TextLoop(c, hasText, interp) == TextLoop(c1, true, interp);
      TextLoopMeans(c1, true, interp);
      assert FirstStop(s, c.pos, interp) == FirstStop(s, c1.pos, interp);
    }
  }

  /**
   * The pre-filter in full. With the guard passed and k the first stop:
   * `}}` gives INTERPOLATION_TEXT ending before it, and true only if text was
   * consumed (no fall-through otherwise); any other stop gives TEXT_FRAGMENT
   * ending before it when text was consumed, and otherwise hands the lexer,
   * as left, to the HTML scanner. The stack is untouched unless the HTML
   * scanner runs.
   */
  lemma VueScanText(c: Cursor, tags: seq<Tag>, valid: Valid)
    requires !(valid[START_TAG_NAME] && valid[RAW_TEXT])
    requires c.Lookahead() != '<' && (valid[TEXT_FRAGMENT] || valid[INTERPOLATION_TEXT])
    ensures var interp := valid[INTERPOLATION_TEXT];
      var k := FirstStop(c.input, c.pos, interp);
      var end := c.(pos := StopEnd(c.input, k), mark := Some(k));
      && (ClosesInterpolation(c.input, k, interp) ==>
            VueScan(c, tags, valid) == Rules.Outcome(k > c.pos, end.Emit(INTERPOLATION_TEXT), tags))
      && (!ClosesInterpolation(c.input, k, interp) && k > c.pos ==>
            VueScan(c, tags, valid) == Rules.Outcome(true, end.Emit(TEXT_FRAGMENT), tags))
      && (!ClosesInterpolation(c.input, k, interp) && k == c.pos ==>
            VueScan(c, tags, valid) == Rules.Scan(end, tags, valid))
  {
    TextLoopMeans(c, false, valid[INTERPOLATION_TEXT]);
  }

  // ---------------------------------------------------------------------------
  // Cases the pre-filter singles out
  // ---------------------------------------------------------------------------

  /** `}}` with nothing before it: INTERPOLATION_TEXT is set but the call returns false, without falling through. */
  lemma EmptyInterpolationDeclines(tags: seq<Tag>, valid: Valid)
    requires !(valid[START_TAG_NAME] && valid[RAW_TEXT]) && valid[INTERPOLATION_TEXT]
    ensures VueScan(At("}}", 0), tags, valid) == Rules.Outcome(false, Cursor("}}", 1, 0, Some(0), INTERPOLATION_TEXT), tags)
  {
    TextLoopMeans(At("}}", 0), false, true);
  }

  /** `a}}`: the text before the braces is an INTERPOLATION_TEXT token. */
  lemma InterpolationTextEndsBeforeBraces(tags: seq<Tag>, valid: Valid)
    requires !(valid[START_TAG_NAME] && valid[RAW_TEXT]) && valid[INTERPOLATION_TEXT]
    ensures VueScan(At("a}}", 0), tags, valid) == Rules.Outcome(true, Cursor("a}}", 2, 0, Some(1), INTERPOLATION_TEXT), tags)
  {
    TextLoopMeans(At("a}}", 0), false, true);
    assert !StopAt("a}}", 0, true);
  }

  /** Without INTERPOLATION_TEXT, `}}` is ordinary text running to the end of the input. */
  lemma BracesAreTextOutsideInterpolation(tags: seq<Tag>, valid: Valid)
    requires !(valid[START_TAG_NAME] && valid[RAW_TEXT]) && valid[TEXT_FRAGMENT] && !valid[INTERPOLATION_TEXT]
    ensures VueScan(At("}}", 0), tags, valid) == Rules.Outcome(true, Cursor("}}", 2, 0, Some(2), TEXT_FRAGMENT), tags)
  {
    TextLoopMeans(At("}}", 0), false, false);
    assert !StopAt("}}", 0, false) && !StopAt("}}", 1, false);
  }

  /** `ab<c`: the text ends just before the `<` that opens a tag. */
  lemma TextEndsBeforeTag(tags: seq<Tag>, valid: Valid)
    requires !(valid[START_TAG_NAME] && valid[RAW_TEXT]) && valid[TEXT_FRAGMENT]
    ensures VueScan(At("ab<c", 0), tags, valid) == Rules.Outcome(true, Cursor("ab<c", 3, 0, Some(2), TEXT_FRAGMENT), tags)
  {
    TextLoopMeans(At("ab<c", 0), false, valid[INTERPOLATION_TEXT]);
    assert !StopAt("ab<c", 0, valid[INTERPOLATION_TEXT]) && !StopAt("ab<c", 1, valid[INTERPOLATION_TEXT]);
  }

  /** `a< b`: a `<` that is not followed by a letter, `!`, `?` or `/` is ordinary text. */
  lemma LessThanBeforeSpaceIsText(tags: seq<Tag>, valid: Valid)
    requires !(valid[START_TAG_NAME] && valid[RAW_TEXT]) && valid[TEXT_FRAGMENT]
    ensures VueScan(At("a< b", 0), tags, valid) == Rules.Outcome(true, Cursor("a< b", 4, 0, Some(4), TEXT_FRAGMENT), tags)
  {
    var interp := valid[INTERPOLATION_TEXT];
    TextLoopMeans(At("a< b", 0), false, interp);
    assert !StopAt("a< b", 0, interp) && !StopAt("a< b", 1, interp) && !StopAt("a< b", 2, interp) && !StopAt("a< b", 3, interp);
  }

  /** `{a`: a lone `{` is ordinary text. */
  lemma LoneBraceIsText(tags: seq<Tag>, valid: Valid)
    requires !(valid[START_TAG_NAME] && valid[RAW_TEXT]) && valid[TEXT_FRAGMENT]
    ensures VueScan(At("{a", 0), tags, valid) == Rules.Outcome(true, Cursor("{a", 2, 0, Some(2), TEXT_FRAGMENT), tags)
  {
    var interp := valid[INTERPOLATION_TEXT];
    TextLoopMeans(At("{a", 0), false, interp);
    assert !StopAt("{a", 0, interp) && !StopAt("{a", 1, interp);
  }

  /** `{{` at once: nothing is consumed as text, and the HTML scanner runs on the lexer left past the first brace. */
  lemma OpeningBracesFallThrough(tags: seq<Tag>, valid: Valid)
    requires !(valid[START_TAG_NAME] && valid[RAW_TEXT]) && valid[TEXT_FRAGMENT]
    ensures VueScan(At("{{", 0), tags, valid) == Rules.Scan(Cursor("{{", 1, 0, Some(0), 0), tags, valid)
  {
    TextLoopMeans(At("{{", 0), false, valid[INTERPOLATION_TEXT]);
  }

  // ---------------------------------------------------------------------------
  // The entry point as a method
  // ---------------------------------------------------------------------------

  /**
   * The pre-filter loop. `closed` reports the `return has_text` at `}}`;
   * otherwise the loop broke out and `hasText` says whether text was consumed.
   */
  method ScanText(lexer: Lexer, interp: bool) returns (closed: bool, hasText: bool)
    modifies lexer
    ensures closed ==> TextLoop(old(lexer.View()), false, interp) == Done(hasText, lexer.View())
    ensures !closed ==> TextLoop(old(lexer.View()), false, interp) == Stop(lexer.View(), hasText)
  {
    hasText := false;
    while true
      invariant TextLoop(lexer.View(), hasText, interp) == TextLoop(old(lexer.View()), false, interp)
      decreases |lexer.input| - lexer.pos
    {
      var ch := lexer.Lookahead();
      if ch == '\0' {
        lexer.MarkEnd();
        return false, hasText;
      } else if ch == '<' {
        lexer.MarkEnd();
        lexer.Advance(false);
        var n := lexer.Lookahead();
        if IsAlpha(n) || n == '!' || n == '?' || n == '/' {
          return false, hasText;
        }
      } else if ch == '{' {
        lexer.MarkEnd();
        lexer.Advance(false);
        if lexer.Lookahead() == '{' {
          return false, hasText;
        }
      } else if ch == '}' && interp {
        lexer.MarkEnd();
        lexer.Advance(false);
        if lexer.Lookahead() == '}' {
          lexer.Emit(INTERPOLATION_TEXT);
          return true, hasText;
        }
      } else {
        lexer.Advance(false);
      }
      hasText := true;
    }
  }

  /** tree_sitter_vue_external_scanner_scan. */
  method ExternalScan(scanner: Scanners.Scanner, lexer: Lexer, valid: Valid) returns (ok: bool)
    requires scanner.tags.Valid()
    modifies lexer, scanner.tags, scanner.tags.data
    ensures scanner.tags.Valid()
    ensures Rules.Outcome(ok, lexer.View(), scanner.tags.Contents())
         == VueScan(old(lexer.View()), old(scanner.tags.Contents()), valid)
  {
    var isErrorRecovery := valid[START_TAG_NAME] && valid[RAW_TEXT];
    if !isErrorRecovery {
      if lexer.Lookahead() != '<' && (valid[TEXT_FRAGMENT] || valid[INTERPOLATION_TEXT]) {
        var closed, hasText := ScanText(lexer, valid[INTERPOLATION_TEXT]);
        if closed {
          return hasText;
        }
        if hasText {
          lexer.Emit(TEXT_FRAGMENT);
          return true;
        }
      }
    }
    ok := scanner.Scan(lexer, valid);
  }
}
