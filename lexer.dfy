/**
 * The part of the host lexer that the scanner uses: a forward cursor over the
 * input with a one-character lookahead (NUL past the end), `advance` with its
 * skip flag, `mark_end`, and the result symbol. Also the external token kinds
 * and the character classes the scanner tests.
 */
module Lexers {
  import opened Wrappers
  import opened Tags

  // The external tokens, in the order of TokenType (indices into valid_symbols).
  const TEXT_FRAGMENT := 0
  const INTERPOLATION_TEXT := 1
  const START_TAG_NAME := 2
  const TEMPLATE_START_TAG_NAME := 3
  const SCRIPT_START_TAG_NAME := 4
  const STYLE_START_TAG_NAME := 5
  const END_TAG_NAME := 6
  const ERRONEOUS_END_TAG_NAME := 7
  const SELF_CLOSING_TAG_DELIMITER := 8
  const IMPLICIT_END_TAG := 9
  const RAW_TEXT := 10
  const COMMENT := 11
  /** Number of external tokens, the length of valid_symbols. */
  const TokenCount := 12

  /** The valid_symbols array the host passes: one flag per external token. */
  type Valid = v: seq<bool> | |v| == TokenCount witness [false, false, false, false, false, false, false, false, false, false, false, false]

  /**
   * The lexer state the scanner can observe or change: the input, the
   * lookahead position, the start of the token (moved by skipping advances),
   * the end that `mark_end` last recorded, and the result symbol.
   */
  datatype Cursor = Cursor(input: seq<char>, pos: nat, start: nat, mark: Option<nat>, symbol: nat)
  {
    /** `lookahead`: the character at the position, NUL at and past the end of the input. */
    function Lookahead(): (ch: char)
      ensures pos < |input| ==> ch == input[pos]
      ensures pos >= |input| ==> ch == '\0'
    {
      CharAt(input, pos)
    }

    /**
     * `advance(lexer, skip)`: consumes the lookahead (nothing happens at the end of
     * the input); a skipping advance also moves the token start past it.
     */
    function Advance(skip: bool): (r: Cursor)
      ensures r.input == input && r.mark == mark && r.symbol == symbol
      ensures r.pos == if pos < |input| then pos + 1 else pos
      ensures r.start == if skip then r.pos else start
    {
      var next := if pos < |input| then pos + 1 else pos;
      this.(pos := next, start := if skip then next else start)
    }

    /** `mark_end(lexer)`: the token ends at the current position. */
    function MarkEnd(): (r: Cursor)
      ensures r.input == input && r.pos == pos && r.start == start && r.symbol == symbol
      ensures r.mark == Some(pos)
    {
      this.(mark := Some(pos))
    }

    /** Sets `result_symbol`. */
    function Emit(s: nat): (r: Cursor)
      ensures r.input == input && r.pos == pos && r.start == start && r.mark == mark
      ensures r.symbol == s
    {
      this.(symbol := s)
    }
  }

  /** A fresh cursor at `pos`: nothing marked, symbol 0. */
  function At(input: seq<char>, pos: nat): (c: Cursor)
    ensures c.input == input && c.pos == pos && c.start == pos && c.mark == None
  {
    Cursor(input, pos, pos, None, 0)
  }

  /** The character at `i`, or NUL at and past the end of the input. */
  function CharAt(s: seq<char>, i: nat): (ch: char)
    ensures i < |s| ==> ch == s[i]
    ensures i >= |s| ==> ch == '\0'
  {
    if i < |s| then s[i] else '\0'
  }

  // ---------------------------------------------------------------------------
  // Character classes (ASCII reading of the wide-character functions)
  // ---------------------------------------------------------------------------

  predicate IsAlpha(ch: char)
  {
    ('a' <= ch <= 'z') || ('A' <= ch <= 'Z')
  }

  predicate IsDigit(ch: char)
  {
    '0' <= ch <= '9'
  }

  /** iswalnum. */
  predicate IsAlnum(ch: char)
  {
    IsAlpha(ch) || IsDigit(ch)
  }

  /** iswspace: space, tab, newline, vertical tab, form feed, carriage return. */
  predicate IsSpace(ch: char)
  {
    ch == ' ' || ch == '\t' || ch == '\n' || ch == '\U{B}' || ch == '\U{C}' || ch == '\r'
  }

  /** towupper. */
  function ToUpper(ch: char): (r: char)
    ensures 'a' <= ch <= 'z' ==> r as int == ch as int - 32
    ensures !('a' <= ch <= 'z') ==> r == ch
  {
    if 'a' <= ch <= 'z' then (ch as int - 32) as char else ch
  }

  /** `(char)towupper(ch)`: the upper-cased character truncated to its low eight bits. */
  function UpperByte(ch: char): (b: Byte)
    ensures b as int == ToUpper(ch) as int % 256
  {
    (ToUpper(ch) as int % 256) as char
  }

  /** UpperByte applied to each character. */
  function UpperBytes(s: seq<char>): (r: seq<Byte>)
    ensures |r| == |s| && forall i | 0 <= i < |s| :: r[i] == UpperByte(s[i])
  {
    if |s| == 0 then [] else UpperBytes(s[..|s| - 1]) + [UpperByte(s[|s| - 1])]
  }

  lemma UpperBytesAppend(s: seq<char>, t: seq<char>)
    ensures UpperBytes(s + t) == UpperBytes(s) + UpperBytes(t)
  {
  }

  /** Below 256 the truncation does nothing: UpperByte is plain upper-casing. */
  lemma UpperByteOfByte(ch: char)
    requires ch as int < 256
    ensures UpperByte(ch) == ToUpper(ch)
  {
  }

  /** On an ASCII letter or digit, UpperByte is the upper-case letter and never NUL. */
  lemma UpperByteOfAlnum(ch: char)
    requires IsAlnum(ch) || ch == '-' || ch == ':'
    ensures UpperByte(ch) == ToUpper(ch) && UpperByte(ch) != '\0'
    ensures IsAlpha(ch) ==> 'A' <= UpperByte(ch) <= 'Z'
  {
  }

  // ---------------------------------------------------------------------------
  // The host lexer as an object
  // ---------------------------------------------------------------------------

  /** The host `TSLexer` object: the scanner drives it through these members. */
  class Lexer {
    const input: seq<char>
    var pos: nat
    var start: nat
    var mark: Option<nat>
    var resultSymbol: nat

    /** The observable state as a value. */
    function View(): Cursor
      reads this
    {
      Cursor(input, pos, start, mark, resultSymbol)
    }

    /** A lexer over `input` positioned at `pos`. */
    constructor (input: seq<char>, pos: nat)
      ensures View() == At(input, pos)
    {
      this.input := input;
      this.pos := pos;
      this.start := pos;
      this.mark := None;
      this.resultSymbol := 0;
    }

    /** `lexer->lookahead`. */
    function Lookahead(): (ch: char)
      reads this
      ensures ch == View().Lookahead()
    {
      CharAt(input, pos)
    }

    /** `lexer->advance(lexer, skip)`. */
    method Advance(skip: bool)
      modifies this
      ensures View() == old(View()).Advance(skip)
    {
      if pos < |input| {
        pos := pos + 1;
      }
      if skip {
        start := pos;
      }
    }

    /** `lexer->mark_end(lexer)`. */
    method MarkEnd()
      modifies this
      ensures View() == old(View()).MarkEnd()
    {
      mark := Some(pos);
    }

    /** `lexer->result_symbol = symbol`. */
    method Emit(symbol: nat)
      modifies this
      ensures View() == old(View()).Emit(symbol)
    {
      resultSymbol := symbol;
    }
  }
}
