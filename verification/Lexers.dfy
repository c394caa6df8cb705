/** The tokenizer: a position in the source with its line and column, moved one character at a time. */
module Lexers {
  import opened LexicalGrammar

  lemma ClipMore(t: string, c: char)
    ensures Clip(t + [c]) == if |Clip(t)| + 1 < MAX_TOKEN then Clip(t) + [c] else Clip(t)
  {
  }

  class Lexer {
    const source: string
    var pos: nat
    var tokenStart: nat
    var line: nat
    var column: nat

    /** Line and column are those of the text consumed so far. */
    ghost predicate Valid()
      reads this
    {
      pos <= |source| && line == LineAt(source, pos) && column == ColumnAt(source, pos)
    }

    constructor (source: string)
      ensures this.source == source && pos == 0 && Valid()
    {
      this.source := source;
      pos, tokenStart, line, column := 0, 0, 1, 1;
    }

    method Next() returns (ch: char)
      requires Valid() && pos < |source|
      modifies this`pos, this`line, this`column
      ensures Valid() && pos == old(pos) + 1 && ch == source[old(pos)]
    {
      ch := source[pos];
      pos := pos + 1;
      if ch == '\n' {
        line := line + 1;
        column := 1;
      } else {
        column := column + 1;
      }
    }

    /** The next character, or NUL at the end. */
    function Peek(): char
      reads this
    {
      if pos < |source| then source[pos] else '\0'
    }

    /** Consume a line comment or a directive: up to and with the newline, or up to a NUL. */
    method SkipLine()
      requires Valid() && pos < |source| && Peek() != '\n' && Peek() != '\0'
      modifies this`pos, this`line, this`column
      ensures Valid() && RestOfLine(source, old(pos), pos)
    {
      while pos < |source| && Peek() != '\n' && Peek() != '\0'
        invariant Valid() && old(pos) <= pos
        invariant pos == old(pos) ==> pos < |source| && Peek() != '\n' && Peek() != '\0'
        invariant forall k :: old(pos) <= k < pos ==> source[k] != '\n' && source[k] != '\0'
        decreases |source| - pos
      {
        var c := Next();
      }
      if pos < |source| && Peek() == '\n' {
        var c := Next();
      }
    }

    method SkipBlockComment()
      requires Valid() && Pair(source, pos, '/', '*')
      modifies this`pos, this`line, this`column
      ensures Valid() && old(pos) < pos && BlockComment(source, old(pos), pos)
    {
      ghost var a := pos;
      var c := Next();
      c := Next();
      while pos + 1 < |source|
        invariant Valid() && a + 2 <= pos && NoEndMark(source, a + 2, pos)
        invariant pos == a + 2 || pos + 1 <= |source|
        decreases |source| - pos
      {
        if Peek() == '*' && source[pos + 1] == '/' {
          c := Next();
          c := Next();
          return;
        }
        c := Next();
      }
      assert NoEndMark(source, a + 2, |source|);
      assert a + 4 <= pos ==> !ClosesAt(source, pos - 2);
    }

    method SkipWhitespaceAndComments()
      requires Valid()
      modifies this`pos, this`line, this`column
      ensures Valid() && old(pos) <= pos && Trivia(source, old(pos), pos)
      ensures pos < |source| ==> !StartsPiece(source, pos) || source[pos] == '#'
    {
      while pos < |source|
        invariant Valid() && old(pos) <= pos && Trivia(source, old(pos), pos)
        decreases |source| - pos
      {
        ghost var a := pos;
        var ch := Peek();
        if ch == ' ' || ch == '\t' || ch == '\n' || ch == '\r' {
          ch := Next();
        } else if ch == '/' && pos + 1 < |source| && source[pos + 1] == '/' {
          SkipLine();
        } else if ch == '/' && pos + 1 < |source| && source[pos + 1] == '*' {
          SkipBlockComment();
        } else {
          return;
        }
        hide Valid, Trivia, RestOfLine, BlockComment;
        assert Piece(source, a, pos);
        PieceIsTrivia(source, a, pos);
        TriviaThen(source, old(pos), a, pos);
      }
    }

    /** Append a character to the token text while the buffer has room. */
    static method Put(text: string, c: char, ghost all: string) returns (r: string, full: bool)
      requires text == Clip(all)
      ensures r == Clip(all + [c]) && full == (|all| + 1 >= MAX_TOKEN)
    {
      ClipMore(all, c);
      full := |text| + 1 >= MAX_TOKEN;
      r := if full then text else text + [c];
    }

    /** Collect the longest run of a kind of characters behind a text already begun. */
    method Collect(ghost start: nat, begun: string, kind: char -> bool) returns (text: string, dropped: bool)
      requires Valid() && start <= pos && begun == Clip(source[start..pos])
      modifies this`pos, this`line, this`column
      ensures Valid() && Run(source, old(pos), pos, kind) && text == Clip(source[start..pos])
      ensures dropped <==> old(pos) < pos && pos - start >= MAX_TOKEN
    {
      hide Clip, LineAt, ColumnAt;
      text, dropped := begun, false;
      while pos < |source| && kind(Peek())
        invariant Valid() && old(pos) <= pos && text == Clip(source[start..pos])
        invariant forall k :: old(pos) <= k < pos ==> kind(source[k])
        invariant dropped <==> old(pos) < pos && pos - start >= MAX_TOKEN
        decreases |source| - pos
      {
        assert source[start..pos + 1] == source[start..pos] + [source[pos]];
        var full;
        text, full := Put(text, source[pos], source[start..pos]);
        if full {
          dropped := true;
        }
        var c := Next();
      }
    }

    /** One character of a string literal, escapes resolved. */
    method NextStringChar() returns (c: char)
      requires Valid() && pos < |source|
      modifies this`pos, this`line, this`column
      ensures Valid() && (c, pos) == StringChar(source, old(pos))
    {
      c := Next();
      if c == '\\' && pos < |source| {
        c := Next();
        if c == 'x' {
          var hex, digits := 0, 0;
          if pos < |source| && IsHex(Peek()) {
            hex := HexValue(Peek());
            c := Next();
            if pos < |source| && IsHex(Peek()) {
              hex := 16 * hex + HexValue(Peek());
              c := Next();
            }
          }
          c := hex as char;
        } else {
          c := SimpleEscape(c);
        }
      }
    }

    /** The contents of a string literal up to its closing quote, behind a text already begun. */
    method CollectString(begun: string) returns (text: string, truncated: bool)
      requires Valid() && |begun| < MAX_TOKEN
      modifies this`pos, this`line, this`column
      ensures Valid() && pos == StringEnd(source, old(pos)) && old(pos) <= pos
      ensures text == Clip(begun + StringChars(source, old(pos)))
      ensures truncated <==> |begun + StringChars(source, old(pos))| >= MAX_TOKEN
    {
      ghost var all := begun;
      text, truncated := begun, false;
      while pos < |source| && Peek() != '"'
        invariant Valid() && old(pos) <= pos
        invariant StringEnd(source, pos) == StringEnd(source, old(pos))
        invariant all + StringChars(source, pos) == begun + StringChars(source, old(pos))
        invariant text == Clip(all) && (truncated <==> |all| >= MAX_TOKEN)
        decreases |source| - pos
      {
        StringCharEnd(source, pos);
        ghost var rest := StringChars(source, StringChar(source, pos).1);
        var c := NextStringChar();
        assert all + ([c] + rest) == all + [c] + rest;
        var full;
        text, full := Put(text, c, all);
        if full {
          truncated := true;
        }
        all := all + [c];
      }
      assert StringChars(source, pos) == [];
      assert all + [] == all;
      if pos < |source| {
        var c := Next();
      }
    }

    /** Decimal digits, written from the last one. */
    static method DecimalText(val: nat) returns (text: string)
      ensures text == Decimal(val)
    {
      if val == 0 {
        return [DigitChar(0)];
      }
      var tmp := val;
      text := "";
      assert Decimal(val) == Decimal(tmp) + text;
      while tmp > 0
        invariant Decimal(val) == if tmp > 0 then Decimal(tmp) + text else text
      {
        DecimalStep(tmp, text);
        text := [DigitChar(tmp % 10)] + text;
        tmp := tmp / 10;
      }
    }

    /** A character literal, read as the number of its character. */
    method CharLiteral() returns (text: string)
      requires Valid()
      modifies this`pos, this`line, this`column
      ensures Valid() && pos == CharEnd(source, old(pos)) && text == Decimal(CharValue(source, old(pos)))
    {
      var c := '\0';
      if pos < |source| {
        c := Next();
        if c == '\\' && pos < |source| {
          c := Next();
          c := CharEscape(c);
        }
      }
      if pos < |source| && Peek() == '\'' {
        var quote := Next();
      }
      text := DecimalText(c as int % 256);
    }

    /** An integer or floating-point literal. */
    method NumberLiteral() returns (kind: Kind, text: string, truncated: bool)
      requires Valid() && pos < |source| && IsDigit(Peek())
      modifies this`pos, this`line, this`column
      ensures Valid() && old(pos) < pos && NumberAt(source, old(pos), pos, kind)
      ensures text == Clip(source[old(pos)..pos])
    {
      hide LineAt, ColumnAt;
      ghost var a := pos;
      truncated := false;
      if Peek() == '0' && pos + 1 < |source| && (source[pos + 1] == 'x' || source[pos + 1] == 'X') {
        var zero := Next();
        var x := Next();
        assert source[a..pos] == [zero, x];
        text, truncated := Collect(a, [zero, x], IsHex);
        return IntLiteral, text, truncated;
      }
      assert source[a..a] == "";
      var dropped;
      text, dropped := Collect(a, "", IsDigit);
      kind := IntLiteral;
      if pos < |source| && Peek() == '.' {
        ghost var dot := pos;
        assert source[a..dot + 1] == source[a..dot] + ['.'];
        var full;
        text, full := Put(text, '.', source[a..pos]);
        var c := Next();
        text, dropped := Collect(a, text, IsDigit);
        kind := FloatLiteral;
        assert Run(source, a, dot, IsDigit) && Run(source, dot + 1, pos, IsDigit);
      }
    }

    /** An operator of two characters or one, or an unknown character. */
    method OperatorToken() returns (kind: Kind, text: string)
      requires Valid() && pos < |source|
      modifies this`pos, this`line, this`column
      ensures Valid() && pos == (if IsPair(source, old(pos)) then old(pos) + 2 else old(pos) + 1)
      ensures text == source[old(pos)..pos]
      ensures kind == if IsPair(source, old(pos)) || source[old(pos)] in SINGLES then Operator else Unknown
    {
      ghost var a := pos;
      var ch := Next();
      text := [ch];
      if pos < |source| {
        assert source[a..a + 2] == [ch, Peek()];
        if [ch, Peek()] in PAIRS {
          text := [ch, Peek()];
          var next := Next();
          return Operator, text;
        }
      }
      kind := if ch in SINGLES then Operator else Unknown;
    }

    /** The token at the current position, which starts no piece of trivia. */
    method ReadToken() returns (tok: Token)
      requires Valid() && pos < |source|
      modifies this`pos, this`line, this`column
      ensures Valid() && TokenAt(source, old(pos), pos, tok.kind, tok.text)
      ensures tok.line == LineAt(source, old(pos)) && tok.column == ColumnAt(source, old(pos))
    {
      ghost var a := pos;
      var l, c := line, column;
      var ch := Peek();
      if ch == '@' {
        var at := Next();
        if Peek() == '"' {
          var quote := Next();
          var text, truncated := CollectString("@");
          return Token(StringLiteral, text, l, c, truncated);
        }
        assert source[a..pos] == "@";
        var text, dropped := Collect(a, "@", IsAlpha);
        return Token(AtKeyword, text, l, c, false);
      }
      if ch == '\'' {
        var quote := Next();
        var text := CharLiteral();
        return Token(IntLiteral, text, l, c, false);
      }
      if ch == '"' {
        var quote := Next();
        var text, truncated := CollectString("");
        assert "" + StringChars(source, a + 1) == StringChars(source, a + 1);
        return Token(StringLiteral, text, l, c, truncated);
      }
      if IsAlpha(ch) {
        assert source[a..a] == "";
        var text, dropped := Collect(a, "", IsAlnum);
        var kind, word := Word(text).0, Word(text).1;
        return Token(kind, word, l, c, false);
      }
      if IsDigit(ch) {
        var kind, text, truncated := NumberLiteral();
        return Token(kind, text, l, c, truncated);
      }
      var kind, text := OperatorToken();
      tok := Token(kind, text, l, c, false);
    }

    /** The next token: either the end of the source, or a token that begins and ends behind the old position,
        with only blanks, comments and directive lines passed over. */
    method NextToken() returns (tok: Token)
      requires Valid()
      modifies this
      ensures Valid() && old(pos) <= tokenStart <= pos
      ensures Trivia(source, old(pos), tokenStart)
      ensures tok.line == LineAt(source, tokenStart) && tok.column == ColumnAt(source, tokenStart)
      ensures |tok.text| < MAX_TOKEN
      ensures tok.kind == Eof ==> tokenStart == pos == |source|
      ensures tok.kind != Eof ==> !StartsPiece(source, tokenStart)
      ensures tok.kind != Eof ==> TokenAt(source, tokenStart, pos, tok.kind, tok.text)
      decreases |source| - pos
    {
      if pos >= |source| {
        tokenStart := pos;
        return Token(Eof, "", line, column, false);
      }
      SkipWhitespaceAndComments();
      tokenStart := pos;
      if pos >= |source| {
        return Token(Eof, "", line, column, false);
      }
      if Peek() == '#' {
        ghost var a := pos;
        SkipLine();
        ghost var b := pos;
        assert Piece(source, a, b);
        tok := NextToken();
        hide Valid, Trivia, TokenAt, RestOfLine;
        PieceIsTrivia(source, a, b);
        TriviaThen(source, old(pos), a, b);
        TriviaThen(source, old(pos), b, tokenStart);
        return;
      }
      tok := ReadToken();
      TextFits(source, tokenStart, pos, tok.kind, tok.text);
    }
  }

  /** The text of every token fits the buffer. */
  lemma TextFits(s: string, lo: nat, hi: nat, kind: Kind, text: string)
    requires TokenAt(s, lo, hi, kind, text)
    ensures |text| < MAX_TOKEN && kind != Eof
  {
    if s[lo] == '\'' {
      DecimalShort(CharValue(s, lo + 1));
    }
  }

  lemma DecimalStep(tmp: nat, text: string)
    requires tmp > 0
    ensures Decimal(tmp) + text
         == if tmp / 10 > 0 then Decimal(tmp / 10) + ([DigitChar(tmp % 10)] + text) else [DigitChar(tmp % 10)] + text
  {
    if tmp >= 10 {
      assert Decimal(tmp / 10) + [DigitChar(tmp % 10)] + text == Decimal(tmp / 10) + ([DigitChar(tmp % 10)] + text);
    }
  }

  lemma DecimalShort(v: nat)
    requires v < 256
    ensures |Decimal(v)| <= 3
  {
    var tens := v / 10;
    assert tens < 26 && tens / 10 < 3;
    assert |Decimal(tens / 10)| == 1;
    assert |Decimal(tens)| <= 2;
  }

  // ---- A whole source ----

  /** The ranges of the tokens ascend, do not overlap, and have only trivia before, between and behind them. */
  ghost predicate Tokenized(s: string, ranges: seq<(nat, nat)>, from: nat, end: nat) {
    && (forall k :: 0 <= k < |ranges| ==> from <= ranges[k].0 < ranges[k].1 <= end)
    && (forall k :: 0 <= k < |ranges| - 1 ==> ranges[k].1 <= ranges[k + 1].0 && Trivia(s, ranges[k].1, ranges[k + 1].0))
    && (if ranges == [] then Trivia(s, from, end)
        else Trivia(s, from, ranges[0].0) && Trivia(s, ranges[|ranges| - 1].1, end))
  }

  lemma TokenizedNext(s: string, ranges: seq<(nat, nat)>, end: nat, lo: nat, hi: nat)
    requires Tokenized(s, ranges, 0, end) && end <= lo < hi <= |s| && Trivia(s, end, lo)
    ensures Tokenized(s, ranges + [(lo, hi)], 0, hi)
  {
    var more := ranges + [(lo, hi)];
    if ranges == [] {
      TriviaThen(s, 0, end, lo);
    } else {
      TriviaThen(s, ranges[|ranges| - 1].1, end, lo);
    }
    assert Trivia(s, hi, hi);
  }

  lemma TokenizedEnd(s: string, ranges: seq<(nat, nat)>, end: nat, last: nat)
    requires Tokenized(s, ranges, 0, end) && end <= last <= |s| && Trivia(s, end, last)
    ensures Tokenized(s, ranges, 0, last)
  {
    TriviaThen(s, if ranges == [] then 0 else ranges[|ranges| - 1].1, end, last);
  }

  /** So no two tokens share a character, and they come in the order of the source. */
  lemma {:induction false} TokensDisjoint(s: string, ranges: seq<(nat, nat)>, end: nat, k: nat, l: nat)
    requires Tokenized(s, ranges, 0, end) && k < l < |ranges|
    ensures ranges[k].0 < ranges[k].1 <= ranges[l].0 < ranges[l].1
    decreases l - k
  {
    if k + 1 < l {
      TokensDisjoint(s, ranges, end, k, l - 1);
    }
  }

  /** A token with its extent, its text, and the line and column of its first character. */
  predicate TokenIs(s: string, range: (nat, nat), tok: Token) {
    && !StartsPiece(s, range.0)
    && TokenAt(s, range.0, range.1, tok.kind, tok.text) && |tok.text| < MAX_TOKEN
    && tok.line == LineAt(s, range.0) && tok.column == ColumnAt(s, range.0)
  }

  /** All the tokens of a source. */
  ghost predicate TokensOf(s: string, ranges: seq<(nat, nat)>, tokens: seq<Token>) {
    && |ranges| == |tokens| && Tokenized(s, ranges, 0, |s|)
    && forall k :: 0 <= k < |ranges| ==> TokenIs(s, ranges[k], tokens[k])
  }

  /** Where the k-th token ends; the beginning of the source for k = 0. */
  function EndBefore(ranges: seq<(nat, nat)>, k: nat): nat
    requires k <= |ranges|
  {
    if k == 0 then 0 else ranges[k - 1].1
  }

  /** Where the k-th token begins; the end of the source when there is none. */
  function BeginOf(s: string, ranges: seq<(nat, nat)>, k: nat): nat {
    if k < |ranges| then ranges[k].0 else |s|
  }

  /** Behind an unclosed comment there is one more token, its last character, exactly when the comment has
      something behind its opening and that character is neither blank nor a `#`; otherwise there is none. */
  lemma UnclosedCommentToken(s: string, ranges: seq<(nat, nat)>, tokens: seq<Token>, k: nat, a: nat)
    requires TokensOf(s, ranges, tokens) && k <= |ranges|
    requires Unclosed(s, a) && EndBefore(ranges, k) <= a && Trivia(s, EndBefore(ranges, k), a)
    ensures ranges[k..] == if LeftOver(s, a) < |s| then [(|s| - 1, |s|)] else []
  {
    hide StartsPiece, Trivia, Unclosed;
    assert k + 1 < |ranges| ==> ranges[k].1 <= ranges[k + 1].0 < ranges[k + 1].1 <= |s|;
    var begin := BeginOf(s, ranges, k);
    TriviaToNext(s, ranges, tokens, k);
    TriviaPasses(s, EndBefore(ranges, k), a, begin);
    UnclosedEnds(s, a, begin);
    if k < |ranges| {
      hide TokenIs;
      assert ranges[k] == (|s| - 1, |s|);
      assert ranges[k..] == [ranges[k]];
    }
  }

  /** From the end of one token to the beginning of the next there is trivia, and no more of it. */
  lemma TriviaToNext(s: string, ranges: seq<(nat, nat)>, tokens: seq<Token>, k: nat)
    requires TokensOf(s, ranges, tokens) && k <= |ranges|
    ensures EndBefore(ranges, k) <= BeginOf(s, ranges, k) <= |s| && !StartsPiece(s, BeginOf(s, ranges, k))
    ensures Trivia(s, EndBefore(ranges, k), BeginOf(s, ranges, k))
  {
    hide Trivia, TokenAt, LineAt, ColumnAt;
    if k == |ranges| {
      hide TokenIs;
    } else {
      assert TokenIs(s, ranges[k], tokens[k]);
      hide StartsPiece;
      if k > 0 {
        assert Trivia(s, ranges[k - 1].1, ranges[k - 1 + 1].0);
      }
    }
  }

  // The same unclosed comment, once with its x as the last character and once with a blank behind it: the
  // first source has the token x, the second has no token.
  lemma UnclosedWitness(ranges: seq<(nat, nat)>, tokens: seq<Token>)
    ensures TokensOf("/* x", ranges, tokens) ==> ranges == [(3, 4)]
    ensures TokensOf("/* x ", ranges, tokens) ==> ranges == []
  {
    assert Trivia("/* x", 0, 0) && Trivia("/* x ", 0, 0);
    assert Unclosed("/* x", 0) && Unclosed("/* x ", 0);
    if TokensOf("/* x", ranges, tokens) {
      UnclosedCommentToken("/* x", ranges, tokens, 0, 0);
    }
    if TokensOf("/* x ", ranges, tokens) {
      UnclosedCommentToken("/* x ", ranges, tokens, 0, 0);
    }
  }

  /** Reading tokens until the end terminates and covers the source. */
  method Tokenize(source: string) returns (ranges: seq<(nat, nat)>, tokens: seq<Token>)
    ensures TokensOf(source, ranges, tokens)
  {
    var lexer := new Lexer(source);
    ranges, tokens := [], [];
    assert Trivia(source, 0, 0);
    while true
      invariant lexer.Valid() && lexer.source == source && |ranges| == |tokens|
      invariant Tokenized(source, ranges, 0, lexer.pos)
      invariant forall k :: 0 <= k < |ranges| ==> TokenIs(source, ranges[k], tokens[k])
      decreases |source| - lexer.pos
    {
      ghost var end := lexer.pos;
      var tok := lexer.NextToken();
      if tok.kind == Eof {
        TokenizedEnd(source, ranges, end, lexer.pos);
        return;
      }
      TokenizedNext(source, ranges, end, lexer.tokenStart, lexer.pos);
      ranges := ranges + [(lexer.tokenStart, lexer.pos)];
      tokens := tokens + [tok];
    }
  }
}
