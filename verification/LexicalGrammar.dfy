/** What the lexer is to find: blanks, comments and directive lines between the tokens, and the extent and
    text of each token. */
module LexicalGrammar {

  const MAX_TOKEN: nat := 256

  predicate IsAlpha(ch: char) {
    'a' <= ch <= 'z' || 'A' <= ch <= 'Z' || ch == '_'
  }

  predicate IsDigit(ch: char) {
    '0' <= ch <= '9'
  }

  predicate IsAlnum(ch: char) {
    IsAlpha(ch) || IsDigit(ch)
  }

  predicate IsHex(ch: char) {
    IsDigit(ch) || 'a' <= ch <= 'f' || 'A' <= ch <= 'F'
  }

  predicate IsBlank(ch: char) {
    ch == ' ' || ch == '\t' || ch == '\n' || ch == '\r'
  }

  // ---- Positions ----

  /** One more than the number of newlines before p. */
  function LineAt(s: string, p: nat): nat
    requires p <= |s|
  {
    if p == 0 then 1 else LineAt(s, p - 1) + if s[p - 1] == '\n' then 1 else 0
  }

  /** One more than the number of characters since the last newline before p. */
  function ColumnAt(s: string, p: nat): nat
    requires p <= |s|
  {
    if p == 0 || s[p - 1] == '\n' then 1 else ColumnAt(s, p - 1) + 1
  }

  // ---- Between tokens ----

  predicate Pair(s: string, p: nat, a: char, b: char) {
    p + 1 < |s| && s[p] == a && s[p + 1] == b
  }

  /** [a, b) is the rest of a line, with its newline; a NUL ends it too, and is not part of it. */
  predicate RestOfLine(s: string, a: nat, b: nat) {
    && a < b <= |s|
    && var e := if s[b - 1] == '\n' then b - 1 else b;
    && (forall k :: a <= k < e ==> s[k] != '\n' && s[k] != '\0')
    && (e == b ==> b == |s| || s[b] == '\0')
  }

  predicate ClosesAt(s: string, p: nat) {
    Pair(s, p, '*', '/')
  }

  /** [a, b) is a block comment up to the first end mark, or, without one, up to the last character. */
  predicate BlockComment(s: string, a: nat, b: nat) {
    && Pair(s, a, '/', '*') && a + 2 <= b <= |s|
    && (Closed(s, a, b) || (NoEndMark(s, a + 2, |s|) && b == (if a + 2 < |s| then |s| - 1 else |s|)))
  }

  predicate Closed(s: string, a: nat, b: nat) {
    a + 4 <= b && ClosesAt(s, b - 2) && NoEndMark(s, a + 2, b - 2)
  }

  predicate NoEndMark(s: string, lo: nat, hi: nat) {
    forall j :: lo <= j < hi ==> !ClosesAt(s, j)
  }

  /** A piece of text that is no token: a blank, a comment, or a preprocessor line. */
  predicate Piece(s: string, a: nat, b: nat) {
    && a < b <= |s|
    && (|| (b == a + 1 && IsBlank(s[a]))
        || (Pair(s, a, '/', '/') && RestOfLine(s, a, b))
        || BlockComment(s, a, b)
        || (s[a] == '#' && RestOfLine(s, a, b)))
  }

  predicate StartsPiece(s: string, a: nat) {
    a < |s| && (IsBlank(s[a]) || Pair(s, a, '/', '/') || Pair(s, a, '/', '*') || s[a] == '#')
  }

  /** [a, b) consists of such pieces. */
  ghost predicate Trivia(s: string, a: nat, b: nat)
    decreases b - a
  {
    a == b || exists m :: a < m <= b && Piece(s, a, m) && Trivia(s, m, b)
  }

  lemma {:induction false} TriviaThen(s: string, a: nat, m: nat, b: nat)
    requires Trivia(s, a, m) && Trivia(s, m, b) && a <= m <= b
    ensures Trivia(s, a, b)
    decreases m - a
  {
    if a < m {
      var c :| a < c <= m && Piece(s, a, c) && Trivia(s, c, m);
      TriviaThen(s, c, m, b);
    }
  }

  lemma PieceIsTrivia(s: string, a: nat, b: nat)
    requires Piece(s, a, b)
    ensures Trivia(s, a, b)
  {
    assert Trivia(s, b, b);
  }

  /** The end of the rest of a line is determined. */
  lemma RestUnique(s: string, a: nat, b: nat, b': nat)
    requires RestOfLine(s, a, b) && RestOfLine(s, a, b')
    ensures b == b'
  {
    RestOrder(s, a, b, b');
    RestOrder(s, a, b', b);
  }

  lemma RestOrder(s: string, a: nat, b: nat, b': nat)
    requires RestOfLine(s, a, b) && RestOfLine(s, a, b')
    ensures b <= b'
  {
    var e' := if s[b' - 1] == '\n' then b' - 1 else b';
    assert e' < |s| ==> s[e'] == '\n' || s[e'] == '\0';
  }

  lemma CommentUnique(s: string, a: nat, b: nat, b': nat)
    requires BlockComment(s, a, b) && BlockComment(s, a, b')
    ensures b == b'
  {
    assert Closed(s, a, b) ==> ClosesAt(s, b - 2);
    assert Closed(s, a, b') ==> ClosesAt(s, b' - 2);
  }

  /** Where a piece begins determines where it ends. */
  lemma PieceUnique(s: string, a: nat, b: nat, b': nat)
    requires Piece(s, a, b) && Piece(s, a, b')
    ensures b == b' && StartsPiece(s, a)
  {
    hide RestOfLine, BlockComment;
    if BlockComment(s, a, b) && BlockComment(s, a, b') {
      CommentUnique(s, a, b, b');
      CommentStarts(s, a, b);
    } else if RestOfLine(s, a, b) && RestOfLine(s, a, b') {
      RestUnique(s, a, b, b');
    } else {
      CommentStarts(s, a, b);
      CommentStarts(s, a, b');
    }
  }

  lemma CommentStarts(s: string, a: nat, b: nat)
    ensures BlockComment(s, a, b) ==> Pair(s, a, '/', '*')
  {
  }

  /** A stretch of trivia that cannot be continued passes every place where a shorter one ends. */
  lemma {:induction false} TriviaPasses(s: string, from: nat, a: nat, end: nat)
    requires Trivia(s, from, a) && Trivia(s, from, end) && from <= a && from <= end && !StartsPiece(s, end)
    ensures a <= end && Trivia(s, a, end)
    decreases a - from
  {
    hide Piece, StartsPiece;
    if from < a {
      var m :| from < m <= a && Piece(s, from, m) && Trivia(s, m, a);
      PieceUnique(s, from, m, m);
      var m' :| from < m' <= end && Piece(s, from, m') && Trivia(s, m', end);
      PieceUnique(s, from, m, m');
      TriviaPasses(s, m, a, end);
    }
  }

  /** An opening of a block comment with no end mark behind it. */
  predicate Unclosed(s: string, a: nat) {
    Pair(s, a, '/', '*') && NoEndMark(s, a + 2, |s|)
  }

  /** What an unclosed comment leaves for the lexer to see: its last character, unless that is trivia too. */
  function LeftOver(s: string, a: nat): (p: nat)
    requires Unclosed(s, a)
    ensures a + 2 <= p <= |s|
  {
    if a + 2 < |s| && !IsBlank(s[|s| - 1]) && s[|s| - 1] != '#' then |s| - 1 else |s|
  }

  /** Trivia that includes an unclosed comment and cannot be continued ends at what the comment leaves over. */
  lemma UnclosedEnds(s: string, a: nat, end: nat)
    requires Unclosed(s, a) && a <= end <= |s| && Trivia(s, a, end) && !StartsPiece(s, end)
    ensures end == LeftOver(s, a)
  {
    var m :| a < m <= end && Piece(s, a, m) && Trivia(s, m, end);
    assert BlockComment(s, a, m);
    assert !Closed(s, a, m);
    if m < end {
      var m' :| m < m' <= end && Piece(s, m, m') && Trivia(s, m', end);
      assert m == |s| - 1 && (IsBlank(s[m]) || s[m] == '#');
    } else if m < |s| {
      assert !IsBlank(s[m]) && s[m] != '#';
    }
  }

  // ---- Tokens ----

  datatype Kind =
    | Eof | Identifier | AtKeyword | StringLiteral | IntLiteral | FloatLiteral | Reserved | Nil | Operator | Unknown

  datatype Token = Token(kind: Kind, text: string, line: nat, column: nat, truncated: bool)

  /** What fits the token buffer. */
  function Clip(t: string): (r: string)
    ensures |r| < MAX_TOKEN
  {
    if |t| < MAX_TOKEN then t else t[..MAX_TOKEN - 1]
  }

  /** [a, b) is the longest run of characters of a kind from a on. */
  predicate Run(s: string, a: nat, b: nat, kind: char -> bool) {
    && a <= b <= |s| && (forall k :: a <= k < b ==> kind(s[k])) && (b < |s| ==> !kind(s[b]))
  }

  const RESERVED: set<string> :=
    {"return", "if", "else", "while", "for", "do", "break", "continue", "in", "switch", "case", "default", "sizeof",
     "super"}

  /** The kind and the final text of a word. */
  function Word(text: string): (Kind, string) {
    if text in RESERVED then (Reserved, text)
    else if text == "YES" || text == "TRUE" then (IntLiteral, "1")
    else if text == "NO" || text == "FALSE" then (IntLiteral, "0")
    else if text == "nil" || text == "NULL" then (Nil, text)
    else if text == "instancetype" then (Identifier, "id")
    else if text == "CGFloat" then (Identifier, "double")
    else (Identifier, text)
  }

  /** The end of a string literal whose contents begin at p: behind the first quote that no backslash escapes. */
  function StringEnd(s: string, p: nat): (e: nat)
    requires p <= |s|
    ensures p <= e <= |s|
    decreases |s| - p
  {
    if p == |s| then p
    else if s[p] == '"' then p + 1
    else if s[p] == '\\' && p + 1 < |s| then StringEnd(s, p + 2)
    else StringEnd(s, p + 1)
  }

  function HexValue(ch: char): nat
    requires IsHex(ch)
  {
    if IsDigit(ch) then ch as int - '0' as int
    else if ch <= 'F' then ch as int - 'A' as int + 10
    else ch as int - 'a' as int + 10
  }

  function SimpleEscape(ch: char): char {
    match ch
    case 'n' => '\n'
    case 't' => '\t'
    case 'r' => '\r'
    case '0' => '\0'
    case 'a' => 7 as char
    case 'b' => 8 as char
    case 'f' => 12 as char
    case 'v' => 11 as char
    case _ => ch
  }

  /** The character at p of a string literal and where the next one begins. */
  function StringChar(s: string, p: nat): (r: (char, nat))
    requires p < |s|
    ensures p < r.1 <= |s|
  {
    if s[p] != '\\' || p + 1 == |s| then (s[p], p + 1)
    else if s[p + 1] != 'x' then (SimpleEscape(s[p + 1]), p + 2)
    else if p + 2 == |s| || !IsHex(s[p + 2]) then ('\0', p + 2)
    else if p + 3 == |s| || !IsHex(s[p + 3]) then (HexValue(s[p + 2]) as char, p + 3)
    else ((16 * HexValue(s[p + 2]) + HexValue(s[p + 3])) as char, p + 4)
  }

  /** The contents of a string literal from p on. */
  function StringChars(s: string, p: nat): string
    requires p <= |s|
    decreases |s| - p
  {
    if p == |s| || s[p] == '"' then []
    else [StringChar(s, p).0] + StringChars(s, StringChar(s, p).1)
  }

  /** Skipping a character, hexadecimal digits and all, does not miss the end of the literal. */
  lemma StringCharEnd(s: string, p: nat)
    requires p < |s| && s[p] != '"'
    ensures StringEnd(s, p) == StringEnd(s, StringChar(s, p).1)
  {
    if s[p] == '\\' && p + 1 < |s| && s[p + 1] == 'x' {
      var e := StringChar(s, p).1;
      if e == p + 3 {
        HexNoQuote(s, p + 2);
      } else if e == p + 4 {
        HexNoQuote(s, p + 2);
        HexNoQuote(s, p + 3);
      }
    }
  }

  lemma HexNoQuote(s: string, p: nat)
    requires p < |s| && IsHex(s[p])
    ensures StringEnd(s, p) == StringEnd(s, p + 1)
  {
  }

  /** The value of a character literal whose contents begin at p, and where the literal ends. */
  function CharValue(s: string, p: nat): nat
    requires p <= |s|
  {
    if p == |s| then 0
    else if s[p] == '\\' && p + 1 < |s| then CharEscape(s[p + 1]) as int % 256
    else s[p] as int % 256
  }

  function CharEscape(ch: char): char {
    match ch
    case 'n' => '\n'
    case 't' => '\t'
    case 'r' => '\r'
    case '0' => '\0'
    case _ => ch
  }

  function CharEnd(s: string, p: nat): (e: nat)
    requires p <= |s|
    ensures p <= e <= |s|
  {
    var q := if p == |s| then p else if s[p] == '\\' && p + 1 < |s| then p + 2 else p + 1;
    if q < |s| && s[q] == '\'' then q + 1 else q
  }

  function Decimal(v: nat): (t: string)
    ensures |t| > 0
  {
    if v < 10 then [DigitChar(v)] else Decimal(v / 10) + [DigitChar(v % 10)]
  }

  function DigitChar(d: nat): char
    requires d < 10
  {
    ('0' as int + d) as char
  }

  const PAIRS: set<string> :=
    {"==", "!=", "&&", "||", "++", "--", "<<", "<=", ">>", ">=", "+=", "-=", "->", "*=", "/=", "%="}
  const SINGLES: string := "[]{}();:,.*&=+-/%<>!?^|~"

  predicate IsPair(s: string, p: nat) {
    p + 1 < |s| && s[p..p + 2] in PAIRS
  }

  /** The end of a number that begins at p: hexadecimal, or decimal with an optional fraction. */
  predicate NumberAt(s: string, p: nat, e: nat, kind: Kind) {
    && p < |s|
    && if s[p] == '0' && p + 1 < |s| && (s[p + 1] == 'x' || s[p + 1] == 'X')
       then kind == IntLiteral && Run(s, p + 2, e, IsHex)
       else if kind == FloatLiteral
       then e <= |s|
            && exists dot :: p <= dot < e && s[dot] == '.' && Run(s, p, dot, IsDigit) && Run(s, dot + 1, e, IsDigit)
       else kind == IntLiteral && Run(s, p, e, IsDigit) && (e < |s| ==> s[e] != '.')
  }

  /** The token at [lo, hi), by its first character. */
  predicate TokenAt(s: string, lo: nat, hi: nat, kind: Kind, text: string)
  {
    && lo < hi <= |s|
    && var ch := s[lo];
    if ch == '@' && lo + 1 < |s| && s[lo + 1] == '"' then
      kind == StringLiteral && hi == StringEnd(s, lo + 2) && text == Clip("@" + StringChars(s, lo + 2))
    else if ch == '@' then
      kind == AtKeyword && Run(s, lo + 1, hi, IsAlpha) && text == Clip(s[lo..hi])
    else if ch == '\'' then
      kind == IntLiteral && hi == CharEnd(s, lo + 1) && text == Decimal(CharValue(s, lo + 1))
    else if ch == '"' then
      kind == StringLiteral && hi == StringEnd(s, lo + 1) && text == Clip(StringChars(s, lo + 1))
    else if IsAlpha(ch) then
      Run(s, lo, hi, IsAlnum) && (kind, text) == Word(Clip(s[lo..hi]))
    else if IsDigit(ch) then
      NumberAt(s, lo, hi, kind) && text == Clip(s[lo..hi])
    else
      && hi == (if IsPair(s, lo) then lo + 2 else lo + 1) && text == s[lo..hi]
      && kind == (if IsPair(s, lo) || ch in SINGLES then Operator else Unknown)
  }
}
