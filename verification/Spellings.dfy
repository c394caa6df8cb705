/** What spellings the lexer reads as what: escaped texts, character codes, words and operators. */
module Spellings {
  import opened LexicalGrammar
  import Numerals

  // ---- String literals ----

  /** One way to write a character inside a string literal: as it is, with a backslash before it, as one of the eight
      short escapes, or as two hexadecimal digits of its code. */
  predicate Spells(u: string, ch: char) {
    || (u == [ch] && ch != '"' && ch != '\\')
    || (u == ['\\', ch] && ch !in "ntr0abfvx")
    || (u == "\\n" && ch as int == 10) || (u == "\\t" && ch as int == 9) || (u == "\\r" && ch as int == 13)
    || (u == "\\0" && ch as int == 0) || (u == "\\a" && ch as int == 7) || (u == "\\b" && ch as int == 8)
    || (u == "\\f" && ch as int == 12) || (u == "\\v" && ch as int == 11)
    || (&& |u| == 4 && u[..2] == "\\x" && (ch as int) < 256
        && IsHexDigit(u[2], ch as int / 16) && IsHexDigit(u[3], ch as int % 16))
  }

  predicate IsHexDigit(c: char, v: nat) {
    v < 16 && (c == "0123456789abcdef"[v] || c == "0123456789ABCDEF"[v])
  }

  /** The pieces one behind the other. */
  function Flat(us: seq<string>): string {
    if us == [] then [] else us[0] + Flat(us[1..])
  }

  lemma HexDigitReads(c: char, v: nat)
    requires IsHexDigit(c, v)
    ensures IsHex(c) && HexValue(c) == v && c != '"'
  {
  }

  lemma PieceReads(s: string, p: nat, u: string, ch: char)
    requires Spells(u, ch) && p + |u| < |s| && s[p..p + |u|] == u
    ensures s[p] != '"' && StringChar(s, p) == (ch, p + |u|)
  {
    assert forall i :: 0 <= i < |u| ==> s[p + i] == u[i];
    assert s[p] == u[0];
    if |u| == 4 {
      HexDigitReads(u[2], ch as int / 16);
      HexDigitReads(u[3], ch as int % 16);
      assert u[0] == '\\' && u[1] == u[..2][1] == 'x';
    }
  }

  /** A text spelled in any of these ways, up to the first quote behind it, is read as itself, and the literal ends
      behind that quote. */
  lemma {:induction false} SpelledReads(s: string, p: nat, us: seq<string>, t: string)
    requires |us| == |t| && forall i :: 0 <= i < |t| ==> Spells(us[i], t[i])
    requires p + |Flat(us)| < |s| && s[p..p + |Flat(us)|] == Flat(us) && s[p + |Flat(us)|] == '"'
    ensures StringChars(s, p) == t && StringEnd(s, p) == p + |Flat(us)| + 1
    decreases |us|
  {
    hide Spells;
    if us != [] {
      var n := |us[0]|;
      var all := s[p..p + |Flat(us)|];
      assert s[p..p + n] == all[..n] == us[0];
      assert s[p + n..p + |Flat(us)|] == all[n..] == Flat(us[1..]);
      PieceReads(s, p, us[0], t[0]);
      StringCharEnd(s, p);
      SpelledReads(s, p + n, us[1..], t[1..]);
      assert t == [t[0]] + t[1..];
    }
  }

  // ---- Character literals ----

  /** A character literal is the code of its character, and its text that code in decimal. */
  lemma CharReads(s: string, p: nat)
    requires p + 1 < |s|
    ensures s[p] != '\\' ==> CharValue(s, p) == s[p] as int % 256
    ensures s[p] == '\\' && s[p + 1] !in "ntr0" ==> CharValue(s, p) == s[p + 1] as int % 256
    ensures s[p] == '\\' && s[p + 1] == 'n' ==> CharValue(s, p) == 10
    ensures s[p] == '\\' && s[p + 1] == 't' ==> CharValue(s, p) == 9
    ensures s[p] == '\\' && s[p + 1] == 'r' ==> CharValue(s, p) == 13
    ensures s[p] == '\\' && s[p + 1] == '0' ==> CharValue(s, p) == 0
  {
  }

  function DigitsOf(t: string): seq<nat> {
    seq(|t|, i requires 0 <= i < |t| => if IsDigit(t[i]) then t[i] as int - '0' as int else 0)
  }

  lemma {:induction false} DecimalReads(v: nat)
    ensures var t := Decimal(v);
            && (forall i :: 0 <= i < |t| ==> IsDigit(t[i])) && Numerals.Value(10, DigitsOf(t)) == v
            && (t[0] == '0' ==> v == 0 && |t| == 1)
  {
    if v >= 10 {
      DecimalReads(v / 10);
      var front, t := Decimal(v / 10), Decimal(v);
      assert DigitsOf(t) == DigitsOf(front) + [v % 10];
      Numerals.ValueAppend(10, DigitsOf(front), v % 10);
    } else {
      assert DigitsOf([DigitChar(v)]) == [] + [v];
      Numerals.ValueAppend(10, [], v);
    }
  }

  // ---- Words ----

  /** The words that are not identifiers of their own. */
  lemma WordReads(t: string)
    ensures t == "YES" || t == "TRUE" ==> Word(t) == (IntLiteral, "1")
    ensures t == "NO" || t == "FALSE" ==> Word(t) == (IntLiteral, "0")
    ensures t == "nil" || t == "NULL" ==> Word(t) == (Nil, t)
    ensures t == "instancetype" ==> Word(t) == (Identifier, "id")
    ensures t == "CGFloat" ==> Word(t) == (Identifier, "double")
    ensures Word(t).0 == Reserved <==>
            || t == "return" || t == "if" || t == "else" || t == "while" || t == "for" || t == "do" || t == "break"
            || t == "continue" || t == "in" || t == "switch" || t == "case" || t == "default" || t == "sizeof"
            || t == "super"
    ensures Word(t).0 == Reserved ==> Word(t).1 == t
    ensures t !in {"YES", "TRUE", "NO", "FALSE", "nil", "NULL", "instancetype", "CGFloat"} && Word(t).0 != Reserved
            ==> Word(t) == (Identifier, t)
  {
  }

  // ---- Operators ----

  /** Two characters are one operator when the second is an equals sign behind an operator that takes one, when they
      are the same one of six, or when they are an arrow. */
  lemma PairReads(s: string, p: nat)
    requires p + 1 < |s|
    ensures IsPair(s, p) <==>
            || (s[p + 1] == '=' && s[p] in "=!<>+-*/%")
            || (s[p + 1] == s[p] && s[p] in "&|+-<>")
            || (s[p] == '-' && s[p + 1] == '>')
  {
    var pair := s[p..p + 2];
    assert pair == [s[p], s[p + 1]];
  }

  // ---- Positions ----

  /** The line is one more than the number of newlines in front. */
  lemma {:induction false} LineCounts(s: string, p: nat)
    requires p <= |s|
    ensures LineAt(s, p) == 1 + |set i | 0 <= i < p && s[i] == '\n'|
  {
    if p > 0 {
      LineCounts(s, p - 1);
      var before := set i | 0 <= i < p - 1 && s[i] == '\n';
      var now := set i | 0 <= i < p && s[i] == '\n';
      assert now == if s[p - 1] == '\n' then before + {p - 1} else before;
    }
  }

  /** The column counts from the last newline in front. */
  lemma {:induction false} ColumnCounts(s: string, p: nat)
    requires p <= |s|
    ensures var c := ColumnAt(s, p);
            && 1 <= c <= p + 1 && (forall i :: p + 1 - c <= i < p ==> s[i] != '\n')
            && (c <= p ==> s[p - c] == '\n')
  {
    if p > 0 && s[p - 1] != '\n' {
      ColumnCounts(s, p - 1);
    }
  }
}
