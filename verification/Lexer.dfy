/** The lexer (pkg/dsl/lexer/lexer.go): a specification by recursion on the remaining text, and the lexer object
    proved against it. Line and column numbers are left out. */
module Lexer {
  import opened Tokens

  // ---------------------------------------------------------------- specification

  /** The length of the longest prefix of letters. */
  function Letters(s: string): (n: nat)
    ensures n <= |s| && (forall i :: 0 <= i < n ==> IsLetter(s[i])) && (n < |s| ==> !IsLetter(s[n]))
  {
    if s == [] || !IsLetter(s[0]) then 0 else 1 + Letters(s[1..])
  }

  predicate EndsLine(c: char) {
    c == '\r' || c == '\n' || c == '\0'
  }

  /** The length of the text before the end of the line, a NUL or the end. */
  function LineLength(s: string): (n: nat)
    ensures n <= |s|
  {
    if s == [] || EndsLine(s[0]) then 0 else 1 + LineLength(s[1..])
  }

  predicate StartsWith(s: string, a: char, b: char) {
    |s| >= 2 && s[0] == a && s[1] == b
  }

  /** The length of the text before the closing star and slash, a NUL or the end. */
  function BlockLength(s: string): (n: nat)
    ensures n <= |s| && (n < |s| && s[n] != '\0' ==> n + 1 < |s|)
  {
    if s == [] || s[0] == '\0' || StartsWith(s, '*', '/') then 0 else 1 + BlockLength(s[1..])
  }

  /** The next token of a text, and how many bytes it takes. */
  function LexOne(s: string): (r: (Token, nat))
    requires s != []
    ensures 1 <= r.1 <= |s|
  {
    if s[0] == '\0' then (END, 1)
    else if IsLetter(s[0]) then
      var n := Letters(s);
      (Token(LookupKeywords(s[..n]), s[..n]), n)
    else if StartsWith(s, '/', '/') then
      var n := 2 + LineLength(s[2..]);
      (Token(SINGLE_LINE_COMMENT, s[2..n]), n)
    else if StartsWith(s, '/', '*') then
      var n := 2 + BlockLength(s[2..]);
      (Token(MULTI_LINE_COMMENT, s[2..n]), if n < |s| && s[n] != '\0' then n + 2 else n)
    else (Token(Symbol(s[0]), ByteText(s[0])), 1)
  }

  /** All tokens of a text that are not ignored. A NUL byte gives an EOF token, and lexing goes on behind it. */
  function LexAll(s: string): seq<Token>
    decreases |s|
  {
    if s == [] then []
    else
      var (tok, n) := LexOne(s);
      (if IsIgnores(tok.typ) then [] else [tok]) + LexAll(s[n..])
  }

  // ---------------------------------------------------------------- the pieces tile the text

  /** The bytes each token was read from. */
  function Pieces(s: string): seq<(Token, string)>
    decreases |s|
  {
    if s == [] then []
    else
      var (tok, n) := LexOne(s);
      [(tok, s[..n])] + Pieces(s[n..])
  }

  function Joined(ps: seq<(Token, string)>): string {
    if ps == [] then [] else ps[0].1 + Joined(ps[1..])
  }

  /** The text of a single-line comment: no line feed, carriage return or NUL, and one of these or the end behind it. */
  ghost predicate IsLine(literal: string, rest: string) {
    && (forall i :: 0 <= i < |literal| ==> literal[i] !in {'\n', '\r', '\0'})
    && (rest == "" || rest[0] in {'\n', '\r', '\0'})
  }

  lemma {:induction false} LineEnds(s: string)
    ensures IsLine(s[..LineLength(s)], s[LineLength(s)..])
  {
    if s != [] && !EndsLine(s[0]) {
      LineEnds(s[1..]);
      var n := LineLength(s[1..]);
      assert s[..n + 1] == [s[0]] + s[1..][..n] && s[n + 1..] == s[1..][n..];
    }
  }

  /** The text of a block comment: no NUL and no closing marks, and the closing marks, a NUL or the end behind it. */
  ghost predicate IsBlock(literal: string, rest: string) {
    && (forall i :: 0 <= i < |literal| ==> literal[i] != '\0')
    && (forall i :: 0 <= i < |literal| - 1 ==> literal[i] != '*' || literal[i + 1] != '/')
    && (rest == "" || rest[0] == '\0' || (|rest| > 1 && rest[0] == '*' && rest[1] == '/'))
  }

  lemma {:induction false} BlockStops(s: string)
    ensures IsBlock(s[..BlockLength(s)], s[BlockLength(s)..])
  {
    if s != [] && s[0] != '\0' && !StartsWith(s, '*', '/') {
      BlockStops(s[1..]);
      var n := BlockLength(s[1..]);
      assert s[..n + 1] == [s[0]] + s[1..][..n] && s[n + 1..] == s[1..][n..];
    }
  }

  /** `text` spells the token: the literal itself, with the comment marks added, or the byte of the literal. */
  ghost predicate Spells(text: string, tok: Token) {
    match tok.typ
    case EOF => text == ['\0'] && tok.literal == ""
    case SINGLE_LINE_COMMENT => text == "//" + tok.literal
    case MULTI_LINE_COMMENT => text == "/*" + tok.literal || text == "/*" + tok.literal + "*/"
    case IDENT => text == tok.literal
    case _ => (|text| == 1 && tok == Token(Symbol(text[0]), ByteText(text[0])))
              || (text == tok.literal && tok.typ == LookupKeywords(text))
  }

  /** The pieces consumed by successive tokens are, joined, the whole text, and each spells its token. */
  lemma {:induction false} PiecesTile(s: string)
    ensures Joined(Pieces(s)) == s
    ensures forall i :: 0 <= i < |Pieces(s)| ==> Pieces(s)[i].1 != "" && Spells(Pieces(s)[i].1, Pieces(s)[i].0)
    decreases |s|
  {
    hide LexOne, Spells;
    if s != [] {
      var (tok, n) := LexOne(s);
      OneSpells(s);
      PiecesTile(s[n..]);
      assert s == s[..n] + s[n..];
    }
  }

  lemma {:induction false} OneSpells(s: string)
    requires s != []
    ensures Spells(s[..LexOne(s).1], LexOne(s).0)
  {
    if s[0] == '\0' || IsLetter(s[0]) {
    } else if StartsWith(s, '/', '/') {
      var n := 2 + LineLength(s[2..]);
      assert s[..n] == "//" + s[2..n];
    } else if StartsWith(s, '/', '*') {
      BlockSpells(s);
    }
  }

  lemma {:induction false} BlockEnds(s: string)
    ensures var n := BlockLength(s); n < |s| && s[n] != '\0' ==> n + 1 < |s| && s[n] == '*' && s[n + 1] == '/'
  {
    if s != [] && s[0] != '\0' && !StartsWith(s, '*', '/') {
      BlockEnds(s[1..]);
    }
  }

  lemma {:induction false} BlockSpells(s: string)
    requires StartsWith(s, '/', '*')
    ensures var n := 2 + BlockLength(s[2..]);
            if n < |s| && s[n] != '\0' then n + 2 <= |s| && s[..n + 2] == "/*" + s[2..n] + "*/"
            else s[..n] == "/*" + s[2..n]
  {
    var n := 2 + BlockLength(s[2..]);
    BlockEnds(s[2..]);
    assert s[..n] == "/*" + s[2..n];
  }

  // ---------------------------------------------------------------- the lexer object

  lemma {:induction false} SliceAfterTwo(s: string, n: nat)
    requires 2 <= n <= |s|
    ensures s[2..][..n - 2] == s[2..n] && s[2..][n - 2..] == s[n..]
    ensures n + 2 <= |s| ==> s[n..][1..][1..] == s[n + 2..]
  {
  }

  class Lexer {
    const input: string
    var position: nat
    var readPosition: nat
    var ch: char

    ghost predicate Valid()
      reads this
    {
      && readPosition == position + 1
      && ch == if position < |input| then input[position] else '\0'
    }

    /** The text that is still to be read. */
    ghost function Rest(): string
      reads this
    {
      if position < |input| then input[position..] else []
    }

    constructor (input: string)
      ensures Valid() && Rest() == input && this.input == input
    {
      this.input := input;
      position, readPosition, ch := 0, 0, '\0';
      new;
      ReadChar();
    }

    method ReadChar()
      requires Valid() || readPosition == 0
      modifies this
      ensures Valid() && position == old(readPosition)
      ensures old(Valid()) && old(Rest()) != [] ==> Rest() == old(Rest())[1..]
    {
      if readPosition >= |input| {
        ch := '\0';
      } else {
        ch := input[readPosition];
      }
      position := readPosition;
      readPosition := readPosition + 1;
    }

    method PeekChar() returns (c: char)
      requires Valid()
      ensures c == if position + 1 < |input| then input[position + 1] else '\0'
    {
      if readPosition >= |input| {
        return '\0';
      }
      return input[readPosition];
    }

    /** At the end of the text an EOF token is returned, as often as asked for; otherwise the next token of the
        specification, and exactly its bytes are consumed. */
    method NextToken() returns (tok: Token)
      requires Valid()
      modifies this
      ensures Valid()
      ensures old(Rest()) == [] ==> tok == END && Rest() == []
      ensures old(Rest()) != [] ==>
                tok == LexOne(old(Rest())).0 && Rest() == old(Rest())[LexOne(old(Rest())).1..]
    {
      if ch == '\0' {
        tok := END;
      } else if IsLetter(ch) {
        var literal := LexIdent();
        return Token(LookupKeywords(literal), literal);
      } else {
        var peek := PeekChar();
        if ch == '/' && peek == '/' {
          var literal := LexSingleLineComment();
          return Token(SINGLE_LINE_COMMENT, literal);
        } else if ch == '/' && peek == '*' {
          var literal := LexMultiLineComment();
          return Token(MULTI_LINE_COMMENT, literal);
        }
        tok := Token(Symbol(ch), ByteText(ch));
      }
      ReadChar();
    }

    method LexIdent() returns (literal: string)
      requires Valid() && position < |input|
      modifies this
      ensures Valid()
      ensures literal == old(Rest())[..Letters(old(Rest()))]
      ensures Rest() == old(Rest())[Letters(old(Rest()))..]
    {
      var start := position;
      while IsLetter(ch)
        invariant Valid() && start <= position <= |input|
        invariant Letters(old(Rest())) == position - start + Letters(Rest())
        decreases |input| - position
      {
        assert Rest()[1..] == if position + 1 < |input| then input[position + 1..] else [];
        ReadChar();
      }
      return input[start..position];
    }

    method LexSingleLineComment() returns (literal: string)
      requires Valid() && StartsWith(Rest(), '/', '/')
      modifies this
      ensures Valid()
      ensures var n := 2 + LineLength(old(Rest())[2..]);
              literal == old(Rest())[2..n] && Rest() == old(Rest())[n..]
      ensures IsLine(literal, Rest())
    {
      hide IsLine, LineLength;
      ghost var s := Rest();
      LineEnds(s[2..]);
      ReadChar();
      ReadChar();
      assert Rest() == s[2..];
      literal := ReadLine();
      SliceAfterTwo(s, 2 + |literal|);
    }

    /** The loop of `lexSingleLineComment`. */
    method ReadLine() returns (literal: string)
      requires Valid() && position <= |input|
      modifies this
      ensures Valid()
      ensures |literal| == LineLength(old(Rest()))
      ensures literal == old(Rest())[..|literal|] && Rest() == old(Rest())[|literal|..]
    {
      var start := position;
      while !(ch == '\r' || ch == '\n')
        invariant Valid() && start <= position <= |input|
        invariant LineLength(old(Rest())) == position - start + LineLength(Rest())
        decreases |input| - position
      {
        if ch == '\0' {
          break;
        }
        assert Rest()[1..] == if position + 1 < |input| then input[position + 1..] else [];
        ReadChar();
      }
      return input[start..position];
    }

    method LexMultiLineComment() returns (literal: string)
      requires Valid() && StartsWith(Rest(), '/', '*')
      modifies this
      ensures Valid()
      ensures var n := 2 + BlockLength(old(Rest())[2..]);
              literal == old(Rest())[2..n] &&
              Rest() == old(Rest())[if n < |old(Rest())| && old(Rest())[n] != '\0' then n + 2 else n..] &&
              IsBlock(literal, old(Rest())[n..])
    {
      ghost var s := Rest();
      BlockSpells(s);
      BlockStops(s[2..]);
      ReadChar();
      ReadChar();
      assert Rest() == s[2..];
      var closed;
      literal, closed := ReadBlock();
      SliceAfterTwo(s, 2 + |literal|);
      if closed {
        ReadChar();
        ReadChar();
      }
    }

    /** The loop of `lexMultiLineComment`: stops at the closing marks, or at a NUL or the end. */
    method ReadBlock() returns (literal: string, closed: bool)
      requires Valid() && position <= |input|
      modifies this
      ensures Valid()
      ensures |literal| == BlockLength(old(Rest()))
      ensures literal == old(Rest())[..|literal|] && Rest() == old(Rest())[|literal|..]
      ensures closed <==> Rest() != [] && Rest()[0] != '\0'
      ensures closed ==> position + 1 < |input|
    {
      ghost var s := Rest();
      var start := position;
      var peek := PeekChar();
      while !(ch == '*' && peek == '/')
        invariant Valid() && start <= position <= |input|
        invariant peek == if position + 1 < |input| then input[position + 1] else '\0'
        invariant BlockLength(s) == position - start + BlockLength(Rest())
        decreases |input| - position
      {
        if ch == '\0' {
          assert BlockLength(Rest()) == 0;
          return input[start..position], false;
        }
        ghost var t := Rest();
        assert !StartsWith(t, '*', '/');
        ReadChar();
        assert Rest() == t[1..];
        peek := PeekChar();
      }
      assert StartsWith(Rest(), '*', '/');
      return input[start..position], true;
    }
  }
}
