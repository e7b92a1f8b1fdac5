/** What schema texts are made of, character by character: words, signs and comments. Their tokens are written out here
    without the lexer, and every text made of them lexes to these tokens; comments and blanks leave none. */
module Lexemes {
  import opened Tokens
  import L = Lexer
  import G = Grammar

  datatype Lexeme =
    | Word(letters: string)
    | Sign(c: char)
    | Line(text: string)  // a comment up to the end of the line
    | Block(text: string) // a comment between its marks

  predicate WordChar(c: char) {
    'a' <= c <= 'z' || 'A' <= c <= 'Z' || c == '_'
  }

  function TextOf(l: Lexeme): string {
    match l
    case Word(letters) => letters
    case Sign(c) => [c]
    case Line(text) => "//" + text
    case Block(text) => "/*" + text + "*/"
  }

  function Text(ls: seq<Lexeme>): string {
    if ls == [] then "" else TextOf(ls[0]) + Text(ls[1..])
  }

  /** Words have letters only, signs are none and start no comment, comments hold nothing that ends them. */
  predicate Spelled(l: Lexeme) {
    match l
    case Word(letters) => letters != "" && forall i :: 0 <= i < |letters| ==> WordChar(letters[i])
    case Sign(c) => !WordChar(c) && c != '/' && c != '\0' && c as int < 0x80
    case Line(text) => forall i :: 0 <= i < |text| ==> text[i] !in {'\n', '\r', '\0'}
    case Block(text) =>
      && (forall i :: 0 <= i < |text| ==> text[i] != '\0')
      && (forall i :: 0 <= i < |text| - 1 ==> text[i] != '*' || text[i + 1] != '/')
  }

  /** A word is not followed by a word, and a line comment by nothing but a line feed or a carriage return. */
  predicate MayFollow(l: Lexeme, next: Lexeme) {
    match l
    case Word(_) => !next.Word?
    case Line(_) => next == Sign('\n') || next == Sign('\r')
    case _ => true
  }

  predicate Separated(ls: seq<Lexeme>) {
    && (forall i :: 0 <= i < |ls| ==> Spelled(ls[i]))
    && (forall i :: 0 < i < |ls| ==> MayFollow(ls[i - 1], ls[i]))
  }

  // ---------------------------------------------------------------- their tokens

  function WordType(letters: string): TokenType {
    match letters
    case "entity" => ENTITY
    case "relation" => RELATION
    case "action" => ACTION
    case "and" => AND
    case "or" => OR
    case "not" => NOT
    case _ => IDENT
  }

  function SignType(c: char): TokenType {
    if c == '\n' || c == '\r' || c == ';' then NEWLINE
    else if c == '=' then ASSIGN
    else if c == '@' then SIGN
    else if c == '#' then HASH
    else if c == '.' then DOT
    else if c == ',' then COMMA
    else if c == '(' then LPAREN
    else if c == ')' then RPAREN
    else if c == '{' then LBRACE
    else if c == '}' then RBRACE
    else ILLEGAL
  }

  function TokensOf(l: Lexeme): seq<Token> {
    match l
    case Word(letters) => [Token(WordType(letters), letters)]
    case Sign(c) => if c == ' ' || c == '\t' then [] else [Token(SignType(c), [c])]
    case Line(_) => []
    case Block(_) => []
  }

  function AllTokens(ls: seq<Lexeme>): seq<Token> {
    if ls == [] then [] else TokensOf(ls[0]) + AllTokens(ls[1..])
  }

  // ---------------------------------------------------------------- the lexer agrees

  lemma {:induction false} LettersOf(w: string, rest: string)
    requires forall i :: 0 <= i < |w| ==> WordChar(w[i])
    requires rest == "" || !WordChar(rest[0])
    ensures L.Letters(w + rest) == |w|
  {
    if w == [] {
      assert w + rest == rest;
    } else {
      assert (w + rest)[1..] == w[1..] + rest;
      LettersOf(w[1..], rest);
    }
  }

  lemma {:induction false} LineOf(text: string, rest: string)
    requires Spelled(Line(text)) && (rest == "" || rest[0] == '\n' || rest[0] == '\r')
    ensures L.LineLength(text + rest) == |text|
  {
    if text == [] {
      assert text + rest == rest;
    } else {
      assert (text + rest)[1..] == text[1..] + rest;
      LineOf(text[1..], rest);
    }
  }

  lemma {:induction false} BlockOf(text: string, rest: string)
    requires Spelled(Block(text))
    ensures L.BlockLength(text + ("*/" + rest)) == |text|
  {
    var all := text + ("*/" + rest);
    if text == [] {
      assert all == "*/" + rest;
    } else {
      assert all[1..] == text[1..] + ("*/" + rest);
      BlockOf(text[1..], rest);
    }
  }

  /** What must follow a lexeme for it to end there. */
  predicate Ends(l: Lexeme, rest: string) {
    match l
    case Word(_) => rest == "" || !WordChar(rest[0])
    case Line(_) => rest == "" || rest[0] == '\n' || rest[0] == '\r'
    case _ => true
  }

  /** The first token of `front + rest`, when it takes all of `front`. */
  lemma {:induction false} FirstToken(front: string, rest: string, tok: Token)
    requires front != "" && L.LexOne(front + rest) == (tok, |front|)
    ensures L.LexAll(front + rest) == (if IsIgnores(tok.typ) then [] else [tok]) + L.LexAll(rest)
  {
    hide L.LexOne;
    assert (front + rest)[|front|..] == rest;
  }

  lemma {:induction false} OneWord(letters: string, rest: string)
    requires Spelled(Word(letters)) && Ends(Word(letters), rest)
    ensures L.LexOne(letters + rest) == (Token(WordType(letters), letters), |letters|)
  {
    LettersOf(letters, rest);
    assert (letters + rest)[..|letters|] == letters;
  }

  lemma {:induction false} OneSign(c: char, rest: string)
    requires Spelled(Sign(c))
    ensures var (tok, n) := L.LexOne([c] + rest);
            n == 1 && if c == ' ' || c == '\t' then IsIgnores(tok.typ)
                      else tok == Token(SignType(c), [c]) && !IsIgnores(tok.typ)
  {
  }

  lemma {:induction false} OneLine(text: string, rest: string)
    requires Spelled(Line(text)) && Ends(Line(text), rest)
    ensures var (tok, n) := L.LexOne("//" + text + rest);
            n == |text| + 2 && tok.typ == SINGLE_LINE_COMMENT
  {
    assert ("//" + text + rest)[2..] == text + rest;
    LineOf(text, rest);
  }

  lemma {:induction false} OneBlock(text: string, rest: string)
    requires Spelled(Block(text))
    ensures var (tok, n) := L.LexOne("/*" + text + "*/" + rest);
            n == |text| + 4 && tok.typ == MULTI_LINE_COMMENT
  {
    assert ("/*" + text + "*/" + rest)[2..] == text + ("*/" + rest);
    BlockOf(text, rest);
  }

  lemma {:induction false} OneLexeme(l: Lexeme, rest: string)
    requires Spelled(l) && Ends(l, rest)
    ensures L.LexAll(TextOf(l) + rest) == TokensOf(l) + L.LexAll(rest)
  {
    assert TextOf(l) != "";
    hide L.LexAll, L.LexOne, Spelled, Ends;
    var tok := L.LexOne(TextOf(l) + rest).0;
    match l
    case Word(letters) =>
      OneWord(letters, rest);
      FirstToken(letters, rest, tok);
    case Sign(c) =>
      OneSign(c, rest);
      FirstToken([c], rest, tok);
    case Line(text) =>
      OneLine(text, rest);
      FirstToken("//" + text, rest, tok);
    case Block(text) =>
      OneBlock(text, rest);
      FirstToken("/*" + text + "*/", rest, tok);
  }

  lemma {:induction false} NextEnds(ls: seq<Lexeme>)
    requires ls != [] && Separated(ls)
    ensures Ends(ls[0], Text(ls[1..])) && Separated(ls[1..])
  {
    if |ls| > 1 {
      assert MayFollow(ls[0], ls[1]) && Spelled(ls[1]);
      assert Text(ls[1..]) == TextOf(ls[1]) + Text(ls[1..][1..]);
      assert Text(ls[1..])[0] == TextOf(ls[1])[0];
    }
  }

  /** Every text of separated lexemes lexes to their tokens, byte for byte. */
  lemma {:induction false} TextIsLexed(ls: seq<Lexeme>)
    requires Separated(ls)
    ensures L.LexAll(Text(ls)) == AllTokens(ls)
  {
    hide L.LexOne, L.LexAll;
    if ls == [] {
      NothingIsLexed();
    } else {
      NextEnds(ls);
      TextIsLexed(ls[1..]);
      OneLexeme(ls[0], Text(ls[1..]));
    }
  }

  lemma {:induction false} NothingIsLexed()
    ensures L.LexAll("") == []
  {
  }

  // ---------------------------------------------------------------- comments do not matter

  predicate IsComment(l: Lexeme) {
    l.Line? || l.Block?
  }

  function WithoutComments(ls: seq<Lexeme>): seq<Lexeme> {
    if ls == [] then [] else (if IsComment(ls[0]) then [] else [ls[0]]) + WithoutComments(ls[1..])
  }

  lemma {:induction false} CommentsHaveNoTokens(ls: seq<Lexeme>)
    ensures AllTokens(WithoutComments(ls)) == AllTokens(ls)
  {
    if ls != [] {
      var rest := WithoutComments(ls[1..]);
      CommentsHaveNoTokens(ls[1..]);
      if !IsComment(ls[0]) {
        assert ([ls[0]] + rest)[1..] == rest;
      } else {
        assert [] + rest == rest;
      }
    }
  }

  /** A schema text with comments between its tokens is parsed like the text without them. */
  lemma {:induction false} CommentsDoNotMatter(ls: seq<Lexeme>)
    requires Separated(ls) && Separated(WithoutComments(ls))
    ensures G.ParseText(Text(ls)) == G.ParseText(Text(WithoutComments(ls)))
  {
    CommentsHaveNoTokens(ls);
    TextIsLexed(ls);
    TextIsLexed(WithoutComments(ls));
  }

  /** So are any two texts with the same tokens, however blanks and comments stand between them. */
  lemma {:induction false} OnlyTokensMatter(ls: seq<Lexeme>, ms: seq<Lexeme>)
    requires Separated(ls) && Separated(ms) && AllTokens(ls) == AllTokens(ms)
    ensures G.ParseText(Text(ls)) == G.ParseText(Text(ms))
  {
    TextIsLexed(ls);
    TextIsLexed(ms);
  }
}
