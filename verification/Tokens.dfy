/** Tokens of the schema language (pkg/dsl/token/token.go). A text is a sequence of bytes, one per `char`. */
module Tokens {

  /** `UNSET` is the empty token type of a token that was never read. */
  datatype TokenType =
    | UNSET | EOF | ILLEGAL | IDENT
    | COMMA | LBRACE | RBRACE | LPAREN | RPAREN | ASSIGN | SIGN | HASH | DOT | NEWLINE
    | ENTITY | RELATION | ACTION | NOT | AND | OR
    | SINGLE_LINE_COMMENT | MULTI_LINE_COMMENT | SPACE | TAB

  datatype Token = Token(typ: TokenType, literal: string)

  const NO_TOKEN := Token(UNSET, "")
  const END := Token(EOF, "")

  function LookupKeywords(ident: string): TokenType {
    if ident == "entity" then ENTITY
    else if ident == "relation" then RELATION
    else if ident == "action" then ACTION
    else if ident == "and" then AND
    else if ident == "or" then OR
    else if ident == "not" then NOT
    else IDENT
  }

  predicate IsIgnores(t: TokenType) {
    t == SINGLE_LINE_COMMENT || t == MULTI_LINE_COMMENT || t == SPACE || t == TAB
  }

  predicate IsLetter(c: char) {
    'a' <= c <= 'z' || 'A' <= c <= 'Z' || c == '_'
  }

  /** The token type of a byte that is a token by itself; NEWLINE also for ';' and a carriage return. */
  function Symbol(c: char): TokenType {
    match c
    case '\t' => TAB
    case ' ' => SPACE
    case '\n' => NEWLINE
    case '\r' => NEWLINE
    case ';' => NEWLINE
    case '=' => ASSIGN
    case '@' => SIGN
    case '(' => LPAREN
    case ')' => RPAREN
    case '{' => LBRACE
    case '}' => RBRACE
    case ',' => COMMA
    case '#' => HASH
    case '.' => DOT
    case _ => ILLEGAL
  }

  /** The literal of a one-byte token: the byte read as a code point, so two bytes from 0x80 on. */
  function ByteText(c: char): string {
    if c as int < 0x80 then [c]
    else [(0xC0 + c as int / 0x40) as char, (0x80 + c as int % 0x40) as char]
  }
}
