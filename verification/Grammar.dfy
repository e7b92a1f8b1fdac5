/** What the parser (pkg/dsl/parser/parser.go) computes, by recursion on the tokens still to be read: the first is
    the current token, the second the peek token, and behind the last there are only EOF tokens. An error of the
    parser is `None`; its text is left out. */
module Grammar {
  import opened Base
  import opened Fields
  import opened Tokens
  import opened Ast
  import opened Lexer

  function Cur(ts: seq<Token>): Token {
    if ts == [] then END else ts[0]
  }

  function Peek(ts: seq<Token>): Token {
    if |ts| < 2 then END else ts[1]
  }

  function Next(ts: seq<Token>): seq<Token> {
    if ts == [] then [] else ts[1..]
  }

  // ---------------------------------------------------------------- references

  datatype References = References(
    entities: set<string>,
    relations: map<string, seq<TypeStatement>>,
    actions: set<string>,
    relational: map<string, Reference>)

  const NO_REFERENCES := References({}, map[], {}, map[])

  function Key(entity: string, name: string): string {
    Field(entity, '#', name)
  }

  function AddEntity(refs: References, name: string): Option<References> {
    if name in refs.entities then None else Some(refs.(entities := refs.entities + {name}))
  }

  function AddRelation(refs: References, key: string, types: seq<TypeStatement>): Option<References> {
    if key in refs.relations || key in refs.relational then None
    else Some(refs.(relations := refs.relations[key := types],
                    relational := refs.relational[key := RelationReference]))
  }

  function AddAction(refs: References, key: string): Option<References> {
    if key in refs.actions || key in refs.relational then None
    else Some(refs.(actions := refs.actions + {key},
                    relational := refs.relational[key := ActionReference]))
  }

  // ---------------------------------------------------------------- expressions

  const LOWEST := 1
  const LOGIC := 2

  predicate IsOperator(t: TokenType) {
    t == AND || t == OR
  }

  function Precedence(t: TokenType): int {
    if IsOperator(t) then LOGIC else LOWEST
  }

  type Parsed = Option<(Expression, seq<Token>)>

  /** The loop over `.` behind an identifier; the token behind a dot is taken whatever it is. */
  function ParseIdents(ts: seq<Token>, idents: seq<Token>): (r: (seq<Token>, seq<Token>))
    ensures |r.1| <= |ts|
    decreases |ts|
  {
    if Peek(ts).typ == DOT then ParseIdents(Next(Next(ts)), idents + [Cur(Next(Next(ts)))])
    else (idents, ts)
  }

  /** `parseIdentifier` and `parsePrefixExpression`; any other token has no prefix function. */
  function ParseLeaf(ts: seq<Token>): (r: Parsed)
    ensures r.Some? ==> |r.value.1| <= |ts|
  {
    if Cur(ts).typ == IDENT then
      var (idents, rest) := ParseIdents(ts, [Cur(ts)]);
      Some((Identifier(NO_TOKEN, idents), rest))
    else if Cur(ts).typ == NOT then
      var (idents, rest) := ParseIdents(Next(ts), [Cur(Next(ts))]);
      Some((Identifier(Cur(ts), idents), rest))
    else None
  }

  function ParseExpression(ts: seq<Token>, precedence: int): (r: Parsed)
    ensures r.Some? ==> |r.value.1| <= |ts|
    decreases |ts|, 2
  {
    if Cur(ts).typ == LPAREN then ParseInnerParen(Next(ts))
    else
      match ParseLeaf(ts)
      case None => None
      case Some((e, rest)) => ExpressionLoop(e, rest, precedence)
  }

  function ExpressionLoop(e: Expression, ts: seq<Token>, precedence: int): (r: Parsed)
    ensures r.Some? ==> |r.value.1| <= |ts|
    decreases |ts|, 1
  {
    if Peek(ts).typ != NEWLINE && precedence < Precedence(Peek(ts).typ) && IsOperator(Peek(ts).typ) then
      match ParseExpression(Next(Next(ts)), LOGIC)
      case None => None
      case Some((right, rest)) => ExpressionLoop(Infix(e, Peek(ts), right), rest, precedence)
    else Some((e, ts))
  }

  function ParseInnerParen(ts: seq<Token>): (r: Parsed)
    ensures r.Some? ==> |r.value.1| <= |ts|
    decreases |ts|, 3
  {
    if Cur(ts).typ == LPAREN then ParseExpression(ts, LOWEST)
    else
      match ParseLeaf(ts)
      case None => None
      case Some((e, rest)) => InnerLoop(e, rest)
  }

  /** The loop of `parseInnerParen`: it steps over one closing parenthesis and goes on with an operator. */
  function InnerLoop(e: Expression, ts: seq<Token>): (r: Parsed)
    ensures r.Some? ==> |r.value.1| <= |ts|
    decreases |ts|, 1
  {
    if Cur(ts).typ == RPAREN then Some((e, ts))
    else
      var us := if Peek(ts).typ == RPAREN then Next(ts) else ts;
      if !IsOperator(Peek(us).typ) then Some((e, us))
      else
        match ParseExpression(Next(Next(us)), LOGIC)
        case None => None
        case Some((right, rest)) => InnerLoop(Infix(e, Peek(us), right), rest)
  }

  // ---------------------------------------------------------------- statements

  function ParseTypes(ts: seq<Token>, types: seq<TypeStatement>): (r: Option<(seq<TypeStatement>, seq<Token>)>)
    ensures r.Some? ==> |r.value.1| <= |ts|
    decreases |ts|
  {
    if Peek(ts).typ != SIGN then Some((types, ts))
    else
      match ParseType(ts)
      case None => None
      case Some((t, rest)) => ParseTypes(rest, types + [t])
  }

  /** `@ IDENT` or `@ IDENT # IDENT`, with `@` as the peek token. */
  function ParseType(ts: seq<Token>): (r: Option<(TypeStatement, seq<Token>)>)
    requires Peek(ts).typ == SIGN
    ensures r.Some? ==> |r.value.1| < |ts|
  {
    var ts1 := Next(ts);
    if Peek(ts1).typ != IDENT then None
    else
      var ts2 := Next(ts1);
      if Peek(ts2).typ != HASH then Some((TypeStatement(Cur(ts2), NO_TOKEN), ts2))
      else
        var ts3 := Next(ts2);
        if Peek(ts3).typ != IDENT then None
        else Some((TypeStatement(Cur(ts2), Peek(ts3)), Next(ts3)))
  }

  function ParseRelation(ts: seq<Token>, refs: References,
                         entity: string): (r: Option<(RelationStatement, seq<Token>, References)>)
    ensures r.Some? ==> |r.value.1| <= |ts|
  {
    if Peek(ts).typ != IDENT then None
    else
      var name := Peek(ts);
      if Peek(Next(ts)).typ != SIGN then None
      else
        match ParseTypes(Next(ts), [])
        case None => None
        case Some((types, rest)) =>
          match AddRelation(refs, Key(entity, name.literal), types)
          case None => None
          case Some(refs') => Some((RelationStatement(name, types), rest, refs'))
  }

  function SkipParens(ts: seq<Token>): (r: seq<Token>)
    ensures |r| <= |ts|
  {
    if Cur(ts).typ == RPAREN then SkipParens(Next(ts)) else ts
  }

  /** `parseExpressionStatement`: closing parentheses left behind the expression are stepped over. */
  function ParseExpressionStatement(ts: seq<Token>): (r: Parsed)
    ensures r.Some? ==> |r.value.1| <= |ts|
  {
    match ParseExpression(ts, LOWEST)
    case None => None
    case Some((e, rest)) => Some((e, if Peek(rest).typ == RPAREN then SkipParens(Next(rest)) else rest))
  }

  function ParseAction(ts: seq<Token>, refs: References,
                       entity: string): (r: Option<(ActionStatement, seq<Token>, References)>)
    ensures r.Some? ==> |r.value.1| <= |ts|
  {
    if Peek(ts).typ != IDENT then None
    else
      var name := Peek(ts);
      match AddAction(refs, Key(entity, name.literal))
      case None => None
      case Some(refs') =>
        if Peek(Next(ts)).typ != ASSIGN then None
        else
          match ParseExpressionStatement(Next(Next(Next(ts))))
          case None => None
          case Some((e, rest)) => Some((ActionStatement(name, e), rest, refs'))
  }

  /** The loop of `parseEntityStatement` over the body; `e` holds the statements read so far. */
  function ParseBody(ts: seq<Token>, refs: References,
                     e: EntityStatement): (r: Option<(EntityStatement, seq<Token>, References)>)
    ensures r.Some? ==> |r.value.1| <= |ts|
    decreases |ts|
  {
    if Cur(ts).typ == RBRACE then Some((e, ts, refs))
    else if Cur(ts).typ == EOF then None
    else if Cur(ts).typ == RELATION then
      match ParseRelation(ts, refs, e.name.literal)
      case None => None
      case Some((rel, rest, refs')) => ParseBody(Next(rest), refs', e.(relations := e.relations + [rel]))
    else if Cur(ts).typ == ACTION then
      match ParseAction(ts, refs, e.name.literal)
      case None => None
      case Some((act, rest, refs')) => ParseBody(Next(rest), refs', e.(actions := e.actions + [act]))
    else if Cur(ts).typ == NEWLINE || Cur(ts).typ == LBRACE then ParseBody(Next(ts), refs, e)
    else None
  }

  function ParseEntity(ts: seq<Token>, refs: References): (r: Option<(EntityStatement, seq<Token>, References)>)
    ensures r.Some? ==> |r.value.1| <= |ts|
  {
    if Peek(ts).typ != IDENT then None
    else
      var name := Peek(ts);
      match AddEntity(refs, name.literal)
      case None => None
      case Some(refs') =>
        if Peek(Next(ts)).typ != LBRACE then None
        else ParseBody(Next(Next(ts)), refs', EntityStatement(name, [], []))
  }

  datatype Schema = Schema(statements: seq<EntityStatement>, refs: References)

  /** The loop of `Parse`: tokens outside entity statements are skipped. */
  function ParseStatements(ts: seq<Token>, refs: References, es: seq<EntityStatement>): Option<Schema>
    decreases |ts|
  {
    if Cur(ts).typ == EOF then Some(Schema(es, refs))
    else if Cur(ts).typ == ENTITY then
      match ParseEntity(ts, refs)
      case None => None
      case Some((e, rest, refs')) => ParseStatements(Next(rest), refs', es + [e])
    else ParseStatements(Next(ts), refs, es)
  }

  /** A new parser holds two unset tokens before it reads the first one. */
  function Stream(text: string): seq<Token> {
    [NO_TOKEN, NO_TOKEN] + LexAll(text)
  }

  function ParseText(text: string): Option<Schema> {
    ParseStatements(Stream(text), NO_REFERENCES, [])
  }
}
