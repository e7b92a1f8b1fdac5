/** The parser object (pkg/dsl/parser/parser.go): a lexer, two tokens of lookahead and the reference maps, all updated
    in place. Every method is proved to compute what `Grammar` says about the tokens still to be read. */
module Parser {
  import opened Base
  import opened Tokens
  import opened Ast
  import L = Lexer
  import G = Grammar

  /** One token of a text, in front of the tokens of the rest. */
  lemma {:induction false} LexStep(s: string)
    ensures s == [] ==> L.LexAll(s) == []
    ensures s != [] ==>
              var (tok, n) := L.LexOne(s);
              if IsIgnores(tok.typ) then L.LexAll(s) == L.LexAll(s[n..])
              else tok == G.Cur(L.LexAll(s)) && L.LexAll(s[n..]) == G.Next(L.LexAll(s))
  {
    hide L.LexOne;
  }

  class Parser {
    const l: L.Lexer
    var currentToken: Token
    var peekToken: Token
    var entityReferences: set<string>
    var relationReferences: map<string, seq<TypeStatement>>
    var actionReferences: set<string>
    var relationalReferences: map<string, Reference>
    /** The tokens still to be read: the current one, the peek token, and those the lexer will give. */
    ghost var rest: seq<Token>

    ghost predicate Valid()
      reads this, l
    {
      && l.Valid()
      && currentToken == G.Cur(rest)
      && peekToken == G.Peek(rest)
      && G.Next(G.Next(rest)) == L.LexAll(l.Rest())
    }

    ghost function Refs(): G.References
      reads this
    {
      G.References(entityReferences, relationReferences, actionReferences, relationalReferences)
    }

    constructor (text: string)
      ensures Valid() && fresh(l) && rest == G.Stream(text) && Refs() == G.NO_REFERENCES
    {
      l := new L.Lexer(text);
      currentToken, peekToken := NO_TOKEN, NO_TOKEN;
      entityReferences, relationReferences, actionReferences, relationalReferences := {}, map[], {}, map[];
      rest := G.Stream(text);
    }

    // ---------------------------------------------------------------- tokens

    /** The loop of `next`: reads tokens until one is not ignored. */
    method ReadToken() returns (peek: Token)
      requires l.Valid()
      modifies l
      ensures l.Valid()
      ensures peek == G.Cur(L.LexAll(old(l.Rest()))) && L.LexAll(l.Rest()) == G.Next(L.LexAll(old(l.Rest())))
    {
      hide L.LexOne, L.LexAll;
      LexStep(l.Rest());
      peek := l.NextToken();
      while IsIgnores(peek.typ)
        invariant l.Valid()
        invariant if IsIgnores(peek.typ) then L.LexAll(l.Rest()) == L.LexAll(old(l.Rest()))
                  else peek == G.Cur(L.LexAll(old(l.Rest()))) && L.LexAll(l.Rest()) == G.Next(L.LexAll(old(l.Rest())))
        decreases |l.Rest()|, IsIgnores(peek.typ)
      {
        LexStep(l.Rest());
        peek := l.NextToken();
      }
    }

    method Next()
      requires Valid()
      modifies this`currentToken, this`peekToken, this`rest, l
      ensures Valid() && rest == G.Next(old(rest))
    {
      hide L.LexAll;
      var peek := ReadToken();
      currentToken := peekToken;
      peekToken := peek;
      rest := G.Next(rest);
    }

    /** `expectAndNext`: false is an error. */
    method ExpectAndNext(t: TokenType) returns (ok: bool)
      requires Valid()
      modifies this`currentToken, this`peekToken, this`rest, l
      ensures Valid() && ok == (G.Peek(old(rest)).typ == t)
      ensures rest == if ok then G.Next(old(rest)) else old(rest)
    {
      ok := peekToken.typ == t;
      if ok {
        Next();
      }
    }

    // ---------------------------------------------------------------- references

    method SetEntityReference(name: string) returns (ok: bool)
      modifies this`entityReferences
      ensures ok == G.AddEntity(old(Refs()), name).Some?
      ensures Refs() == if ok then G.AddEntity(old(Refs()), name).value else old(Refs())
    {
      if name in entityReferences {
        return false;
      }
      entityReferences := entityReferences + {name};
      return true;
    }

    method SetRelationReference(key: string, types: seq<TypeStatement>) returns (ok: bool)
      modifies this`relationReferences, this`relationalReferences
      ensures ok == G.AddRelation(old(Refs()), key, types).Some?
      ensures Refs() == if ok then G.AddRelation(old(Refs()), key, types).value else old(Refs())
    {
      if key in relationReferences {
        return false;
      }
      if key in relationalReferences {
        return false;
      }
      relationReferences := relationReferences[key := types];
      relationalReferences := relationalReferences[key := RelationReference];
      return true;
    }

    method SetActionReference(key: string) returns (ok: bool)
      modifies this`actionReferences, this`relationalReferences
      ensures ok == G.AddAction(old(Refs()), key).Some?
      ensures Refs() == if ok then G.AddAction(old(Refs()), key).value else old(Refs())
    {
      if key in actionReferences {
        return false;
      }
      if key in relationalReferences {
        return false;
      }
      actionReferences := actionReferences + {key};
      relationalReferences := relationalReferences[key := ActionReference];
      return true;
    }

    // ---------------------------------------------------------------- expressions

    /** The result and the remaining tokens are those of the specification. */
    ghost predicate Agrees(e: Option<Expression>, spec: G.Parsed)
      reads this
    {
      if e.None? then spec.None? else spec == Some((e.value, rest))
    }

    /** The loop over dots shared by `parseIdentifier` and `parsePrefixExpression`. */
    method ParseIdents(prefix: Token) returns (e: Expression)
      requires Valid()
      modifies this`currentToken, this`peekToken, this`rest, l
      ensures Valid()
      ensures e == Identifier(prefix, G.ParseIdents(old(rest), [G.Cur(old(rest))]).0)
      ensures rest == G.ParseIdents(old(rest), [G.Cur(old(rest))]).1
    {
      var idents := [currentToken];
      while peekToken.typ == DOT
        invariant Valid()
        invariant G.ParseIdents(rest, idents) == G.ParseIdents(old(rest), [G.Cur(old(rest))])
        decreases |rest|
      {
        Next();
        Next();
        idents := idents + [currentToken];
      }
      return Identifier(prefix, idents);
    }

    /** The prefix function of the current token, if it has one. */
    method ParsePrefix() returns (e: Option<Expression>)
      requires Valid()
      modifies this`currentToken, this`peekToken, this`rest, l
      ensures Valid() && Agrees(e, G.ParseLeaf(old(rest)))
    {
      if currentToken.typ == IDENT {
        var ident := ParseIdents(NO_TOKEN);
        return Some(ident);
      }
      if currentToken.typ == NOT {
        var prefix := currentToken;
        Next();
        var ident := ParseIdents(prefix);
        return Some(ident);
      }
      return None;
    }

    method ParseExpression(precedence: int) returns (e: Option<Expression>)
      requires Valid()
      modifies this`currentToken, this`peekToken, this`rest, l
      ensures Valid() && Agrees(e, G.ParseExpression(old(rest), precedence))
      decreases |rest|, 2
    {
      hide L.LexAll, G.ParseLeaf, G.ParseInnerParen;
      if currentToken.typ == LPAREN {
        Next();
        e := ParseInnerParen();
        return;
      }
      e := ParsePrefix();
      if e.None? {
        return;
      }
      var exp := e.value;
      while peekToken.typ != NEWLINE && precedence < G.Precedence(peekToken.typ)
        invariant Valid() && |rest| <= |old(rest)|
        invariant G.ParseExpression(old(rest), precedence) == G.ExpressionLoop(exp, rest, precedence)
        decreases |rest|
      {
        if !G.IsOperator(peekToken.typ) {
          return Some(exp);
        }
        var op := peekToken;
        Next();
        var right := ParseInfixOperand();
        if right.None? {
          return None;
        }
        exp := Infix(exp, op, right.value);
      }
      return Some(exp);
    }

    /** `parseInfixExpression` behind the operator, which is the current token. */
    method ParseInfixOperand() returns (right: Option<Expression>)
      requires Valid() && G.IsOperator(currentToken.typ)
      modifies this`currentToken, this`peekToken, this`rest, l
      ensures Valid() && Agrees(right, G.ParseExpression(G.Next(old(rest)), G.LOGIC))
      decreases |rest|, 0
    {
      var precedence := G.Precedence(currentToken.typ);
      Next();
      right := ParseExpression(precedence);
    }

    method ParseInnerParen() returns (e: Option<Expression>)
      requires Valid()
      modifies this`currentToken, this`peekToken, this`rest, l
      ensures Valid() && Agrees(e, G.ParseInnerParen(old(rest)))
      decreases |rest|, 3
    {
      hide L.LexAll, G.ParseLeaf, G.ParseExpression;
      if currentToken.typ == LPAREN {
        e := ParseExpression(G.LOWEST);
        return;
      }
      e := ParsePrefix();
      if e.None? {
        return;
      }
      var exp := e.value;
      while currentToken.typ != RPAREN
        invariant Valid() && |rest| <= |old(rest)|
        invariant G.ParseInnerParen(old(rest)) == G.InnerLoop(exp, rest)
        decreases |rest|
      {
        if peekToken.typ == RPAREN {
          Next();
        }
        if !G.IsOperator(peekToken.typ) {
          return Some(exp);
        }
        var op := peekToken;
        Next();
        var right := ParseInfixOperand();
        if right.None? {
          return None;
        }
        exp := Infix(exp, op, right.value);
      }
      return Some(exp);
    }

    method ParseExpressionStatement() returns (e: Option<Expression>)
      requires Valid()
      modifies this`currentToken, this`peekToken, this`rest, l
      ensures Valid() && Agrees(e, G.ParseExpressionStatement(old(rest)))
    {
      e := ParseExpression(G.LOWEST);
      if e.None? {
        return;
      }
      if peekToken.typ == RPAREN {
        Next();
        ghost var first := rest;
        while currentToken.typ == RPAREN
          invariant Valid()
          invariant G.SkipParens(first) == G.SkipParens(rest)
          decreases |rest|
        {
          Next();
        }
      }
    }

    // ---------------------------------------------------------------- statements

    method ParseRelationTypeStatement() returns (t: Option<TypeStatement>)
      requires Valid() && peekToken.typ == SIGN
      modifies this`currentToken, this`peekToken, this`rest, l
      ensures Valid()
      ensures if t.None? then G.ParseType(old(rest)).None? else G.ParseType(old(rest)) == Some((t.value, rest))
    {
      var ok := ExpectAndNext(SIGN);
      ok := ExpectAndNext(IDENT);
      if !ok {
        return None;
      }
      var typ := currentToken;
      if peekToken.typ != HASH {
        return Some(TypeStatement(typ, NO_TOKEN));
      }
      Next();
      ok := ExpectAndNext(IDENT);
      if !ok {
        return None;
      }
      return Some(TypeStatement(typ, currentToken));
    }

    /** The loop of `parseRelationStatement` over the types. */
    method ParseRelationTypes() returns (r: Option<seq<TypeStatement>>)
      requires Valid()
      modifies this`currentToken, this`peekToken, this`rest, l
      ensures Valid() && (r.Some? ==> |rest| <= |old(rest)|)
      ensures if r.None? then G.ParseTypes(old(rest), []).None?
              else G.ParseTypes(old(rest), []) == Some((r.value, rest))
    {
      hide L.LexAll, G.ParseType;
      var types := [];
      while peekToken.typ == SIGN
        invariant Valid() && |rest| <= |old(rest)|
        invariant G.ParseTypes(old(rest), []) == G.ParseTypes(rest, types)
        decreases |rest|
      {
        var t := ParseRelationTypeStatement();
        if t.None? {
          return None;
        }
        types := types + [t.value];
      }
      return Some(types);
    }

    method ParseRelationStatement(entityName: string) returns (r: Option<RelationStatement>)
      requires Valid()
      modifies this, l
      ensures Valid() && (r.Some? ==> |rest| <= |old(rest)|)
      ensures if r.None? then G.ParseRelation(old(rest), old(Refs()), entityName).None?
              else G.ParseRelation(old(rest), old(Refs()), entityName) == Some((r.value, rest, Refs()))
    {
      hide L.LexAll, G.AddRelation, G.ParseTypes, G.ParseType, G.Key;
      var ok := ExpectAndNext(IDENT);
      if !ok {
        return None;
      }
      var name := currentToken;
      if peekToken.typ != SIGN {
        return None;
      }
      var types := ParseRelationTypes();
      if types.None? {
        return None;
      }
      ok := SetRelationReference(G.Key(entityName, name.literal), types.value);
      return if ok then Some(RelationStatement(name, types.value)) else None;
    }

    method ParseActionStatement(entityName: string) returns (a: Option<ActionStatement>)
      requires Valid()
      modifies this, l
      ensures Valid() && (a.Some? ==> |rest| <= |old(rest)|)
      ensures if a.None? then G.ParseAction(old(rest), old(Refs()), entityName).None?
              else G.ParseAction(old(rest), old(Refs()), entityName) == Some((a.value, rest, Refs()))
    {
      hide L.LexAll, G.AddAction, G.ParseExpressionStatement;
      var ok := ExpectAndNext(IDENT);
      if !ok {
        return None;
      }
      var name := currentToken;
      ok := SetActionReference(G.Key(entityName, name.literal));
      if !ok {
        return None;
      }
      ok := ExpectAndNext(ASSIGN);
      if !ok {
        return None;
      }
      Next();
      var ex := ParseExpressionStatement();
      return if ex.Some? then Some(ActionStatement(name, ex.value)) else None;
    }

    method ParseEntityStatement() returns (e: Option<EntityStatement>)
      requires Valid()
      modifies this, l
      ensures Valid() && (e.Some? ==> |rest| <= |old(rest)|)
      ensures if e.None? then G.ParseEntity(old(rest), old(Refs())).None?
              else G.ParseEntity(old(rest), old(Refs())) == Some((e.value, rest, Refs()))
    {
      hide L.LexAll, G.ParseBody, G.AddEntity;
      var ok := ExpectAndNext(IDENT);
      if !ok {
        return None;
      }
      var name := currentToken;
      ok := SetEntityReference(name.literal);
      if !ok {
        return None;
      }
      ok := ExpectAndNext(LBRACE);
      if !ok {
        return None;
      }
      e := ParseEntityBody(EntityStatement(name, [], []));
    }

    /** The loop of `parseEntityStatement`, up to the closing brace. */
    method ParseEntityBody(e: EntityStatement) returns (r: Option<EntityStatement>)
      requires Valid()
      modifies this, l
      ensures Valid() && (r.Some? ==> |rest| <= |old(rest)|)
      ensures if r.None? then G.ParseBody(old(rest), old(Refs()), e).None?
              else G.ParseBody(old(rest), old(Refs()), e) == Some((r.value, rest, Refs()))
    {
      hide L.LexAll, G.ParseRelation, G.ParseAction;
      var stmt := e;
      while currentToken.typ != RBRACE
        invariant Valid() && |rest| <= |old(rest)|
        invariant G.ParseBody(old(rest), old(Refs()), e) == G.ParseBody(rest, Refs(), stmt)
        decreases |rest|
      {
        if currentToken.typ == EOF {
          return None;
        }
        if currentToken.typ == RELATION {
          var relation := ParseRelationStatement(stmt.name.literal);
          if relation.None? {
            return None;
          }
          stmt := stmt.(relations := stmt.relations + [relation.value]);
        } else if currentToken.typ == ACTION {
          var action := ParseActionStatement(stmt.name.literal);
          if action.None? {
            return None;
          }
          stmt := stmt.(actions := stmt.actions + [action.value]);
        } else if currentToken.typ != NEWLINE && currentToken.typ != LBRACE {
          return None;
        }
        Next();
      }
      return Some(stmt);
    }

    /** `Parse` on a fresh parser. */
    method Parse() returns (s: Option<G.Schema>)
      requires Valid()
      modifies this, l
      ensures s == G.ParseStatements(old(rest), old(Refs()), [])
    {
      hide L.LexAll, G.ParseEntity;
      var statements := [];
      while currentToken.typ != EOF
        invariant Valid()
        invariant G.ParseStatements(old(rest), old(Refs()), []) == G.ParseStatements(rest, Refs(), statements)
        decreases |rest|
      {
        if currentToken.typ == ENTITY {
          var stmt := ParseEntityStatement();
          if stmt.None? {
            return None;
          }
          statements := statements + [stmt.value];
        }
        Next();
      }
      return Some(G.Schema(statements,
        G.References(entityReferences, relationReferences, actionReferences, relationalReferences)));
    }
  }

  /** `NewParser(text).Parse()`: on every text the parser ends, and with the specified result. */
  method ParseText(text: string) returns (s: Option<G.Schema>)
    ensures s == G.ParseText(text)
  {
    var p := new Parser(text);
    s := p.Parse();
  }
}
