/** The shape invariant of the parser: it does not match parentheses, so only certain trees come out of it. */
module TreeShape {
  import opened Tokens
  import opened Ast
  import opened Lexer
  import opened Grammar

  predicate IsWord(s: string) {
    s != "" && forall i :: 0 <= i < |s| ==> IsLetter(s[i])
  }

  /** A name the lexer reads as an identifier. */
  predicate IsName(s: string) {
    IsWord(s) && LookupKeywords(s) == IDENT
  }

  /** A token as it comes out of the lexer: type and literal fit together. */
  ghost predicate Lexed(t: Token) {
    match t.typ
    case UNSET => t.literal == ""
    case EOF => t.literal == ""
    case IDENT => IsName(t.literal)
    case ENTITY => t.literal == "entity"
    case RELATION => t.literal == "relation"
    case ACTION => t.literal == "action"
    case NOT => t.literal == "not"
    case AND => t.literal == "and"
    case OR => t.literal == "or"
    case DOT => t.literal == "."
    case SIGN => t.literal == "@"
    case HASH => t.literal == "#"
    case ASSIGN => t.literal == "="
    case RBRACE => t.literal == "}"
    case _ => !IsIgnores(t.typ) && t.literal != "" && !IsLetter(t.literal[0])
  }

  ghost predicate AllLexed(ts: seq<Token>) {
    forall i :: 0 <= i < |ts| ==> Lexed(ts[i])
  }

  lemma {:induction false} LexAllIsLexed(s: string)
    ensures AllLexed(LexAll(s))
    decreases |s|
  {
    if s != [] {
      var (tok, n) := LexOne(s);
      if IsLetter(s[0]) {
        assert IsWord(s[..n]);
      }
      assert IsIgnores(tok.typ) || Lexed(tok);
      LexAllIsLexed(s[n..]);
    }
  }

  /** Only an identifier token has the literal of an identifier. */
  lemma {:induction false} NameMeansIdent(t: Token)
    requires Lexed(t) && IsName(t.literal)
    ensures t.typ == IDENT
  {
    assert IsLetter(t.literal[0]);
  }

  // ---------------------------------------------------------------- trees

  /** The tokens of the tree stand where the parser puts them. */
  ghost predicate TokensFit(e: Expression) {
    match e
    case Identifier(prefix, idents) =>
      && idents != [] && AllLexed(idents)
      && (prefix == NO_TOKEN || prefix == Token(NOT, "not"))
    case Infix(left, op, right) =>
      TokensFit(left) && TokensFit(right) && IsOperator(op.typ) && Lexed(op)
  }

  /** Every leaf is made of identifier tokens. */
  predicate NamedLeaves(e: Expression) {
    match e
    case Identifier(_, idents) => forall i :: 0 <= i < |idents| ==> idents[i].typ == IDENT
    case Infix(left, _, right) => NamedLeaves(left) && NamedLeaves(right)
  }

  /** A left-leaning chain whose right operands are all leaves. */
  predicate IsChain(e: Expression) {
    e.Identifier? || (IsChain(e.left) && e.right.Identifier?)
  }

  /** Along the right spine, every left operand is a chain. */
  predicate WellShaped(e: Expression) {
    e.Identifier? || (IsChain(e.left) && WellShaped(e.right))
  }

  lemma {:induction false} ChainIsWellShaped(e: Expression)
    requires IsChain(e)
    ensures WellShaped(e)
  {
  }

  /** Where `parseInnerParen` stops: the next token is no operator, and no parenthesis that it should have taken. */
  predicate Stopped(ts: seq<Token>) {
    !IsOperator(Peek(ts).typ) && (Cur(ts).typ == RPAREN || Peek(ts).typ != RPAREN)
  }

  /** The state of a loop that has built `e`: still a chain, ending in an identifier, or finished. */
  ghost predicate LoopState(e: Expression, ts: seq<Token>) {
    NamedLeaves(e) ==> (IsChain(e) && Cur(ts).typ == IDENT) || (WellShaped(e) && Stopped(ts))
  }

  lemma {:induction false} IdentsShape(ts: seq<Token>, idents: seq<Token>)
    requires AllLexed(ts) && AllLexed(idents) && idents != [] && idents[|idents| - 1] == Cur(ts)
    ensures var (out, rest) := ParseIdents(ts, idents);
            && AllLexed(out) && AllLexed(rest) && out != [] && out[|out| - 1] == Cur(rest)
    decreases |ts|
  {
    if Peek(ts).typ == DOT {
      IdentsShape(Next(Next(ts)), idents + [Cur(Next(Next(ts)))]);
    }
  }

  lemma {:induction false} LeafShape(ts: seq<Token>)
    requires AllLexed(ts) && ParseLeaf(ts).Some?
    ensures var (e, rest) := ParseLeaf(ts).value;
            && e.Identifier? && TokensFit(e) && AllLexed(rest) && (NamedLeaves(e) ==> Cur(rest).typ == IDENT)
  {
    if Cur(ts).typ == IDENT {
      IdentsShape(ts, [Cur(ts)]);
    } else {
      IdentsShape(Next(ts), [Cur(Next(ts))]);
    }
  }

  lemma {:induction false} ExpressionShape(ts: seq<Token>, precedence: int)
    requires AllLexed(ts) && ParseExpression(ts, precedence).Some? && LOWEST <= precedence <= LOGIC
    ensures var (e, rest) := ParseExpression(ts, precedence).value;
            && TokensFit(e) && AllLexed(rest)
            && (NamedLeaves(e) ==> WellShaped(e))
            && (NamedLeaves(e) && Cur(ts).typ == LPAREN ==> Stopped(rest))
            && (NamedLeaves(e) && Cur(ts).typ != LPAREN && precedence == LOGIC ==>
                  e.Identifier? && Cur(rest).typ == IDENT)
    decreases |ts|, 2
  {
    if Cur(ts).typ == LPAREN {
      InnerParenShape(Next(ts));
    } else {
      LeafShape(ts);
      var (e, rest) := ParseLeaf(ts).value;
      if IsChain(e) {
        ChainIsWellShaped(e);
      }
      if precedence == LOWEST {
        ExpressionLoopShape(e, rest);
      }
    }
  }

  lemma {:induction false} ExpressionLoopShape(e: Expression, ts: seq<Token>)
    requires AllLexed(ts) && TokensFit(e) && LoopState(e, ts) && ExpressionLoop(e, ts, LOWEST).Some?
    ensures var (out, rest) := ExpressionLoop(e, ts, LOWEST).value;
            TokensFit(out) && AllLexed(rest) && (NamedLeaves(out) ==> WellShaped(out))
    decreases |ts|, 1
  {
    if IsChain(e) {
      ChainIsWellShaped(e);
    }
    if IsOperator(Peek(ts).typ) {
      ExpressionShape(Next(Next(ts)), LOGIC);
      var (right, rest) := ParseExpression(Next(Next(ts)), LOGIC).value;
      var more := Infix(e, Peek(ts), right);
      assert TokensFit(more) && LoopState(more, rest);
      ExpressionLoopShape(more, rest);
    }
  }

  /** After `(`: the tree is well shaped and the parser stands in front of a token that is no operator. */
  lemma {:induction false} InnerParenShape(ts: seq<Token>)
    requires AllLexed(ts) && ParseInnerParen(ts).Some?
    ensures var (e, rest) := ParseInnerParen(ts).value;
            && TokensFit(e) && AllLexed(rest) && (NamedLeaves(e) ==> WellShaped(e) && Stopped(rest))
    decreases |ts|, 3
  {
    if Cur(ts).typ == LPAREN {
      ExpressionShape(ts, LOWEST);
    } else {
      LeafShape(ts);
      var (e, rest) := ParseLeaf(ts).value;
      InnerLoopShape(e, rest);
    }
  }

  lemma {:induction false} InnerLoopShape(e: Expression, ts: seq<Token>)
    requires AllLexed(ts) && TokensFit(e) && LoopState(e, ts) && InnerLoop(e, ts).Some?
    ensures var (out, rest) := InnerLoop(e, ts).value;
            && TokensFit(out) && AllLexed(rest) && (NamedLeaves(out) ==> WellShaped(out) && Stopped(rest))
    decreases |ts|, 1
  {
    if IsChain(e) {
      ChainIsWellShaped(e);
    }
    if Cur(ts).typ != RPAREN {
      var us := if Peek(ts).typ == RPAREN then Next(ts) else ts;
      if IsOperator(Peek(us).typ) {
        ExpressionShape(Next(Next(us)), LOGIC);
        var (right, rest) := ParseExpression(Next(Next(us)), LOGIC).value;
        InnerLoopShape(Infix(e, Peek(us), right), rest);
      }
    }
  }

  /** An expression the parser accepts with identifier leaves only is well shaped. */
  lemma {:induction false} AcceptedExpressionIsWellShaped(ts: seq<Token>)
    requires AllLexed(ts) && ParseExpressionStatement(ts).Some?
    ensures var (e, rest) := ParseExpressionStatement(ts).value;
            && TokensFit(e) && AllLexed(rest) && (NamedLeaves(e) ==> WellShaped(e))
  {
    ExpressionShape(ts, LOWEST);
    var (e, rest) := ParseExpression(ts, LOWEST).value;
    SkipParensLexed(Next(rest));
  }

  lemma {:induction false} SkipParensLexed(ts: seq<Token>)
    requires AllLexed(ts)
    ensures AllLexed(SkipParens(ts))
  {
    if Cur(ts).typ == RPAREN {
      SkipParensLexed(Next(ts));
    }
  }
}
