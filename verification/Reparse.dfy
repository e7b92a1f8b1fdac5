/** Parsing the tokens of a printed expression gives the expression back. The parser drops opening parentheses and
    steps over closing ones without matching them, so this rests on the shape of the tree. */
module Reparse {
  import opened Base
  import opened Tokens
  import opened Ast
  import opened Grammar
  import opened TreeShape
  import opened Printed

  const CLOSE := Token(RPAREN, ")")

  /** What may follow an expression: no dot, no operator. */
  predicate Ends(rest: seq<Token>) {
    rest != [] && rest[0].typ != DOT && !IsOperator(rest[0].typ)
  }

  lemma {:induction false} ParsePrintedIdents(acc: seq<Token>, idents: seq<Token>, rest: seq<Token>)
    requires idents != [] && rest != [] && rest[0].typ != DOT
    ensures ParseIdents(IdentsTokens(idents, rest), acc + [idents[0]]) == (acc + idents, [idents[|idents| - 1]] + rest)
    decreases |idents|
  {
    var ts := IdentsTokens(idents, rest);
    if |idents| == 1 {
      assert acc + [idents[0]] == acc + idents;
    } else {
      var more := IdentsTokens(idents[1..], rest);
      assert ts == [idents[0], Sym('.')] + more;
      assert Next(Next(ts)) == more;
      assert Cur(more) == idents[1];
      ParsePrintedIdents(acc + [idents[0]], idents[1..], rest);
      assert acc + [idents[0]] + idents[1..] == acc + idents;
    }
  }

  /** The last identifier of a leaf. */
  function Last(e: Expression): Token {
    if e.Identifier? && e.idents != [] then e.idents[|e.idents| - 1] else NO_TOKEN
  }

  lemma {:induction false} ParsePrintedLeaf(e: Expression, rest: seq<Token>)
    requires GoodExpression(e) && e.Identifier? && rest != [] && rest[0].typ != DOT
    ensures ParseLeaf(ExpressionTokens(e, rest)) == Some((e, [Last(e)] + rest))
    ensures Cur(ExpressionTokens(e, rest)).typ != LPAREN
  {
    var ts := IdentsTokens(e.idents, rest);
    assert Cur(ts) == e.idents[0];
    ParsePrintedIdents([], e.idents, rest);
    assert [] + e.idents == e.idents && [] + [e.idents[0]] == [e.idents[0]];
    if e.prefix != NO_TOKEN {
      assert Next(ExpressionTokens(e, rest)) == ts;
    }
  }

  /** The tokens in front of which `parseInnerParen` stands when it has read a chain. */
  function Entered(e: Expression, rest: seq<Token>): seq<Token> {
    if e.Identifier? then [Last(e)] + rest else [Last(e.right), CLOSE] + rest
  }

  function LoopWith(left: Expression, op: Token, right: Parsed): Parsed {
    if right.None? then None else InnerLoop(Infix(left, op, right.value.0), right.value.1)
  }

  /** The loop of `parseInnerParen` goes on to the operator ahead, over one closing parenthesis if there is one. */
  lemma {:induction false} LoopAtOperator(left: Expression, last: Token, op: Token, tail: seq<Token>)
    requires last.typ == IDENT && IsOperator(op.typ)
    ensures InnerLoop(left, [last] + ([op] + tail)) == LoopWith(left, op, ParseExpression(tail, LOGIC))
    ensures InnerLoop(left, [last, CLOSE] + ([op] + tail)) == LoopWith(left, op, ParseExpression(tail, LOGIC))
  {
    hide ParseExpression;
    var ts := [last] + ([op] + tail);
    assert Cur(ts) == last && Peek(ts) == op && Next(Next(ts)) == tail;
    var us := [last, CLOSE] + ([op] + tail);
    assert Cur(us) == last && Peek(us) == CLOSE && Next(us) == [CLOSE] + ([op] + tail);
    assert Peek(Next(us)) == op && Next(Next(Next(us))) == tail;
  }

  lemma {:induction false} LoopTakesOperator(left: Expression, op: Token, tail: seq<Token>)
    requires GoodExpression(left) && IsChain(left) && IsOperator(op.typ)
    ensures InnerLoop(left, Entered(left, [op] + tail)) == LoopWith(left, op, ParseExpression(tail, LOGIC))
  {
    hide ParseExpression, InnerLoop;
    var leaf := if left.Identifier? then left else left.right;
    assert GoodExpression(leaf) && Last(leaf).typ == IDENT;
    LoopAtOperator(left, Last(leaf), op, tail);
  }

  lemma {:induction false} RightLeaf(right: Expression, rest: seq<Token>)
    requires GoodExpression(right) && right.Identifier? && rest != [] && rest[0].typ != DOT
    ensures ParseExpression(ExpressionTokens(right, rest), LOGIC) == Some((right, [Last(right)] + rest))
  {
    hide ExpressionTokens, ParseLeaf;
    ParsePrintedLeaf(right, rest);
  }

  lemma {:induction false} EnterLeaf(e: Expression, rest: seq<Token>)
    requires GoodExpression(e) && e.Identifier? && rest != [] && rest[0].typ != DOT
    ensures ParseInnerParen(ExpressionTokens(e, rest)) == InnerLoop(e, [Last(e)] + rest)
  {
    hide ExpressionTokens, ParseLeaf, InnerLoop;
    ParsePrintedLeaf(e, rest);
  }

  /** A printed chain is read by `parseInnerParen`, whatever follows. */
  lemma {:induction false} EnterChain(e: Expression, rest: seq<Token>)
    requires GoodExpression(e) && IsChain(e) && rest != [] && rest[0].typ != DOT
    ensures ParseInnerParen(ExpressionTokens(e, rest)) == InnerLoop(e, Entered(e, rest))
    decreases e
  {
    hide ExpressionTokens, ParseExpression, ParseInnerParen, InnerLoop;
    if e.Identifier? {
      EnterLeaf(e, rest);
    } else {
      EnterInfix(e, rest);
      var tail := [CLOSE] + rest;
      EnterChain(e.left, [e.op] + ExpressionTokens(e.right, tail));
      LoopTakesOperator(e.left, e.op, ExpressionTokens(e.right, tail));
      RightLeaf(e.right, tail);
      assert [Last(e.right)] + tail == [Last(e.right), CLOSE] + rest;
    }
  }

  /** The opening parenthesis of a printed infix expression is dropped. */
  lemma {:induction false} EnterInfix(e: Expression, rest: seq<Token>)
    requires e.Infix?
    ensures var inner := ExpressionTokens(e.left, [e.op] + ExpressionTokens(e.right, [CLOSE] + rest));
            && (forall p :: ParseExpression(ExpressionTokens(e, rest), p) == ParseInnerParen(inner))
            && ParseInnerParen(ExpressionTokens(e, rest)) == ParseInnerParen(inner)
  {
    var inner := ExpressionTokens(e.left, [e.op] + ExpressionTokens(e.right, [CLOSE] + rest));
    assert ExpressionTokens(e, rest) == [Sym('(')] + inner;
    assert Next(ExpressionTokens(e, rest)) == inner;
  }

  /** Closing parentheses the parser leaves behind: one for each parenthesised right operand. */
  function Pending(e: Expression): nat {
    if e.Identifier? || e.right.Identifier? then 0 else 1 + Pending(e.right)
  }

  function Closes(n: nat, rest: seq<Token>): seq<Token> {
    if n == 0 then rest else [CLOSE] + Closes(n - 1, rest)
  }

  lemma {:induction false} ClosesAtEnd(n: nat, rest: seq<Token>)
    ensures Closes(n, [CLOSE] + rest) == Closes(n + 1, rest)
  {
    if n > 0 {
      ClosesAtEnd(n - 1, rest);
    }
  }

  /** A printed infix expression is read back; the parser stops on its first unconsumed closing parenthesis. */
  lemma {:induction false} ParsePrintedInfix(e: Expression, rest: seq<Token>, precedence: int)
    requires GoodExpression(e) && WellShaped(e) && e.Infix? && Ends(rest)
    ensures ParseExpression(ExpressionTokens(e, rest), precedence) == Some((e, [CLOSE] + Closes(Pending(e), rest)))
    decreases e
  {
    hide ExpressionTokens, ParseExpression, ParseInnerParen;
    var tail := [CLOSE] + rest;
    EnterInfix(e, rest);
    EnterChain(e.left, [e.op] + ExpressionTokens(e.right, tail));
    LoopTakesOperator(e.left, e.op, ExpressionTokens(e.right, tail));
    if e.right.Identifier? {
      RightLeaf(e.right, tail);
      LoopEnds(e, Last(e.right), rest);
    } else {
      ParsePrintedInfix(e.right, tail, LOGIC);
      ClosesAtEnd(Pending(e.right), rest);
      var more := [CLOSE] + Closes(Pending(e.right), tail);
      assert Cur(more) == CLOSE;
      assert InnerLoop(e, more) == Some((e, more));
    }
  }

  lemma {:induction false} LoopEnds(e: Expression, last: Token, rest: seq<Token>)
    requires last.typ == IDENT && Ends(rest)
    ensures InnerLoop(e, [last] + ([CLOSE] + rest)) == Some((e, [CLOSE] + rest))
  {
    var ts := [last] + ([CLOSE] + rest);
    assert Cur(ts) == last && Peek(ts) == CLOSE && Next(ts) == [CLOSE] + rest;
    assert Peek(Next(ts)) == rest[0];
  }

  lemma {:induction false} SkipCloses(n: nat, rest: seq<Token>)
    requires rest != [] && rest[0].typ != RPAREN
    ensures SkipParens(Closes(n, rest)) == rest
  {
    if n > 0 {
      assert Next(Closes(n, rest)) == Closes(n - 1, rest);
      SkipCloses(n - 1, rest);
    }
  }

  /** In front of a line break the whole expression statement is read back, and the parser stands on the line break
      or on the token before it. */
  lemma {:induction false} ParsePrintedStatement(e: Expression, rest: seq<Token>)
    requires GoodExpression(e) && WellShaped(e) && rest != [] && rest[0].typ == NEWLINE
    ensures var r := ParseExpressionStatement(ExpressionTokens(e, rest));
            r.Some? && r.value.0 == e && (r.value.1 == rest || Next(r.value.1) == rest)
  {
    hide ExpressionTokens, ParseExpression;
    if e.Identifier? {
      LeafBeforeLineBreak(e, rest);
      assert Peek([Last(e)] + rest) == rest[0];
      assert Next([Last(e)] + rest) == rest;
    } else {
      ParsePrintedInfix(e, rest, LOWEST);
      var more := [CLOSE] + Closes(Pending(e), rest);
      assert Next(more) == Closes(Pending(e), rest);
      if Pending(e) > 0 {
        assert Peek(more) == CLOSE;
        SkipCloses(Pending(e), rest);
      }
    }
  }

  lemma {:induction false} LeafBeforeLineBreak(e: Expression, rest: seq<Token>)
    requires GoodExpression(e) && e.Identifier? && rest != [] && rest[0].typ == NEWLINE
    ensures ParseExpression(ExpressionTokens(e, rest), LOWEST) == Some((e, [Last(e)] + rest))
  {
    hide ExpressionTokens, ParseLeaf;
    ParsePrintedLeaf(e, rest);
    assert Peek([Last(e)] + rest) == rest[0];
  }
}
