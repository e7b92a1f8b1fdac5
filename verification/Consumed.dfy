/** What an expression is read from: the tokens of the tree, from left to right, are those the parser has consumed, and
    of the parentheses only some of the opening ones matter. */
module Consumed {
  import opened Tokens
  import opened Ast
  import opened Grammar
  import opened TreeShape

  const DOT_TOKEN := Token(DOT, ".")
  const OPEN := Token(LPAREN, "(")

  // ---------------------------------------------------------------- moving on

  /** Reading the tokens `tail` behind the current one, one after the other, leads from `ts` to `rest`. */
  ghost predicate Goes(ts: seq<Token>, tail: seq<Token>, rest: seq<Token>) {
    if tail == [] then rest == ts else tail[0] == Cur(Next(ts)) && Goes(Next(ts), tail[1..], rest)
  }

  lemma {:induction false} GoesOn(a: seq<Token>, s: seq<Token>, b: seq<Token>, t: seq<Token>, c: seq<Token>)
    requires Goes(a, s, b) && Goes(b, t, c)
    ensures Goes(a, s + t, c)
  {
    if s == [] {
      assert s + t == t;
    } else {
      assert (s + t)[1..] == s[1..] + t;
      GoesOn(Next(a), s[1..], b, t, c);
    }
  }

  lemma {:induction false} GoesOne(ts: seq<Token>)
    ensures Goes(ts, [Cur(Next(ts))], Next(ts))
  {
    assert [Cur(Next(ts))][1..] == [];
  }

  // ---------------------------------------------------------------- the tokens of a tree

  function Dotted(idents: seq<Token>): seq<Token> {
    if |idents| <= 1 then idents else Dotted(idents[..|idents| - 1]) + [DOT_TOKEN, idents[|idents| - 1]]
  }

  function LeafTokens(e: Expression): seq<Token>
    requires e.Identifier?
  {
    (if e.prefix == NO_TOKEN then [] else [e.prefix]) + Dotted(e.idents)
  }

  /** From left to right: the `not` of a leaf, its identifiers with the dots between them, and the operators. */
  function Flat(e: Expression): seq<Token> {
    match e
    case Identifier(_, _) => LeafTokens(e)
    case Infix(left, op, right) => Flat(left) + [op] + Flat(right)
  }

  /** The same, with an opening parenthesis in front of every right operand that is no leaf. */
  function Marked(e: Expression): seq<Token> {
    match e
    case Identifier(_, _) => LeafTokens(e)
    case Infix(left, op, right) => Marked(left) + [op] + (if right.Infix? then [OPEN] else []) + Marked(right)
  }

  predicate IsParen(t: Token) {
    t.typ == LPAREN || t.typ == RPAREN
  }

  /** The tokens without their parentheses. */
  function Bare(ts: seq<Token>): seq<Token> {
    if ts == [] then [] else (if IsParen(ts[0]) then [] else [ts[0]]) + Bare(ts[1..])
  }

  predicate HasOperator(ts: seq<Token>) {
    exists i :: 0 <= i < |ts| && IsOperator(ts[i].typ)
  }

  /** The tokens without the parentheses that do not matter: closing ones, and opening ones at the start (`inside`),
      behind another one, or with no operator behind them. */
  function Grouped(ts: seq<Token>, inside: bool): seq<Token> {
    if ts == [] then []
    else if ts[0].typ == RPAREN then Grouped(ts[1..], inside)
    else if ts[0].typ == LPAREN then
      (if inside || !HasOperator(ts[1..]) then [] else [OPEN]) + Grouped(ts[1..], true)
    else [ts[0]] + Grouped(ts[1..], false)
  }

  /** No parenthesis occurs. */
  predicate Unparenthesised(ts: seq<Token>) {
    forall i :: 0 <= i < |ts| ==> !IsParen(ts[i])
  }

  lemma {:induction false} PlainIsGrouped(a: seq<Token>, b: seq<Token>, inside: bool)
    requires Unparenthesised(a)
    ensures Grouped(a + b, inside) == a + Grouped(b, if a == [] then inside else false)
  {
    if a == [] {
      assert a + b == b;
    } else {
      assert (a + b)[1..] == a[1..] + b;
      PlainIsGrouped(a[1..], b, false);
    }
  }

  lemma {:induction false} BareAppend(a: seq<Token>, b: seq<Token>)
    ensures Bare(a + b) == Bare(a) + Bare(b)
  {
    if a == [] {
      assert a + b == b;
    } else {
      assert (a + b)[1..] == a[1..] + b;
      BareAppend(a[1..], b);
    }
  }

  lemma {:induction false} BareOne(t: Token, ts: seq<Token>)
    ensures Bare([t] + ts) == (if IsParen(t) then [] else [t]) + Bare(ts)
  {
    assert ([t] + ts)[1..] == ts;
  }

  /** What is kept of the first token. */
  function Kept(t: Token, ts: seq<Token>, inside: bool): seq<Token> {
    if t.typ == RPAREN || (t.typ == LPAREN && (inside || !HasOperator(ts))) then []
    else if t.typ == LPAREN then [OPEN]
    else [t]
  }

  lemma {:induction false} GroupedOne(t: Token, ts: seq<Token>, inside: bool)
    ensures Grouped([t] + ts, inside) ==
            Kept(t, ts, inside) + Grouped(ts, if t.typ == RPAREN then inside else t.typ == LPAREN)
  {
    assert ([t] + ts)[1..] == ts;
  }

  lemma {:induction false} GroupedIsBare(ts: seq<Token>, inside: bool)
    ensures Bare(Grouped(ts, inside)) == Bare(ts)
  {
    if ts != [] {
      var t, more := ts[0], ts[1..];
      var flag := if t.typ == RPAREN then inside else t.typ == LPAREN;
      GroupedIsBare(more, flag);
      GroupedOne(t, more, inside);
      assert ts == [t] + more;
      BareAppend(Kept(t, more, inside), Grouped(more, flag));
      BareOne(t, more);
      BareOne(t, []);
      BareOne(OPEN, []);
      assert [t] + [] == [t] && [OPEN] + [] == [OPEN];
    }
  }

  lemma {:induction false} GroupedKeepsOperators(ts: seq<Token>, inside: bool)
    ensures HasOperator(Grouped(ts, inside)) <==> HasOperator(ts)
  {
    if ts != [] {
      var t, more := ts[0], ts[1..];
      var flag := if t.typ == RPAREN then inside else t.typ == LPAREN;
      var rest := Grouped(more, flag);
      GroupedKeepsOperators(more, flag);
      GroupedOne(t, more, inside);
      assert ts == [t] + more;
      hide Grouped, HasOperator;
      OperatorBehind(t, more);
      OperatorBehind(t, rest);
      OperatorBehind(OPEN, rest);
      assert [] + rest == rest;
    }
  }

  lemma {:induction false} OperatorBehind(t: Token, ts: seq<Token>)
    ensures HasOperator([t] + ts) <==> IsOperator(t.typ) || HasOperator(ts)
  {
    var all := [t] + ts;
    if i :| 0 <= i < |ts| && IsOperator(ts[i].typ) {
      assert all[i + 1] == ts[i];
    }
    if IsOperator(t.typ) {
      assert all[0] == t;
    }
  }

  /** A leaf of identifiers is made of plain tokens, none of them an operator. */
  ghost predicate PlainLeaf(ts: seq<Token>) {
    ts != [] && Unparenthesised(ts) && !HasOperator(ts)
  }

  lemma {:induction false} DottedIsPlain(idents: seq<Token>)
    requires idents != [] && forall i :: 0 <= i < |idents| ==> idents[i].typ == IDENT
    ensures PlainLeaf(Dotted(idents))
  {
    if |idents| > 1 {
      DottedIsPlain(idents[..|idents| - 1]);
    }
  }

  lemma {:induction false} LeafIsPlain(e: Expression)
    requires e.Identifier? && TokensFit(e) && NamedLeaves(e)
    ensures PlainLeaf(LeafTokens(e))
  {
    DottedIsPlain(e.idents);
  }

  lemma {:induction false} MarkedHasOperator(e: Expression)
    requires TokensFit(e) && NamedLeaves(e)
    ensures HasOperator(Marked(e)) <==> e.Infix?
  {
    if e.Identifier? {
      LeafIsPlain(e);
    } else {
      assert Marked(e)[|Marked(e.left)|] == e.op;
    }
  }

  // ---------------------------------------------------------------- leaves

  lemma {:induction false} DottedMore(idents: seq<Token>, x: Token)
    requires idents != []
    ensures Dotted(idents + [x]) == Dotted(idents) + [DOT_TOKEN, x]
  {
    assert (idents + [x])[..|idents|] == idents;
  }

  lemma {:induction false} GoesTwo(ts: seq<Token>)
    ensures Goes(ts, [Cur(Next(ts)), Cur(Next(Next(ts)))], Next(Next(ts)))
  {
    GoesOne(Next(ts));
    assert [Cur(Next(ts)), Cur(Next(Next(ts)))][1..] == [Cur(Next(Next(ts)))];
  }

  lemma {:induction false} GoesNowhere(ts: seq<Token>)
    ensures Goes(ts, [], ts)
  {
  }

  lemma {:induction false} DotIsDot(ts: seq<Token>)
    requires AllLexed(ts) && Peek(ts).typ == DOT
    ensures Peek(ts) == DOT_TOKEN && AllLexed(Next(Next(ts)))
  {
    assert Lexed(Peek(ts));
  }

  lemma {:induction false} IdentsConsume(ts: seq<Token>, idents: seq<Token>) returns (tail: seq<Token>)
    requires AllLexed(ts) && idents != []
    ensures var (out, rest) := ParseIdents(ts, idents);
            Goes(ts, tail, rest) && Dotted(out) == Dotted(idents) + tail
    decreases |ts|
  {
    hide Goes, Dotted, AllLexed;
    if Peek(ts).typ != DOT {
      tail := [];
      assert Dotted(idents) + [] == Dotted(idents);
      GoesNowhere(ts);
    } else {
      var t2 := Next(Next(ts));
      var dot := [Peek(ts), Cur(t2)];
      DotIsDot(ts);
      var last := IdentsConsume(t2, idents + [Cur(t2)]);
      DottedMore(idents, Cur(t2));
      GoesTwo(ts);
      GoesOn(ts, dot, t2, last, ParseIdents(ts, idents).1);
      tail := dot + last;
    }
  }

  /** The tokens of a leaf are those consumed for it. */
  lemma {:induction false} LeafConsumes(ts: seq<Token>) returns (tail: seq<Token>)
    requires AllLexed(ts) && ParseLeaf(ts).Some?
    ensures var (e, rest) := ParseLeaf(ts).value;
            e.Identifier? && Goes(ts, tail, rest) && LeafTokens(e) == [Cur(ts)] + tail
  {
    if Cur(ts).typ == IDENT {
      tail := IdentsConsume(ts, [Cur(ts)]);
    } else {
      var last := IdentsConsume(Next(ts), [Cur(Next(ts))]);
      GoesOne(ts);
      GoesOn(ts, [Cur(Next(ts))], Next(ts), last, ParseLeaf(ts).value.1);
      tail := [Cur(Next(ts))] + last;
    }
  }

  // ---------------------------------------------------------------- expressions

  /** The tree is read from the tokens `all`: they group as the tree does. */
  ghost predicate ReadFrom(e: Expression, all: seq<Token>, inside: bool) {
    Marked(e) == Grouped(all, inside)
  }

  lemma {:induction false} ExpressionReads(ts: seq<Token>, precedence: int) returns (tail: seq<Token>)
    requires AllLexed(ts) && ParseExpression(ts, precedence).Some? && LOWEST <= precedence <= LOGIC
    ensures var (e, rest) := ParseExpression(ts, precedence).value;
            && Goes(ts, tail, rest)
            && (NamedLeaves(e) ==> ReadFrom(e, [Cur(ts)] + tail, true))
            && (NamedLeaves(e) && Cur(ts).typ != LPAREN && precedence == LOGIC ==>
                  e.Identifier? && LeafTokens(e) == [Cur(ts)] + tail)
    decreases |ts|, 2
  {
    hide ReadFrom, Goes, Marked, Grouped, LeafTokens, ParseLeaf, ParseInnerParen, ExpressionLoop, Lexed, TokensFit;
    var (e, rest) := ParseExpression(ts, precedence).value;
    if Cur(ts).typ == LPAREN {
      var inner := InnerParenReads(Next(ts));
      GoesOne(ts);
      GoesOn(ts, [Cur(Next(ts))], Next(ts), inner, rest);
      tail := [Cur(Next(ts))] + inner;
      OpenIsDropped(e, Cur(ts), tail);
    } else if precedence == LOWEST {
      tail := LeafAndLoopRead(ts);
    } else {
      LogicIsLeaf(ts);
      LeafShape(ts);
      tail := LeafConsumes(ts);
      LeafReads(e, [Cur(ts)] + tail);
    }
  }

  lemma {:induction false} LogicIsLeaf(ts: seq<Token>)
    requires Cur(ts).typ != LPAREN
    ensures ParseExpression(ts, LOGIC) == ParseLeaf(ts)
  {
  }

  lemma {:induction false} LeafAndLoopRead(ts: seq<Token>) returns (tail: seq<Token>)
    requires AllLexed(ts) && ParseLeaf(ts).Some?
    requires ExpressionLoop(ParseLeaf(ts).value.0, ParseLeaf(ts).value.1, LOWEST).Some?
    ensures var (leaf, at) := ParseLeaf(ts).value;
            var (e, rest) := ExpressionLoop(leaf, at, LOWEST).value;
            Goes(ts, tail, rest) && (NamedLeaves(e) ==> ReadFrom(e, [Cur(ts)] + tail, true))
    decreases |ts|, 2, 0
  {
    hide ReadFrom, Goes, Marked, Grouped, LeafTokens, ParseLeaf, ExpressionLoop, Lexed;
    LeafShape(ts);
    var first := LeafConsumes(ts);
    var (leaf, at) := ParseLeaf(ts).value;
    var (e, rest) := ExpressionLoop(leaf, at, LOWEST).value;
    var more := ExpressionLoopReads(leaf, at);
    GoesOn(ts, first, at, more, rest);
    if NamedLeaves(e) {
      LoopReads(leaf, e, [Cur(ts)] + first, more);
    }
    assert [Cur(ts)] + (first + more) == [Cur(ts)] + first + more;
    tail := first + more;
  }

  lemma {:induction false} OpenIsDropped(e: Expression, open: Token, tail: seq<Token>)
    requires open.typ == LPAREN
    ensures ReadFrom(e, [open] + tail, true) <==> ReadFrom(e, tail, true)
  {
    assert ([open] + tail)[1..] == tail;
  }

  lemma {:induction false} LeafReads(leaf: Expression, all: seq<Token>)
    requires leaf.Identifier? && TokensFit(leaf) && LeafTokens(leaf) == all
    ensures NamedLeaves(leaf) ==> ReadFrom(leaf, all, true)
  {
    if NamedLeaves(leaf) {
      LeafIsPlain(leaf);
      PlainIsGrouped(all, [], true);
      assert all + [] == all;
    }
  }

  /** A leaf, and what the loop behind it has read. */
  lemma {:induction false} LoopReads(leaf: Expression, e: Expression, all: seq<Token>, more: seq<Token>)
    requires leaf.Identifier? && TokensFit(leaf) && NamedLeaves(leaf) && LeafTokens(leaf) == all
    requires Marked(e) == Marked(leaf) + Grouped(more, false)
    ensures ReadFrom(e, all + more, true)
  {
    LeafIsPlain(leaf);
    PlainIsGrouped(all, more, true);
  }

  /** What a loop reads behind `e`. */
  lemma {:induction false} ExpressionLoopReads(e: Expression, ts: seq<Token>) returns (tail: seq<Token>)
    requires AllLexed(ts) && TokensFit(e) && LoopState(e, ts) && ExpressionLoop(e, ts, LOWEST).Some?
    ensures var (out, rest) := ExpressionLoop(e, ts, LOWEST).value;
            && Goes(ts, tail, rest)
            && (NamedLeaves(out) ==> NamedLeaves(e) && Marked(out) == Marked(e) + Grouped(tail, false))
            && (!IsOperator(Peek(ts).typ) ==> tail == [])
    decreases |ts|, 1
  {
    hide Marked, Grouped, Goes, LeafTokens, Lexed, ReadFrom, ParseExpression;
    if IsOperator(Peek(ts).typ) {
      var t2 := Next(Next(ts));
      ExpressionShape(t2, LOGIC);
      var (right, at) := ParseExpression(t2, LOGIC).value;
      var operand := ExpressionReads(t2, LOGIC);
      var more := Infix(e, Peek(ts), right);
      assert TokensFit(more) && LoopState(more, at);
      ExpressionLoopShape(more, at);
      var last := ExpressionLoopReads(more, at);
      tail := OperandGoes(ts, operand, at, last, ExpressionLoop(e, ts, LOWEST).value.1);
      if NamedLeaves(ExpressionLoop(e, ts, LOWEST).value.0) {
        OperandReads(e, Peek(ts), right, [Cur(t2)] + operand, last);
      }
    } else {
      tail := [];
      NothingReads(e, ts);
    }
  }

  lemma {:induction false} NothingReads(e: Expression, ts: seq<Token>)
    ensures Goes(ts, [], ts) && Marked(e) == Marked(e) + Grouped([], false)
  {
  }

  lemma {:induction false} OperandGoes(ts: seq<Token>, operand: seq<Token>, at: seq<Token>, last: seq<Token>,
                                       rest: seq<Token>)
    returns (tail: seq<Token>)
    requires Goes(Next(Next(ts)), operand, at) && Goes(at, last, rest)
    ensures Goes(ts, tail, rest) && tail == [Peek(ts)] + ([Cur(Next(Next(ts)))] + operand) + last
  {
    var t1, t2 := Next(ts), Next(Next(ts));
    GoesOne(ts);
    GoesOne(t1);
    GoesOn(ts, [Cur(t1)], t1, [Cur(t2)], t2);
    GoesOn(ts, [Cur(t1)] + [Cur(t2)], t2, operand, at);
    GoesOn(ts, [Cur(t1)] + [Cur(t2)] + operand, at, last, rest);
    tail := [Cur(t1)] + [Cur(t2)] + operand + last;
  }

  /** An operator and its right operand: a leaf, or all that is read behind an opening parenthesis. */
  lemma {:induction false} OperandReads(e: Expression, op: Token, right: Expression, all: seq<Token>, last: seq<Token>)
    requires IsOperator(op.typ) && all != [] && TokensFit(right) && NamedLeaves(right)
    requires ReadFrom(right, all, true)
    requires if all[0].typ == LPAREN then last == [] else right.Identifier? && LeafTokens(right) == all
    ensures Marked(Infix(e, op, right)) + Grouped(last, false) == Marked(e) + Grouped([op] + all + last, false)
  {
    hide Grouped, Marked, HasOperator, LeafTokens;
    assert [op] + all + last == [op] + (all + last);
    GroupedOne(op, all + last, false);
    InfixMarked(e, op, right);
    if all[0].typ == LPAREN {
      assert all + last == all;
      NothingGrouped(last);
      GroupReads(right, all);
    } else {
      LeafIsPlain(right);
      LeafMarked(right);
      PlainIsGrouped(all, last, false);
    }
  }

  lemma {:induction false} InfixMarked(e: Expression, op: Token, right: Expression)
    ensures Marked(Infix(e, op, right)) == Marked(e) + [op] + (if right.Infix? then [OPEN] else []) + Marked(right)
  {
  }

  lemma {:induction false} LeafMarked(e: Expression)
    requires e.Identifier?
    ensures Marked(e) == LeafTokens(e)
  {
  }

  lemma {:induction false} NothingGrouped(ts: seq<Token>)
    ensures ts == [] ==> Grouped(ts, false) == []
  {
  }

  lemma {:induction false} GroupHasOperator(right: Expression, all: seq<Token>)
    requires all != [] && all[0].typ == LPAREN && TokensFit(right) && NamedLeaves(right) && ReadFrom(right, all, true)
    ensures HasOperator(all[1..]) <==> right.Infix?
  {
    hide Grouped, Marked, HasOperator;
    MarkedHasOperator(right);
    GroupedKeepsOperators(all, true);
    assert all == [all[0]] + all[1..];
    OperatorBehind(all[0], all[1..]);
  }

  /** What is read behind an operator from an opening parenthesis on. */
  lemma {:induction false} GroupReads(right: Expression, all: seq<Token>)
    requires all != [] && all[0].typ == LPAREN && TokensFit(right) && NamedLeaves(right) && ReadFrom(right, all, true)
    ensures Grouped(all, false) == (if right.Infix? then [OPEN] else []) + Marked(right)
  {
    GroupHasOperator(right, all);
    hide Grouped, HasOperator, Marked, TokensFit, NamedLeaves;
    assert all == [all[0]] + all[1..];
    GroupedOne(all[0], all[1..], true);
    GroupedOne(all[0], all[1..], false);
  }

  lemma {:induction false} InnerParenReads(ts: seq<Token>) returns (tail: seq<Token>)
    requires AllLexed(ts) && ParseInnerParen(ts).Some?
    ensures var (e, rest) := ParseInnerParen(ts).value;
            Goes(ts, tail, rest) && (NamedLeaves(e) ==> ReadFrom(e, [Cur(ts)] + tail, true))
    decreases |ts|, 3
  {
    hide ReadFrom, Goes, Marked, Grouped, LeafTokens, ParseLeaf, ParseExpression, InnerLoop, Lexed;
    var (e, rest) := ParseInnerParen(ts).value;
    if Cur(ts).typ == LPAREN {
      tail := ExpressionReads(ts, LOWEST);
    } else {
      tail := LeafConsumes(ts);
      LeafShape(ts);
      var (leaf, at) := ParseLeaf(ts).value;
      var more := InnerLoopReads(leaf, at);
      GoesOn(ts, tail, at, more, rest);
      if NamedLeaves(e) {
        LoopReads(leaf, e, [Cur(ts)] + tail, more);
      }
      assert [Cur(ts)] + (tail + more) == [Cur(ts)] + tail + more;
      tail := tail + more;
    }
  }

  lemma {:induction false} InnerLoopReads(e: Expression, ts: seq<Token>) returns (tail: seq<Token>)
    requires AllLexed(ts) && TokensFit(e) && LoopState(e, ts) && InnerLoop(e, ts).Some?
    ensures var (out, rest) := InnerLoop(e, ts).value;
            && Goes(ts, tail, rest)
            && (NamedLeaves(out) ==> NamedLeaves(e) && Marked(out) == Marked(e) + Grouped(tail, false))
            && (Stopped(ts) && Cur(ts).typ != RPAREN ==> tail == [])
            && (Cur(ts).typ == RPAREN ==> tail == [])
    decreases |ts|, 1
  {
    tail := [];
    assert Marked(e) + [] == Marked(e);
    if Cur(ts).typ != RPAREN {
      var us := if Peek(ts).typ == RPAREN then Next(ts) else ts;
      var skip: seq<Token> := if Peek(ts).typ == RPAREN then [Peek(ts)] else [];
      GoesOne(ts);
      if IsOperator(Peek(us).typ) {
        var t2 := Next(Next(us));
        ExpressionShape(t2, LOGIC);
        var (right, at) := ParseExpression(t2, LOGIC).value;
        var operand := ExpressionReads(t2, LOGIC);
        var more := Infix(e, Peek(us), right);
        assert TokensFit(more) && LoopState(more, at);
        InnerLoopShape(more, at);
        var last := InnerLoopReads(more, at);
        var (out, rest) := InnerLoop(e, ts).value;
        tail := OperandGoes(us, operand, at, last, rest);
        if NamedLeaves(out) {
          OperandReads(e, Peek(us), right, [Cur(t2)] + operand, last);
        }
        GoesOn(ts, skip, us, tail, rest);
        CloseIsDropped(skip, tail);
        tail := skip + tail;
      } else {
        tail := skip;
        CloseIsDropped(skip, []);
        assert skip + [] == skip;
      }
    }
  }

  lemma {:induction false} CloseIsDropped(skip: seq<Token>, tail: seq<Token>)
    requires |skip| <= 1 && (skip != [] ==> skip[0].typ == RPAREN)
    ensures Grouped(skip + tail, false) == Grouped(tail, false)
  {
    if skip == [] {
      assert skip + tail == tail;
    } else {
      assert (skip + tail)[1..] == tail;
    }
  }

  // ---------------------------------------------------------------- the theorems

  /** `parseExpression`, at the lowest precedence: the tokens consumed group as the tree does, so without parentheses
      they are its prefixes, identifiers, dots and operators from left to right. */
  lemma {:induction false} ExpressionIsConsumed(ts: seq<Token>) returns (all: seq<Token>)
    requires AllLexed(ts) && ParseExpression(ts, LOWEST).Some? && NamedLeaves(ParseExpression(ts, LOWEST).value.0)
    ensures var (e, rest) := ParseExpression(ts, LOWEST).value;
            && all != [] && all[0] == Cur(ts) && Goes(ts, all[1..], rest)
            && Marked(e) == Grouped(all, true) && Flat(e) == Bare(all)
  {
    var tail := ExpressionReads(ts, LOWEST);
    all := [Cur(ts)] + tail;
    ExpressionShape(ts, LOWEST);
    ReadIsFlat(ParseExpression(ts, LOWEST).value.0, all, true);
  }

  /** The same for `parseInnerParen`. */
  lemma {:induction false} InnerParenIsConsumed(ts: seq<Token>) returns (all: seq<Token>)
    requires AllLexed(ts) && ParseInnerParen(ts).Some? && NamedLeaves(ParseInnerParen(ts).value.0)
    ensures var (e, rest) := ParseInnerParen(ts).value;
            && all != [] && all[0] == Cur(ts) && Goes(ts, all[1..], rest)
            && Marked(e) == Grouped(all, true) && Flat(e) == Bare(all)
  {
    var tail := InnerParenReads(ts);
    all := [Cur(ts)] + tail;
    InnerParenShape(ts);
    ReadIsFlat(ParseInnerParen(ts).value.0, all, true);
  }

  /** And for `parseExpressionStatement`, which may go on over closing parentheses to the token behind them. */
  lemma {:induction false} StatementIsConsumed(ts: seq<Token>) returns (all: seq<Token>, closing: seq<Token>)
    requires AllLexed(ts) && ParseExpressionStatement(ts).Some?
    requires NamedLeaves(ParseExpressionStatement(ts).value.0)
    ensures var (e, rest) := ParseExpressionStatement(ts).value;
            && all != [] && all[0] == Cur(ts) && Goes(ts, all[1..] + closing, rest)
            && Marked(e) == Grouped(all, true) && Flat(e) == Bare(all)
    ensures forall i :: 0 <= i < |closing| - 1 ==> closing[i].typ == RPAREN
    ensures closing != [] ==> |closing| > 1 && closing[|closing| - 1].typ != RPAREN
  {
    all := ExpressionIsConsumed(ts);
    var (e, at) := ParseExpression(ts, LOWEST).value;
    closing := [];
    if Peek(at).typ == RPAREN {
      var more := ClosingGoes(Next(at));
      GoesOne(at);
      GoesOn(at, [Peek(at)], Next(at), more, SkipParens(Next(at)));
      closing := [Peek(at)] + more;
      GoesOn(ts, all[1..], at, closing, SkipParens(Next(at)));
    } else {
      assert all[1..] + [] == all[1..];
    }
  }

  lemma {:induction false} ClosingGoes(ts: seq<Token>) returns (tail: seq<Token>)
    requires Cur(ts).typ == RPAREN
    ensures Goes(ts, tail, SkipParens(ts)) && tail != [] && tail[|tail| - 1].typ != RPAREN
    ensures forall i :: 0 <= i < |tail| - 1 ==> tail[i].typ == RPAREN
    decreases |ts|
  {
    GoesOne(ts);
    tail := [Cur(Next(ts))];
    if Cur(Next(ts)).typ == RPAREN {
      var more := ClosingGoes(Next(ts));
      GoesOn(ts, tail, Next(ts), more, SkipParens(ts));
      tail := tail + more;
    }
  }

  lemma {:induction false} ReadIsFlat(e: Expression, all: seq<Token>, inside: bool)
    requires TokensFit(e) && NamedLeaves(e) && ReadFrom(e, all, inside)
    ensures Flat(e) == Bare(all)
  {
    MarkedIsFlat(e);
    GroupedIsBare(all, inside);
  }

  lemma {:induction false} PlainIsBare(ts: seq<Token>)
    requires Unparenthesised(ts)
    ensures Bare(ts) == ts
  {
    if ts != [] {
      PlainIsBare(ts[1..]);
      assert ts == [ts[0]] + ts[1..];
    }
  }

  lemma {:induction false} MarkedIsFlat(e: Expression)
    requires TokensFit(e) && NamedLeaves(e)
    ensures Bare(Marked(e)) == Flat(e)
  {
    hide LeafTokens;
    if e.Identifier? {
      LeafIsPlain(e);
      PlainIsBare(LeafTokens(e));
    } else {
      MarkedIsFlat(e.left);
      MarkedIsFlat(e.right);
      var open: seq<Token> := if e.right.Infix? then [OPEN] else [];
      assert [e.op] + [] == [e.op] && [OPEN] + [] == [OPEN];
      BareOne(e.op, []);
      BareOne(OPEN, []);
      BareAppend(Marked(e.left), [e.op]);
      BareAppend(Marked(e.left) + [e.op], open);
      BareAppend(Marked(e.left) + [e.op] + open, Marked(e.right));
    }
  }

  /** Without parentheses the tree is the left-leaning chain of the leaves. */
  lemma {:induction false} UnparenthesisedIsChain(ts: seq<Token>, all: seq<Token>)
    requires AllLexed(ts) && ParseExpression(ts, LOWEST).Some? && NamedLeaves(ParseExpression(ts, LOWEST).value.0)
    requires Marked(ParseExpression(ts, LOWEST).value.0) == Grouped(all, true) && Unparenthesised(all)
    ensures IsChain(ParseExpression(ts, LOWEST).value.0)
  {
    ExpressionShape(ts, LOWEST);
    var e := ParseExpression(ts, LOWEST).value.0;
    PlainIsGrouped(all, [], true);
    assert all + [] == all;
    UnmarkedIsChain(e);
  }

  lemma {:induction false} UnmarkedIsChain(e: Expression)
    requires WellShaped(e) && Unparenthesised(Marked(e))
    ensures IsChain(e)
  {
    if e.Infix? && e.right.Infix? {
      assert Marked(e)[|Marked(e.left)| + 1] == OPEN;
    }
  }

  // ---------------------------------------------------------------- the tree is determined

  ghost predicate Good(e: Expression) {
    TokensFit(e) && NamedLeaves(e) && WellShaped(e)
  }

  lemma {:induction false} ChainIsUnmarked(e: Expression)
    requires TokensFit(e) && NamedLeaves(e) && IsChain(e)
    ensures Unparenthesised(Marked(e))
  {
    hide LeafTokens;
    if e.Identifier? {
      LeafIsPlain(e);
    } else {
      ChainIsUnmarked(e.left);
      LeafIsPlain(e.right);
    }
  }

  lemma {:induction false} DottedIsInjective(a: seq<Token>, b: seq<Token>)
    requires Dotted(a) == Dotted(b) && a != [] && b != []
    ensures a == b
    decreases |a|
  {
    DottedLength(a);
    DottedLength(b);
    if |a| > 1 {
      var m, n := a[..|a| - 1], b[..|b| - 1];
      DottedLength(m);
      DottedLength(n);
      assert Dotted(m) == Dotted(a)[..|Dotted(m)|] == Dotted(n);
      DottedIsInjective(m, n);
      assert a == m + [a[|a| - 1]] && b == n + [b[|b| - 1]];
    }
  }

  lemma {:induction false} DottedLength(a: seq<Token>)
    requires a != []
    ensures |Dotted(a)| == 2 * |a| - 1 && Dotted(a)[|Dotted(a)| - 1] == a[|a| - 1] && Dotted(a)[0] == a[0]
  {
    if |a| > 1 {
      DottedLength(a[..|a| - 1]);
    }
  }

  lemma {:induction false} LeafIsDetermined(e: Expression, f: Expression)
    requires e.Identifier? && f.Identifier? && TokensFit(e) && TokensFit(f) && NamedLeaves(e) && NamedLeaves(f)
    requires LeafTokens(e) == LeafTokens(f)
    ensures e == f
  {
    DottedLength(e.idents);
    DottedLength(f.idents);
    assert e.prefix != NO_TOKEN ==> LeafTokens(e)[0] == e.prefix && LeafTokens(e)[1..] == Dotted(e.idents);
    assert f.prefix != NO_TOKEN ==> LeafTokens(f)[0] == f.prefix && LeafTokens(f)[1..] == Dotted(f.idents);
    assert e.prefix == NO_TOKEN ==> LeafTokens(e) == Dotted(e.idents);
    assert f.prefix == NO_TOKEN ==> LeafTokens(f) == Dotted(f.idents);
    DottedIsInjective(e.idents, f.idents);
  }

  /** Where the left operand ends: at the operator before the first opening parenthesis, or at the last operator. */
  lemma {:induction false} SplitIsDetermined(e: Expression, f: Expression)
    requires e.Infix? && f.Infix? && Good(e) && Good(f) && Marked(e) == Marked(f)
    ensures |Marked(e.left)| == |Marked(f.left)| && e.right.Infix? == f.right.Infix?
  {
    SplitMarks(e);
    SplitMarks(f);
  }

  /** The tokens of an infix tree around its top operator. */
  lemma {:induction false} SplitMarks(e: Expression)
    requires e.Infix? && Good(e)
    ensures var m, i := Marked(e), |Marked(e.left)|;
            && i < |m| && m[i] == e.op && m[..i] == Marked(e.left) && IsOperator(m[i].typ)
            && (forall k :: 0 <= k <= i ==> !IsParen(m[k]))
            && (if e.right.Infix? then i + 1 < |m| && m[i + 1] == OPEN && m[i + 2..] == Marked(e.right)
                else m[i + 1..] == Marked(e.right) && Unparenthesised(m) &&
                     forall k :: i < k < |m| ==> !IsOperator(m[k].typ))
  {
    ChainIsUnmarked(e.left);
    var m, i := Marked(e), |Marked(e.left)|;
    if e.right.Identifier? {
      LeafIsPlain(e.right);
      LeafMarked(e.right);
      assert forall k :: i < k < |m| ==> m[k] == Marked(e.right)[k - i - 1];
    }
  }

  /** Two well-shaped trees with the same grouped tokens are the same tree: what is consumed determines what is built.
      */
  lemma {:induction false} GroupingDeterminesTheTree(e: Expression, f: Expression)
    requires Good(e) && Good(f) && Marked(e) == Marked(f)
    ensures e == f
    decreases e
  {
    MarkedHasOperator(e);
    MarkedHasOperator(f);
    if e.Identifier? {
      LeafIsDetermined(e, f);
    } else {
      SplitIsDetermined(e, f);
      SplitMarks(e);
      SplitMarks(f);
      ChainIsWellShaped(e.left);
      ChainIsWellShaped(f.left);
      GroupingDeterminesTheTree(e.left, f.left);
      GroupingDeterminesTheTree(e.right, f.right);
    }
  }
}
