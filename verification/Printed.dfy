/** Lexing a printed tree: the characters the printers write are read back as the expected tokens. */
module Printed {
  import opened Tokens
  import opened Ast
  import opened Lexer
  import opened TreeShape

  // ---------------------------------------------------------------- trees that are printed faithfully

  predicate GoodName(t: Token) {
    t.typ == IDENT && IsName(t.literal)
  }

  predicate GoodType(t: TypeStatement) {
    GoodName(t.typ) && (t.relation == NO_TOKEN || GoodName(t.relation))
  }

  predicate GoodRelation(r: RelationStatement) {
    GoodName(r.name) && r.types != [] && forall i :: 0 <= i < |r.types| ==> GoodType(r.types[i])
  }

  ghost predicate GoodExpression(e: Expression) {
    TokensFit(e) && NamedLeaves(e)
  }

  ghost predicate GoodAction(a: ActionStatement) {
    GoodName(a.name) && GoodExpression(a.expression) && WellShaped(a.expression)
  }

  ghost predicate GoodEntity(e: EntityStatement) {
    && GoodName(e.name)
    && (forall i :: 0 <= i < |e.relations| ==> GoodRelation(e.relations[i]))
    && (forall i :: 0 <= i < |e.actions| ==> GoodAction(e.actions[i]))
  }

  // ---------------------------------------------------------------- their tokens

  function Sym(c: char): Token {
    Token(Symbol(c), [c])
  }

  function Word(w: string): Token {
    Token(LookupKeywords(w), w)
  }

  function TypeTokens(t: TypeStatement, rest: seq<Token>): seq<Token> {
    [Sym('@')] + ([t.typ] + (if t.relation.literal == "" then rest else [Sym('#')] + ([t.relation] + rest)))
  }

  function TypesTokens(ts: seq<TypeStatement>, rest: seq<Token>): seq<Token> {
    if ts == [] then rest else TypeTokens(ts[0], TypesTokens(ts[1..], rest))
  }

  function RelationTokens(r: RelationStatement, rest: seq<Token>): seq<Token> {
    [Word("relation")] + ([r.name] + TypesTokens(r.types, rest))
  }

  function RelationsTokens(rs: seq<RelationStatement>, rest: seq<Token>): seq<Token> {
    if rs == [] then rest else RelationTokens(rs[0], [Sym('\n')] + RelationsTokens(rs[1..], rest))
  }

  function IdentsTokens(idents: seq<Token>, rest: seq<Token>): seq<Token> {
    if idents == [] then rest
    else if |idents| == 1 then [idents[0]] + rest
    else [idents[0]] + ([Sym('.')] + IdentsTokens(idents[1..], rest))
  }

  function ExpressionTokens(e: Expression, rest: seq<Token>): seq<Token> {
    match e
    case Identifier(prefix, idents) =>
      if prefix.literal != "" then [Word("not")] + IdentsTokens(idents, rest) else IdentsTokens(idents, rest)
    case Infix(left, op, right) =>
      [Sym('(')] + ExpressionTokens(left, [op] + ExpressionTokens(right, [Sym(')')] + rest))
  }

  function ActionTokens(a: ActionStatement, rest: seq<Token>): seq<Token> {
    [Word("action")] + ([a.name] + ([Sym('=')] + ExpressionTokens(a.expression, rest)))
  }

  function ActionsTokens(acts: seq<ActionStatement>, rest: seq<Token>): seq<Token> {
    if acts == [] then rest else ActionTokens(acts[0], [Sym('\n')] + ActionsTokens(acts[1..], rest))
  }

  function EntityTokens(e: EntityStatement, rest: seq<Token>): seq<Token> {
    [Word("entity")] + ([e.name] + ([Sym('{')] + ([Sym('\n')] +
    RelationsTokens(e.relations, [Sym('\n')] + ActionsTokens(e.actions, [Sym('}')] + ([Sym('\n')] + rest))))))
  }

  // ---------------------------------------------------------------- lexing

  predicate NoLetterAhead(s: string) {
    s == [] || !IsLetter(s[0])
  }

  lemma {:induction false} LexSymbol(c: char, rest: string)
    requires !IsLetter(c) && c != '\0' && c != '/' && c as int < 0x80
    ensures LexAll([c] + rest) == if IsIgnores(Symbol(c)) then LexAll(rest) else [Sym(c)] + LexAll(rest)
  {
    assert ([c] + rest)[1..] == rest;
  }

  lemma {:induction false} LettersOfWord(w: string, rest: string)
    requires (forall i :: 0 <= i < |w| ==> IsLetter(w[i])) && NoLetterAhead(rest)
    ensures Letters(w + rest) == |w|
  {
    if w == [] {
      assert w + rest == rest;
    } else {
      assert (w + rest)[1..] == w[1..] + rest;
      LettersOfWord(w[1..], rest);
    }
  }

  lemma {:induction false} LexWord(w: string, rest: string)
    requires IsWord(w) && NoLetterAhead(rest)
    ensures LexAll(w + rest) == [Word(w)] + LexAll(rest)
  {
    LettersOfWord(w, rest);
    assert (w + rest)[..|w|] == w && (w + rest)[|w|..] == rest;
  }

  lemma {:induction false} LexType(t: TypeStatement, rest: string)
    requires GoodType(t) && NoLetterAhead(rest)
    ensures LexAll(TypeText(t, rest)) == TypeTokens(t, LexAll(rest))
  {
    hide LexAll;
    if t.relation.literal == "" {
      LexWord(t.typ.literal, rest);
      LexSymbol('@', t.typ.literal + rest);
    } else {
      LexWord(t.relation.literal, rest);
      LexSymbol('#', t.relation.literal + rest);
      LexWord(t.typ.literal, ['#'] + (t.relation.literal + rest));
      LexSymbol('@', t.typ.literal + (['#'] + (t.relation.literal + rest)));
    }
  }

  lemma {:induction false} LexTypes(ts: seq<TypeStatement>, rest: string)
    requires (forall i :: 0 <= i < |ts| ==> GoodType(ts[i]))
    ensures LexAll(TypesText(ts, rest)) == TypesTokens(ts, LexAll(rest))
  {
    hide LexAll, TypeText, TypeTokens;
    if ts != [] {
      LexTypes(ts[1..], rest);
      LexSymbol(' ', TypesText(ts[1..], rest));
      LexType(ts[0], [' '] + TypesText(ts[1..], rest));
    }
  }

  lemma {:induction false} LexRelation(r: RelationStatement, rest: string)
    requires GoodRelation(r)
    ensures LexAll(RelationText(r, rest)) == RelationTokens(r, LexAll(rest))
  {
    hide LexAll, TypesText, TypesTokens;
    LexTypes(r.types, rest);
    var s1 := [' '] + TypesText(r.types, rest);
    LexSymbol(' ', TypesText(r.types, rest));
    LexWord(r.name.literal, s1);
    LexSymbol(' ', r.name.literal + s1);
    LexWord("relation", [' '] + (r.name.literal + s1));
    LexSymbol('\t', "relation" + ([' '] + (r.name.literal + s1)));
  }

  lemma {:induction false} LexRelations(rs: seq<RelationStatement>, rest: string)
    requires (forall i :: 0 <= i < |rs| ==> GoodRelation(rs[i]))
    ensures LexAll(RelationsText(rs, rest)) == RelationsTokens(rs, LexAll(rest))
  {
    hide LexAll, RelationText, RelationTokens;
    if rs != [] {
      LexRelations(rs[1..], rest);
      LexSymbol('\n', RelationsText(rs[1..], rest));
      LexRelation(rs[0], ['\n'] + RelationsText(rs[1..], rest));
    }
  }

  lemma {:induction false} LexIdents(idents: seq<Token>, rest: string)
    requires idents != [] && (forall i :: 0 <= i < |idents| ==> GoodName(idents[i])) && NoLetterAhead(rest)
    ensures LexAll(IdentsText(idents, rest)) == IdentsTokens(idents, LexAll(rest))
  {
    hide LexAll;
    if |idents| == 1 {
      LexWord(idents[0].literal, rest);
    } else {
      LexIdents(idents[1..], rest);
      LexSymbol('.', IdentsText(idents[1..], rest));
      LexWord(idents[0].literal, ['.'] + IdentsText(idents[1..], rest));
    }
  }

  lemma {:induction false} LexOperator(op: Token, rest: string)
    requires Lexed(op) && (op.typ == AND || op.typ == OR)
    ensures LexAll([' '] + (op.literal + ([' '] + rest))) == [op] + LexAll(rest)
  {
    hide LexAll;
    LexSymbol(' ', rest);
    LexWord(op.literal, [' '] + rest);
    LexSymbol(' ', op.literal + ([' '] + rest));
  }

  lemma {:induction false} LexExpression(e: Expression, rest: string)
    requires GoodExpression(e) && NoLetterAhead(rest)
    ensures LexAll(ExpressionText(e, rest)) == ExpressionTokens(e, LexAll(rest))
  {
    hide LexAll;
    match e
    case Identifier(prefix, idents) =>
      LexIdents(idents, rest);
      if prefix.literal != "" {
        LexSymbol(' ', IdentsText(idents, rest));
        LexWord("not", [' '] + IdentsText(idents, rest));
      }
    case Infix(left, op, right) =>
      LexSymbol(')', rest);
      LexExpression(right, [')'] + rest);
      var r := ExpressionText(right, [')'] + rest);
      LexOperator(op, r);
      LexExpression(left, [' '] + (op.literal + ([' '] + r)));
      LexSymbol('(', ExpressionText(left, [' '] + (op.literal + ([' '] + r))));
  }

  lemma {:induction false} LexAction(a: ActionStatement, rest: string)
    requires GoodAction(a) && NoLetterAhead(rest)
    ensures LexAll(ActionText(a, rest)) == ActionTokens(a, LexAll(rest))
  {
    hide LexAll, ExpressionText, ExpressionTokens;
    LexExpression(a.expression, rest);
    var s0 := ExpressionText(a.expression, rest);
    LexSymbol(' ', s0);
    var s1 := ['='] + ([' '] + s0);
    LexSymbol('=', [' '] + s0);
    LexSymbol(' ', s1);
    LexWord(a.name.literal, [' '] + s1);
    var s2 := a.name.literal + ([' '] + s1);
    LexSymbol(' ', s2);
    LexWord("action", [' '] + s2);
    LexSymbol('\t', "action" + ([' '] + s2));
  }

  lemma {:induction false} LexActions(acts: seq<ActionStatement>, rest: string)
    requires (forall i :: 0 <= i < |acts| ==> GoodAction(acts[i]))
    ensures LexAll(ActionsText(acts, rest)) == ActionsTokens(acts, LexAll(rest))
  {
    hide LexAll, ActionText, ActionTokens;
    if acts != [] {
      LexActions(acts[1..], rest);
      LexSymbol('\n', ActionsText(acts[1..], rest));
      LexAction(acts[0], ['\n'] + ActionsText(acts[1..], rest));
    }
  }

  lemma {:induction false} LexEntityHead(name: Token, rest: string)
    requires GoodName(name)
    ensures LexAll("entity" + ([' '] + (name.literal + ([' '] + (['{'] + (['\n'] + rest)))))) ==
            [Word("entity")] + ([name] + ([Sym('{')] + ([Sym('\n')] + LexAll(rest))))
  {
    hide LexAll;
    LexSymbol('\n', rest);
    LexSymbol('{', ['\n'] + rest);
    var s := ['{'] + (['\n'] + rest);
    LexSymbol(' ', s);
    LexWord(name.literal, [' '] + s);
    LexSymbol(' ', name.literal + ([' '] + s));
    LexWord("entity", [' '] + (name.literal + ([' '] + s)));
  }

  lemma {:induction false} LexEntityEnd(rest: string)
    ensures LexAll(['}'] + ([' '] + (['\n'] + rest))) == [Sym('}')] + ([Sym('\n')] + LexAll(rest))
  {
    hide LexAll;
    LexSymbol('\n', rest);
    LexSymbol(' ', ['\n'] + rest);
    LexSymbol('}', [' '] + (['\n'] + rest));
  }

  /** The printed statement, in front of any text, is lexed to the tokens of the statement. */
  lemma {:induction false} LexEntity(e: EntityStatement, rest: string)
    requires GoodEntity(e)
    ensures LexAll(EntityText(e, rest)) == EntityTokens(e, LexAll(rest))
  {
    hide LexAll, RelationsText, RelationsTokens, ActionsText, ActionsTokens;
    LexEntityEnd(rest);
    var end := ['}'] + ([' '] + (['\n'] + rest));
    LexActions(e.actions, end);
    LexSymbol('\n', ActionsText(e.actions, end));
    var actions := ['\n'] + ActionsText(e.actions, end);
    LexRelations(e.relations, actions);
    LexEntityHead(e.name, RelationsText(e.relations, actions));
  }
}
