/** What a whole text is read from: every accepted text falls into entity statements and tokens between them, the body
    of each entity into its relations, its actions, line ends and opening braces, in any order, and the statements are
    those pieces. No token of a statement is dropped, moved or read twice. */
module Outline {
  import opened Tokens
  import opened Ast
  import opened Lexer
  import opened Grammar
  import opened TreeShape
  import opened Printed
  import opened Consumed

  // ---------------------------------------------------------------- pieces

  /** A part of an entity body. The expression of an action is read from `all`; behind it, `closing` holds the closing
      parentheses that are stepped over and the one token behind them. */
  datatype Item =
    | Gap(token: Token)
    | RelationItem(relation: RelationStatement)
    | ActionItem(action: ActionStatement, all: seq<Token>, closing: seq<Token>)

  /** A part of the text. */
  datatype Piece =
    | Skipped(token: Token)
    | EntityPiece(name: Token, items: seq<Item>)

  function ItemTokens(it: Item): seq<Token> {
    match it
    case Gap(t) => [t]
    case RelationItem(r) => RelationTokens(r, [])
    case ActionItem(a, all, closing) => [Word("action"), a.name, Sym('=')] + all + closing
  }

  function ItemsTokens(items: seq<Item>): seq<Token> {
    if items == [] then [] else ItemTokens(items[0]) + ItemsTokens(items[1..])
  }

  function PieceTokens(p: Piece): seq<Token> {
    match p
    case Skipped(t) => [t]
    case EntityPiece(name, items) => [Word("entity"), name] + ItemsTokens(items) + [Sym('}')]
  }

  function PiecesTokens(ps: seq<Piece>): seq<Token> {
    if ps == [] then [] else PieceTokens(ps[0]) + PiecesTokens(ps[1..])
  }

  function RelationsOf(items: seq<Item>): seq<RelationStatement> {
    if items == [] then []
    else (if items[0].RelationItem? then [items[0].relation] else []) + RelationsOf(items[1..])
  }

  function ActionsOf(items: seq<Item>): seq<ActionStatement> {
    if items == [] then []
    else (if items[0].ActionItem? then [items[0].action] else []) + ActionsOf(items[1..])
  }

  function StatementsOf(ps: seq<Piece>): seq<EntityStatement> {
    if ps == [] then []
    else
      (if ps[0].EntityPiece? then [EntityStatement(ps[0].name, RelationsOf(ps[0].items), ActionsOf(ps[0].items))]
       else []) + StatementsOf(ps[1..])
  }

  /** Closing parentheses and one token behind them, or nothing. */
  predicate IsClosing(ts: seq<Token>) {
    ts == [] ||
    (|ts| > 1 && ts[|ts| - 1].typ != RPAREN && forall i :: 0 <= i < |ts| - 1 ==> ts[i].typ == RPAREN)
  }

  /** Between relations and actions there are only line ends and opening braces; an expression of identifiers is grouped
      as its tokens are. */
  ghost predicate ItemFits(it: Item) {
    match it
    case Gap(t) => t.typ == NEWLINE || t.typ == LBRACE
    case RelationItem(r) => r.types != []
    case ActionItem(a, all, closing) =>
      && IsClosing(closing)
      && (NamedLeaves(a.expression) ==>
            Marked(a.expression) == Grouped(all, true) && Flat(a.expression) == Bare(all))
  }

  /** No entity statement is skipped. */
  ghost predicate PieceFits(p: Piece) {
    match p
    case Skipped(t) => t.typ != ENTITY && t.typ != EOF
    case EntityPiece(name, items) =>
      && GoodName(name)
      && items != [] && items[0].Gap? && items[0].token.typ == LBRACE
      && forall it :: it in items ==> ItemFits(it)
  }

  // ---------------------------------------------------------------- reading from the current token on

  /** The tokens `all` are read from the current one of `ts` on, and the last of them is the current one of `rest`. */
  ghost predicate Reads(ts: seq<Token>, all: seq<Token>, rest: seq<Token>) {
    all != [] && all[0] == Cur(ts) && Goes(ts, all[1..], rest)
  }

  lemma {:induction false} ReadsOn(a: seq<Token>, s: seq<Token>, b: seq<Token>, t: seq<Token>, c: seq<Token>)
    requires Reads(a, s, b) && Reads(Next(b), t, c)
    ensures Reads(a, s + t, c)
  {
    assert t == [t[0]] + t[1..];
    GoesOne(b);
    GoesOn(b, [t[0]], Next(b), t[1..], c);
    GoesOn(a, s[1..], b, t, c);
    assert (s + t)[1..] == s[1..] + t;
  }

  lemma {:induction false} ReadsBehind(a: seq<Token>, s: seq<Token>, b: seq<Token>, t: seq<Token>, c: seq<Token>)
    requires Reads(a, s, b) && Goes(b, t, c)
    ensures Reads(a, s + t, c)
  {
    GoesOn(a, s[1..], b, t, c);
    assert (s + t)[1..] == s[1..] + t;
  }

  lemma {:induction false} ReadsOne(ts: seq<Token>)
    ensures Reads(ts, [Cur(ts)], ts)
  {
    assert [Cur(ts)][1..] == [];
  }

  // ---------------------------------------------------------------- relations

  /** The next two tokens. */
  lemma {:induction false} GoesTwo(ts: seq<Token>)
    ensures Goes(ts, [Cur(Next(ts)), Cur(Next(Next(ts)))], Next(Next(ts)))
  {
    GoesOne(ts);
    GoesOne(Next(ts));
    GoesOn(ts, [Cur(Next(ts))], Next(ts), [Cur(Next(Next(ts)))], Next(Next(ts)));
  }

  lemma {:induction false} TypeReads(ts: seq<Token>) returns (tail: seq<Token>)
    requires AllLexed(ts) && Peek(ts).typ == SIGN && ParseType(ts).Some?
    ensures var (t, rest) := ParseType(ts).value;
            Goes(ts, tail, rest) && tail == TypeTokens(t, []) && AllLexed(rest)
  {
    hide Goes, Lexed, AllLexed, Sym;
    var ts1, ts2, ts3, ts4 := Next(ts), Next(Next(ts)), Next(Next(Next(ts))), Next(Next(Next(Next(ts))));
    KeywordIsWord(ts);
    KeywordIsWord(ts1);
    KeywordIsWord(ts2);
    GoesTwo(ts);
    tail := [Cur(ts1), Cur(ts2)];
    if Peek(ts2).typ == HASH {
      KeywordIsWord(ts3);
      KeywordIsWord(ts4);
      GoesTwo(ts2);
      GoesOn(ts, tail, ts2, [Cur(ts3), Cur(ts4)], ts4);
      tail := tail + [Cur(ts3), Cur(ts4)];
      NameIsNotEmpty(Cur(ts4));
    }
  }

  lemma {:induction false} NameIsNotEmpty(name: Token)
    requires GoodName(name)
    ensures name.literal != ""
  {
  }

  lemma {:induction false} TypesReads(ts: seq<Token>, types: seq<TypeStatement>)
    returns (tail: seq<Token>, more: seq<TypeStatement>)
    requires AllLexed(ts) && ParseTypes(ts, types).Some?
    ensures var (out, rest) := ParseTypes(ts, types).value;
            && out == types + more && Goes(ts, tail, rest) && tail == TypesTokens(more, []) && AllLexed(rest)
            && (Peek(ts).typ == SIGN ==> more != [])
    decreases |ts|
  {
    hide Goes, ParseType, TypeTokens, Lexed;
    if Peek(ts).typ == SIGN {
      var (t, at) := ParseType(ts).value;
      var (out, rest) := ParseTypes(at, types + [t]).value;
      var one := TypeReads(ts);
      var others, behind := TypesReads(at, types + [t]);
      GoesOn(ts, one, at, others, rest);
      tail, more := one + others, [t] + behind;
      assert more[1..] == behind && types + [t] + behind == types + more;
      TypeTokensAppend(t, others);
    } else {
      tail, more := [], [];
      NothingRead(ts);
      assert types + [] == types;
    }
  }

  lemma {:induction false} NothingRead(ts: seq<Token>)
    ensures Goes(ts, [], ts)
  {
  }

  lemma {:induction false} TypeTokensAppend(t: TypeStatement, rest: seq<Token>)
    ensures TypeTokens(t, rest) == TypeTokens(t, []) + rest
  {
  }

  lemma {:induction false} RelationReads(ts: seq<Token>, refs: References, entity: string) returns (all: seq<Token>)
    requires AllLexed(ts) && Cur(ts).typ == RELATION && ParseRelation(ts, refs, entity).Some?
    ensures var (r, rest, _) := ParseRelation(ts, refs, entity).value;
            Reads(ts, all, rest) && all == ItemTokens(RelationItem(r)) && ItemFits(RelationItem(r)) && AllLexed(rest)
  {
    var (r, rest, _) := ParseRelation(ts, refs, entity).value;
    var t1 := Next(ts);
    KeywordIsWord(ts);
    hide Goes, Reads, ParseTypes, TypesTokens, Lexed;
    var tail, more := TypesReads(t1, []);
    ReadsOne(ts);
    ReadsOne(t1);
    ReadsOn(ts, [Cur(ts)], ts, [Cur(t1)], t1);
    ReadsBehind(ts, [Cur(ts)] + [Cur(t1)], t1, tail, rest);
    assert [] + more == more;
    all := [Cur(ts)] + [Cur(t1)] + tail;
  }

  /** A keyword or a mark is spelt in one way only. */
  lemma {:induction false} KeywordIsWord(ts: seq<Token>)
    requires AllLexed(ts)
    ensures AllLexed(Next(ts)) && Lexed(Cur(ts))
    ensures Cur(ts).typ == RELATION ==> Cur(ts) == Word("relation")
    ensures Cur(ts).typ == ACTION ==> Cur(ts) == Word("action")
    ensures Cur(ts).typ == ENTITY ==> Cur(ts) == Word("entity")
    ensures Cur(ts).typ == ASSIGN ==> Cur(ts) == Sym('=')
    ensures Cur(ts).typ == SIGN ==> Cur(ts) == Sym('@')
    ensures Cur(ts).typ == HASH ==> Cur(ts) == Sym('#')
    ensures Cur(ts).typ == RBRACE ==> Cur(ts) == Sym('}')
    ensures Cur(ts).typ == IDENT ==> GoodName(Cur(ts))
  {
  }

  // ---------------------------------------------------------------- actions

  lemma {:induction false} ExpressionPart(ts: seq<Token>) returns (all: seq<Token>, closing: seq<Token>)
    requires AllLexed(ts) && ParseExpressionStatement(ts).Some?
    ensures var (e, rest) := ParseExpressionStatement(ts).value;
            && Reads(ts, all + closing, rest) && IsClosing(closing) && AllLexed(rest)
            && (NamedLeaves(e) ==> Marked(e) == Grouped(all, true) && Flat(e) == Bare(all))
  {
    hide Goes, Reads, Marked, Grouped, Flat, Bare, ParseExpression, Lexed, AllLexed, NamedLeaves, IsClosing, SkipParens;
    var at := ParseExpression(ts, LOWEST).value.1;
    all := ExpressionItself(ts);
    closing := ClosingPart(at);
    ReadsBehind(ts, all, at, closing, if Peek(at).typ == RPAREN then SkipParens(Next(at)) else at);
  }

  lemma {:induction false} ExpressionItself(ts: seq<Token>) returns (all: seq<Token>)
    requires AllLexed(ts) && ParseExpression(ts, LOWEST).Some?
    ensures var (e, at) := ParseExpression(ts, LOWEST).value;
            && Reads(ts, all, at) && AllLexed(at)
            && (NamedLeaves(e) ==> Marked(e) == Grouped(all, true) && Flat(e) == Bare(all))
  {
    hide Goes, Marked, Grouped, Flat, Bare, ParseExpression, Lexed;
    var e := ParseExpression(ts, LOWEST).value.0;
    var tail := ExpressionReads(ts, LOWEST);
    ExpressionShape(ts, LOWEST);
    all := [Cur(ts)] + tail;
    assert all[1..] == tail;
    if NamedLeaves(e) {
      ReadIsFlat(e, all, true);
    }
  }

  lemma {:induction false} ClosingPart(at: seq<Token>) returns (closing: seq<Token>)
    requires AllLexed(at)
    ensures var rest := if Peek(at).typ == RPAREN then SkipParens(Next(at)) else at;
            Goes(at, closing, rest) && IsClosing(closing) && AllLexed(rest)
  {
    hide Goes, Lexed;
    closing := [];
    NothingRead(at);
    if Peek(at).typ == RPAREN {
      var more := ClosingGoes(Next(at));
      GoesOne(at);
      GoesOn(at, [Peek(at)], Next(at), more, SkipParens(Next(at)));
      closing := [Peek(at)] + more;
      SkippedIsLexed(Next(at));
    }
  }

  lemma {:induction false} SkippedIsLexed(ts: seq<Token>)
    requires AllLexed(ts)
    ensures AllLexed(SkipParens(ts))
    decreases |ts|
  {
    if Cur(ts).typ == RPAREN {
      SkippedIsLexed(Next(ts));
    }
  }

  lemma {:induction false} ActionReads(ts: seq<Token>, refs: References, entity: string) returns (it: Item)
    requires AllLexed(ts) && Cur(ts).typ == ACTION && ParseAction(ts, refs, entity).Some?
    ensures var (a, rest, _) := ParseAction(ts, refs, entity).value;
            && it.ActionItem? && it.action == a
            && Reads(ts, ItemTokens(it), rest) && ItemFits(it) && AllLexed(rest)
  {
    var (a, rest, _) := ParseAction(ts, refs, entity).value;
    var t1, t2, t3 := Next(ts), Next(Next(ts)), Next(Next(Next(ts)));
    hide ItemFits, Goes, Reads, ParseExpressionStatement, Lexed, AllLexed, Marked, Grouped, Flat, Bare, NamedLeaves,
      IsClosing, Word, Sym;
    KeywordIsWord(ts);
    KeywordIsWord(t1);
    KeywordIsWord(t2);
    var all, closing := ExpressionPart(t3);
    it := ActionItem(a, all, closing);
    HeaderReads(ts);
    ReadsOn(ts, [Cur(ts), Cur(t1), Cur(t2)], t2, all + closing, rest);
    Regroup([Cur(ts), Cur(t1), Cur(t2)], all, closing);
    ActionFits(it);
  }

  lemma {:induction false} HeaderReads(ts: seq<Token>)
    ensures Reads(ts, [Cur(ts), Cur(Next(ts)), Cur(Next(Next(ts)))], Next(Next(ts)))
  {
    GoesTwo(ts);
  }

  lemma {:induction false} ActionFits(it: Item)
    requires it.ActionItem? && IsClosing(it.closing)
    requires NamedLeaves(it.action.expression) ==>
               Marked(it.action.expression) == Grouped(it.all, true) && Flat(it.action.expression) == Bare(it.all)
    ensures ItemFits(it)
  {
  }

  // ---------------------------------------------------------------- bodies

  lemma {:induction false} BodyReads(ts: seq<Token>, refs: References, e: EntityStatement) returns (items: seq<Item>)
    requires AllLexed(ts) && ParseBody(ts, refs, e).Some?
    ensures var (out, rest, _) := ParseBody(ts, refs, e).value;
            && Reads(ts, ItemsTokens(items) + [Sym('}')], rest) && AllLexed(rest)
            && out == EntityStatement(e.name, e.relations + RelationsOf(items), e.actions + ActionsOf(items))
    ensures forall it :: it in items ==> ItemFits(it)
    ensures Cur(ts).typ == LBRACE ==> items != [] && items[0] == Gap(Cur(ts))
    decreases |ts|
  {
    hide Reads, Lexed, ParseRelation, ParseAction, ItemFits, ItemTokens;
    var (out, rest, _) := ParseBody(ts, refs, e).value;
    KeywordIsWord(ts);
    ReadsOne(ts);
    if Cur(ts).typ == RBRACE {
      items := [];
      assert ItemsTokens([]) + [Sym('}')] == [Cur(ts)];
      assert e.relations + [] == e.relations && e.actions + [] == e.actions;
    } else {
      var it, at, refs', e' := Gap(Cur(ts)), ts, refs, e;
      if Cur(ts).typ == RELATION {
        var all := RelationReads(ts, refs, e.name.literal);
        var (r, at', refs1) := ParseRelation(ts, refs, e.name.literal).value;
        it, at, refs', e' := RelationItem(r), at', refs1, e.(relations := e.relations + [r]);
      } else if Cur(ts).typ == ACTION {
        it := ActionReads(ts, refs, e.name.literal);
        var (a, at', refs1) := ParseAction(ts, refs, e.name.literal).value;
        at, refs', e' := at', refs1, e.(actions := e.actions + [a]);
      } else {
        GapReads(ts);
      }
      KeywordIsWord(at);
      var more := BodyReads(Next(at), refs', e');
      items := [it] + more;
      ReadsOn(ts, ItemTokens(it), at, ItemsTokens(more) + [Sym('}')], rest);
      ItemsAppend(it, more, e);
    }
  }

  lemma {:induction false} GapReads(ts: seq<Token>)
    ensures Reads(ts, ItemTokens(Gap(Cur(ts))), ts)
    ensures Cur(ts).typ == NEWLINE || Cur(ts).typ == LBRACE ==> ItemFits(Gap(Cur(ts)))
  {
    ReadsOne(ts);
  }

  lemma {:induction false} ItemsAppend(it: Item, more: seq<Item>, e: EntityStatement)
    ensures ItemsTokens([it] + more) + [Sym('}')] == ItemTokens(it) + (ItemsTokens(more) + [Sym('}')])
    ensures e.relations + RelationsOf([it] + more) ==
            (if it.RelationItem? then e.relations + [it.relation] else e.relations) + RelationsOf(more)
    ensures e.actions + ActionsOf([it] + more) ==
            (if it.ActionItem? then e.actions + [it.action] else e.actions) + ActionsOf(more)
  {
    hide ItemTokens;
    var items := [it] + more;
    assert items[0] == it && items[1..] == more;
    Regroup(e.relations, if it.RelationItem? then [it.relation] else [], RelationsOf(more));
    Regroup(e.actions, if it.ActionItem? then [it.action] else [], ActionsOf(more));
    Regroup(ItemTokens(it), ItemsTokens(more), [Sym('}')]);
  }

  lemma {:induction false} Regroup<X>(a: seq<X>, b: seq<X>, c: seq<X>)
    ensures a + (b + c) == a + b + c && a + [] == a
  {
  }

  lemma {:induction false} EntityReads(ts: seq<Token>, refs: References) returns (p: Piece)
    requires AllLexed(ts) && Cur(ts).typ == ENTITY && ParseEntity(ts, refs).Some?
    ensures var (e, rest, _) := ParseEntity(ts, refs).value;
            && p.EntityPiece? && e == EntityStatement(p.name, RelationsOf(p.items), ActionsOf(p.items))
            && Reads(ts, PieceTokens(p), rest) && PieceFits(p) && AllLexed(rest)
  {
    var (e, rest, _) := ParseEntity(ts, refs).value;
    var t1, t2, name := Next(ts), Next(Next(ts)), Peek(ts);
    KeywordIsWord(ts);
    KeywordIsWord(t1);
    KeywordIsWord(t2);
    hide Reads, Lexed, ParseBody, ItemFits;
    var items := BodyReads(t2, AddEntity(refs, name.literal).value, EntityStatement(name, [], []));
    ReadsOne(ts);
    ReadsOne(t1);
    ReadsOn(ts, [Cur(ts)], ts, [Cur(t1)], t1);
    ReadsOn(ts, [Cur(ts)] + [Cur(t1)], t1, ItemsTokens(items) + [Sym('}')], rest);
    p := EntityPiece(name, items);
    assert [Cur(ts)] + [Cur(t1)] + (ItemsTokens(items) + [Sym('}')]) == PieceTokens(p);
    assert [] + RelationsOf(items) == RelationsOf(items) && [] + ActionsOf(items) == ActionsOf(items);
  }

  // ---------------------------------------------------------------- texts

  lemma {:induction false} StatementsRead(ts: seq<Token>, refs: References, es: seq<EntityStatement>)
    returns (ps: seq<Piece>, rest: seq<Token>)
    requires AllLexed(ts) && ParseStatements(ts, refs, es).Some?
    ensures Reads(ts, PiecesTokens(ps) + [Cur(rest)], rest) && Cur(rest).typ == EOF
    ensures ParseStatements(ts, refs, es).value.statements == es + StatementsOf(ps)
    ensures forall p :: p in ps ==> PieceFits(p)
    decreases |ts|
  {
    hide Reads, Lexed, AllLexed, ParseEntity, PieceFits, PieceTokens;
    KeywordIsWord(ts);
    ReadsOne(ts);
    if Cur(ts).typ == EOF {
      ps, rest := [], ts;
      assert PiecesTokens([]) + [Cur(rest)] == [Cur(ts)];
      assert es + StatementsOf([]) == es;
    } else {
      var p, at, refs', es' := Skipped(Cur(ts)), ts, refs, es;
      if Cur(ts).typ == ENTITY {
        p := EntityReads(ts, refs);
        var (e, at', refs1) := ParseEntity(ts, refs).value;
        at, refs', es' := at', refs1, es + [e];
      } else {
        SkippedReads(ts);
      }
      KeywordIsWord(at);
      var more;
      more, rest := StatementsRead(Next(at), refs', es');
      ps := [p] + more;
      ReadsOn(ts, PieceTokens(p), at, PiecesTokens(more) + [Cur(rest)], rest);
      PiecesAppend(p, more, es, Cur(rest));
    }
  }

  lemma {:induction false} PiecesAppend(p: Piece, more: seq<Piece>, es: seq<EntityStatement>, end: Token)
    ensures PiecesTokens([p] + more) + [end] == PieceTokens(p) + (PiecesTokens(more) + [end])
    ensures es + StatementsOf([p] + more) ==
            (if p.EntityPiece? then es + [EntityStatement(p.name, RelationsOf(p.items), ActionsOf(p.items))] else es) +
            StatementsOf(more)
  {
    hide PieceTokens, RelationsOf, ActionsOf;
    var ps := [p] + more;
    assert ps[0] == p && ps[1..] == more;
    Regroup(es, if p.EntityPiece? then [EntityStatement(p.name, RelationsOf(p.items), ActionsOf(p.items))] else [],
            StatementsOf(more));
    Regroup(PieceTokens(p), PiecesTokens(more), [end]);
  }

  lemma {:induction false} SkippedReads(ts: seq<Token>)
    ensures Reads(ts, PieceTokens(Skipped(Cur(ts))), ts)
    ensures Cur(ts).typ != ENTITY && Cur(ts).typ != EOF ==> PieceFits(Skipped(Cur(ts)))
  {
    ReadsOne(ts);
  }

  /** What is read lies in front, token by token; behind the last token there are only EOF tokens. */
  ghost predicate InFront(all: seq<Token>, ts: seq<Token>) {
    forall i :: 0 <= i < |all| ==> all[i] == if i < |ts| then ts[i] else END
  }

  lemma {:induction false} ReadIsInFront(ts: seq<Token>, all: seq<Token>, rest: seq<Token>)
    requires Reads(ts, all, rest)
    ensures InFront(all, ts)
    decreases |all|
  {
    if |all| > 1 {
      assert all[1..][0] == Cur(Next(ts));
      ReadIsInFront(Next(ts), all[1..], rest);
      forall i | 0 < i < |all|
        ensures all[i] == if i < |ts| then ts[i] else END
      {
        assert all[i] == all[1..][i - 1];
      }
    }
  }

  /** Every text that parses is its pieces: their tokens, and then an EOF token, are those of the text from its start,
      behind the two unset ones of a new parser, and its statements are the entities among the pieces. */
  lemma {:induction false} TextIsItsPieces(text: string) returns (ps: seq<Piece>, end: Token)
    requires ParseText(text).Some?
    ensures end.typ == EOF && InFront(PiecesTokens(ps) + [end], [NO_TOKEN, NO_TOKEN] + LexAll(text))
    ensures ParseText(text).value.statements == StatementsOf(ps)
    ensures forall p :: p in ps ==> PieceFits(p)
  {
    LexAllIsLexed(text);
    assert AllLexed(Stream(text));
    var rest;
    ps, rest := StatementsRead(Stream(text), NO_REFERENCES, []);
    end := Cur(rest);
    ReadIsInFront(Stream(text), PiecesTokens(ps) + [end], rest);
    assert [] + StatementsOf(ps) == StatementsOf(ps);
  }
}
