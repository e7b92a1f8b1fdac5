/** Printed statements are read back: `parse(print(es)) == es`, with maps that describe `es`. */
module Reread {
  import opened Base
  import opened Tokens
  import opened Ast
  import opened Lexer
  import opened Grammar
  import opened Printed
  import opened Reparse
  import opened Statements

  // ---------------------------------------------------------------- relations and actions

  /** The token the parser stands on when it has read the types behind token `x`. */
  function LastOfTypes(x: Token, types: seq<TypeStatement>): Token
    decreases |types|
  {
    if types == [] then x
    else LastOfTypes(if types[0].relation == NO_TOKEN then types[0].typ else types[0].relation, types[1..])
  }

  lemma {:induction false} ParsePrintedType(x: Token, t: TypeStatement, rest: seq<Token>)
    requires GoodType(t) && rest != [] && rest[0].typ != HASH
    ensures Peek([x] + TypeTokens(t, rest)).typ == SIGN
    ensures ParseType([x] + TypeTokens(t, rest)) ==
            Some((t, [if t.relation == NO_TOKEN then t.typ else t.relation] + rest))
  {
    if t.relation == NO_TOKEN {
      DirectType(x, t.typ, rest);
    } else {
      UsersetType(x, t.typ, t.relation, rest);
    }
  }

  lemma {:induction false} DirectType(x: Token, typ: Token, rest: seq<Token>)
    requires typ.typ == IDENT && rest != [] && rest[0].typ != HASH
    ensures ParseType([x] + ([Sym('@')] + ([typ] + rest))) == Some((TypeStatement(typ, NO_TOKEN), [typ] + rest))
  {
    var ts := [x] + ([Sym('@')] + ([typ] + rest));
    assert Next(ts) == [Sym('@')] + ([typ] + rest);
    assert Next(Next(ts)) == [typ] + rest;
    assert Peek([typ] + rest) == rest[0];
  }

  lemma {:induction false} UsersetType(x: Token, typ: Token, relation: Token, rest: seq<Token>)
    requires typ.typ == IDENT && relation.typ == IDENT
    ensures ParseType([x] + ([Sym('@')] + ([typ] + ([Sym('#')] + ([relation] + rest))))) ==
            Some((TypeStatement(typ, relation), [relation] + rest))
  {
    var ts := [x] + ([Sym('@')] + ([typ] + ([Sym('#')] + ([relation] + rest))));
    assert Next(ts) == [Sym('@')] + ([typ] + ([Sym('#')] + ([relation] + rest)));
    assert Next(Next(ts)) == [typ] + ([Sym('#')] + ([relation] + rest));
    assert Next(Next(Next(ts))) == [Sym('#')] + ([relation] + rest);
    assert Next(Next(Next(Next(ts)))) == [relation] + rest;
  }

  lemma {:induction false} ParsePrintedTypes(x: Token, types: seq<TypeStatement>, acc: seq<TypeStatement>,
                                             rest: seq<Token>)
    requires (forall i :: 0 <= i < |types| ==> GoodType(types[i]))
    requires rest != [] && rest[0].typ != HASH && rest[0].typ != SIGN
    ensures ParseTypes([x] + TypesTokens(types, rest), acc) == Some((acc + types, [LastOfTypes(x, types)] + rest))
    decreases |types|
  {
    hide TypeTokens, ParseType;
    if types == [] {
      assert Peek([x] + rest) == rest[0];
      assert acc + types == acc;
    } else {
      var t := types[0];
      var more := TypesTokens(types[1..], rest);
      TypesStart(types[1..], rest);
      ParsePrintedType(x, t, more);
      var y := if t.relation == NO_TOKEN then t.typ else t.relation;
      ParsePrintedTypes(y, types[1..], acc + [t], rest);
      assert acc + [t] + types[1..] == acc + types;
    }
  }

  lemma {:induction false} TypesStart(types: seq<TypeStatement>, rest: seq<Token>)
    requires rest != [] && rest[0].typ != HASH
    ensures TypesTokens(types, rest) != [] && TypesTokens(types, rest)[0].typ != HASH
    ensures types != [] ==> TypesTokens(types, rest)[0].typ == SIGN
  {
  }

  lemma {:induction false} ParsePrintedRelation(r: RelationStatement, refs: References, entity: string,
                                                rest: seq<Token>)
    requires GoodRelation(r) && rest != [] && rest[0].typ == NEWLINE
    requires AddRelation(refs, Key(entity, r.name.literal), r.types).Some?
    ensures Cur(RelationTokens(r, rest)).typ == RELATION
    ensures ParseRelation(RelationTokens(r, rest), refs, entity) ==
            Some((r, [LastOfTypes(r.name, r.types)] + rest,
                  AddRelation(refs, Key(entity, r.name.literal), r.types).value))
  {
    hide TypesTokens, ParseTypes, AddRelation, LastOfTypes;
    var ts := RelationTokens(r, rest);
    var types := TypesTokens(r.types, rest);
    assert Next(ts) == [r.name] + types;
    TypesStart(r.types, rest);
    assert Peek(Next(ts)) == types[0];
    ParsePrintedTypes(r.name, r.types, [], rest);
    assert [] + r.types == r.types;
  }

  lemma {:induction false} ParsePrintedAction(a: ActionStatement, refs: References, entity: string, rest: seq<Token>)
    requires GoodAction(a) && rest != [] && rest[0].typ == NEWLINE
    requires AddAction(refs, Key(entity, a.name.literal)).Some?
    ensures Cur(ActionTokens(a, rest)).typ == ACTION
    ensures var r := ParseAction(ActionTokens(a, rest), refs, entity);
            && r.Some? && r.value.0 == a && r.value.2 == AddAction(refs, Key(entity, a.name.literal)).value
            && (r.value.1 == rest || Next(r.value.1) == rest)
  {
    hide ExpressionTokens, ParseExpressionStatement, AddAction;
    var ts := ActionTokens(a, rest);
    var body := ExpressionTokens(a.expression, rest);
    assert ts == [Word("action"), a.name, Sym('=')] + body;
    assert Next(ts) == [a.name, Sym('=')] + body;
    assert Next(Next(ts)) == [Sym('=')] + body;
    assert Next(Next(Next(ts))) == body;
    ParsePrintedStatement(a.expression, rest);
  }

  // ---------------------------------------------------------------- new names can be added

  ghost predicate OtherEntities(es: seq<EntityStatement>, e: EntityStatement) {
    GoodName(e.name) && forall x :: x in es ==> GoodName(x.name) && x.name.literal != e.name.literal
  }

  lemma {:induction false} FreshKey(es: seq<EntityStatement>, e: EntityStatement, x: EntityStatement, name: string,
                                    n: string)
    requires OtherEntities(es, e) && x in es + [e] && (x == e ==> n != name)
    ensures Key(x.name.literal, n) != Key(e.name.literal, name)
  {
    if Key(x.name.literal, n) == Key(e.name.literal, name) {
      assert x in es || x == e;
      MemberKeys(x, n, e, name);
    }
  }

  lemma {:induction false} NameIsFresh(refs: References, es: seq<EntityStatement>, e: EntityStatement, name: string)
    requires Describes(refs, es + [e]) && OtherEntities(es, e)
    requires (forall r :: r in e.relations ==> r.name.literal != name) &&
             (forall a :: a in e.actions ==> a.name.literal != name)
    ensures Key(e.name.literal, name) !in refs.relational
  {
    var key := Key(e.name.literal, name);
    forall x, r | x in es + [e] && r in x.relations
      ensures Key(x.name.literal, r.name.literal) != key
    {
      FreshKey(es, e, x, name, r.name.literal);
    }
    forall x, a | x in es + [e] && a in x.actions
      ensures Key(x.name.literal, a.name.literal) != key
    {
      FreshKey(es, e, x, name, a.name.literal);
    }
    var types := if key in refs.relations then refs.relations[key] else [];
    assert !HasRelation(es + [e], key, types);
    assert !HasAction(es + [e], key);
  }

  // ---------------------------------------------------------------- the body of an entity

  lemma {:induction false} ReadRelations(rs: seq<RelationStatement>, refs: References, es: seq<EntityStatement>,
                                         e: EntityStatement, rest: seq<Token>)
    returns (refs': References)
    requires Describes(refs, es + [e]) && OtherEntities(es, e)
    requires DistinctMembers(e.(relations := e.relations + rs))
    requires forall i :: 0 <= i < |rs| ==> GoodRelation(rs[i])
    ensures Describes(refs', es + [e.(relations := e.relations + rs)])
    ensures ParseBody(RelationsTokens(rs, rest), refs, e) == ParseBody(rest, refs', e.(relations := e.relations + rs))
    decreases |rs|
  {
    if rs == [] {
      assert e.relations + rs == e.relations;
      refs' := refs;
    } else {
      var r := rs[0];
      var e1 := e.(relations := e.relations + [r]);
      assert e1.relations + rs[1..] == e.relations + rs;
      RelationsAreDistinct(e, rs);
      NameIsFresh(refs, es, e, r.name.literal);
      AddRelationDescribes(refs, es, e, r);
      var refs1 := AddRelation(refs, Key(e.name.literal, r.name.literal), r.types).value;
      refs' := ReadRelations(rs[1..], refs1, es, e1, rest);
      BodyReadsRelation(r, refs, e, RelationsTokens(rs[1..], rest));
    }
  }

  lemma {:induction false} RelationsAreDistinct(e: EntityStatement, rs: seq<RelationStatement>)
    requires rs != [] && DistinctMembers(e.(relations := e.relations + rs))
    ensures forall q :: q in e.relations ==> q.name.literal != rs[0].name.literal
    ensures forall a :: a in e.actions ==> a.name.literal != rs[0].name.literal
  {
    var all := e.relations + rs;
    assert all[|e.relations|] == rs[0];
    forall i | 0 <= i < |e.relations|
      ensures e.relations[i].name.literal != rs[0].name.literal
    {
      assert all[i] == e.relations[i];
    }
    assert rs[0] in all;
  }

  lemma {:induction false} BodyReadsRelation(r: RelationStatement, refs: References, e: EntityStatement,
                                             more: seq<Token>)
    requires GoodRelation(r) && AddRelation(refs, Key(e.name.literal, r.name.literal), r.types).Some?
    ensures ParseBody(RelationTokens(r, [Sym('\n')] + more), refs, e) ==
            ParseBody(more, AddRelation(refs, Key(e.name.literal, r.name.literal), r.types).value,
                      e.(relations := e.relations + [r]))
  {
    hide RelationTokens, ParseRelation, AddRelation;
    var line := [Sym('\n')] + more;
    ParsePrintedRelation(r, refs, e.name.literal, line);
    assert Next([LastOfTypes(r.name, r.types)] + line) == line;
    assert Next(line) == more && Cur(line).typ == NEWLINE;
  }

  lemma {:induction false} ReadActions(acts: seq<ActionStatement>, refs: References, es: seq<EntityStatement>,
                                       e: EntityStatement, rest: seq<Token>)
    returns (refs': References)
    requires Describes(refs, es + [e]) && OtherEntities(es, e)
    requires DistinctMembers(e.(actions := e.actions + acts))
    requires forall i :: 0 <= i < |acts| ==> GoodAction(acts[i])
    ensures Describes(refs', es + [e.(actions := e.actions + acts)])
    ensures ParseBody(ActionsTokens(acts, rest), refs, e) == ParseBody(rest, refs', e.(actions := e.actions + acts))
    decreases |acts|
  {
    if acts == [] {
      assert e.actions + acts == e.actions;
      refs' := refs;
    } else {
      var a := acts[0];
      var e1 := e.(actions := e.actions + [a]);
      assert e1.actions + acts[1..] == e.actions + acts;
      ActionsAreDistinct(e, acts);
      NameIsFresh(refs, es, e, a.name.literal);
      ActionKeyIsFree(refs, es, e, a.name.literal);
      AddActionDescribes(refs, es, e, a);
      var refs1 := AddAction(refs, Key(e.name.literal, a.name.literal)).value;
      refs' := ReadActions(acts[1..], refs1, es, e1, rest);
      BodyReadsAction(a, refs, e, ActionsTokens(acts[1..], rest));
    }
  }

  lemma {:induction false} ActionKeyIsFree(refs: References, es: seq<EntityStatement>, e: EntityStatement, name: string)
    requires Describes(refs, es + [e]) && Key(e.name.literal, name) !in refs.relational
    ensures AddAction(refs, Key(e.name.literal, name)).Some?
  {
  }

  lemma {:induction false} ActionsAreDistinct(e: EntityStatement, acts: seq<ActionStatement>)
    requires acts != [] && DistinctMembers(e.(actions := e.actions + acts))
    ensures forall q :: q in e.actions ==> q.name.literal != acts[0].name.literal
    ensures forall r :: r in e.relations ==> r.name.literal != acts[0].name.literal
  {
    var all := e.actions + acts;
    assert all[|e.actions|] == acts[0];
    forall i | 0 <= i < |e.actions|
      ensures e.actions[i].name.literal != acts[0].name.literal
    {
      assert all[i] == e.actions[i];
    }
    assert acts[0] in all;
  }

  lemma {:induction false} BodyReadsAction(a: ActionStatement, refs: References, e: EntityStatement, more: seq<Token>)
    requires GoodAction(a) && AddAction(refs, Key(e.name.literal, a.name.literal)).Some?
    ensures ParseBody(ActionTokens(a, [Sym('\n')] + more), refs, e) ==
            ParseBody(more, AddAction(refs, Key(e.name.literal, a.name.literal)).value, e.(actions := e.actions + [a]))
  {
    hide ActionTokens, ParseAction, AddAction;
    var line := [Sym('\n')] + more;
    ParsePrintedAction(a, refs, e.name.literal, line);
    assert Next(line) == more && Cur(line).typ == NEWLINE;
  }

  // ---------------------------------------------------------------- entities

  lemma {:induction false} ReadEntity(e: EntityStatement, refs: References, es: seq<EntityStatement>, rest: seq<Token>)
    returns (refs': References)
    requires GoodEntity(e) && DistinctMembers(e) && OtherEntities(es, e) && Describes(refs, es)
    ensures Describes(refs', es + [e])
    ensures ParseEntity(EntityTokens(e, rest), refs) == Some((e, [Sym('}')] + ([Sym('\n')] + rest), refs'))
  {
    hide RelationsTokens, ActionsTokens, EntityTokens, ParseBody, ParseEntity;
    var empty := EntityStatement(e.name, [], []);
    assert !HasEntity(es, e.name.literal);
    var refs0 := AddEntity(refs, e.name.literal).value;
    AddEntityDescribes(refs, es, e.name);
    EntityHead(e, refs, rest);
    var end := [Sym('}')] + ([Sym('\n')] + rest);
    var actions := ActionsTokens(e.actions, end);
    var e1 := EntityStatement(e.name, e.relations, []);
    assert empty.relations + e.relations == e.relations && e1.actions + e.actions == e.actions;
    var refs1 := ReadRelations(e.relations, refs0, es, empty, [Sym('\n')] + actions);
    assert Next([Sym('\n')] + actions) == actions;
    BodySkips([Sym('\n')] + actions, refs1, e1);
    refs' := ReadActions(e.actions, refs1, es, e1, end);
    BodyEnds([Sym('\n')] + rest, refs', e);
  }

  lemma {:induction false} BodyEnds(rest: seq<Token>, refs: References, e: EntityStatement)
    ensures ParseBody([Sym('}')] + rest, refs, e) == Some((e, [Sym('}')] + rest, refs))
  {
  }

  lemma {:induction false} AddEntityDescribes(refs: References, es: seq<EntityStatement>, name: Token)
    requires Describes(refs, es) && AddEntity(refs, name.literal).Some?
    ensures Describes(AddEntity(refs, name.literal).value, es + [EntityStatement(name, [], [])])
  {
    var e := EntityStatement(name, [], []);
    assert forall x :: x in es + [e] <==> x in es || x == e;
    assert e in es + [e];
    forall n
      ensures HasEntity(es + [e], n) <==> HasEntity(es, n) || n == name.literal
    {
      if x :| x in es && x.name.literal == n {
        assert x in es + [e];
      }
    }
    forall k, ts
      ensures HasRelation(es + [e], k, ts) <==> HasRelation(es, k, ts)
    {
    }
    forall k
      ensures HasAction(es + [e], k) <==> HasAction(es, k)
    {
    }
  }

  /** The head of an entity statement, up to its body. */
  lemma {:induction false} EntityHead(e: EntityStatement, refs: References, rest: seq<Token>)
    requires GoodName(e.name) && AddEntity(refs, e.name.literal).Some?
    ensures var body := RelationsTokens(e.relations,
                                        [Sym('\n')] + ActionsTokens(e.actions, [Sym('}')] + ([Sym('\n')] + rest)));
            ParseEntity(EntityTokens(e, rest), refs) ==
            ParseBody(body, AddEntity(refs, e.name.literal).value, EntityStatement(e.name, [], []))
  {
    hide RelationsTokens, ActionsTokens, AddEntity, ParseBody, ParseEntity;
    var body := RelationsTokens(e.relations, [Sym('\n')] + ActionsTokens(e.actions, [Sym('}')] + ([Sym('\n')] + rest)));
    ParseHead(e.name, refs, [Sym('{')] + ([Sym('\n')] + body));
    var e0 := EntityStatement(e.name, [], []);
    var refs0 := AddEntity(refs, e.name.literal).value;
    BodySkips([Sym('{')] + ([Sym('\n')] + body), refs0, e0);
    assert Next([Sym('{')] + ([Sym('\n')] + body)) == [Sym('\n')] + body;
    BodySkips([Sym('\n')] + body, refs0, e0);
    assert Next([Sym('\n')] + body) == body;
  }

  lemma {:induction false} ParseHead(name: Token, refs: References, body: seq<Token>)
    requires GoodName(name) && AddEntity(refs, name.literal).Some? && Cur(body).typ == LBRACE
    ensures ParseEntity([Word("entity")] + ([name] + body), refs) ==
            ParseBody(body, AddEntity(refs, name.literal).value, EntityStatement(name, [], []))
  {
    hide AddEntity, ParseBody;
    var ts := [Word("entity")] + ([name] + body);
    assert Peek(ts) == name && Next(ts) == [name] + body;
    assert Peek(Next(ts)) == body[0] && Next(Next(ts)) == body;
  }

  lemma {:induction false} BodySkips(ts: seq<Token>, refs: References, e: EntityStatement)
    requires Cur(ts).typ == LBRACE || Cur(ts).typ == NEWLINE
    ensures ParseBody(ts, refs, e) == ParseBody(Next(ts), refs, e)
  {
  }

  // ---------------------------------------------------------------- whole schemas

  /** The stored definitions joined with line breaks, as a reader of the whole schema joins them. */
  function JoinedText(es: seq<EntityStatement>): string {
    if es == [] then ""
    else if |es| == 1 then EntityText(es[0], "")
    else EntityText(es[0], ['\n'] + JoinedText(es[1..]))
  }

  function JoinedTokens(es: seq<EntityStatement>): seq<Token> {
    if es == [] then []
    else if |es| == 1 then EntityTokens(es[0], [])
    else EntityTokens(es[0], [Sym('\n')] + JoinedTokens(es[1..]))
  }

  lemma {:induction false} LexJoined(es: seq<EntityStatement>)
    requires forall i :: 0 <= i < |es| ==> GoodEntity(es[i])
    ensures LexAll(JoinedText(es)) == JoinedTokens(es)
  {
    hide LexAll, EntityText, EntityTokens;
    if |es| == 1 {
      LexEntity(es[0], "");
      LexEmpty();
    } else if |es| > 1 {
      LexJoined(es[1..]);
      LexSymbol('\n', JoinedText(es[1..]));
      LexEntity(es[0], ['\n'] + JoinedText(es[1..]));
    } else {
      LexEmpty();
    }
  }

  lemma {:induction false} LexEmpty()
    ensures LexAll("") == []
  {
  }

  lemma {:induction false} ReadJoined(es: seq<EntityStatement>, refs: References, before: seq<EntityStatement>)
    returns (refs': References)
    requires Describes(refs, before) && Distinct(before + es)
    requires forall i :: 0 <= i < |es| ==> GoodEntity(es[i])
    requires forall x :: x in before ==> GoodName(x.name)
    ensures Describes(refs', before + es)
    ensures ParseStatements(JoinedTokens(es), refs, before) == Some(Schema(before + es, refs'))
    decreases |es|
  {
    hide EntityTokens, ParseEntity, Describes;
    if es == [] {
      assert before + es == before;
      refs' := refs;
    } else {
      var e := es[0];
      FirstOfRest(before, es);
      var rest := if |es| == 1 then [] else [Sym('\n')] + JoinedTokens(es[1..]);
      EntityStarts(e, rest);
      var refs1 := ReadEntity(e, refs, before, rest);
      assert before + [e] + es[1..] == before + es;
      refs' := ReadJoined(es[1..], refs1, before + [e]);
      var after := [Sym('}')] + ([Sym('\n')] + rest);
      assert Next(after) == [Sym('\n')] + rest;
      SkipLineBreak(rest, refs1, before + [e]);
      if |es| > 1 {
        SkipLineBreak(JoinedTokens(es[1..]), refs1, before + [e]);
      }
    }
  }

  lemma {:induction false} EntityStarts(e: EntityStatement, rest: seq<Token>)
    ensures Cur(EntityTokens(e, rest)).typ == ENTITY
  {
  }

  lemma {:induction false} SkipLineBreak(ts: seq<Token>, refs: References, es: seq<EntityStatement>)
    ensures ParseStatements([Sym('\n')] + ts, refs, es) == ParseStatements(ts, refs, es)
  {
    assert Next([Sym('\n')] + ts) == ts;
  }

  lemma {:induction false} FirstOfRest(before: seq<EntityStatement>, es: seq<EntityStatement>)
    requires es != [] && Distinct(before + es) && GoodEntity(es[0])
    requires forall x :: x in before ==> GoodName(x.name)
    ensures DistinctMembers(es[0]) && OtherEntities(before, es[0])
  {
    var all := before + es;
    assert all[|before|] == es[0];
    assert es[0] in all;
    forall i | 0 <= i < |before|
      ensures before[i].name.literal != es[0].name.literal
    {
      assert all[i] == before[i];
    }
  }

  /** Printing and parsing: any good statements with distinct names, printed and joined in any order, are read back
      as exactly these statements, and the maps describe them. */
  lemma {:induction false} PrintedTextIsReadBack(es: seq<EntityStatement>)
    requires Distinct(es) && forall i :: 0 <= i < |es| ==> GoodEntity(es[i])
    ensures ParseText(JoinedText(es)).Some?
    ensures var s := ParseText(JoinedText(es)).value; s.statements == es && Describes(s.refs, es)
  {
    hide JoinedTokens, JoinedText, LexAll, ParseStatements;
    LexJoined(es);
    assert Describes(NO_REFERENCES, []);
    assert [] + es == es;
    var refs := ReadJoined(es, NO_REFERENCES, []);
    NothingReadYet(JoinedTokens(es), NO_REFERENCES, []);
  }

  lemma {:induction false} NothingReadYet(ts: seq<Token>, refs: References, es: seq<EntityStatement>)
    ensures ParseStatements([NO_TOKEN, NO_TOKEN] + ts, refs, es) == ParseStatements(ts, refs, es)
  {
    assert Next([NO_TOKEN, NO_TOKEN] + ts) == [NO_TOKEN] + ts;
    assert Next([NO_TOKEN] + ts) == ts;
  }

  /** The maps are determined by the statements, whatever their order. */
  lemma {:induction false} DescribedMapsAreEqual(refs: References, es: seq<EntityStatement>, refs': References,
                                                 es': seq<EntityStatement>)
    requires Describes(refs, es) && Describes(refs', es')
    requires forall e :: e in es <==> e in es'
    ensures refs == refs'
  {
    forall n
      ensures HasEntity(es, n) <==> HasEntity(es', n)
    {
    }
    forall k, ts
      ensures HasRelation(es, k, ts) <==> HasRelation(es', k, ts)
    {
    }
    forall k
      ensures HasAction(es, k) <==> HasAction(es', k)
    {
    }
    assert refs.entities == refs'.entities;
    assert refs.actions == refs'.actions;
    forall k
      ensures k in refs.relations <==> k in refs'.relations
      ensures k in refs.relations ==> refs.relations[k] == refs'.relations[k]
    {
      if k in refs.relations {
        assert HasRelation(es', k, refs.relations[k]);
      }
      if k in refs'.relations {
        assert HasRelation(es, k, refs'.relations[k]);
      }
    }
    assert refs.relations == refs'.relations;
    assert refs.relational == refs'.relational;
  }
}
