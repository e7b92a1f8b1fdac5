/** Every text the parser accepts: what its statements and reference maps guarantee. */
module Parsed {
  import opened Base
  import opened Tokens
  import opened Ast
  import opened Grammar
  import opened TreeShape
  import opened Printed
  import opened Statements

  lemma {:induction false} TypeIsGood(ts: seq<Token>)
    requires AllLexed(ts) && Peek(ts).typ == SIGN && ParseType(ts).Some?
    ensures GoodType(ParseType(ts).value.0) && AllLexed(ParseType(ts).value.1)
  {
  }

  lemma {:induction false} TypesAreGood(ts: seq<Token>, types: seq<TypeStatement>)
    requires AllLexed(ts) && (forall i :: 0 <= i < |types| ==> GoodType(types[i])) && ParseTypes(ts, types).Some?
    ensures var (out, rest) := ParseTypes(ts, types).value;
            && AllLexed(rest) && |out| >= |types| && (forall i :: 0 <= i < |out| ==> GoodType(out[i]))
            && (Peek(ts).typ == SIGN ==> out != [])
    decreases |ts|
  {
    hide ParseType, Lexed, GoodType;
    if Peek(ts).typ == SIGN {
      TypeIsGood(ts);
      var (t, rest) := ParseType(ts).value;
      TypesAreGood(rest, types + [t]);
    }
  }

  lemma {:induction false} RelationIsGood(ts: seq<Token>, refs: References, entity: string)
    requires AllLexed(ts) && ParseRelation(ts, refs, entity).Some?
    ensures var (r, rest, refs') := ParseRelation(ts, refs, entity).value;
            && GoodRelation(r) && AllLexed(rest)
            && AddRelation(refs, Key(entity, r.name.literal), r.types) == Some(refs')
  {
    TypesAreGood(Next(ts), []);
  }

  lemma {:induction false} ActionIsParsed(ts: seq<Token>, refs: References, entity: string)
    requires AllLexed(ts) && ParseAction(ts, refs, entity).Some?
    ensures var (a, rest, refs') := ParseAction(ts, refs, entity).value;
            && ParsedAction(a) && AllLexed(rest)
            && AddAction(refs, Key(entity, a.name.literal)) == Some(refs')
  {
    AcceptedExpressionIsWellShaped(Next(Next(Next(ts))));
  }

  lemma {:induction false} BodyKeepsSound(ts: seq<Token>, refs: References, es: seq<EntityStatement>,
                                          e: EntityStatement)
    requires AllLexed(ts) && Sound(refs, es + [e]) && ParseBody(ts, refs, e).Some?
    ensures var (out, rest, refs') := ParseBody(ts, refs, e).value;
            AllLexed(rest) && Sound(refs', es + [out])
    decreases |ts|
  {
    hide Sound, ParseRelation, ParseAction;
    if Cur(ts).typ == RELATION {
      RelationIsGood(ts, refs, e.name.literal);
      var (r, rest, refs') := ParseRelation(ts, refs, e.name.literal).value;
      AddRelationKeeps(refs, es, e, r);
      BodyKeepsSound(Next(rest), refs', es, e.(relations := e.relations + [r]));
    } else if Cur(ts).typ == ACTION {
      ActionIsParsed(ts, refs, e.name.literal);
      var (a, rest, refs') := ParseAction(ts, refs, e.name.literal).value;
      AddActionKeeps(refs, es, e, a);
      BodyKeepsSound(Next(rest), refs', es, e.(actions := e.actions + [a]));
    } else if Cur(ts).typ == NEWLINE || Cur(ts).typ == LBRACE {
      BodyKeepsSound(Next(ts), refs, es, e);
    }
  }

  lemma {:induction false} StatementsKeepSound(ts: seq<Token>, refs: References, es: seq<EntityStatement>)
    requires AllLexed(ts) && Sound(refs, es) && ParseStatements(ts, refs, es).Some?
    ensures var s := ParseStatements(ts, refs, es).value; Sound(s.refs, s.statements)
    decreases |ts|
  {
    hide Sound, ParseBody;
    if Cur(ts).typ == EOF {
    } else if Cur(ts).typ == ENTITY {
      var (e, rest, refs') := ParseEntity(ts, refs).value;
      var name := Peek(ts);
      AddEntityKeeps(refs, es, name);
      BodyKeepsSound(Next(Next(ts)), AddEntity(refs, name.literal).value, es, EntityStatement(name, [], []));
      StatementsKeepSound(Next(rest), refs', es + [e]);
    } else {
      StatementsKeepSound(Next(ts), refs, es);
    }
  }

  /** For every text the parser accepts, the maps describe exactly the statements read, names are told apart, and
      every expression with identifier leaves is well shaped. */
  lemma {:induction false} AcceptedTextIsSound(text: string)
    requires ParseText(text).Some?
    ensures var s := ParseText(text).value; Sound(s.refs, s.statements)
  {
    LexAllIsLexed(text);
    assert AllLexed(Stream(text));
    assert Sound(NO_REFERENCES, []);
    StatementsKeepSound(Stream(text), NO_REFERENCES, []);
  }
}
