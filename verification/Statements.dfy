/** The reference maps of the parser describe exactly the statements it has read, and tell all names apart. */
module Statements {
  import opened Base
  import opened Fields
  import opened Tokens
  import opened Ast
  import opened Grammar
  import opened TreeShape
  import opened Printed

  // ---------------------------------------------------------------- maps and statements

  ghost predicate HasEntity(es: seq<EntityStatement>, name: string) {
    exists e :: e in es && e.name.literal == name
  }

  ghost predicate HasRelation(es: seq<EntityStatement>, key: string, types: seq<TypeStatement>) {
    exists e, r :: e in es && r in e.relations && key == Key(e.name.literal, r.name.literal) && types == r.types
  }

  ghost predicate HasAction(es: seq<EntityStatement>, key: string) {
    exists e, a :: e in es && a in e.actions && key == Key(e.name.literal, a.name.literal)
  }

  /** The maps hold the names of `es` and nothing else; the relational map is the disjoint union of the relations
      and the actions, with the right kinds. */
  ghost predicate Describes(refs: References, es: seq<EntityStatement>) {
    && (forall n :: n in refs.entities <==> HasEntity(es, n))
    && (forall k, ts :: (k in refs.relations && refs.relations[k] == ts) <==> HasRelation(es, k, ts))
    && (forall k :: k in refs.actions <==> HasAction(es, k))
    && refs.relations.Keys !! refs.actions
    && refs.relational.Keys == refs.relations.Keys + refs.actions
    && (forall k :: k in refs.relations ==> refs.relational[k] == RelationReference)
    && (forall k :: k in refs.actions ==> refs.relational[k] == ActionReference)
  }

  /** Names are told apart: entities in the schema, relations and actions in their entity. */
  ghost predicate DistinctMembers(e: EntityStatement) {
    && (forall i, j :: 0 <= i < j < |e.relations| ==> e.relations[i].name.literal != e.relations[j].name.literal)
    && (forall i, j :: 0 <= i < j < |e.actions| ==> e.actions[i].name.literal != e.actions[j].name.literal)
    && (forall r, a :: r in e.relations && a in e.actions ==> r.name.literal != a.name.literal)
  }

  ghost predicate Distinct(es: seq<EntityStatement>) {
    && (forall i, j :: 0 <= i < j < |es| ==> es[i].name.literal != es[j].name.literal)
    && (forall e :: e in es ==> DistinctMembers(e))
  }

  /** A statement as the parser builds it. */
  ghost predicate ParsedAction(a: ActionStatement) {
    GoodName(a.name) && TokensFit(a.expression) && (NamedLeaves(a.expression) ==> WellShaped(a.expression))
  }

  ghost predicate ParsedEntity(e: EntityStatement) {
    && GoodName(e.name)
    && (forall r :: r in e.relations ==> GoodRelation(r))
    && (forall a :: a in e.actions ==> ParsedAction(a))
  }

  ghost predicate ParsedEntities(es: seq<EntityStatement>) {
    forall e :: e in es ==> ParsedEntity(e)
  }

  /** Everything a reachable state of the parser guarantees about its maps and the statements read so far. */
  ghost predicate Sound(refs: References, es: seq<EntityStatement>) {
    Describes(refs, es) && Distinct(es) && ParsedEntities(es)
  }

  // ---------------------------------------------------------------- keys

  lemma {:induction false} WordHasNoHash(w: string)
    requires IsWord(w)
    ensures '#' !in w
  {
  }

  /** The keys of two members determine the entity and the member. */
  lemma {:induction false} MemberKeys(e: EntityStatement, n: string, e': EntityStatement, n': string)
    requires GoodName(e.name) && GoodName(e'.name) && Key(e.name.literal, n) == Key(e'.name.literal, n')
    ensures e.name.literal == e'.name.literal && n == n'
  {
    WordHasNoHash(e.name.literal);
    WordHasNoHash(e'.name.literal);
    FieldIsInjective(e.name.literal, e'.name.literal, '#', n, n');
  }

  // ---------------------------------------------------------------- adding names

  lemma {:induction false} AddEntityKeeps(refs: References, es: seq<EntityStatement>, name: Token)
    requires Sound(refs, es) && GoodName(name) && AddEntity(refs, name.literal).Some?
    ensures Sound(AddEntity(refs, name.literal).value, es + [EntityStatement(name, [], [])])
  {
    var e := EntityStatement(name, [], []);
    var refs' := AddEntity(refs, name.literal).value;
    forall n
      ensures n in refs'.entities <==> HasEntity(es + [e], n)
    {
      if HasEntity(es, n) {
        var x :| x in es && x.name.literal == n;
        assert x in es + [e];
      }
      assert e in es + [e];
    }
    forall k, ts
      ensures HasRelation(es + [e], k, ts) <==> HasRelation(es, k, ts)
    {
      assert forall x :: x in es + [e] <==> x in es || x == e;
    }
    forall k
      ensures HasAction(es + [e], k) <==> HasAction(es, k)
    {
      assert forall x :: x in es + [e] <==> x in es || x == e;
    }
    forall i | 0 <= i < |es|
      ensures es[i].name.literal != name.literal
    {
      assert HasEntity(es, es[i].name.literal);
    }
  }

  lemma {:induction false} AddRelationDescribes(refs: References, es: seq<EntityStatement>, e: EntityStatement,
                                                r: RelationStatement)
    requires Describes(refs, es + [e]) && AddRelation(refs, Key(e.name.literal, r.name.literal), r.types).Some?
    ensures Describes(AddRelation(refs, Key(e.name.literal, r.name.literal), r.types).value,
                      es + [e.(relations := e.relations + [r])])
  {
    hide HasEntity, HasRelation, HasAction;
    var e' := e.(relations := e.relations + [r]);
    ReplaceLast(es, e, e');
    forall k, ts
      ensures HasRelation(es + [e'], k, ts) <==>
              HasRelation(es + [e], k, ts) || (k == Key(e.name.literal, r.name.literal) && ts == r.types)
    {
      RelationAppended(es, e, r, k, ts);
    }
    forall k
      ensures HasAction(es + [e'], k) <==> HasAction(es + [e], k)
    {
      SameActions(es, e, e', k);
    }
  }

  lemma {:induction false} NewRelationIsDistinct(refs: References, es: seq<EntityStatement>, e: EntityStatement,
                                                 r: RelationStatement)
    requires Describes(refs, es + [e]) && DistinctMembers(e)
    requires AddRelation(refs, Key(e.name.literal, r.name.literal), r.types).Some?
    ensures DistinctMembers(e.(relations := e.relations + [r]))
  {
    assert e in es + [e];
    forall q | q in e.relations
      ensures q.name.literal != r.name.literal
    {
      assert HasRelation(es + [e], Key(e.name.literal, q.name.literal), q.types);
    }
    forall a | a in e.actions
      ensures a.name.literal != r.name.literal
    {
      assert HasAction(es + [e], Key(e.name.literal, a.name.literal));
    }
  }

  lemma {:induction false} AddRelationKeeps(refs: References, es: seq<EntityStatement>, e: EntityStatement,
                                            r: RelationStatement)
    requires Sound(refs, es + [e]) && GoodRelation(r)
    requires AddRelation(refs, Key(e.name.literal, r.name.literal), r.types).Some?
    ensures Sound(AddRelation(refs, Key(e.name.literal, r.name.literal), r.types).value,
                  es + [e.(relations := e.relations + [r])])
  {
    hide Describes;
    assert e in es + [e];
    AddRelationDescribes(refs, es, e, r);
    NewRelationIsDistinct(refs, es, e, r);
    DistinctReplaced(es, e, e.(relations := e.relations + [r]));
  }

  lemma {:induction false} AddActionDescribes(refs: References, es: seq<EntityStatement>, e: EntityStatement,
                                              a: ActionStatement)
    requires Describes(refs, es + [e]) && AddAction(refs, Key(e.name.literal, a.name.literal)).Some?
    ensures Describes(AddAction(refs, Key(e.name.literal, a.name.literal)).value, es + [e.(actions := e.actions + [a])])
  {
    hide HasEntity, HasRelation, HasAction;
    var e' := e.(actions := e.actions + [a]);
    ReplaceLast(es, e, e');
    forall k, ts
      ensures HasRelation(es + [e'], k, ts) <==> HasRelation(es + [e], k, ts)
    {
      SameRelations(es, e, e', k, ts);
    }
    forall k
      ensures HasAction(es + [e'], k) <==> HasAction(es + [e], k) || k == Key(e.name.literal, a.name.literal)
    {
      ActionAppended(es, e, a, k);
    }
  }

  lemma {:induction false} NewActionIsDistinct(refs: References, es: seq<EntityStatement>, e: EntityStatement,
                                               a: ActionStatement)
    requires Describes(refs, es + [e]) && DistinctMembers(e)
    requires AddAction(refs, Key(e.name.literal, a.name.literal)).Some?
    ensures DistinctMembers(e.(actions := e.actions + [a]))
  {
    assert e in es + [e];
    forall q | q in e.actions
      ensures q.name.literal != a.name.literal
    {
      assert HasAction(es + [e], Key(e.name.literal, q.name.literal));
    }
    forall r | r in e.relations
      ensures r.name.literal != a.name.literal
    {
      assert HasRelation(es + [e], Key(e.name.literal, r.name.literal), r.types);
    }
  }

  lemma {:induction false} AddActionKeeps(refs: References, es: seq<EntityStatement>, e: EntityStatement,
                                          a: ActionStatement)
    requires Sound(refs, es + [e]) && ParsedAction(a)
    requires AddAction(refs, Key(e.name.literal, a.name.literal)).Some?
    ensures Sound(AddAction(refs, Key(e.name.literal, a.name.literal)).value, es + [e.(actions := e.actions + [a])])
  {
    hide Describes;
    assert e in es + [e];
    AddActionDescribes(refs, es, e, a);
    NewActionIsDistinct(refs, es, e, a);
    DistinctReplaced(es, e, e.(actions := e.actions + [a]));
  }

  // replacing the last statement by one of the same name

  lemma {:induction false} ReplaceLast(es: seq<EntityStatement>, e: EntityStatement, e': EntityStatement)
    requires e.name == e'.name
    ensures forall n :: HasEntity(es + [e'], n) <==> HasEntity(es + [e], n)
  {
    forall n
      ensures HasEntity(es + [e'], n) <==> HasEntity(es + [e], n)
    {
      assert e in es + [e] && e' in es + [e'];
      if x :| x in es + [e] && x.name.literal == n {
        assert x == e || x in es + [e'];
      }
      if x :| x in es + [e'] && x.name.literal == n {
        assert x == e' || x in es + [e];
      }
    }
  }

  lemma {:induction false} DistinctReplaced(es: seq<EntityStatement>, e: EntityStatement, e': EntityStatement)
    requires Distinct(es + [e]) && e.name == e'.name && DistinctMembers(e')
    ensures Distinct(es + [e'])
  {
    forall i, j | 0 <= i < j < |es| + 1
      ensures (es + [e'])[i].name.literal != (es + [e'])[j].name.literal
    {
      assert (es + [e])[i].name.literal != (es + [e])[j].name.literal;
    }
    forall x | x in es + [e']
      ensures DistinctMembers(x)
    {
      assert x == e' || x in es + [e];
    }
  }

  lemma {:induction false} SameActions(es: seq<EntityStatement>, e: EntityStatement, e': EntityStatement, k: string)
    requires e.name == e'.name && e.actions == e'.actions
    ensures HasAction(es + [e'], k) <==> HasAction(es + [e], k)
  {
    assert e in es + [e] && e' in es + [e'];
    if x, a :| x in es + [e] && a in x.actions && k == Key(x.name.literal, a.name.literal) {
      assert x == e || x in es + [e'];
    }
    if x, a :| x in es + [e'] && a in x.actions && k == Key(x.name.literal, a.name.literal) {
      assert x == e' || x in es + [e];
    }
  }

  lemma {:induction false} SameRelations(es: seq<EntityStatement>, e: EntityStatement, e': EntityStatement, k: string,
                                         ts: seq<TypeStatement>)
    requires e.name == e'.name && e.relations == e'.relations
    ensures HasRelation(es + [e'], k, ts) <==> HasRelation(es + [e], k, ts)
  {
    assert e in es + [e] && e' in es + [e'];
    if x, r :| x in es + [e] && r in x.relations && k == Key(x.name.literal, r.name.literal) && ts == r.types {
      assert x == e || x in es + [e'];
    }
    if x, r :| x in es + [e'] && r in x.relations && k == Key(x.name.literal, r.name.literal) && ts == r.types {
      assert x == e' || x in es + [e];
    }
  }

  lemma {:induction false} RelationAppended(es: seq<EntityStatement>, e: EntityStatement, r: RelationStatement,
                                            k: string, ts: seq<TypeStatement>)
    ensures HasRelation(es + [e.(relations := e.relations + [r])], k, ts) <==>
            HasRelation(es + [e], k, ts) || (k == Key(e.name.literal, r.name.literal) && ts == r.types)
  {
    var e' := e.(relations := e.relations + [r]);
    assert e in es + [e] && e' in es + [e'] && r in e'.relations;
    if x, q :| x in es + [e] && q in x.relations && k == Key(x.name.literal, q.name.literal) && ts == q.types {
      assert x == e || x in es + [e'];
      assert x == e ==> q in e'.relations;
    }
    if x, q :| x in es + [e'] && q in x.relations && k == Key(x.name.literal, q.name.literal) && ts == q.types {
      assert x == e' || x in es + [e];
      assert x == e' ==> q == r || q in e.relations;
    }
  }

  lemma {:induction false} ActionAppended(es: seq<EntityStatement>, e: EntityStatement, a: ActionStatement, k: string)
    ensures HasAction(es + [e.(actions := e.actions + [a])], k) <==>
            HasAction(es + [e], k) || k == Key(e.name.literal, a.name.literal)
  {
    var e' := e.(actions := e.actions + [a]);
    assert e in es + [e] && e' in es + [e'] && a in e'.actions;
    if x, q :| x in es + [e] && q in x.actions && k == Key(x.name.literal, q.name.literal) {
      assert x == e || x in es + [e'];
      assert x == e ==> q in e'.actions;
    }
    if x, q :| x in es + [e'] && q in x.actions && k == Key(x.name.literal, q.name.literal) {
      assert x == e' || x in es + [e];
      assert x == e' ==> q == a || q in e.actions;
    }
  }
}
