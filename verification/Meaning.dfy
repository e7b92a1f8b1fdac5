/** What an accepted schema text means: membership on the stored definitions is read off the statements of the text, and
    the check engine decides it. */
module Meaning {
  import opened Base
  import opened Tokens
  import opened Ast
  import opened Check
  import opened Membership
  import opened Resolved
  import opened TreeShape
  import Soundness
  import G = Grammar
  import S = Statements
  import C = Compiler
  import opened Compiled
  import V = SchemaService
  import T = Typing
  import W = RelationshipService

  // ---------------------------------------------------------------- the meaning of a text

  /** A name after `not` asks, of a relation, that the tuple is not stored; before an action `not` says nothing. */
  ghost predicate NameHolds(es: seq<EntityStatement>, store: seq<Tuple>, M: iset<Goal>, g: Goal, excluded: bool) {
    if excluded && DeclaresRelation(es, g.entity.typ, g.permission)
    then Tuple(g.entity, g.permission, g.subject) !in store
    else g in M
  }

  /** `name` asks for the name on the entity itself, `name.name` on some subject of the first one's tuples. */
  ghost predicate Holds(es: seq<EntityStatement>, store: seq<Tuple>, M: iset<Goal>, entity: Entity, subject: Subject,
                        x: Expression)
  {
    match x
    case Identifier(prefix, idents) =>
      if |idents| == 1 then
        NameHolds(es, store, M, Goal(entity, idents[0].literal, subject), prefix.typ == NOT)
      else
        && |idents| == 2
        && exists t :: t in store && t.entity == entity && t.relation == idents[0].literal &&
                       NameHolds(es, store, M, Goal(Entity(t.subject.typ, t.subject.id), idents[1].literal, subject),
                                 prefix.typ == NOT)
    case Infix(left, op, right) =>
      if op.typ == AND
      then Holds(es, store, M, entity, subject, left) && Holds(es, store, M, entity, subject, right)
      else Holds(es, store, M, entity, subject, left) || Holds(es, store, M, entity, subject, right)
  }

  /** A relation is held by the subjects of its tuples, and by the members of the usersets among them. */
  ghost predicate IsHeld(store: seq<Tuple>, M: iset<Goal>, g: Goal) {
    || Tuple(g.entity, g.permission, g.subject) in store
    || exists t :: t in store && t.entity == g.entity && t.relation == g.permission && t.subject.typ != "user" &&
                   t.subject.relation != "..." &&
                   Goal(Entity(t.subject.typ, t.subject.id), t.subject.relation, g.subject) in M
  }

  // ---------------------------------------------------------------- leaves

  lemma {:induction false} DeclaredIsDefined(es: seq<EntityStatement>, sc: Schema, typ: string, name: string)
    requires S.Distinct(es) && DefinedBy(es, sc)
    ensures DefinesRelation(sc, typ, name) <==> DeclaresRelation(es, typ, name)
    ensures DefinesAction(sc, typ, name) <==> DeclaresAction(es, typ, name)
  {
    hide S.Distinct;
    if typ in sc {
      var e :| e in es && e.name.literal == typ;
      assert HoldsMembers(sc[typ], e);
      MembersOf(es, e, name);
    }
  }

  lemma {:induction false} MembersOf(es: seq<EntityStatement>, e: EntityStatement, name: string)
    requires S.Distinct(es) && e in es
    ensures DeclaresRelation(es, e.name.literal, name) <==> exists r :: r in e.relations && r.name.literal == name
    ensures DeclaresAction(es, e.name.literal, name) <==> exists a :: a in e.actions && a.name.literal == name
  {
    forall x | x in es && x.name.literal == e.name.literal
      ensures x == e
    {
      var i, j :| 0 <= i < |es| && 0 <= j < |es| && es[i] == e && es[j] == x;
    }
  }

  /** The definitions are those of the statements. */
  ghost predicate DefinedBy(es: seq<EntityStatement>, sc: Schema) {
    && (forall typ :: typ in sc <==> DeclaresEntity(es, typ))
    && (forall e :: e in es ==> e.name.literal in sc && HoldsMembers(sc[e.name.literal], e))
  }

  lemma {:induction false} NameMeans(es: seq<EntityStatement>, sc: Schema, store: seq<Tuple>, M: iset<Goal>, g: Goal,
                                     excluded: bool)
    requires S.Distinct(es) && DefinedBy(es, sc)
    ensures LeafHolds(sc, store, M, g, excluded) <==> NameHolds(es, store, M, g, excluded)
  {
    DeclaredIsDefined(es, sc, g.entity.typ, g.permission);
  }

  lemma {:induction false} WalkMeans(es: seq<EntityStatement>, sc: Schema, store: seq<Tuple>, M: iset<Goal>,
                                     entity: Entity, subject: Subject, tupleSet: string, name: string, excluded: bool)
    requires S.Distinct(es) && DefinedBy(es, sc)
    ensures ChildHolds(sc, store, M, entity, subject, LeafChild(TupleToUserSet(excluded, tupleSet, name))) <==>
            exists t :: t in store && t.entity == entity && t.relation == tupleSet &&
                        NameHolds(es, store, M, Goal(Entity(t.subject.typ, t.subject.id), name, subject), excluded)
  {
    hide LeafHolds, NameHolds, S.Distinct, DefinedBy;
    forall s: Subject
      ensures LeafHolds(sc, store, M, Goal(EntityOf(s), name, subject), excluded) <==>
              NameHolds(es, store, M, Goal(Entity(s.typ, s.id), name, subject), excluded)
    {
      NameMeans(es, sc, store, M, Goal(EntityOf(s), name, subject), excluded);
    }
    if s :| s in Query(store, entity, tupleSet) && LeafHolds(sc, store, M, Goal(EntityOf(s), name, subject), excluded) {
      assert Tuple(entity, tupleSet, s) in store;
    }
    if t :| t in store && t.entity == entity && t.relation == tupleSet &&
            NameHolds(es, store, M, Goal(Entity(t.subject.typ, t.subject.id), name, subject), excluded) {
      assert t == Tuple(entity, tupleSet, t.subject);
      assert t.subject in Query(store, entity, tupleSet);
    }
  }

  // ---------------------------------------------------------------- expressions

  lemma {:induction false} LeafMeans(s: G.Schema, sc: Schema, store: seq<Tuple>, M: iset<Goal>, typ: string,
                                     entity: Entity, subject: Subject, prefix: Token, idents: seq<Token>)
    requires S.Distinct(s.statements) && DefinedBy(s.statements, sc) && TokensFit(Identifier(prefix, idents))
    requires C.CompileLeaf(s.refs, true, typ, prefix, idents).Some?
    ensures ChildHolds(sc, store, M, entity, subject, C.CompileLeaf(s.refs, true, typ, prefix, idents).value) <==>
            Holds(s.statements, store, M, entity, subject, Identifier(prefix, idents))
  {
    hide S.Distinct, DefinedBy, NameHolds, LeafHolds;
    if |idents| == 1 {
      NameMeans(s.statements, sc, store, M, Goal(entity, idents[0].literal, subject), prefix.typ == NOT);
    } else {
      WalkMeans(s.statements, sc, store, M, entity, subject, idents[0].literal, idents[1].literal, prefix.typ == NOT);
    }
  }

  lemma {:induction false} CompiledIsChild(refs: G.References, typ: string, x: Expression)
    requires C.CompileExpression(refs, true, typ, x).Some?
    ensures C.CompileExpression(refs, true, typ, x).value != NoChild
  {
  }

  /** Compilation keeps the meaning of an expression, whatever goals are taken for true. */
  lemma {:induction false} CompiledHolds(s: G.Schema, sc: Schema, store: seq<Tuple>, M: iset<Goal>, typ: string,
                                         entity: Entity, subject: Subject, x: Expression)
    requires S.Distinct(s.statements) && DefinedBy(s.statements, sc) && TokensFit(x)
    requires C.CompileExpression(s.refs, true, typ, x).Some?
    ensures ChildHolds(sc, store, M, entity, subject, C.CompileExpression(s.refs, true, typ, x).value) <==>
            Holds(s.statements, store, M, entity, subject, x)
  {
    hide S.Distinct, DefinedBy, ChildHolds, C.CompileLeaf;
    match x
    case Identifier(prefix, idents) =>
      LeafMeans(s, sc, store, M, typ, entity, subject, prefix, idents);
    case Infix(left, op, right) =>
      CompiledHolds(s, sc, store, M, typ, entity, subject, left);
      CompiledHolds(s, sc, store, M, typ, entity, subject, right);
      var l := C.CompileExpression(s.refs, true, typ, left).value;
      var r := C.CompileExpression(s.refs, true, typ, right).value;
      CompiledIsChild(s.refs, typ, left);
      CompiledIsChild(s.refs, typ, right);
      PairHolds(sc, store, M, entity, subject, C.OperationOf(op), l, r);
  }

  lemma {:induction false} PairHolds(sc: Schema, store: seq<Tuple>, M: iset<Goal>, entity: Entity, subject: Subject,
                                     op: Operation, l: Child, r: Child)
    requires op != Unspecified && l != NoChild && r != NoChild
    ensures ChildHolds(sc, store, M, entity, subject, Rewrite(op, [l, r])) <==>
            if op == Union
            then ChildHolds(sc, store, M, entity, subject, l) || ChildHolds(sc, store, M, entity, subject, r)
            else ChildHolds(sc, store, M, entity, subject, l) && ChildHolds(sc, store, M, entity, subject, r)
  {
    assert [l, r][0] == l && [l, r][1] == r;
  }

  // ---------------------------------------------------------------- from the text to the members

  lemma {:induction false} TextIsDefined(text: string)
    requires V.Accepts(text)
    ensures S.Distinct(V.Statements(text)) && DefinedBy(V.Statements(text), V.DefinitionMap(V.Definitions(text)))
  {
    hide G.ParseText, HoldsMembers, V.DefinitionMap, C.CompileSchema;
    V.AcceptedSchemaIsCompiled(text);
    DefinitionsAreTheStatements(text);
  }

  /** The action of an accepted text, as its definition holds it. */
  lemma {:induction false} ActionIsCompiled(text: string, e: EntityStatement, a: ActionStatement)
    requires V.Accepts(text) && e in V.Statements(text) && a in e.actions
    ensures TokensFit(a.expression)
    ensures var s, sc := G.ParseText(text).value, V.DefinitionMap(V.Definitions(text));
            && e.name.literal in sc && a.name.literal in sc[e.name.literal].actions
            && C.CompileExpression(s.refs, true, e.name.literal, a.expression) ==
               Some(sc[e.name.literal].actions[a.name.literal])
  {
    hide G.ParseText, V.DefinitionMap, C.CompileSchema, C.CompileExpression, C.ValidReferences, TokensFit;
    V.AcceptedSchemaIsCompiled(text);
    var s, sc := G.ParseText(text).value, V.DefinitionMap(V.Definitions(text));
    assert CompiledTo(s.refs, e, sc[e.name.literal]);
    assert S.ParsedEntity(e) && S.ParsedAction(a);
  }

  /** The members of an action are those for whom its expression, as the text has it, holds among the members. */
  lemma {:induction false} ActionMeansItsExpression(text: string, store: seq<Tuple>, e: EntityStatement,
                                                    a: ActionStatement, id: string, subject: Subject)
    requires V.Accepts(text) && e in V.Statements(text) && a in e.actions
    ensures var sc := V.DefinitionMap(V.Definitions(text));
            var entity := Entity(e.name.literal, id);
            Member(sc, store, Goal(entity, a.name.literal, subject)) <==>
            Holds(V.Statements(text), store, Members(sc, store), entity, subject, a.expression)
  {
    var s, sc := G.ParseText(text).value, V.DefinitionMap(V.Definitions(text));
    hide G.ParseText, V.DefinitionMap, C.CompileSchema, C.CompileExpression, TokensFit, Holds, ChildHolds, Member;
    TextIsDefined(text);
    ActionIsCompiled(text, e, a);
    var g := Goal(Entity(e.name.literal, id), a.name.literal, subject);
    assert HoldsMembers(sc[e.name.literal], e);
    MembersAreAFixedPoint(sc, store, g);
    CompiledHolds(s, sc, store, Members(sc, store), e.name.literal, g.entity, subject, a.expression);
    ActionIsNoRelation(s.statements, e, a);
    DeclaredIsDefined(s.statements, sc, e.name.literal, a.name.literal);
  }

  lemma {:induction false} ActionIsNoRelation(es: seq<EntityStatement>, e: EntityStatement, a: ActionStatement)
    requires S.Distinct(es) && e in es && a in e.actions
    ensures DeclaresAction(es, e.name.literal, a.name.literal) && !DeclaresRelation(es, e.name.literal, a.name.literal)
  {
    MembersOf(es, e, a.name.literal);
    assert S.DistinctMembers(e);
  }

  /** The members of a relation are the subjects of its tuples and the members of the usersets among them. */
  lemma {:induction false} RelationMeansItsTuples(text: string, store: seq<Tuple>, e: EntityStatement,
                                                  r: RelationStatement, id: string, subject: Subject)
    requires V.Accepts(text) && e in V.Statements(text) && r in e.relations
    ensures var sc := V.DefinitionMap(V.Definitions(text));
            var g := Goal(Entity(e.name.literal, id), r.name.literal, subject);
            Member(sc, store, g) <==> IsHeld(store, Members(sc, store), g)
  {
    var sc := V.DefinitionMap(V.Definitions(text));
    var g := Goal(Entity(e.name.literal, id), r.name.literal, subject);
    hide G.ParseText, V.DefinitionMap, C.CompileSchema, S.Distinct, HoldsMembers, Member, Follows, IsHeld;
    TextIsDefined(text);
    DeclaredIsDefined(V.Statements(text), sc, e.name.literal, r.name.literal);
    MembersAreAFixedPoint(sc, store, g);
    HeldIsFollowed(sc, store, Members(sc, store), g);
  }

  lemma {:induction false} HeldIsFollowed(sc: Schema, store: seq<Tuple>, M: iset<Goal>, g: Goal)
    requires DefinesRelation(sc, g.entity.typ, g.permission)
    ensures Follows(sc, store, M, g) <==> IsHeld(store, M, g)
  {
    if s :| s in Query(store, g.entity, g.permission) && IsUserset(s) && Goal(EntityOf(s), s.relation, g.subject) in M {
      assert Tuple(g.entity, g.permission, s) in store;
    }
    if t :| t in store && t.entity == g.entity && t.relation == g.permission && t.subject.typ != "user" &&
            t.subject.relation != "..." &&
            Goal(Entity(t.subject.typ, t.subject.id), t.subject.relation, g.subject) in M {
      assert t == Tuple(g.entity, g.permission, t.subject);
      assert t.subject in Query(store, g.entity, g.permission);
    }
  }

  /** From the text to the check: what the engine decides for an action, at whatever depth and limit, is what the
      expression in the text says of the members, as long as nothing under `not` holds usersets. */
  lemma {:induction false} CheckDecidesTheText(text: string, store: seq<Tuple>, e: EntityStatement, a: ActionStatement,
                                               id: string, subject: Subject, depth: nat, limit: Limit, allowed: bool)
    requires V.Accepts(text) && e in V.Statements(text) && a in e.actions
    requires Soundness.PlainExclusion(V.DefinitionMap(V.Definitions(text)), store)
    requires Decision(allowed) in
               Execute(World(V.DefinitionMap(V.Definitions(text)), store, iset{}, true, limit),
                       Ask(Goal(Entity(e.name.literal, id), a.name.literal, subject), false, depth))
    ensures allowed <==>
            Holds(V.Statements(text), store, Members(V.DefinitionMap(V.Definitions(text)), store),
                  Entity(e.name.literal, id), subject, a.expression)
  {
    hide G.ParseText, V.DefinitionMap, C.CompileSchema, Holds, Member, Soundness.PlainExclusion, Execute;
    var w := World(V.DefinitionMap(V.Definitions(text)), store, iset{}, true, limit);
    var r := Ask(Goal(Entity(e.name.literal, id), a.name.literal, subject), false, depth);
    Soundness.ExecuteIsSound(w, r, allowed);
    ActionMeansItsExpression(text, store, e, a, id, subject);
  }

  /** The errors of a check, told from the text: the entity type is not declared, or the entity does not declare the
      name, or the depth ran out. Nothing that the check meets on its way is missing. */
  lemma {:induction false} ErrorsOfTheText(text: string, store: seq<Tuple>, r: Request, limit: Limit)
    requires V.Accepts(text)
    requires var sc := V.DefinitionMap(V.Definitions(text)); T.WalksTyped(sc) && W.WrittenBy(sc, store)
    ensures var es := V.Statements(text);
            var os := Execute(World(V.DefinitionMap(V.Definitions(text)), store, iset{}, false, limit), r);
            && (Failed(SchemaNotFound) in os <==> r.depth > 0 && !DeclaresEntity(es, r.entity.typ))
            && (Failed(RelationDefinitionNotFound) in os <==>
                  r.depth > 0 && DeclaresEntity(es, r.entity.typ) && !Declares(es, r.entity.typ, r.permission))
            && (forall e :: Failed(e) in os ==>
                  e == DepthNotEnough || e == SchemaNotFound || e == RelationDefinitionNotFound)
  {
    hide G.ParseText, V.DefinitionMap, C.CompileSchema, S.Distinct, Execute, T.WellTyped, T.WalksTyped, W.WrittenBy,
      DeclaresRelation, DeclaresAction, DefinedBy;
    var es, sc := V.Statements(text), V.DefinitionMap(V.Definitions(text));
    V.AcceptedSchemaIsWellTyped(text);
    W.WrittenStoreConforms(sc, store);
    T.ErrorsBlameTheRequest(World(sc, store, iset{}, false, limit), r);
    TextIsDefined(text);
    NameIsDefined(es, sc, r.entity.typ, r.permission);
  }

  lemma {:induction false} NameIsDefined(es: seq<EntityStatement>, sc: Schema, typ: string, name: string)
    requires S.Distinct(es) && DefinedBy(es, sc)
    ensures typ in sc <==> DeclaresEntity(es, typ)
    ensures Defines(sc, typ, name) <==> Declares(es, typ, name)
  {
    DeclaredIsDefined(es, sc, typ, name);
    if typ in sc {
      var e :| e in es && e.name.literal == typ;
      assert HoldsMembers(sc[typ], e);
    }
  }
}
