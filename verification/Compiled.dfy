/** What validated compilation guarantees: identifiers in every leaf, the same result without validation, and a
    well-typed schema. */
module Compiled {
  import opened Base
  import opened Fields
  import opened Tokens
  import opened Ast
  import opened Grammar
  import opened TreeShape
  import opened Printed
  import opened Statements
  import C = Compiler
  import T = Typing

  // ---------------------------------------------------------------- leaves are identifiers

  /** A member of entity `entity`, or of an entity of that name, has key `Key(entity, name)`: then `name` is a name. */
  lemma {:induction false} KnownKeyIsNamed(refs: References, es: seq<EntityStatement>, entity: string, name: string)
    requires Sound(refs, es) && '#' !in entity && Key(entity, name) in refs.relational
    ensures IsName(name)
  {
    var key := Key(entity, name);
    if key in refs.relations {
      assert HasRelation(es, key, refs.relations[key]);
      var e, r :| e in es && r in e.relations && key == Key(e.name.literal, r.name.literal) &&
                  refs.relations[key] == r.types;
      assert ParsedEntity(e);
      WordHasNoHash(e.name.literal);
      FieldIsInjective(entity, e.name.literal, '#', name, r.name.literal);
    } else {
      assert HasAction(es, key);
      var e, a :| e in es && a in e.actions && key == Key(e.name.literal, a.name.literal);
      assert ParsedEntity(e);
      WordHasNoHash(e.name.literal);
      FieldIsInjective(entity, e.name.literal, '#', name, a.name.literal);
    }
  }

  lemma {:induction false} BaseTypeIsWord(types: seq<TypeStatement>)
    requires forall i :: 0 <= i < |types| ==> GoodType(types[i])
    ensures '#' !in C.BaseType(types)
  {
    if types != [] {
      WordHasNoHash(types[0].typ.literal);
      BaseTypeIsWord(types[1..]);
    }
  }

  lemma {:induction false} KnownTypesAreGood(refs: References, es: seq<EntityStatement>, key: string)
    requires Sound(refs, es) && key in refs.relations
    ensures forall i :: 0 <= i < |refs.relations[key]| ==> GoodType(refs.relations[key][i])
  {
    assert HasRelation(es, key, refs.relations[key]);
    var e, r :| e in es && r in e.relations && key == Key(e.name.literal, r.name.literal) &&
                refs.relations[key] == r.types;
    assert ParsedEntity(e);
  }

  lemma {:induction false} RelationsAreRelational(refs: References, es: seq<EntityStatement>)
    requires Sound(refs, es)
    ensures forall k :: k in refs.relations ==> k in refs.relational
  {
  }

  lemma {:induction false} CompiledLeafIsNamed(refs: References, es: seq<EntityStatement>, entity: string,
                                               prefix: Token, idents: seq<Token>)
    requires Sound(refs, es) && '#' !in entity && AllLexed(idents)
    requires C.CompileLeaf(refs, true, entity, prefix, idents).Some?
    ensures forall i :: 0 <= i < |idents| ==> idents[i].typ == IDENT
  {
    hide Sound, Lexed, IsName;
    RelationsAreRelational(refs, es);
    KnownKeyIsNamed(refs, es, entity, idents[0].literal);
    NameMeansIdent(idents[0]);
    if |idents| == 2 {
      var key := Key(entity, idents[0].literal);
      KnownTypesAreGood(refs, es, key);
      BaseTypeIsWord(refs.relations[key]);
      KnownKeyIsNamed(refs, es, C.BaseType(refs.relations[key]), idents[1].literal);
      NameMeansIdent(idents[1]);
    }
  }

  lemma {:induction false} CompiledExpressionIsNamed(refs: References, es: seq<EntityStatement>, entity: string,
                                                     e: Expression)
    requires Sound(refs, es) && '#' !in entity && TokensFit(e)
    requires C.CompileExpression(refs, true, entity, e).Some?
    ensures NamedLeaves(e)
  {
    hide Sound, Lexed;
    match e
    case Identifier(prefix, idents) => CompiledLeafIsNamed(refs, es, entity, prefix, idents);
    case Infix(left, _, right) =>
      CompiledExpressionIsNamed(refs, es, entity, left);
      CompiledExpressionIsNamed(refs, es, entity, right);
  }

  // ---------------------------------------------------------------- the same without validation

  lemma {:induction false} UnvalidatedExpression(refs: References, refs': References, entity: string, e: Expression)
    requires C.CompileExpression(refs, true, entity, e).Some?
    ensures C.CompileExpression(refs', false, entity, e) == C.CompileExpression(refs, true, entity, e)
  {
    if e.Infix? {
      UnvalidatedExpression(refs, refs', entity, e.left);
      UnvalidatedExpression(refs, refs', entity, e.right);
    }
  }

  lemma {:induction false} UnvalidatedActions(refs: References, refs': References, en: EntityDefinition,
                                              acts: seq<ActionStatement>)
    requires C.CompileActions(refs, true, en, acts).Some?
    ensures C.CompileActions(refs', false, en, acts) == C.CompileActions(refs, true, en, acts)
    decreases |acts|
  {
    if acts != [] {
      UnvalidatedExpression(refs, refs', en.name, acts[0].expression);
      var c := C.CompileExpression(refs, true, en.name, acts[0].expression).value;
      UnvalidatedActions(refs, refs', C.AddAction(en, acts[0].name.literal, c), acts[1..]);
    }
  }

  /** Compiling an entity without validation, against any maps, gives what validated compilation gave. */
  lemma {:induction false} UnvalidatedEntity(refs: References, refs': References, e: EntityStatement)
    requires C.CompileEntity(refs, true, e).Some?
    ensures C.CompileEntity(refs', false, e) == C.CompileEntity(refs, true, e)
  {
    var empty := EntityDefinition(e.name.literal, map[], map[], map[]);
    UnvalidatedActions(refs, refs', C.CompileRelations(empty, e.relations), e.actions);
  }

  // ---------------------------------------------------------------- entity by entity

  lemma {:induction false} CompiledEntities(refs: References, es: seq<EntityStatement>)
    requires C.CompileEntities(refs, true, es).Some?
    ensures var ens := C.CompileEntities(refs, true, es).value;
            |ens| == |es| && forall i :: 0 <= i < |es| ==> C.CompileEntity(refs, true, es[i]) == Some(ens[i])
    decreases |es|
  {
    if es != [] {
      CompiledEntities(refs, es[1..]);
    }
  }

  lemma {:induction false} CompiledActionsEach(refs: References, en: EntityDefinition, acts: seq<ActionStatement>,
                                               i: nat)
    requires C.CompileActions(refs, true, en, acts).Some? && i < |acts|
    ensures C.CompileExpression(refs, true, en.name, acts[i].expression).Some?
    decreases |acts|
  {
    if i > 0 {
      var c := C.CompileExpression(refs, true, en.name, acts[0].expression).value;
      CompiledActionsEach(refs, C.AddAction(en, acts[0].name.literal, c), acts[1..], i - 1);
    }
  }

  /** The statements of a schema that compiles with validation are printed faithfully. */
  lemma {:induction false} CompiledStatementsAreGood(s: Grammar.Schema)
    requires Sound(s.refs, s.statements) && C.CompileSchema(true, s).Some?
    ensures forall i :: 0 <= i < |s.statements| ==> GoodEntity(s.statements[i])
  {
    CompiledEntities(s.refs, s.statements);
    forall i | 0 <= i < |s.statements|
      ensures GoodEntity(s.statements[i])
    {
      var e := s.statements[i];
      assert ParsedEntity(e);
      WordHasNoHash(e.name.literal);
      forall j | 0 <= j < |e.actions|
        ensures GoodAction(e.actions[j])
      {
        var empty := EntityDefinition(e.name.literal, map[], map[], map[]);
        CompiledActionsEach(s.refs, C.CompileRelations(empty, e.relations), e.actions, j);
        assert ParsedAction(e.actions[j]);
        CompiledExpressionIsNamed(s.refs, s.statements, e.name.literal, e.actions[j].expression);
      }
    }
  }

  // ---------------------------------------------------------------- what an entity compiles to

  ghost predicate RelationsMatch(en: EntityDefinition, rs: seq<RelationStatement>) {
    && (forall n :: n in en.relations <==> exists r :: r in rs && r.name.literal == n)
    && (forall r :: r in rs ==>
          r.name.literal in en.relations && en.relations[r.name.literal] == C.CompileTypes(r.types))
  }

  ghost predicate ActionsMatch(refs: References, en: EntityDefinition, acts: seq<ActionStatement>) {
    && (forall n :: n in en.actions <==> exists a :: a in acts && a.name.literal == n)
    && (forall a :: a in acts ==>
          a.name.literal in en.actions &&
          C.CompileExpression(refs, true, en.name, a.expression) == Some(en.actions[a.name.literal]))
  }

  ghost predicate CompiledTo(refs: References, e: EntityStatement, en: EntityDefinition) {
    && en.name == e.name.literal
    && RelationsMatch(en, e.relations)
    && ActionsMatch(refs, en, e.actions)
    && T.DefinitionWellFormed(en)
  }

  lemma {:induction false} RelationsCompile(en: EntityDefinition, before: seq<RelationStatement>,
                                            rs: seq<RelationStatement>)
    requires RelationsMatch(en, before) && T.DefinitionWellFormed(en) && en.actions == map[]
    requires forall i, j :: 0 <= i < j < |before + rs| ==>
               (before + rs)[i].name.literal != (before + rs)[j].name.literal
    ensures RelationsMatch(C.CompileRelations(en, rs), before + rs) &&
            T.DefinitionWellFormed(C.CompileRelations(en, rs))
    decreases |rs|
  {
    if rs == [] {
      assert before + rs == before;
    } else {
      var r := rs[0];
      var en1 := C.AddRelation(en, r);
      RelationCompiles(en, before, rs);
      assert before + [r] + rs[1..] == before + rs;
      RelationsCompile(en1, before + [r], rs[1..]);
    }
  }

  /** In a list without repeated names, the first item of the rest has a name of its own. */
  lemma {:induction false} NameIsNew<S>(name: S -> string, before: seq<S>, rest: seq<S>)
    requires rest != []
    requires forall i, j :: 0 <= i < j < |before + rest| ==> name((before + rest)[i]) != name((before + rest)[j])
    ensures forall q :: q in before ==> name(q) != name(rest[0])
  {
    var all := before + rest;
    assert all[|before|] == rest[0];
    forall q | q in before
      ensures name(q) != name(rest[0])
    {
      var i :| 0 <= i < |before| && before[i] == q;
      assert all[i] == q;
    }
  }

  lemma {:induction false} RelationCompiles(en: EntityDefinition, before: seq<RelationStatement>,
                                            rs: seq<RelationStatement>)
    requires RelationsMatch(en, before) && T.DefinitionWellFormed(en) && en.actions == map[] && rs != []
    requires forall i, j :: 0 <= i < j < |before + rs| ==>
               (before + rs)[i].name.literal != (before + rs)[j].name.literal
    ensures RelationsMatch(C.AddRelation(en, rs[0]), before + [rs[0]]) &&
            T.DefinitionWellFormed(C.AddRelation(en, rs[0]))
  {
    hide T.DefinitionWellFormed;
    NameIsNew((r: RelationStatement) => r.name.literal, before, rs);
    AddedRelationMatches(en, before, rs[0]);
    AddedRelationIsWellFormed(en, rs[0]);
  }

  lemma {:induction false} AddedRelationIsWellFormed(en: EntityDefinition, r: RelationStatement)
    requires T.DefinitionWellFormed(en) && en.actions == map[]
    ensures T.DefinitionWellFormed(C.AddRelation(en, r))
  {
  }

  lemma {:induction false} AddedRelationMatches(en: EntityDefinition, before: seq<RelationStatement>,
                                                r: RelationStatement)
    requires RelationsMatch(en, before) && forall q :: q in before ==> q.name.literal != r.name.literal
    ensures RelationsMatch(C.AddRelation(en, r), before + [r])
  {
    hide C.CompileTypes;
    var en1 := C.AddRelation(en, r);
    forall n
      ensures n in en1.relations <==> exists q :: q in before + [r] && q.name.literal == n
    {
      assert r in before + [r];
      if q :| q in before && q.name.literal == n {
        assert q in before + [r];
      }
    }
  }

  lemma {:induction false} ActionsCompile(refs: References, en: EntityDefinition, before: seq<ActionStatement>,
                                          acts: seq<ActionStatement>)
    requires ActionsMatch(refs, en, before) && T.DefinitionWellFormed(en) &&
             C.CompileActions(refs, true, en, acts).Some?
    requires forall i, j :: 0 <= i < j < |before + acts| ==>
               (before + acts)[i].name.literal != (before + acts)[j].name.literal
    requires forall a :: a in acts ==> a.name.literal !in en.relations && TokensFit(a.expression)
    ensures var out := C.CompileActions(refs, true, en, acts).value;
            ActionsMatch(refs, out, before + acts) && T.DefinitionWellFormed(out)
    decreases |acts|
  {
    hide ActionsMatch, T.DefinitionWellFormed, C.CompileExpression, TokensFit;
    if acts == [] {
      assert before + acts == before;
    } else {
      var a := acts[0];
      var c := C.CompileExpression(refs, true, en.name, a.expression).value;
      ActionCompiles(refs, en, before, acts);
      assert before + [a] + acts[1..] == before + acts;
      ActionsCompile(refs, C.AddAction(en, a.name.literal, c), before + [a], acts[1..]);
    }
  }

  lemma {:induction false} ActionCompiles(refs: References, en: EntityDefinition, before: seq<ActionStatement>,
                                          acts: seq<ActionStatement>)
    requires ActionsMatch(refs, en, before) && T.DefinitionWellFormed(en) && acts != []
    requires C.CompileExpression(refs, true, en.name, acts[0].expression).Some?
    requires forall i, j :: 0 <= i < j < |before + acts| ==>
               (before + acts)[i].name.literal != (before + acts)[j].name.literal
    requires acts[0].name.literal !in en.relations && TokensFit(acts[0].expression)
    ensures var c := C.CompileExpression(refs, true, en.name, acts[0].expression).value;
            var en1 := C.AddAction(en, acts[0].name.literal, c);
            ActionsMatch(refs, en1, before + [acts[0]]) && T.DefinitionWellFormed(en1)
  {
    hide TokensFit, C.CompileExpression, T.DefinitionWellFormed;
    CompiledIsShaped(refs, true, en.name, acts[0].expression);
    NameIsNew((a: ActionStatement) => a.name.literal, before, acts);
    AddedActionMatches(refs, en, before, acts[0]);
    AddedActionIsWellFormed(en, acts[0].name.literal,
                            C.CompileExpression(refs, true, en.name, acts[0].expression).value);
  }

  lemma {:induction false} AddedActionIsWellFormed(en: EntityDefinition, name: string, c: Child)
    requires T.DefinitionWellFormed(en) && name !in en.relations && T.Shaped(c)
    ensures T.DefinitionWellFormed(C.AddAction(en, name, c))
  {
  }

  lemma {:induction false} AddedActionMatches(refs: References, en: EntityDefinition, before: seq<ActionStatement>,
                                              a: ActionStatement)
    requires ActionsMatch(refs, en, before) && C.CompileExpression(refs, true, en.name, a.expression).Some?
    requires forall q :: q in before ==> q.name.literal != a.name.literal
    ensures var c := C.CompileExpression(refs, true, en.name, a.expression).value;
            ActionsMatch(refs, C.AddAction(en, a.name.literal, c), before + [a])
  {
    hide C.CompileExpression;
    var en1 := C.AddAction(en, a.name.literal, C.CompileExpression(refs, true, en.name, a.expression).value);
    forall n
      ensures n in en1.actions <==> exists q :: q in before + [a] && q.name.literal == n
    {
      assert a in before + [a];
      if q :| q in before && q.name.literal == n {
        assert q in before + [a];
      }
    }
  }

  /** Compiled trees consist of leaves, unions and intersections. */
  lemma {:induction false} CompiledIsShaped(refs: References, validate: bool, entity: string, e: Expression)
    requires TokensFit(e) && C.CompileExpression(refs, validate, entity, e).Some?
    ensures T.Shaped(C.CompileExpression(refs, validate, entity, e).value)
  {
    if e.Infix? {
      CompiledIsShaped(refs, validate, entity, e.left);
      CompiledIsShaped(refs, validate, entity, e.right);
    }
  }

  lemma {:induction false} NothingMatches(refs: References, en: EntityDefinition)
    ensures en.relations == map[] ==> RelationsMatch(en, [])
    ensures en.actions == map[] ==> ActionsMatch(refs, en, [])
  {
  }

  lemma {:induction false} EntityCompiles(refs: References, e: EntityStatement)
    requires ParsedEntity(e) && DistinctMembers(e) && C.CompileEntity(refs, true, e).Some?
    ensures CompiledTo(refs, e, C.CompileEntity(refs, true, e).value)
  {
    hide RelationsMatch, ActionsMatch, C.CompileRelations, C.CompileActions;
    var empty := EntityDefinition(e.name.literal, map[], map[], map[]);
    assert [] + e.relations == e.relations && [] + e.actions == e.actions;
    NothingMatches(refs, empty);
    RelationsCompile(empty, [], e.relations);
    var en := C.CompileRelations(empty, e.relations);
    ActionNamesAreNew(e, en);
    NothingMatches(refs, en);
    ActionsCompile(refs, en, [], e.actions);
    SameRelationsMatch(en, C.CompileActions(refs, true, en, e.actions).value, e.relations);
  }

  lemma {:induction false} SameRelationsMatch(en: EntityDefinition, en': EntityDefinition, rs: seq<RelationStatement>)
    requires RelationsMatch(en, rs) && en.relations == en'.relations
    ensures RelationsMatch(en', rs)
  {
  }

  lemma {:induction false} ActionNamesAreNew(e: EntityStatement, en: EntityDefinition)
    requires ParsedEntity(e) && DistinctMembers(e) && RelationsMatch(en, e.relations)
    ensures forall a :: a in e.actions ==> a.name.literal !in en.relations && TokensFit(a.expression)
  {
    forall a | a in e.actions
      ensures a.name.literal !in en.relations && TokensFit(a.expression)
    {
      assert ParsedAction(a);
    }
  }
}
