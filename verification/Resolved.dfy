/** Which schema texts are accepted, said of their statements alone: every name stands for something that the text
    declares (pkg/dsl/ast/validation.go, pkg/dsl/compiler/compiler.go). The reference maps do not occur here. */
module Resolved {
  import opened Base
  import opened Ast
  import opened Printed
  import G = Grammar
  import S = Statements
  import C = Compiler
  import Parsed
  import opened Compiled
  import V = SchemaService

  // ---------------------------------------------------------------- what the statements declare

  ghost predicate DeclaresEntity(es: seq<EntityStatement>, typ: string) {
    exists e :: e in es && e.name.literal == typ
  }

  ghost predicate DeclaresRelation(es: seq<EntityStatement>, typ: string, name: string) {
    exists e, r :: e in es && r in e.relations && e.name.literal == typ && r.name.literal == name
  }

  ghost predicate DeclaresAction(es: seq<EntityStatement>, typ: string, name: string) {
    exists e, a :: e in es && a in e.actions && e.name.literal == typ && a.name.literal == name
  }

  ghost predicate Declares(es: seq<EntityStatement>, typ: string, name: string) {
    DeclaresRelation(es, typ, name) || DeclaresAction(es, typ, name)
  }

  // ---------------------------------------------------------------- what resolves

  /** A type names an entity, and a relation of that entity if it names one. */
  ghost predicate TypeResolves(es: seq<EntityStatement>, t: TypeStatement) {
    && DeclaresEntity(es, t.typ.literal)
    && (t.relation.literal != "" ==> DeclaresRelation(es, t.typ.literal, t.relation.literal))
  }

  /** At most one type of a relation names a whole entity. */
  ghost predicate TypesResolve(es: seq<EntityStatement>, types: seq<TypeStatement>) {
    && (forall t :: t in types ==> TypeResolves(es, t))
    && (forall i, j :: 0 <= i < j < |types| ==>
          types[i].relation.literal != "" || types[j].relation.literal != "")
  }

  /** The name computed on the far side of a walk belongs to the whole entity the relation lists, or to the user entity
      if it lists none. */
  ghost predicate FarSideResolves(es: seq<EntityStatement>, types: seq<TypeStatement>, name: string) {
    && (forall t :: t in types && t.relation.literal == "" ==> Declares(es, t.typ.literal, name))
    && ((forall t :: t in types ==> t.relation.literal != "") ==> Declares(es, "user", name))
  }

  ghost predicate ExpressionResolves(es: seq<EntityStatement>, e: EntityStatement, x: Expression) {
    match x
    case Identifier(_, idents) =>
      || (|idents| == 1 && Declares(es, e.name.literal, idents[0].literal))
      || (|idents| == 2 &&
          exists r :: r in e.relations && r.name.literal == idents[0].literal &&
                      FarSideResolves(es, r.types, idents[1].literal))
    case Infix(left, _, right) => ExpressionResolves(es, e, left) && ExpressionResolves(es, e, right)
  }

  ghost predicate Resolves(es: seq<EntityStatement>) {
    && DeclaresEntity(es, "user")
    && (forall e, r :: e in es && r in e.relations ==> TypesResolve(es, r.types))
    && (forall e, a :: e in es && a in e.actions ==> ExpressionResolves(es, e, a.expression))
  }

  // ---------------------------------------------------------------- the reference maps say the same

  /** A key of the maps stands for one member of the entity it names. */
  lemma {:induction false} KeysAreDeclared(s: G.Schema, typ: string, name: string)
    requires S.Sound(s.refs, s.statements) && '#' !in typ
    ensures G.Key(typ, name) in s.refs.relations <==> DeclaresRelation(s.statements, typ, name)
    ensures G.Key(typ, name) in s.refs.actions <==> DeclaresAction(s.statements, typ, name)
    ensures G.Key(typ, name) in s.refs.relational <==> Declares(s.statements, typ, name)
  {
    var key := G.Key(typ, name);
    if key in s.refs.relations {
      var e := V.KnownRelation(s, typ, name);
    }
    if key in s.refs.actions {
      var e := V.KnownAction(s, typ, name);
    }
    if e, r :| e in s.statements && r in e.relations && e.name.literal == typ && r.name.literal == name {
      assert S.HasRelation(s.statements, key, r.types);
    }
    if e, a :| e in s.statements && a in e.actions && e.name.literal == typ && a.name.literal == name {
      assert S.HasAction(s.statements, key);
    }
    V.RelationalIsEither(s, key);
  }

  lemma {:induction false} EntitiesAreDeclared(s: G.Schema, typ: string)
    requires S.Sound(s.refs, s.statements)
    ensures typ in s.refs.entities <==> DeclaresEntity(s.statements, typ)
  {
    assert S.HasEntity(s.statements, typ) <==> DeclaresEntity(s.statements, typ);
  }

  lemma {:induction false} TypeResolvesIff(s: G.Schema, t: TypeStatement)
    requires S.Sound(s.refs, s.statements) && GoodType(t)
    ensures C.ValidType(s.refs, t) <==> TypeResolves(s.statements, t)
  {
    hide S.Sound, DeclaresEntity, DeclaresRelation;
    S.WordHasNoHash(t.typ.literal);
    EntitiesAreDeclared(s, t.typ.literal);
    KeysAreDeclared(s, t.typ.literal, t.relation.literal);
  }

  lemma {:induction false} TypesResolveIff(s: G.Schema, types: seq<TypeStatement>)
    requires S.Sound(s.refs, s.statements) && forall t :: t in types ==> GoodType(t)
    ensures C.ValidTypes(s.refs, types) <==> TypesResolve(s.statements, types)
  {
    hide S.Sound, C.ValidType, TypeResolves;
    forall t | t in types
      ensures C.ValidType(s.refs, t) <==> TypeResolves(s.statements, t)
    {
      TypeResolvesIff(s, t);
    }
    assert (forall i :: 0 <= i < |types| ==> C.ValidType(s.refs, types[i])) <==>
           (forall t :: t in types ==> TypeResolves(s.statements, t));
  }

  /** The relations of the statements are those of the maps, with their types. */
  lemma {:induction false} RelationIsKept(s: G.Schema, e: EntityStatement, r: RelationStatement)
    requires S.Sound(s.refs, s.statements) && e in s.statements && r in e.relations
    ensures G.Key(e.name.literal, r.name.literal) in s.refs.relations
    ensures s.refs.relations[G.Key(e.name.literal, r.name.literal)] == r.types
    ensures forall t :: t in r.types ==> GoodType(t)
  {
    assert S.HasRelation(s.statements, G.Key(e.name.literal, r.name.literal), r.types);
    assert S.ParsedEntity(e) && GoodRelation(r);
  }

  lemma {:induction false} ReferencesResolveIff(s: G.Schema)
    requires S.Sound(s.refs, s.statements)
    ensures C.ValidReferences(s.refs) <==>
            && DeclaresEntity(s.statements, "user")
            && forall e, r :: e in s.statements && r in e.relations ==> TypesResolve(s.statements, r.types)
  {
    hide C.ValidTypes, TypesResolve, DeclaresEntity;
    EntitiesAreDeclared(s, USER);
    forall e, r | e in s.statements && r in e.relations
      ensures C.ValidTypes(s.refs, r.types) <==> TypesResolve(s.statements, r.types)
      ensures C.ValidReferences(s.refs) ==> C.ValidTypes(s.refs, r.types)
    {
      RelationIsKept(s, e, r);
      hide S.Sound;
      TypesResolveIff(s, r.types);
    }
    forall k | k in s.refs.relations
      ensures exists e, r :: e in s.statements && r in e.relations && r.types == s.refs.relations[k]
    {
      assert S.HasRelation(s.statements, k, s.refs.relations[k]);
    }
  }

  // ---------------------------------------------------------------- expressions

  lemma {:induction false} FarSideIsBaseType(es: seq<EntityStatement>, types: seq<TypeStatement>, name: string)
    requires TypesResolve(es, types)
    ensures FarSideResolves(es, types, name) <==> Declares(es, C.BaseType(types), name)
  {
    hide Declares, TypeResolves;
    if i :| 0 <= i < |types| && types[i].relation.literal == "" {
      V.BaseTypeIsDirect(types, i);
      assert types[i] in types;
    } else {
      V.BaseTypeIsUser(types);
    }
  }

  /** Which relation of an entity a walk goes over. */
  lemma {:induction false} RelationByKey(s: G.Schema, e: EntityStatement, name: string) returns (r: RelationStatement)
    requires S.Sound(s.refs, s.statements) && e in s.statements && G.Key(e.name.literal, name) in s.refs.relations
    ensures r in e.relations && r.name.literal == name && r.types == s.refs.relations[G.Key(e.name.literal, name)]
  {
    assert S.ParsedEntity(e);
    S.WordHasNoHash(e.name.literal);
    var x := V.KnownRelation(s, e.name.literal, name);
    V.SameEntity(s, e, x);
    r :| r in x.relations && r.name.literal == name && r.types == s.refs.relations[G.Key(e.name.literal, name)];
  }

  lemma {:induction false} SameRelation(e: EntityStatement, r: RelationStatement, r': RelationStatement)
    requires S.DistinctMembers(e) && r in e.relations && r' in e.relations && r.name.literal == r'.name.literal
    ensures r == r'
  {
    var i, j :| 0 <= i < |e.relations| && 0 <= j < |e.relations| && e.relations[i] == r && e.relations[j] == r';
  }

  lemma {:induction false} WalkResolvesIff(s: G.Schema, e: EntityStatement, tupleSet: string, name: string)
    requires S.Sound(s.refs, s.statements) && C.ValidReferences(s.refs) && e in s.statements
    ensures (G.Key(e.name.literal, tupleSet) in s.refs.relations &&
             C.WalkKnown(s.refs, G.Key(e.name.literal, tupleSet), name)) <==>
            exists r :: r in e.relations && r.name.literal == tupleSet && FarSideResolves(s.statements, r.types, name)
  {
    hide C.ValidReferences, FarSideResolves;
    var key := G.Key(e.name.literal, tupleSet);
    if key in s.refs.relations {
      var r := RelationByKey(s, e, tupleSet);
      WalkOver(s, e, r, name);
    }
    if r :| r in e.relations && r.name.literal == tupleSet && FarSideResolves(s.statements, r.types, name) {
      RelationIsKept(s, e, r);
      WalkOver(s, e, r, name);
    }
  }

  lemma {:induction false} WalkOver(s: G.Schema, e: EntityStatement, r: RelationStatement, name: string)
    requires S.Sound(s.refs, s.statements) && C.ValidReferences(s.refs) && e in s.statements && r in e.relations
    requires G.Key(e.name.literal, r.name.literal) in s.refs.relations
    ensures C.WalkKnown(s.refs, G.Key(e.name.literal, r.name.literal), name) <==>
            FarSideResolves(s.statements, r.types, name)
  {
    hide S.Sound, FarSideResolves, TypesResolve, Declares;
    RelationIsKept(s, e, r);
    ReferencesResolveIff(s);
    FarSideIsBaseType(s.statements, r.types, name);
    V.BaseTypeIsWordHere(s, G.Key(e.name.literal, r.name.literal));
    KeysAreDeclared(s, C.BaseType(r.types), name);
  }

  lemma {:induction false} ExpressionResolvesIff(s: G.Schema, e: EntityStatement, x: Expression)
    requires S.Sound(s.refs, s.statements) && C.ValidReferences(s.refs) && e in s.statements
    ensures C.CompileExpression(s.refs, true, e.name.literal, x).Some? <==> ExpressionResolves(s.statements, e, x)
  {
    match x
    case Identifier(_, idents) =>
      if |idents| == 1 {
        assert S.ParsedEntity(e);
        S.WordHasNoHash(e.name.literal);
        hide S.Sound, C.ValidReferences, Declares;
        KeysAreDeclared(s, e.name.literal, idents[0].literal);
      } else if |idents| == 2 {
        hide S.Sound, C.ValidReferences, FarSideResolves;
        WalkResolvesIff(s, e, idents[0].literal, idents[1].literal);
      }
    case Infix(left, _, right) =>
      hide S.Sound, C.ValidReferences;
      ExpressionResolvesIff(s, e, left);
      ExpressionResolvesIff(s, e, right);
  }

  // ---------------------------------------------------------------- schemas

  lemma {:induction false} ActionsCompileIff(refs: G.References, en: EntityDefinition, acts: seq<ActionStatement>)
    ensures C.CompileActions(refs, true, en, acts).Some? <==>
            forall a :: a in acts ==> C.CompileExpression(refs, true, en.name, a.expression).Some?
    decreases |acts|
  {
    hide C.CompileExpression;
    if acts != [] {
      assert forall a :: a in acts <==> a == acts[0] || a in acts[1..];
      var c := C.CompileExpression(refs, true, en.name, acts[0].expression);
      if c.Some? {
        ActionsCompileIff(refs, C.AddAction(en, acts[0].name.literal, c.value), acts[1..]);
      }
    }
  }

  lemma {:induction false} EntityResolvesIff(s: G.Schema, e: EntityStatement)
    requires S.Sound(s.refs, s.statements) && C.ValidReferences(s.refs) && e in s.statements
    ensures C.CompileEntity(s.refs, true, e).Some? <==>
            forall a :: a in e.actions ==> ExpressionResolves(s.statements, e, a.expression)
  {
    hide S.Sound, C.ValidReferences, ExpressionResolves, C.CompileExpression, C.CompileActions;
    var en := C.CompileRelations(EntityDefinition(e.name.literal, map[], map[], map[]), e.relations);
    ActionsCompileIff(s.refs, en, e.actions);
    forall a | a in e.actions
      ensures C.CompileExpression(s.refs, true, en.name, a.expression).Some? <==>
              ExpressionResolves(s.statements, e, a.expression)
    {
      ExpressionResolvesIff(s, e, a.expression);
    }
  }

  lemma {:induction false} SchemaResolvesIff(s: G.Schema)
    requires S.Sound(s.refs, s.statements)
    ensures C.CompileSchema(true, s).Some? <==> Resolves(s.statements)
  {
    hide S.Sound, C.ValidReferences, ExpressionResolves, TypesResolve, DeclaresEntity, C.CompileEntity,
      C.CompileEntities;
    ReferencesResolveIff(s);
    if C.ValidReferences(s.refs) {
      forall e | e in s.statements
        ensures C.CompileEntity(s.refs, true, e).Some? <==>
                forall a :: a in e.actions ==> ExpressionResolves(s.statements, e, a.expression)
      {
        EntityResolvesIff(s, e);
      }
      if C.CompileEntities(s.refs, true, s.statements).Some? {
        CompiledEntities(s.refs, s.statements);
        forall e | e in s.statements
          ensures C.CompileEntity(s.refs, true, e).Some?
        {
          var i :| 0 <= i < |s.statements| && s.statements[i] == e;
        }
      }
      if forall e :: e in s.statements ==> C.CompileEntity(s.refs, true, e).Some? {
        V.EntitiesCompile(s.refs, s.statements);
      }
    }
  }

  /** A schema text is accepted exactly when it parses and every name in it resolves. */
  lemma {:induction false} AcceptedIff(text: string)
    ensures V.Accepts(text) <==> G.ParseText(text).Some? && Resolves(G.ParseText(text).value.statements)
  {
    hide G.ParseText, Resolves, C.CompileSchema, S.Sound;
    if G.ParseText(text).Some? {
      Parsed.AcceptedTextIsSound(text);
      SchemaResolvesIff(G.ParseText(text).value);
    }
  }

  // ---------------------------------------------------------------- what the definitions hold

  /** The definition lists the types of the statement, word for word and in order. */
  ghost predicate ListsTypes(refs: seq<TypeReference>, types: seq<TypeStatement>) {
    && |refs| == |types|
    && forall i :: 0 <= i < |refs| ==> refs[i].typ == types[i].typ.literal &&
                                       refs[i].relation == types[i].relation.literal
  }

  /** The definition holds the members of the statement, under their names and with their kinds, and no others. */
  ghost predicate HoldsMembers(en: EntityDefinition, e: EntityStatement) {
    && en.name == e.name.literal
    && (forall n :: n in en.relations <==> exists r :: r in e.relations && r.name.literal == n)
    && (forall n :: n in en.actions <==> exists a :: a in e.actions && a.name.literal == n)
    && (forall r :: r in e.relations ==>
          r.name.literal in en.relations && ListsTypes(en.relations[r.name.literal], r.types))
    && (forall n :: n in en.references <==> n in en.relations || n in en.actions)
    && (forall n :: n in en.relations ==> en.references[n] == RelationReference)
    && (forall n :: n in en.actions ==> en.references[n] == ActionReference)
  }

  lemma {:induction false} CompiledHoldsMembers(s: G.Schema, e: EntityStatement, en: EntityDefinition)
    requires CompiledTo(s.refs, e, en)
    ensures HoldsMembers(en, e)
  {
  }

  /** The definitions of an accepted text are its statements, field by field. */
  lemma {:induction false} DefinitionsAreTheStatements(text: string)
    requires V.Accepts(text)
    ensures var sc, es := V.DefinitionMap(V.Definitions(text)), V.Statements(text);
            && (forall typ :: typ in sc <==> DeclaresEntity(es, typ))
            && (forall e :: e in es ==> e.name.literal in sc && HoldsMembers(sc[e.name.literal], e))
  {
    hide G.ParseText, V.DefinitionMap, C.CompileSchema, S.Sound, C.ValidReferences, HoldsMembers, CompiledTo;
    V.AcceptedSchemaIsCompiled(text);
    var s, sc := G.ParseText(text).value, V.DefinitionMap(V.Definitions(text));
    forall e | e in s.statements
      ensures e.name.literal in sc && HoldsMembers(sc[e.name.literal], e)
    {
      CompiledHoldsMembers(s, e, sc[e.name.literal]);
    }
  }
}
