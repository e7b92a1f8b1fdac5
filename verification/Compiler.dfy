/** Reference validation and compilation of a parsed schema (pkg/dsl/ast/validation.go, pkg/dsl/compiler/compiler.go).
    An error is `None`; its code is left out. */
module Compiler {
  import opened Base
  import opened Tokens
  import opened Ast
  import G = Grammar

  // ---------------------------------------------------------------- validation

  predicate IsDirectEntityReference(t: TypeStatement) {
    t.relation.literal == ""
  }

  predicate ValidType(refs: G.References, t: TypeStatement) {
    && t.typ.literal in refs.entities
    && (IsDirectEntityReference(t) || G.Key(t.typ.literal, t.relation.literal) in refs.relations)
  }

  /** Every type of the relation is defined, and at most one names a whole entity. */
  predicate ValidTypes(refs: G.References, types: seq<TypeStatement>) {
    && (forall i :: 0 <= i < |types| ==> ValidType(refs, types[i]))
    && (forall i, j :: 0 <= i < j < |types| ==>
          !(IsDirectEntityReference(types[i]) && IsDirectEntityReference(types[j])))
  }

  /** What `Validate` accepts; it visits the relations in an arbitrary order. */
  predicate ValidReferences(refs: G.References) {
    USER in refs.entities && forall k :: k in refs.relations ==> ValidTypes(refs, refs.relations[k])
  }

  /** The inner loop of `Validate`. */
  method ValidateTypes(refs: G.References, types: seq<TypeStatement>) returns (ok: bool)
    ensures ok == ValidTypes(refs, types)
  {
    var count := 0;
    for i := 0 to |types|
      invariant forall j :: 0 <= j < i ==> ValidType(refs, types[j])
      invariant forall j, k :: 0 <= j < k < i ==>
                  !(IsDirectEntityReference(types[j]) && IsDirectEntityReference(types[k]))
      invariant 0 <= count <= 1
      invariant count == 0 ==> forall j :: 0 <= j < i ==> !IsDirectEntityReference(types[j])
      invariant count == 1 ==> exists j :: 0 <= j < i && IsDirectEntityReference(types[j])
    {
      if !ValidType(refs, types[i]) {
        return false;
      }
      if IsDirectEntityReference(types[i]) {
        count := count + 1;
      }
      if count > 1 {
        ghost var j :| 0 <= j < i && IsDirectEntityReference(types[j]);
        return false;
      }
    }
    return true;
  }

  method Validate(refs: G.References) returns (ok: bool)
    ensures ok == ValidReferences(refs)
  {
    if USER !in refs.entities {
      return false;
    }
    var pending := refs.relations.Keys;
    while pending != {}
      invariant pending <= refs.relations.Keys
      invariant forall k :: k in refs.relations && k !in pending ==> ValidTypes(refs, refs.relations[k])
      decreases |pending|
    {
      var k :| k in pending;
      ok := ValidateTypes(refs, refs.relations[k]);
      if !ok {
        return;
      }
      pending := pending - {k};
    }
    return true;
  }

  // ---------------------------------------------------------------- expressions

  /** The entity a walk over a relation is checked against: its direct type, or the user entity. */
  function BaseType(types: seq<TypeStatement>): string {
    if types == [] then USER
    else if IsDirectEntityReference(types[0]) then types[0].typ.literal
    else BaseType(types[1..])
  }

  /** The entity the walk over relation `key` is checked against defines `name`. */
  predicate WalkKnown(refs: G.References, key: string, name: string)
    requires key in refs.relations
  {
    G.Key(BaseType(refs.relations[key]), name) in refs.relational
  }

  /** `compileLeaf`: one identifier is a computed userset, two are a walk, more are an error. */
  function CompileLeaf(refs: G.References, validate: bool, entity: string, prefix: Token,
                       idents: seq<Token>): Option<Child> {
    var exclusion := prefix.literal != "";
    if |idents| == 1 then
      if validate && G.Key(entity, idents[0].literal) !in refs.relational then None
      else Some(LeafChild(ComputedUserSet(exclusion, idents[0].literal)))
    else if |idents| == 2 then
      if validate && G.Key(entity, idents[0].literal) !in refs.relations then None
      else if validate && !WalkKnown(refs, G.Key(entity, idents[0].literal), idents[1].literal) then None
      else Some(LeafChild(TupleToUserSet(exclusion, idents[0].literal, idents[1].literal)))
    else None
  }

  function OperationOf(op: Token): Operation {
    if op.literal == "or" then Union else if op.literal == "and" then Intersection else Unspecified
  }

  function CompileExpression(refs: G.References, validate: bool, entity: string, e: Expression): Option<Child> {
    match e
    case Identifier(prefix, idents) => CompileLeaf(refs, validate, entity, prefix, idents)
    case Infix(left, op, right) =>
      match CompileExpression(refs, validate, entity, left)
      case None => None
      case Some(l) =>
        match CompileExpression(refs, validate, entity, right)
        case None => None
        case Some(r) => Some(Rewrite(OperationOf(op), [l, r]))
  }

  // ---------------------------------------------------------------- entities

  function CompileTypes(types: seq<TypeStatement>): seq<TypeReference> {
    seq(|types|, i requires 0 <= i < |types| => TypeReference(types[i].typ.literal, types[i].relation.literal))
  }

  function AddRelation(en: EntityDefinition, r: RelationStatement): EntityDefinition {
    en.(relations := en.relations[r.name.literal := CompileTypes(r.types)],
        references := en.references[r.name.literal := RelationReference])
  }

  function AddAction(en: EntityDefinition, name: string, c: Child): EntityDefinition {
    en.(actions := en.actions[name := c], references := en.references[name := ActionReference])
  }

  function CompileRelations(en: EntityDefinition, rs: seq<RelationStatement>): (r: EntityDefinition)
    ensures r.name == en.name && r.actions == en.actions
    decreases |rs|
  {
    if rs == [] then en else CompileRelations(AddRelation(en, rs[0]), rs[1..])
  }

  function CompileActions(refs: G.References, validate: bool, en: EntityDefinition,
                          acts: seq<ActionStatement>): (r: Option<EntityDefinition>)
    ensures r.Some? ==> r.value.name == en.name && r.value.relations == en.relations
    decreases |acts|
  {
    if acts == [] then Some(en)
    else
      match CompileExpression(refs, validate, en.name, acts[0].expression)
      case None => None
      case Some(c) => CompileActions(refs, validate, AddAction(en, acts[0].name.literal, c), acts[1..])
  }

  function CompileEntity(refs: G.References, validate: bool, e: EntityStatement): Option<EntityDefinition> {
    CompileActions(refs, validate,
                   CompileRelations(EntityDefinition(e.name.literal, map[], map[], map[]), e.relations), e.actions)
  }

  function CompileEntities(refs: G.References, validate: bool,
                           es: seq<EntityStatement>): Option<seq<EntityDefinition>> {
    if es == [] then Some([])
    else
      match CompileEntity(refs, validate, es[0])
      case None => None
      case Some(en) =>
        match CompileEntities(refs, validate, es[1..])
        case None => None
        case Some(rest) => Some([en] + rest)
  }

  /** `NewCompiler(!validate, schema).Compile()`. */
  function CompileSchema(validate: bool, s: G.Schema): Option<seq<EntityDefinition>> {
    if validate && !ValidReferences(s.refs) then None else CompileEntities(s.refs, validate, s.statements)
  }

  // ---------------------------------------------------------------- the loops of the source

  method CompileEntityStatement(refs: G.References, validate: bool, e: EntityStatement)
    returns (en: Option<EntityDefinition>)
    ensures en == CompileEntity(refs, validate, e)
  {
    var definition := EntityDefinition(e.name.literal, map[], map[], map[]);
    assert e.relations[0..] == e.relations;
    for i := 0 to |e.relations|
      invariant CompileRelations(definition, e.relations[i..]) ==
                CompileRelations(EntityDefinition(e.name.literal, map[], map[], map[]), e.relations)
    {
      assert e.relations[i..][1..] == e.relations[i + 1..];
      definition := AddRelation(definition, e.relations[i]);
    }
    assert definition == CompileRelations(EntityDefinition(e.name.literal, map[], map[], map[]), e.relations);
    assert e.actions[0..] == e.actions;
    for i := 0 to |e.actions|
      invariant CompileActions(refs, validate, definition, e.actions[i..]) == CompileEntity(refs, validate, e)
      invariant definition.name == e.name.literal
    {
      assert e.actions[i..][1..] == e.actions[i + 1..];
      var c := CompileExpression(refs, validate, definition.name, e.actions[i].expression);
      if c.None? {
        return None;
      }
      definition := AddAction(definition, e.actions[i].name.literal, c.value);
    }
    return Some(definition);
  }

  method Compile(validate: bool, s: G.Schema) returns (ens: Option<seq<EntityDefinition>>)
    ensures ens == CompileSchema(validate, s)
  {
    hide CompileEntity, ValidReferences;
    if validate {
      var ok := Validate(s.refs);
      if !ok {
        return None;
      }
    }
    var entities := [];
    assert s.statements[0..] == s.statements;
    PrependedNone(CompileEntities(s.refs, validate, s.statements));
    for i := 0 to |s.statements|
      invariant CompileEntities(s.refs, validate, s.statements) ==
                Prepended(entities, CompileEntities(s.refs, validate, s.statements[i..]))
    {
      assert s.statements[i..][1..] == s.statements[i + 1..];
      var en := CompileEntityStatement(s.refs, validate, s.statements[i]);
      if en.None? {
        return None;
      }
      PrependedOne(entities, en.value, CompileEntities(s.refs, validate, s.statements[i + 1..]));
      entities := entities + [en.value];
    }
    assert entities + [] == entities;
    return Some(entities);
  }

  ghost function Prepended(done: seq<EntityDefinition>,
                           rest: Option<seq<EntityDefinition>>): Option<seq<EntityDefinition>> {
    if rest.None? then None else Some(done + rest.value)
  }

  lemma {:induction false} PrependedNone(rest: Option<seq<EntityDefinition>>)
    ensures Prepended([], rest) == rest
  {
    if rest.Some? {
      assert [] + rest.value == rest.value;
    }
  }

  lemma {:induction false} PrependedOne(done: seq<EntityDefinition>, en: EntityDefinition,
                                        rest: Option<seq<EntityDefinition>>)
    ensures Prepended(done, Prepended([en], rest)) == Prepended(done + [en], rest)
  {
    if rest.Some? {
      assert done + ([en] + rest.value) == done + [en] + rest.value;
    }
  }
}
