/** Writing and reading schemas (internal/services/schemaService.go, internal/repositories/memory/schemaReader.go,
    internal/schema/schema.go): a schema is stored as the printed text of its entities, and every read parses and
    compiles that text again. */
module SchemaService {
  import opened Base
  import opened Tokens
  import opened Ast
  import G = Grammar
  import P = Parser
  import S = Statements
  import C = Compiler
  import opened Fields
  import TreeShape
  import opened Printed
  import opened Parsed
  import opened Reread
  import opened Compiled
  import T = Typing
  import Keys

  /** A row of the schema definitions table. */
  datatype Stored = Stored(entityType: string, serialized: string)

  function StoredForm(e: EntityStatement): Stored {
    Stored(e.name.literal, EntityText(e, ""))
  }

  /** The schema text is accepted: it parses, and compiles with reference validation. */
  predicate Accepts(text: string) {
    G.ParseText(text).Some? && C.CompileSchema(true, G.ParseText(text).value).Some?
  }

  function Statements(text: string): seq<EntityStatement>
    requires Accepts(text)
  {
    G.ParseText(text).value.statements
  }

  function Definitions(text: string): seq<EntityDefinition>
    requires Accepts(text)
  {
    C.CompileSchema(true, G.ParseText(text).value).value
  }

  /** `NewSchemaFromEntityDefinitions`: later definitions replace earlier ones of the same name. */
  function DefinitionMap(ens: seq<EntityDefinition>): Schema {
    if ens == [] then map[]
    else DefinitionMap(ens[..|ens| - 1])[ens[|ens| - 1].name := ens[|ens| - 1]]
  }

  /** `NewSchemaFromStringDefinitions` on a joined text. */
  function SchemaFromText(validate: bool, text: string): Option<Schema> {
    match G.ParseText(text)
    case None => None
    case Some(s) =>
      match C.CompileSchema(validate, s)
      case None => None
      case Some(ens) => Some(DefinitionMap(ens))
  }

  /** `ReadSchemaDefinition` on the stored text of one entity type: parse, compile without validation, look up. */
  function ReadDefinition(row: Stored): Option<EntityDefinition> {
    match SchemaFromText(false, row.serialized)
    case None => None
    case Some(sc) => if row.entityType in sc then Some(sc[row.entityType]) else None
  }

  // ---------------------------------------------------------------- the service

  /** `WriteSchema`: the rows to store, or an error. */
  method WriteSchema(schema: string) returns (cnf: Option<seq<Stored>>)
    ensures cnf.Some? <==> Accepts(schema)
    ensures cnf.Some? ==>
              |cnf.value| == |Statements(schema)| &&
              forall i :: 0 <= i < |cnf.value| ==> cnf.value[i] == StoredForm(Statements(schema)[i])
  {
    hide G.ParseText, C.CompileSchema, EntityText;
    var sch := P.ParseText(schema);
    if sch.None? {
      return None;
    }
    var definitions := C.Compile(true, sch.value);
    if definitions.None? {
      return None;
    }
    AcceptedTextIsSound(schema);
    CompiledStatementsAreGood(sch.value);
    var rows := Rows(sch.value.statements);
    return Some(rows);
  }

  /** The loop of `WriteSchema` over the statements. */
  method Rows(es: seq<EntityStatement>) returns (rows: seq<Stored>)
    requires forall i :: 0 <= i < |es| ==> GoodEntity(es[i])
    ensures |rows| == |es| && forall i :: 0 <= i < |es| ==> rows[i] == StoredForm(es[i])
  {
    hide EntityText;
    rows := [];
    for i := 0 to |es|
      invariant |rows| == i && forall j :: 0 <= j < i ==> rows[j] == StoredForm(es[j])
    {
      GoodActionsArePrintable(es[i]);
      var text := EntityString(es[i]);
      rows := rows + [Stored(es[i].name.literal, text)];
    }
  }

  lemma {:induction false} GoodActionsArePrintable(e: EntityStatement)
    requires GoodEntity(e)
    ensures forall j :: 0 <= j < |e.actions| ==> Printable(e.actions[j].expression)
  {
    forall j | 0 <= j < |e.actions|
      ensures Printable(e.actions[j].expression)
    {
      assert GoodAction(e.actions[j]);
      GoodIsPrintable(e.actions[j].expression);
    }
  }

  lemma {:induction false} GoodIsPrintable(e: Expression)
    requires GoodExpression(e)
    ensures Printable(e)
  {
    if e.Infix? {
      GoodIsPrintable(e.left);
      GoodIsPrintable(e.right);
    }
  }

  // ---------------------------------------------------------------- what is stored is read back

  /** Every stored entity text parses to the one statement it was printed from, and compiles, without validation, to the
      definition that the validated schema had. */
  lemma {:induction false} StoredEntityIsReadBack(text: string, i: nat)
    requires Accepts(text) && i < |Statements(text)|
    ensures var e := Statements(text)[i];
            && |Definitions(text)| == |Statements(text)|
            && G.ParseText(EntityText(e, "")).Some?
            && G.ParseText(EntityText(e, "")).value.statements == [e]
            && C.CompileSchema(false, G.ParseText(EntityText(e, "")).value) == Some([Definitions(text)[i]])
            && ReadDefinition(StoredForm(e)) == Some(Definitions(text)[i])
  {
    hide G.ParseText, EntityText, C.CompileEntity, C.CompileEntities, GoodEntity, S.Describes, S.ParsedEntities,
         C.ValidReferences;
    var s := G.ParseText(text).value;
    var e := s.statements[i];
    AcceptedTextIsSound(text);
    CompiledStatementsAreGood(s);
    CompiledEntities(s.refs, s.statements);
    OneIsDistinct(s.statements, i);
    PrintedTextIsReadBack([e]);
    assert JoinedText([e]) == EntityText(e, "");
    var s1 := G.ParseText(EntityText(e, "")).value;
    UnvalidatedEntity(s.refs, s1.refs, e);
    CompileOne(s1.refs, e);
    OneDefinition(Definitions(text)[i]);
    EntityKeepsNameHere(s.refs, e, Definitions(text)[i]);
  }

  /** Some text is accepted: the smallest schema is a user entity without members. */
  lemma {:induction false} UserEntityIsAccepted()
    ensures var e := EntityStatement(Token(IDENT, USER), [], []);
            Accepts(EntityText(e, "")) && Statements(EntityText(e, "")) == [e]
  {
    hide G.ParseText, EntityText;
    var e := EntityStatement(Token(IDENT, USER), [], []);
    OneIsRead(e);
    var s := G.ParseText(EntityText(e, "")).value;
    assert S.HasEntity(s.statements, USER);
    assert forall k :: k in s.refs.relations ==> S.HasRelation(s.statements, k, s.refs.relations[k]);
    assert C.ValidReferences(s.refs);
    CompileUser(s.refs, e);
  }

  lemma {:induction false} OneIsRead(e: EntityStatement)
    requires GoodEntity(e) && S.DistinctMembers(e)
    ensures var p := G.ParseText(EntityText(e, ""));
            p.Some? && p.value.statements == [e] && S.Describes(p.value.refs, [e])
  {
    hide G.ParseText, EntityText, S.Describes;
    PrintedTextIsReadBack([e]);
    assert JoinedText([e]) == EntityText(e, "");
  }

  lemma {:induction false} CompileUser(refs: G.References, e: EntityStatement)
    requires e.relations == [] && e.actions == []
    ensures C.CompileEntities(refs, true, [e]).Some?
  {
    assert C.CompileEntities(refs, true, [e][1..]) == Some([]);
  }

  lemma {:induction false} OneIsDistinct(es: seq<EntityStatement>, i: nat)
    requires S.Distinct(es) && i < |es|
    ensures S.Distinct([es[i]])
  {
    assert S.DistinctMembers(es[i]);
  }

  lemma {:induction false} OneDefinition(en: EntityDefinition)
    ensures DefinitionMap([en]) == map[en.name := en]
  {
    assert [en][..0] == [];
    assert DefinitionMap([en][..0]) == map[];
  }

  lemma {:induction false} CompileOne(refs: G.References, e: EntityStatement)
    requires C.CompileEntity(refs, false, e).Some?
    ensures C.CompileEntities(refs, false, [e]) == Some([C.CompileEntity(refs, false, e).value])
  {
    hide C.CompileEntity;
    assert [e][1..] == [];
    assert C.CompileEntities(refs, false, [e][1..]) == Some([]);
    var en := C.CompileEntity(refs, false, e).value;
    assert [en] + [] == [en];
  }

  /** The rows read back as a whole, in any order: the same statements, the same maps, and the same definitions. */
  lemma {:induction false} StoredSchemaIsReadBack(text: string, es: seq<EntityStatement>)
    requires Accepts(text) && S.Distinct(es)
    requires forall e :: e in es <==> e in Statements(text)
    ensures var s := G.ParseText(text).value;
            && G.ParseText(JoinedText(es)) == Some(G.Schema(es, s.refs))
            && SchemaFromText(true, JoinedText(es)) == Some(DefinitionMap(Definitions(text)))
  {
    hide G.ParseText, JoinedText, C.CompileSchema, GoodEntity, DefinitionMap;
    var s := G.ParseText(text).value;
    AcceptedTextIsSound(text);
    CompiledStatementsAreGood(s);
    forall i | 0 <= i < |es|
      ensures GoodEntity(es[i])
    {
      assert es[i] in es;
      var j :| 0 <= j < |s.statements| && s.statements[j] == es[i];
    }
    PrintedTextIsReadBack(es);
    DescribedMapsAreEqual(s.refs, s.statements, G.ParseText(JoinedText(es)).value.refs, es);
    SameStatementsCompile(s, es);
  }

  lemma {:induction false} SameStatementsCompile(s: G.Schema, es: seq<EntityStatement>)
    requires S.Sound(s.refs, s.statements) && S.Distinct(es) && C.CompileSchema(true, s).Some?
    requires forall e :: e in es <==> e in s.statements
    ensures C.CompileSchema(true, G.Schema(es, s.refs)).Some?
    ensures DefinitionMap(C.CompileSchema(true, G.Schema(es, s.refs)).value) ==
            DefinitionMap(C.CompileSchema(true, s).value)
  {
    hide C.CompileEntity, C.CompileEntities, DefinitionMap, C.ValidReferences;
    CompiledEntities(s.refs, s.statements);
    forall e | e in es
      ensures C.CompileEntity(s.refs, true, e).Some?
    {
      var i :| 0 <= i < |s.statements| && s.statements[i] == e;
    }
    EntitiesCompile(s.refs, es);
    DefinitionsByName(s.refs, es);
    DefinitionsByName(s.refs, s.statements);
    SameMap(s.refs, es, DefinitionMap(C.CompileEntities(s.refs, true, es).value),
            s.statements, DefinitionMap(C.CompileEntities(s.refs, true, s.statements).value));
  }

  lemma {:induction false} SameMap(refs: G.References, es: seq<EntityStatement>, sc: Schema,
                                   es': seq<EntityStatement>, sc': Schema)
    requires MapsTo(refs, es, sc) && MapsTo(refs, es', sc') && forall e :: e in es <==> e in es'
    ensures sc == sc'
  {
    hide C.CompileEntity;
    forall n
      ensures n in sc <==> n in sc'
    {
      if n in sc {
        var e :| e in es && e.name.literal == n;
      }
      if n in sc' {
        var e :| e in es' && e.name.literal == n;
      }
    }
    forall n | n in sc
      ensures sc[n] == sc'[n]
    {
      var e :| e in es && e.name.literal == n;
    }
  }

  lemma {:induction false} EntitiesCompile(refs: G.References, es: seq<EntityStatement>)
    requires forall e :: e in es ==> C.CompileEntity(refs, true, e).Some?
    ensures C.CompileEntities(refs, true, es).Some?
    decreases |es|
  {
    if es != [] {
      assert es[0] in es;
      EntitiesCompile(refs, es[1..]);
    }
  }

  /** The definition map of compiled statements: one definition for each statement, under its name. */
  ghost predicate MapsTo(refs: G.References, es: seq<EntityStatement>, sc: Schema) {
    && (forall n :: n in sc <==> exists e :: e in es && e.name.literal == n)
    && (forall e :: e in es ==> C.CompileEntity(refs, true, e) == Some(sc[e.name.literal]))
  }

  lemma {:induction false} DefinitionsByName(refs: G.References, es: seq<EntityStatement>)
    requires S.Distinct(es) && C.CompileEntities(refs, true, es).Some?
    ensures MapsTo(refs, es, DefinitionMap(C.CompileEntities(refs, true, es).value))
  {
    CompiledEntities(refs, es);
    var ens := C.CompileEntities(refs, true, es).value;
    MapOfPrefix(refs, es, ens, |es|);
    assert es[..|es|] == es && ens[..|es|] == ens;
  }

  lemma {:induction false} MapOfPrefix(refs: G.References, es: seq<EntityStatement>, ens: seq<EntityDefinition>, n: nat)
    requires S.Distinct(es) && |ens| == |es| && n <= |es|
    requires forall i :: 0 <= i < |es| ==> C.CompileEntity(refs, true, es[i]) == Some(ens[i])
    ensures MapsTo(refs, es[..n], DefinitionMap(ens[..n]))
    decreases n
  {
    hide C.CompileEntity, MapsTo;
    if n == 0 {
      NoneMapsTo(refs);
    } else {
      EntityKeepsNameHere(refs, es[n - 1], ens[n - 1]);
      MapOfPrefix(refs, es, ens, n - 1);
      var e, en := es[n - 1], ens[n - 1];
      assert ens[..n][..n - 1] == ens[..n - 1];
      assert es[..n] == es[..n - 1] + [e];
      assert DefinitionMap(ens[..n]) == DefinitionMap(ens[..n - 1])[en.name := en];
      MapExtends(refs, es[..n - 1], DefinitionMap(ens[..n - 1]), e, en);
    }
  }

  lemma {:induction false} EntityKeepsNameHere(refs: G.References, e: EntityStatement, en: EntityDefinition)
    requires C.CompileEntity(refs, true, e) == Some(en)
    ensures en.name == e.name.literal
  {
  }

  lemma {:induction false} NoneMapsTo(refs: G.References)
    ensures MapsTo(refs, [], map[])
  {
  }

  lemma {:induction false} MapExtends(refs: G.References, es: seq<EntityStatement>, sc: Schema, e: EntityStatement,
                                      en: EntityDefinition)
    requires MapsTo(refs, es, sc) && C.CompileEntity(refs, true, e) == Some(en)
    requires forall x :: x in es ==> x.name.literal != e.name.literal
    ensures MapsTo(refs, es + [e], sc[en.name := en])
  {
    hide C.CompileEntity;
    EntityKeepsNameHere(refs, e, en);
    var sc1 := sc[en.name := en];
    forall n
      ensures n in sc1 <==> exists x :: x in es + [e] && x.name.literal == n
    {
      assert e in es + [e];
      if x :| x in es && x.name.literal == n {
        assert x in es + [e];
      }
    }
  }

  // ---------------------------------------------------------------- an accepted schema is well typed

  /** The definitions of an accepted schema text are those its statements compile to. */
  lemma {:induction false} AcceptedSchemaIsCompiled(text: string)
    requires Accepts(text)
    ensures CompiledSchema(G.ParseText(text).value, DefinitionMap(Definitions(text)))
  {
    hide G.ParseText, S.ParsedEntity, S.DistinctMembers, C.CompileEntity, C.CompileEntities, CompiledTo, DefinitionMap;
    var s := G.ParseText(text).value;
    AcceptedTextIsSound(text);
    CompiledEntities(s.refs, s.statements);
    DefinitionsByName(s.refs, s.statements);
    var sc := DefinitionMap(Definitions(text));
    forall e | e in s.statements
      ensures CompiledTo(s.refs, e, sc[e.name.literal])
    {
      EntityCompiles(s.refs, e);
    }
  }

  /** The definitions of an accepted schema text are well typed. */
  lemma {:induction false} AcceptedSchemaIsWellTyped(text: string)
    requires Accepts(text)
    ensures T.WellTyped(DefinitionMap(Definitions(text)))
  {
    hide G.ParseText, T.WellTyped, CompiledSchema;
    AcceptedSchemaIsCompiled(text);
    SchemaIsWellTyped(G.ParseText(text).value, DefinitionMap(Definitions(text)));
  }

  /** Entity and relation names of an accepted schema hold no separator of a cache key. */
  lemma {:induction false} AcceptedNamesAreClean(text: string)
    requires Accepts(text)
    ensures Keys.CleanNames(DefinitionMap(Definitions(text)))
  {
    hide G.ParseText, DefinitionMap, C.ValidReferences;
    AcceptedSchemaIsCompiled(text);
    var s, sc := G.ParseText(text).value, DefinitionMap(Definitions(text));
    forall typ | typ in sc
      ensures ':' !in typ && forall n :: n in sc[typ].relations ==> '@' !in n
    {
      var e :| e in s.statements && e.name.literal == typ;
      assert CompiledTo(s.refs, e, sc[typ]) && S.ParsedEntity(e);
      forall n | n in sc[typ].relations
        ensures '@' !in n
      {
        var r :| r in e.relations && r.name.literal == n;
      }
    }
  }

  ghost predicate CompiledSchema(s: G.Schema, sc: Schema) {
    && S.Sound(s.refs, s.statements) && C.ValidReferences(s.refs)
    && (forall n :: n in sc <==> exists e :: e in s.statements && e.name.literal == n)
    && (forall e :: e in s.statements ==> CompiledTo(s.refs, e, sc[e.name.literal]))
  }

  lemma {:induction false} MembersAreDefined(s: G.Schema, sc: Schema, e: EntityStatement)
    requires CompiledSchema(s, sc) && e in s.statements
    ensures e.name.literal in sc
    ensures forall r :: r in e.relations ==>
              r.name.literal in sc[e.name.literal].relations && Defines(sc, e.name.literal, r.name.literal)
    ensures forall a :: a in e.actions ==> Defines(sc, e.name.literal, a.name.literal)
  {
    hide S.Sound, C.ValidReferences;
    assert CompiledTo(s.refs, e, sc[e.name.literal]);
  }

  lemma {:induction false} KnownAction(s: G.Schema, typ: string, name: string) returns (e: EntityStatement)
    requires S.Sound(s.refs, s.statements) && '#' !in typ && G.Key(typ, name) in s.refs.actions
    ensures e in s.statements && e.name.literal == typ && exists a :: a in e.actions && a.name.literal == name
  {
    var key := G.Key(typ, name);
    assert S.HasAction(s.statements, key);
    var x, a :| x in s.statements && a in x.actions && key == G.Key(x.name.literal, a.name.literal);
    assert S.ParsedEntity(x);
    S.WordHasNoHash(x.name.literal);
    FieldIsInjective(typ, x.name.literal, '#', name, a.name.literal);
    e := x;
  }

  lemma {:induction false} RelationalIsEither(s: G.Schema, key: string)
    requires S.Sound(s.refs, s.statements)
    ensures key in s.refs.relational <==> key in s.refs.relations || key in s.refs.actions
  {
  }

  /** A relational key of an entity name is something the entity's definition defines. */
  lemma {:induction false} KnownKeyIsDefined(s: G.Schema, sc: Schema, typ: string, name: string)
    requires CompiledSchema(s, sc) && '#' !in typ && G.Key(typ, name) in s.refs.relational
    ensures Defines(sc, typ, name)
    ensures G.Key(typ, name) in s.refs.relations ==> name in sc[typ].relations
  {
    hide S.Sound, CompiledTo, C.ValidReferences;
    RelationalIsEither(s, G.Key(typ, name));
    if G.Key(typ, name) in s.refs.relations {
      var e := KnownRelation(s, typ, name);
      MembersAreDefined(s, sc, e);
    } else {
      var e := KnownAction(s, typ, name);
      MembersAreDefined(s, sc, e);
    }
  }

  lemma {:induction false} KnownRelation(s: G.Schema, typ: string, name: string) returns (e: EntityStatement)
    requires S.Sound(s.refs, s.statements) && '#' !in typ && G.Key(typ, name) in s.refs.relations
    ensures e in s.statements && e.name.literal == typ
    ensures exists r :: r in e.relations && r.name.literal == name && r.types == s.refs.relations[G.Key(typ, name)]
  {
    var key := G.Key(typ, name);
    assert S.HasRelation(s.statements, key, s.refs.relations[key]);
    var x, r :| x in s.statements && r in x.relations && key == G.Key(x.name.literal, r.name.literal) &&
                s.refs.relations[key] == r.types;
    assert S.ParsedEntity(x);
    S.WordHasNoHash(x.name.literal);
    FieldIsInjective(typ, x.name.literal, '#', name, r.name.literal);
    e := x;
  }

  lemma {:induction false} RelationTypesAreTyped(s: G.Schema, sc: Schema, e: EntityStatement, n: string,
                                                 ref: TypeReference)
    requires CompiledSchema(s, sc) && e in s.statements && n in sc[e.name.literal].relations
    requires ref in sc[e.name.literal].relations[n]
    ensures T.ReferenceTyped(sc, ref)
  {
    hide S.Sound, C.ValidReferences;
    assert CompiledTo(s.refs, e, sc[e.name.literal]);
    var r :| r in e.relations && r.name.literal == n;
    var i :| 0 <= i < |r.types| && ref == TypeReference(r.types[i].typ.literal, r.types[i].relation.literal);
    TypeIsKnown(s, e, r, i);
    EntityIsDefined(s, sc, ref.typ);
    S.WordHasNoHash(ref.typ);
    if ref.relation != "" {
      var x := KnownRelation(s, ref.typ, ref.relation);
      MembersAreDefined(s, sc, x);
      EllipsisIsNoWord(ref.relation);
    }
  }

  lemma {:induction false} EntityIsDefined(s: G.Schema, sc: Schema, name: string)
    requires CompiledSchema(s, sc) && name in s.refs.entities
    ensures name in sc
  {
    assert S.HasEntity(s.statements, name);
  }

  /** Reference validation of one type of one relation, seen from the statement. */
  lemma {:induction false} TypeIsKnown(s: G.Schema, e: EntityStatement, r: RelationStatement, i: nat)
    requires S.Sound(s.refs, s.statements) && C.ValidReferences(s.refs)
    requires e in s.statements && r in e.relations && i < |r.types|
    ensures var t := r.types[i];
            && t.typ.literal in s.refs.entities && TreeShape.IsWord(t.typ.literal)
            && (t.relation.literal != "" ==>
                  TreeShape.IsWord(t.relation.literal) && G.Key(t.typ.literal, t.relation.literal) in s.refs.relations)
  {
    assert S.HasRelation(s.statements, G.Key(e.name.literal, r.name.literal), r.types);
    assert C.ValidTypes(s.refs, r.types);
    assert C.ValidType(s.refs, r.types[i]);
    assert S.ParsedEntity(e) && GoodRelation(r) && GoodType(r.types[i]);
  }

  lemma {:induction false} EllipsisIsNoWord(w: string)
    requires TreeShape.IsWord(w)
    ensures w != ELLIPSIS
  {
    assert IsLetter(w[0]);
  }

  /** With at most one direct type, that is the entity a walk is checked against. */
  lemma {:induction false} BaseTypeIsDirect(types: seq<TypeStatement>, i: nat)
    requires i < |types| && C.IsDirectEntityReference(types[i])
    requires forall j :: 0 <= j < i ==> !C.IsDirectEntityReference(types[j])
    ensures C.BaseType(types) == types[i].typ.literal
  {
    if i > 0 {
      BaseTypeIsDirect(types[1..], i - 1);
    }
  }

  lemma {:induction false} BaseTypeIsUser(types: seq<TypeStatement>)
    requires forall j :: 0 <= j < |types| ==> !C.IsDirectEntityReference(types[j])
    ensures C.BaseType(types) == USER
  {
    if types != [] {
      BaseTypeIsUser(types[1..]);
    }
  }

  /** The name that a walk computes is defined for the direct types of the walked relation. */
  lemma {:induction false} WalkIsKnown(s: G.Schema, sc: Schema, e: EntityStatement, tupleSet: string, name: string)
    requires CompiledSchema(s, sc) && e in s.statements
    requires G.Key(e.name.literal, tupleSet) in s.refs.relations
    requires C.WalkKnown(s.refs, G.Key(e.name.literal, tupleSet), name)
    ensures tupleSet in sc[e.name.literal].relations
    ensures T.DirectTypesDefine(sc, sc[e.name.literal].relations[tupleSet], name)
  {
    var key := G.Key(e.name.literal, tupleSet);
    var types := s.refs.relations[key];
    assert C.ValidTypes(s.refs, types);
    RelationIsListed(s, sc, e, tupleSet);
    BaseTypeIsWordHere(s, key);
    KnownKeyIsDefined(s, sc, C.BaseType(types), name);
    hide S.Sound, CompiledTo, C.ValidReferences, CompiledSchema, C.CompileTypes, T.DirectTypesDefine;
    DirectTypesOf(sc, types, name);
  }

  lemma {:induction false} DirectTypesOf(sc: Schema, types: seq<TypeStatement>, name: string)
    requires forall i, j :: 0 <= i < j < |types| ==>
               !(C.IsDirectEntityReference(types[i]) && C.IsDirectEntityReference(types[j]))
    requires Defines(sc, C.BaseType(types), name)
    ensures T.DirectTypesDefine(sc, C.CompileTypes(types), name)
  {
    hide Defines;
    forall i: nat | i < |types| && C.IsDirectEntityReference(types[i])
      ensures C.BaseType(types) == types[i].typ.literal
    {
      BaseTypeIsDirect(types, i);
    }
    var refs := C.CompileTypes(types);
    forall ref | ref in refs && ref.relation == ""
      ensures Defines(sc, ref.typ, name)
    {
      var i :| 0 <= i < |refs| && refs[i] == ref;
      assert C.IsDirectEntityReference(types[i]);
    }
    if forall ref :: ref in refs ==> ref.relation != "" {
      forall j | 0 <= j < |types|
        ensures !C.IsDirectEntityReference(types[j])
      {
        assert refs[j] in refs;
      }
      BaseTypeIsUser(types);
    }
  }

  lemma {:induction false} BaseTypeIsWordHere(s: G.Schema, key: string)
    requires S.Sound(s.refs, s.statements) && key in s.refs.relations
    ensures '#' !in C.BaseType(s.refs.relations[key])
  {
    KnownTypesAreGood(s.refs, s.statements, key);
    BaseTypeIsWord(s.refs.relations[key]);
  }

  /** What an entity's definition lists for a relation is what the reference maps hold for its key. */
  lemma {:induction false} RelationIsListed(s: G.Schema, sc: Schema, e: EntityStatement, name: string)
    requires CompiledSchema(s, sc) && e in s.statements && G.Key(e.name.literal, name) in s.refs.relations
    ensures name in sc[e.name.literal].relations
    ensures sc[e.name.literal].relations[name] == C.CompileTypes(s.refs.relations[G.Key(e.name.literal, name)])
  {
    hide C.ValidReferences, C.CompileTypes;
    var key := G.Key(e.name.literal, name);
    assert S.HasRelation(s.statements, key, s.refs.relations[key]);
    var x, r :| x in s.statements && r in x.relations && key == G.Key(x.name.literal, r.name.literal) &&
                s.refs.relations[key] == r.types;
    assert S.ParsedEntity(x) && S.ParsedEntity(e);
    EntityKey(e, name, x, r.name.literal);
    SameEntity(s, e, x);
    assert CompiledTo(s.refs, x, sc[x.name.literal]);
  }

  lemma {:induction false} EntityKey(e: EntityStatement, n: string, e': EntityStatement, n': string)
    requires GoodName(e.name) && GoodName(e'.name) && G.Key(e.name.literal, n) == G.Key(e'.name.literal, n')
    ensures e.name.literal == e'.name.literal && n == n'
  {
    S.MemberKeys(e, n, e', n');
  }

  lemma {:induction false} SameEntity(s: G.Schema, e: EntityStatement, x: EntityStatement)
    requires S.Distinct(s.statements) && e in s.statements && x in s.statements && e.name.literal == x.name.literal
    ensures e == x
  {
    var i, j :| 0 <= i < |s.statements| && 0 <= j < |s.statements| && s.statements[i] == e && s.statements[j] == x;
  }

  lemma {:induction false} CompiledLeavesAreTyped(s: G.Schema, sc: Schema, e: EntityStatement, x: Expression,
                                                  leaf: Leaf)
    requires CompiledSchema(s, sc) && e in s.statements
    requires C.CompileExpression(s.refs, true, e.name.literal, x).Some?
    requires HasLeaf(C.CompileExpression(s.refs, true, e.name.literal, x).value, leaf)
    ensures T.LeafTyped(sc, e.name.literal, leaf)
    decreases x
  {
    assert S.ParsedEntity(e);
    S.WordHasNoHash(e.name.literal);
    match x
    case Identifier(prefix, idents) =>
      RelationsAreRelational(s.refs, s.statements);
      KnownKeyIsDefined(s, sc, e.name.literal, idents[0].literal);
      if |idents| == 2 {
        WalkIsKnown(s, sc, e, idents[0].literal, idents[1].literal);
      }
    case Infix(left, op, right) =>
      var l := C.CompileExpression(s.refs, true, e.name.literal, left).value;
      var r := C.CompileExpression(s.refs, true, e.name.literal, right).value;
      var both := [l, r];
      var i :| 0 <= i < 2 && HasLeaf(both[i], leaf);
      CompiledLeavesAreTyped(s, sc, e, if i == 0 then left else right, leaf);
  }

  lemma {:induction false} DefinitionIsTyped(s: G.Schema, sc: Schema, typ: string)
    requires CompiledSchema(s, sc) && typ in sc
    ensures T.DefinitionWellFormed(sc[typ])
    ensures forall n, ref :: n in sc[typ].relations && ref in sc[typ].relations[n] ==> T.ReferenceTyped(sc, ref)
  {
    hide T.DefinitionWellFormed, T.ReferenceTyped, S.Sound, C.ValidReferences;
    var e :| e in s.statements && e.name.literal == typ;
    assert CompiledTo(s.refs, e, sc[typ]);
    forall n, ref | n in sc[typ].relations && ref in sc[typ].relations[n]
      ensures T.ReferenceTyped(sc, ref)
    {
      RelationTypesAreTyped(s, sc, e, n, ref);
    }
  }

  lemma {:induction false} ActionIsTyped(s: G.Schema, sc: Schema, typ: string, n: string, leaf: Leaf)
    requires CompiledSchema(s, sc) && typ in sc && n in sc[typ].actions && HasLeaf(sc[typ].actions[n], leaf)
    ensures T.LeafTyped(sc, typ, leaf)
  {
    hide T.DefinitionWellFormed, T.LeafTyped, HasLeaf, S.Sound, C.ValidReferences;
    var e :| e in s.statements && e.name.literal == typ;
    assert CompiledTo(s.refs, e, sc[typ]);
    var a :| a in e.actions && a.name.literal == n;
    CompiledLeavesAreTyped(s, sc, e, a.expression, leaf);
  }

  lemma {:induction false} SchemaIsWellTyped(s: G.Schema, sc: Schema)
    requires CompiledSchema(s, sc)
    ensures T.WellTyped(sc)
  {
    hide CompiledSchema, T.DefinitionWellFormed, T.ReferenceTyped, T.LeafTyped, HasLeaf;
    forall typ | typ in sc
      ensures T.DefinitionWellFormed(sc[typ])
      ensures forall n, ref :: n in sc[typ].relations && ref in sc[typ].relations[n] ==> T.ReferenceTyped(sc, ref)
    {
      DefinitionIsTyped(s, sc, typ);
    }
    forall typ, n, leaf | typ in sc && n in sc[typ].actions && HasLeaf(sc[typ].actions[n], leaf)
      ensures T.LeafTyped(sc, typ, leaf)
    {
      ActionIsTyped(s, sc, typ, n, leaf);
    }
  }
}
