/** One accepted schema text that shows two gaps at once: a walk that can get stuck, and a relation with usersets under
    `not`. */
module GapSchema {
  import opened Base
  import opened Tokens
  import opened Ast
  import G = Grammar
  import S = Statements
  import C = Compiler
  import T = Typing
  import opened Check
  import opened TreeShape
  import opened Printed
  import opened Reread
  import opened Compiled
  import opened Exclusion
  import V = SchemaService

  function Name(literal: string): Token {
    Token(IDENT, literal)
  }

  const DIRECT_USER := TypeStatement(Name("user"), NO_TOKEN)
  const DIRECT_DOC := TypeStatement(Name("doc"), NO_TOKEN)
  const MEMBERS := TypeStatement(Name("group"), Name("member"))

  const MEMBER := RelationStatement(Name("member"), [DIRECT_USER])
  const PARENT := RelationStatement(Name("parent"), [DIRECT_DOC, MEMBERS])

  /** `view = parent.view` and `ban = not parent`. */
  const VIEW := ActionStatement(Name("view"), Identifier(NO_TOKEN, [Name("parent"), Name("view")]))
  const BAN := ActionStatement(Name("ban"), Identifier(Token(NOT, "not"), [Name("parent")]))

  const USERS := EntityStatement(Name("user"), [], [])
  const GROUPS := EntityStatement(Name("group"), [MEMBER], [])
  const DOCS := EntityStatement(Name("doc"), [PARENT], [VIEW, BAN])

  const TEXT := JoinedText([USERS, GROUPS, DOCS])

  lemma {:induction false} NamesAreGood()
    ensures GoodName(Name("user")) && GoodName(Name("group")) && GoodName(Name("doc"))
    ensures GoodName(Name("member")) && GoodName(Name("parent")) && GoodName(Name("view")) && GoodName(Name("ban"))
  {
  }

  lemma {:induction false} RelationsAreGood()
    ensures GoodRelation(MEMBER) && GoodRelation(PARENT)
  {
    hide GoodName;
    NamesAreGood();
  }

  lemma {:induction false} ActionsAreGood()
    ensures GoodAction(VIEW) && GoodAction(BAN)
  {
    hide IsWord;
    NamesAreGood();
  }

  lemma {:induction false} EntitiesAreGood()
    ensures GoodEntity(USERS) && GoodEntity(GROUPS) && GoodEntity(DOCS)
  {
    hide GoodName, GoodRelation, GoodAction;
    NamesAreGood();
    RelationsAreGood();
    ActionsAreGood();
  }

  lemma {:induction false} EntitiesAreDistinct()
    ensures S.Distinct([USERS, GROUPS, DOCS])
  {
    assert S.DistinctMembers(USERS) && S.DistinctMembers(GROUPS) && S.DistinctMembers(DOCS);
  }

  // ---------------------------------------------------------------- it is accepted

  /** The reference maps of the text, as far as the compiler asks them. */
  ghost predicate Known(refs: G.References) {
    && "user" in refs.entities && "group" in refs.entities && "doc" in refs.entities
    && G.Key("group", "member") in refs.relations
    && G.Key("doc", "parent") in refs.relations && refs.relations[G.Key("doc", "parent")] == PARENT.types
    && G.Key("doc", "parent") in refs.relational && G.Key("doc", "view") in refs.relational
    && forall k :: k in refs.relations ==> refs.relations[k] == MEMBER.types || refs.relations[k] == PARENT.types
  }

  lemma {:induction false} TextHas()
    ensures var es := [USERS, GROUPS, DOCS];
            && S.HasEntity(es, "user") && S.HasEntity(es, "group") && S.HasEntity(es, "doc")
            && S.HasRelation(es, G.Key("group", "member"), MEMBER.types)
            && S.HasRelation(es, G.Key("doc", "parent"), PARENT.types)
            && S.HasAction(es, G.Key("doc", "view"))
  {
    hide G.Key;
    var es := [USERS, GROUPS, DOCS];
    assert USERS in es && GROUPS in es && DOCS in es;
    assert MEMBER in GROUPS.relations && PARENT in DOCS.relations && VIEW in DOCS.actions;
  }

  lemma {:induction false} TextHasNothingElse(key: string, types: seq<TypeStatement>)
    requires S.HasRelation([USERS, GROUPS, DOCS], key, types)
    ensures types == MEMBER.types || types == PARENT.types
  {
    hide G.Key;
  }

  lemma {:induction false} MapsAreKnown(refs: G.References)
    requires S.Describes(refs, [USERS, GROUPS, DOCS])
    ensures Known(refs)
  {
    hide S.HasEntity, S.HasRelation, S.HasAction, G.Key;
    TextHas();
    forall k | k in refs.relations
      ensures refs.relations[k] == MEMBER.types || refs.relations[k] == PARENT.types
    {
      assert S.HasRelation([USERS, GROUPS, DOCS], k, refs.relations[k]);
      TextHasNothingElse(k, refs.relations[k]);
    }
  }

  lemma {:induction false} KnownIsValid(refs: G.References)
    requires Known(refs)
    ensures C.ValidReferences(refs)
  {
    assert C.ValidType(refs, DIRECT_USER) && C.ValidType(refs, DIRECT_DOC) && C.ValidType(refs, MEMBERS);
    assert C.ValidTypes(refs, MEMBER.types) && C.ValidTypes(refs, PARENT.types);
  }

  lemma {:induction false} KnownCompiles(refs: G.References)
    requires Known(refs)
    ensures C.CompileExpression(refs, true, "doc", VIEW.expression) ==
            Some(LeafChild(TupleToUserSet(false, "parent", "view")))
    ensures C.CompileExpression(refs, true, "doc", BAN.expression) == Some(LeafChild(ComputedUserSet(true, "parent")))
  {
    assert C.BaseType(PARENT.types) == "doc";
  }

  lemma {:induction false} DocsCompile(refs: G.References)
    requires Known(refs)
    ensures C.CompileEntity(refs, true, DOCS).Some?
  {
    hide Known, C.CompileExpression;
    KnownCompiles(refs);
    var empty := EntityDefinition("doc", map[], map[], map[]);
    var en := C.CompileRelations(empty, DOCS.relations);
    var view := LeafChild(TupleToUserSet(false, "parent", "view"));
    var en1 := C.AddAction(en, "view", view);
    assert [BAN][1..] == [] && DOCS.actions[1..] == [BAN];
    assert C.CompileActions(refs, true, en1, [BAN]).Some?;
    assert C.CompileActions(refs, true, en, DOCS.actions) == C.CompileActions(refs, true, en1, DOCS.actions[1..]);
  }

  lemma {:induction false} EntitiesCompile(refs: G.References)
    requires Known(refs)
    ensures C.CompileEntities(refs, true, [USERS, GROUPS, DOCS]).Some?
  {
    hide C.CompileRelations, Known, C.CompileEntities;
    DocsCompile(refs);
    assert C.CompileEntity(refs, true, USERS).Some? && C.CompileEntity(refs, true, GROUPS).Some?;
    V.EntitiesCompile(refs, [USERS, GROUPS, DOCS]);
  }

  lemma {:induction false} TextIsRead()
    ensures G.ParseText(TEXT).Some?
    ensures var s := G.ParseText(TEXT).value; s.statements == [USERS, GROUPS, DOCS] && Known(s.refs)
  {
    hide G.ParseText, JoinedText, GoodEntity, S.Distinct, S.Describes;
    EntitiesAreGood();
    EntitiesAreDistinct();
    PrintedTextIsReadBack([USERS, GROUPS, DOCS]);
    MapsAreKnown(G.ParseText(TEXT).value.refs);
  }

  lemma {:induction false} TextIsAccepted()
    ensures V.Accepts(TEXT)
  {
    hide G.ParseText, C.ValidReferences, C.CompileEntities, Known;
    TextIsRead();
    KnownIsValid(G.ParseText(TEXT).value.refs);
    EntitiesCompile(G.ParseText(TEXT).value.refs);
  }

  // ---------------------------------------------------------------- and has both gaps

  /** What the text compiles to, as far as it is needed. */
  ghost predicate Gap(sc: Schema) {
    && "doc" in sc && "group" in sc
    && "parent" in sc["doc"].relations && sc["doc"].relations["parent"] == C.CompileTypes(PARENT.types)
    && "view" in sc["doc"].actions && sc["doc"].actions["view"] == LeafChild(TupleToUserSet(false, "parent", "view"))
    && "ban" in sc["doc"].actions && sc["doc"].actions["ban"] == LeafChild(ComputedUserSet(true, "parent"))
    && !Defines(sc, "group", "view")
  }

  lemma {:induction false} CompiledGap(s: G.Schema, sc: Schema)
    requires V.CompiledSchema(s, sc) && s.statements == [USERS, GROUPS, DOCS] && Known(s.refs)
    ensures Gap(sc)
  {
    hide C.ValidReferences, S.Sound, Known, C.CompileExpression, C.CompileTypes;
    assert GROUPS in s.statements && DOCS in s.statements;
    assert CompiledTo(s.refs, DOCS, sc["doc"]) && CompiledTo(s.refs, GROUPS, sc["group"]);
    assert PARENT in DOCS.relations && VIEW in DOCS.actions && BAN in DOCS.actions;
    KnownCompiles(s.refs);
  }

  /** The text is accepted, and on what it compiles to a check can get stuck, and `not` is not complement. */
  lemma {:induction false} AcceptedTextHasGaps(limit: Limit)
    requires limit >= 2
    ensures V.Accepts(TEXT)
    ensures var sc := V.DefinitionMap(V.Definitions(TEXT));
            && T.WellTyped(sc)
            && !T.NeverStuck(sc, limit)
            && !AvoidsUsersets(sc) && !ExclusionComplements(sc, "doc", "parent", limit)
  {
    hide G.ParseText, V.DefinitionMap, V.Definitions, V.Accepts, V.CompiledSchema, Known, T.NeverStuck,
         ExclusionComplements;
    TextIsAccepted();
    TextIsRead();
    V.AcceptedSchemaIsCompiled(TEXT);
    V.AcceptedSchemaIsWellTyped(TEXT);
    var sc := V.DefinitionMap(V.Definitions(TEXT));
    CompiledGap(G.ParseText(TEXT).value, sc);
    GapIsOpen(sc, limit);
  }

  lemma {:induction false} GapIsOpen(sc: Schema, limit: Limit)
    requires limit >= 2 && T.WellTyped(sc) && Gap(sc)
    ensures !T.NeverStuck(sc, limit) && !AvoidsUsersets(sc) && !ExclusionComplements(sc, "doc", "parent", limit)
  {
    hide T.NeverStuck, ExclusionComplements, T.WellTyped;
    var refs := sc["doc"].relations["parent"];
    assert refs[1] == TypeReference("group", "member");
    assert HasLeaf(sc["doc"].actions["view"], TupleToUserSet(false, "parent", "view"));
    assert !T.WalkTyped(sc, "doc", TupleToUserSet(false, "parent", "view"));
    T.NeverStuckIff(sc, limit);
    assert refs[1] in refs && ListsUserset(sc, "doc", "parent");
    assert HasLeaf(sc["doc"].actions["ban"], ComputedUserSet(true, "parent"));
    assert !LeafAvoidsUsersets(sc, "doc", ComputedUserSet(true, "parent"));
    ParentIsRelation(sc);
    ExclusionComplementsIff(sc, "doc", "parent", limit);
  }

  lemma {:induction false} ParentIsRelation(sc: Schema)
    requires T.WellTyped(sc) && "doc" in sc && "parent" in sc["doc"].relations
    ensures DefinesRelation(sc, "doc", "parent")
  {
    assert T.DefinitionWellFormed(sc["doc"]);
  }
}
