/** LookupSchema (internal/commands/lookupSchema.go): which actions of an entity does a holder of some relation names
    have? The decisions of the children arrive in any order; the answer is the boolean value of the source expression.
    */
module LookupSchema {
  import opened Base
  import opened Tokens
  import opened Ast
  import opened Check
  import opened Soundness
  import Scheduling
  import opened TreeShape
  import S = Statements
  import G = Grammar
  import C = Compiler
  import opened Compiled
  import Parsed
  import V = SchemaService

  // ---------------------------------------------------------------- what the expression says

  /** A leaf holds when its text, `name` or `name.name`, is held; `not` turns that round. */
  predicate Value(held: seq<string>, e: Expression) {
    match e
    case Identifier(prefix, idents) => (IdentsText(idents, "") in held) != (prefix.literal == "not")
    case Infix(left, op, right) =>
      if op.literal == "and" then Value(held, left) && Value(held, right) else Value(held, left) || Value(held, right)
  }

  // ---------------------------------------------------------------- the command

  function LeafName(leaf: Leaf): string {
    match leaf
    case ComputedUserSet(_, relation) => relation
    case TupleToUserSet(_, tupleSet, relation) => tupleSet + "." + relation
  }

  predicate LeafValue(held: seq<string>, leaf: Leaf) {
    if leaf.exclusion then LeafName(leaf) !in held else LeafName(leaf) in held
  }

  /** Every result of `schemaLookupUnion` and `schemaLookupIntersection`: those of the check engine when all children
      are started at once, but `true` without children. */
  ghost function Combination(w: World, op: Operation, sets: seq<set<Outcome>>): set<Outcome> {
    if sets == [] then {Allowed} else Combined(w.(limit := |sets|), sets, if op == Union then Denied else Allowed)
  }

  /** Every decision the function built for a node can send. */
  ghost function NodeOutcomes(w: World, held: seq<string>, c: Child): set<Outcome> {
    match c
    case NoChild => {Failed(UndefinedChildType)}
    case LeafChild(leaf) => {Decision(LeafValue(held, leaf))}
    case Rewrite(op, children) =>
      if op == Unspecified || NoChild in children then {Failed(UndefinedChildType)}
      else Combination(w, op, seq(|children|, i requires 0 <= i < |children| => NodeOutcomes(w, held, children[i])))
  }

  /** `l`. */
  ghost function Lookup(w: World, held: seq<string>, c: Child): set<Outcome> {
    if c == NoChild then {Failed(UndefinedChildType)} else Combination(w, Union, [NodeOutcomes(w, held, c)])
  }

  /** The one decision, or an interruption where there can be one. */
  ghost predicate Decides(w: World, os: set<Outcome>, b: bool) {
    os == {Decision(b)} || (w.interruptible && os == {Decision(b), Failed(Interrupted)})
  }

  lemma {:induction false} CombinedDecides(w: World, op: Operation, l: set<Outcome>, r: set<Outcome>, b: bool, b': bool)
    requires op != Unspecified && Decides(w, l, b) && Decides(w, r, b')
    ensures Decides(w, Combination(w, op, [l, r]), if op == Union then b || b' else b && b')
  {
    var v := if op == Union then b || b' else b && b';
    var os := Combination(w, op, [l, r]);
    PairOutcomes(w, op, l, r);
    hide Combination;
    assert Decision(v) in os && Decision(!v) !in os;
    if w.interruptible {
      assert os == {Decision(v), Failed(Interrupted)};
    } else {
      assert os == {Decision(v)};
    }
  }

  /** The outcomes of two children together. */
  lemma {:induction false} PairOutcomes(w: World, op: Operation, l: set<Outcome>, r: set<Outcome>)
    ensures var neutral := if op == Union then Denied else Allowed;
            forall o :: o in Combination(w, op, [l, r]) <==>
              || (w.interruptible && o == Failed(Interrupted))
              || (if o == neutral then o in l && o in r else o in l || o in r)
  {
    var sets := [l, r];
    assert sets[0] == l && sets[1] == r;
    EveryStop(w, sets, if op == Union then Denied else Allowed);
    hide Stops, Blocked;
  }

  /** With a slot for every child, each decision that is not neutral can end the loop. */
  lemma {:induction false} EveryStop(w: World, sets: seq<set<Outcome>>, neutral: Outcome)
    requires sets != []
    ensures forall o :: o in Stops(w.(limit := |sets|), sets, neutral) <==>
              o != neutral && exists i :: 0 <= i < |sets| && o in sets[i]
  {
    forall i, o | 0 <= i < |sets| && o in sets[i] && o != neutral
      ensures o in Stops(w.(limit := |sets|), sets, neutral)
    {
      StopAt(w.(limit := |sets|), sets, i, o, neutral);
    }
  }

  lemma {:induction false} OneDecides(w: World, l: set<Outcome>, b: bool)
    requires Decides(w, l, b)
    ensures Decides(w, Combination(w, Union, [l]), b)
  {
    OneStops(w.(limit := 1), l, Denied);
    assert Combination(w, Union, [l]) == Interruption(w) + l;
  }

  /** Compilation keeps the meaning: whatever compiles, with or without validation, is looked up as the value of the
      expression, in every arrival order. */
  lemma {:induction false} CompiledMeansTheExpression(w: World, held: seq<string>, refs: G.References, validate: bool,
                                                      entity: string, e: Expression)
    requires TokensFit(e) && C.CompileExpression(refs, validate, entity, e).Some?
    ensures var c := C.CompileExpression(refs, validate, entity, e).value;
            && Decides(w, NodeOutcomes(w, held, c), Value(held, e))
            && Decides(w, Lookup(w, held, c), Value(held, e))
  {
    var c := C.CompileExpression(refs, validate, entity, e).value;
    NodeMeansTheExpression(w, held, refs, validate, entity, e);
    OneDecides(w, NodeOutcomes(w, held, c), Value(held, e));
  }

  lemma {:induction false} LeafMeansTheText(held: seq<string>, refs: G.References, validate: bool, entity: string,
                                            prefix: Token, idents: seq<Token>)
    requires TokensFit(Identifier(prefix, idents)) && C.CompileLeaf(refs, validate, entity, prefix, idents).Some?
    ensures C.CompileLeaf(refs, validate, entity, prefix, idents).value.LeafChild?
    ensures LeafValue(held, C.CompileLeaf(refs, validate, entity, prefix, idents).value.leaf) ==
            Value(held, Identifier(prefix, idents))
  {
    var leaf := C.CompileLeaf(refs, validate, entity, prefix, idents).value.leaf;
    if |idents| == 1 {
      assert idents[0].literal + "" == idents[0].literal;
    } else {
      assert IdentsText(idents[1..], "") == idents[1].literal + "" == idents[1].literal;
      assert idents[0].literal + (['.'] + idents[1].literal) == idents[0].literal + "." + idents[1].literal;
    }
    assert LeafName(leaf) == IdentsText(idents, "");
  }

  lemma {:induction false} NodeMeansTheExpression(w: World, held: seq<string>, refs: G.References, validate: bool,
                                                  entity: string, e: Expression)
    requires TokensFit(e) && C.CompileExpression(refs, validate, entity, e).Some?
    ensures var c := C.CompileExpression(refs, validate, entity, e).value;
            c != NoChild && Decides(w, NodeOutcomes(w, held, c), Value(held, e))
  {
    match e
    case Identifier(prefix, idents) =>
      LeafMeansTheText(held, refs, validate, entity, prefix, idents);
    case Infix(left, op, right) =>
      NodeMeansTheExpression(w, held, refs, validate, entity, left);
      NodeMeansTheExpression(w, held, refs, validate, entity, right);
      var l := C.CompileExpression(refs, validate, entity, left).value;
      var r := C.CompileExpression(refs, validate, entity, right).value;
      hide C.CompileExpression, NodeOutcomes, Decides, Value;
      PairDecides(w, held, op, l, r, Value(held, left), Value(held, right));
  }

  lemma {:induction false} PairDecides(w: World, held: seq<string>, op: Token, l: Child, r: Child, b: bool, b': bool)
    requires G.IsOperator(op.typ) && Lexed(op) && l != NoChild && r != NoChild
    requires Decides(w, NodeOutcomes(w, held, l), b) && Decides(w, NodeOutcomes(w, held, r), b')
    ensures Decides(w, NodeOutcomes(w, held, Rewrite(C.OperationOf(op), [l, r])),
                    if op.literal == "and" then b && b' else b || b')
  {
    hide NodeOutcomes, Combination, Decides;
    RewriteOutcomes(w, held, C.OperationOf(op), l, r);
    CombinedDecides(w, C.OperationOf(op), NodeOutcomes(w, held, l), NodeOutcomes(w, held, r), b, b');
  }

  lemma {:induction false} RewriteOutcomes(w: World, held: seq<string>, op: Operation, l: Child, r: Child)
    requires op != Unspecified && l != NoChild && r != NoChild
    ensures NodeOutcomes(w, held, Rewrite(op, [l, r])) ==
            Combination(w, op, [NodeOutcomes(w, held, l), NodeOutcomes(w, held, r)])
  {
    var children := [l, r];
    var sets := seq(2, i requires 0 <= i < 2 => NodeOutcomes(w, held, children[i]));
    assert sets == [NodeOutcomes(w, held, l), NodeOutcomes(w, held, r)];
  }

  // ---------------------------------------------------------------- in the form of the source

  method SchemaLookupUnion(arrivals: seq<Outcome>) returns (o: Outcome)
    ensures o == if arrivals == [] then Allowed else Scheduling.UnionLoop(arrivals)
  {
    if |arrivals| == 0 {
      return Allowed;
    }
    for i := 0 to |arrivals|
      invariant Scheduling.UnionLoop(arrivals) == Scheduling.UnionLoop(arrivals[i..])
    {
      assert arrivals[i..][1..] == arrivals[i + 1..];
      if arrivals[i] == Allowed {
        return Allowed;
      }
      if arrivals[i].Failed? {
        return arrivals[i];
      }
    }
    return Denied;
  }

  method SchemaLookupIntersection(arrivals: seq<Outcome>) returns (o: Outcome)
    ensures o == Scheduling.IntersectionLoop(arrivals)
  {
    if |arrivals| == 0 {
      return Allowed;
    }
    for i := 0 to |arrivals|
      invariant Scheduling.IntersectionLoop(arrivals) == Scheduling.IntersectionLoop(arrivals[i..])
    {
      assert arrivals[i..][1..] == arrivals[i + 1..];
      if arrivals[i] == Denied {
        return Denied;
      }
      if arrivals[i].Failed? {
        return arrivals[i];
      }
    }
    return Allowed;
  }

  /** Nobody cancels; nothing else of the world matters here. */
  ghost const CALM: World := World(map[], [], iset{}, false, 1)

  /** The decision of a node, its children heard one after the other. */
  method LookupNode(held: seq<string>, c: Child) returns (o: Outcome)
    ensures o in NodeOutcomes(CALM, held, c)
  {
    match c
    case NoChild => return Failed(UndefinedChildType);
    case LeafChild(leaf) => return Decision(LeafValue(held, leaf));
    case Rewrite(op, children) =>
      if op == Unspecified || NoChild in children {
        return Failed(UndefinedChildType);
      }
      var arrivals := [];
      for i := 0 to |children|
        invariant |arrivals| == i
        invariant forall k :: 0 <= k < i ==> arrivals[k] in NodeOutcomes(CALM, held, children[k])
      {
        var d := LookupNode(held, children[i]);
        arrivals := arrivals + [d];
      }
      ghost var sets := seq(|children|, i requires 0 <= i < |children| => NodeOutcomes(CALM, held, children[i]));
      InOrder(op, sets, arrivals);
      if op == Union {
        o := SchemaLookupUnion(arrivals);
      } else {
        o := SchemaLookupIntersection(arrivals);
      }
  }

  lemma {:induction false} InOrder(op: Operation, sets: seq<set<Outcome>>, arrivals: seq<Outcome>)
    requires op != Unspecified && |arrivals| == |sets| && forall k :: 0 <= k < |sets| ==> arrivals[k] in sets[k]
    ensures op == Union ==>
              (if arrivals == [] then Allowed else Scheduling.UnionLoop(arrivals)) in Combination(CALM, op, sets)
    ensures op == Intersection ==> Scheduling.IntersectionLoop(arrivals) in Combination(CALM, op, sets)
  {
    if sets != [] {
      var w := CALM.(limit := |sets|);
      Heard(w, sets, arrivals, true);
      Heard(w, sets, arrivals, false);
    }
  }

  /** The loop over one decision of each child, heard in order. */
  lemma {:induction false} Heard(w: World, sets: seq<set<Outcome>>, arrivals: seq<Outcome>, union: bool)
    requires |arrivals| == |sets| && forall k :: 0 <= k < |sets| ==> arrivals[k] in sets[k]
    requires |sets| <= w.limit && !w.interruptible
    ensures Scheduling.Loop(union, arrivals) in Combined(w, sets, Scheduling.NeutralOf(union))
  {
    var k := Scheduling.LoopStops(arrivals, union);
    if k < |arrivals| {
      StopAt(w, sets, k, arrivals[k], Scheduling.NeutralOf(union));
    } else {
      assert forall i :: 0 <= i < |sets| ==> arrivals[i] in sets[i];
    }
  }

  /** `Execute` on the definition read for the entity type: the names of the actions the holder has, each once; `None`
      when a lookup fails. */
  method Execute(held: seq<string>, en: EntityDefinition) returns (names: Option<seq<string>>)
    ensures names.None? ==> exists n :: n in en.actions && exists e :: Failed(e) in Lookup(CALM, held, en.actions[n])
    ensures names.Some? ==> forall n :: n in names.value ==>
              n in en.actions && Allowed in Lookup(CALM, held, en.actions[n])
    ensures names.Some? ==> forall n :: n in en.actions && n !in names.value ==>
              Denied in Lookup(CALM, held, en.actions[n])
    ensures names.Some? ==> forall i, j :: 0 <= i < j < |names.value| ==> names.value[i] != names.value[j]
  {
    hide Lookup, NodeOutcomes;
    var pending := en.actions.Keys;
    var found := [];
    while pending != {}
      invariant pending <= en.actions.Keys
      invariant forall n :: n in found ==>
                  n in en.actions && n !in pending && Allowed in Lookup(CALM, held, en.actions[n])
      invariant forall n :: n in en.actions && n !in pending && n !in found ==>
                  Denied in Lookup(CALM, held, en.actions[n])
      invariant forall i, j :: 0 <= i < j < |found| ==> found[i] != found[j]
      decreases |pending|
    {
      var n :| n in pending;
      var o := LookupChild(held, en.actions[n]);
      match o {
        case Failed(e) => return None;
        case Allowed => found := found + [n];
        case Denied =>
      }
      pending := pending - {n};
    }
    return Some(found);
  }

  method LookupChild(held: seq<string>, c: Child) returns (o: Outcome)
    ensures o in Lookup(CALM, held, c)
  {
    if c == NoChild {
      return Failed(UndefinedChildType);
    }
    var d := LookupNode(held, c);
    InOrder(Union, [NodeOutcomes(CALM, held, c)], [d]);
    o := SchemaLookupUnion([d]);
  }

  lemma {:induction false} LookupOfCompiledEntity(held: seq<string>, refs: G.References, e: EntityStatement,
                                                  en: EntityDefinition)
    requires S.ParsedEntity(e) && CompiledTo(refs, e, en)
    ensures forall n :: n in en.actions <==> exists a :: a in e.actions && a.name.literal == n
    ensures forall a :: a in e.actions ==>
              a.name.literal in en.actions &&
              Lookup(CALM, held, en.actions[a.name.literal]) == {Decision(Value(held, a.expression))}
  {
    forall a | a in e.actions
      ensures a.name.literal in en.actions &&
              Lookup(CALM, held, en.actions[a.name.literal]) == {Decision(Value(held, a.expression))}
    {
      assert S.ParsedAction(a);
      CompiledMeansTheExpression(CALM, held, refs, true, en.name, a.expression);
    }
  }

  /** From end to end: for every entity of an accepted schema text, stored in printed form and read back, LookupSchema
      cannot fail, and it decides every action of the text by the boolean value of its expression. */
  lemma {:induction false} LookupOfStoredEntity(held: seq<string>, text: string, i: nat)
    requires V.Accepts(text) && i < |V.Statements(text)|
    ensures var e := V.Statements(text)[i];
            var en := V.ReadDefinition(V.StoredForm(e));
            && en.Some?
            && (forall n :: n in en.value.actions <==> exists a :: a in e.actions && a.name.literal == n)
            && (forall a :: a in e.actions ==>
                  a.name.literal in en.value.actions &&
                  Lookup(CALM, held, en.value.actions[a.name.literal]) == {Decision(Value(held, a.expression))})
  {
    hide G.ParseText, C.CompileSchema, V.ReadDefinition, CompiledTo, S.ParsedEntity, S.DistinctMembers, C.CompileEntity,
      C.CompileEntities, Lookup, Value, V.StoredForm;
    V.StoredEntityIsReadBack(text, i);
    AcceptedEntityCompiles(text, i);
    LookupOfCompiledEntity(held, G.ParseText(text).value.refs, V.Statements(text)[i], V.Definitions(text)[i]);
  }

  lemma {:induction false} AcceptedEntityCompiles(text: string, i: nat)
    requires V.Accepts(text) && i < |V.Statements(text)|
    ensures i < |V.Definitions(text)| && S.ParsedEntity(V.Statements(text)[i])
    ensures CompiledTo(G.ParseText(text).value.refs, V.Statements(text)[i], V.Definitions(text)[i])
  {
    hide G.ParseText, S.ParsedEntity, S.DistinctMembers, CompiledTo, C.CompileEntity;
    var s := G.ParseText(text).value;
    Parsed.AcceptedTextIsSound(text);
    CompiledEntities(s.refs, s.statements);
    EntityCompiles(s.refs, s.statements[i]);
  }
}
