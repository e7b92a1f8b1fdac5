/** Typing across schema, writer and engine: when can a check fail on a missing definition? */
module Typing {
  import opened Base
  import opened Check
  import opened Soundness

  // ---------------------------------------------------------------- well-typed schemas

  /** Every node of the tree is a leaf, or a union or an intersection of two trees. */
  ghost predicate Shaped(c: Child) {
    match c
    case NoChild => false
    case LeafChild(_) => true
    case Rewrite(op, children) =>
      && op != Unspecified && |children| == 2 && NoChild !in children
      && forall i :: 0 <= i < |children| ==> Shaped(children[i])
  }

  ghost predicate DefinitionWellFormed(en: EntityDefinition) {
    && (forall n :: n in en.relations <==> n in en.references && en.references[n] == RelationReference)
    && (forall n :: n in en.actions <==> n in en.references && en.references[n] == ActionReference)
    && (forall n :: n in en.actions ==> Shaped(en.actions[n]))
  }

  /** A relation type names a defined entity, and a defined relation of it if it names one; an entity name holds no
      separator. */
  ghost predicate ReferenceTyped(sc: Schema, ref: TypeReference) {
    && ref.typ in sc
    && '#' !in ref.typ
    && ref.relation != ELLIPSIS
    && (ref.relation != "" ==> ref.relation in sc[ref.typ].relations)
  }

  ghost predicate LeafTyped(sc: Schema, typ: string, leaf: Leaf)
    requires typ in sc
  {
    match leaf
    case ComputedUserSet(_, relation) => Defines(sc, typ, relation)
    case TupleToUserSet(_, tupleSet, relation) =>
      && tupleSet in sc[typ].relations
      && DirectTypesDefine(sc, sc[typ].relations[tupleSet], relation)
  }

  /** The direct types listed define the name, and without any the user entity does. */
  ghost predicate DirectTypesDefine(sc: Schema, refs: seq<TypeReference>, name: string) {
    && (forall ref :: ref in refs && ref.relation == "" ==> Defines(sc, ref.typ, name))
    && ((forall ref :: ref in refs ==> ref.relation != "") ==> Defines(sc, USER, name))
  }

  /** What reference validation and compilation establish about a schema. */
  ghost predicate WellTyped(sc: Schema) {
    && (forall typ :: typ in sc ==> DefinitionWellFormed(sc[typ]))
    && (forall typ, n, ref :: typ in sc && n in sc[typ].relations && ref in sc[typ].relations[n] ==>
          ReferenceTyped(sc, ref))
    && (forall typ, n, leaf :: typ in sc && n in sc[typ].actions && HasLeaf(sc[typ].actions[n], leaf) ==>
          LeafTyped(sc, typ, leaf))
  }

  /** A tuple of this type can be written: a type `user#relation` never matches a subject. */
  predicate Storable(ref: TypeReference) {
    ref.relation == "" || ref.typ != USER
  }

  ghost predicate WalkTyped(sc: Schema, typ: string, leaf: Leaf)
    requires typ in sc
  {
    leaf.TupleToUserSet? && leaf.tupleSet in sc[typ].relations ==>
      forall ref :: ref in sc[typ].relations[leaf.tupleSet] && Storable(ref) ==> Defines(sc, ref.typ, leaf.relation)
  }

  /** Every type a walked relation can hold defines the relation the walk computes. Reference validation
      looks at one direct type only (pkg/dsl/compiler/compiler.go:188), so this is not implied by `WellTyped`. */
  ghost predicate WalksTyped(sc: Schema) {
    forall typ, n, leaf :: typ in sc && n in sc[typ].actions && HasLeaf(sc[typ].actions[n], leaf) ==>
      WalkTyped(sc, typ, leaf)
  }

  /** Every relation that an action walks over lists direct types only. */
  ghost predicate WalksAreDirect(sc: Schema) {
    forall typ, n, leaf, ref :: typ in sc && n in sc[typ].actions && HasLeaf(sc[typ].actions[n], leaf) &&
                                leaf.TupleToUserSet? && leaf.tupleSet in sc[typ].relations &&
                                ref in sc[typ].relations[leaf.tupleSet] ==>
      ref.relation == ""
  }

  /** Then validation has checked every type the walks can meet. */
  lemma {:induction false} DirectWalksAreTyped(sc: Schema)
    requires WellTyped(sc) && WalksAreDirect(sc)
    ensures WalksTyped(sc)
  {
    forall typ, n, leaf | typ in sc && n in sc[typ].actions && HasLeaf(sc[typ].actions[n], leaf)
      ensures WalkTyped(sc, typ, leaf)
    {
      assert LeafTyped(sc, typ, leaf);
    }
  }

  // ---------------------------------------------------------------- accepted tuples

  /** The relation type a subject must match. */
  function TypeOf(s: Subject): TypeReference {
    TypeReference(s.typ, if IsUserset(s) then s.relation else "")
  }

  /** A tuple the writer accepts: the relation is defined, its types list the subject's, and a subject that
      is not a user names a relation or the ellipsis. */
  ghost predicate Accepted(sc: Schema, t: Tuple) {
    && t.entity.typ in sc
    && t.relation in sc[t.entity.typ].relations
    && TypeOf(t.subject) in sc[t.entity.typ].relations[t.relation]
    && (!IsSubjectUser(t.subject) ==> t.subject.relation != "")
  }

  ghost predicate Conforms(sc: Schema, store: seq<Tuple>) {
    forall t :: t in store ==> Accepted(sc, t)
  }

  // ---------------------------------------------------------------- a check cannot get stuck

  ghost predicate OnlyDepth(os: set<Outcome>) {
    forall o :: o in os && o.Failed? ==> o.error == DepthNotEnough
  }

  lemma {:induction false} CombinersOnlyDepth(w: World, sets: seq<set<Outcome>>)
    requires !w.interruptible && forall k :: 0 <= k < |sets| ==> OnlyDepth(sets[k])
    ensures OnlyDepth(UnionOf(w, sets)) && OnlyDepth(IntersectionOf(w, sets))
  {
  }

  lemma {:induction false} ExecuteOnlyDepth(w: World, r: Request)
    requires !w.interruptible && WellTyped(w.schema) && WalksTyped(w.schema) && Conforms(w.schema, w.store)
    requires Defines(w.schema, r.entity.typ, r.permission)
    ensures OnlyDepth(Execute(w, r))
    decreases r.depth, 3
  {
    if r.depth > 0 {
      assert DefinitionWellFormed(w.schema[r.entity.typ]);
      if DefinesRelation(w.schema, r.entity.typ, r.permission) {
        DirectOnlyDepth(w, r);
        CombinersOnlyDepth(w, [CheckDirect(w, r)]);
      } else {
        var c := w.schema[r.entity.typ].actions[r.permission];
        ChildOnlyDepth(w, r, c);
        CombinersOnlyDepth(w, [CheckChild(w, r, c)]);
      }
    }
  }

  lemma {:induction false} EachOnlyDepth(w: World, depth: nat, rs: seq<Request>)
    requires !w.interruptible && WellTyped(w.schema) && WalksTyped(w.schema) && Conforms(w.schema, w.store)
    requires forall i :: 0 <= i < |rs| ==> rs[i].depth < depth && Defines(w.schema, rs[i].entity.typ, rs[i].permission)
    ensures OnlyDepth(UnionOf(w, ExecuteEach(w, depth, rs)))
    decreases depth, 0
  {
    forall i | 0 <= i < |rs|
      ensures OnlyDepth(ExecuteEach(w, depth, rs)[i])
    {
      ExecuteOnlyDepth(w, rs[i]);
    }
    CombinersOnlyDepth(w, ExecuteEach(w, depth, rs));
  }

  lemma {:induction false} DirectOnlyDepth(w: World, r: Request)
    requires !w.interruptible && WellTyped(w.schema) && WalksTyped(w.schema) && Conforms(w.schema, w.store)
    requires r.depth > 0
    ensures OnlyDepth(CheckDirect(w, r))
    decreases r.depth, 1
  {
    var us := Usersets(Query(w.store, r.entity, r.permission));
    var rs := NestedRequests(r, us);
    forall i | 0 <= i < |us|
      ensures Defines(w.schema, rs[i].entity.typ, rs[i].permission)
    {
      assert us[i] in us;
      var t := Tuple(r.entity, r.permission, us[i]);
      assert Accepted(w.schema, t);
      assert ReferenceTyped(w.schema, TypeOf(us[i]));
      assert DefinitionWellFormed(w.schema[us[i].typ]);
    }
    EachOnlyDepth(w, r.depth, rs);
  }

  lemma {:induction false} ChildOnlyDepth(w: World, r: Request, c: Child)
    requires !w.interruptible && WellTyped(w.schema) && WalksTyped(w.schema) && Conforms(w.schema, w.store)
    requires r.depth > 0 && r.entity.typ in w.schema && Shaped(c)
    requires forall leaf :: HasLeaf(c, leaf) ==>
               LeafTyped(w.schema, r.entity.typ, leaf) && WalkTyped(w.schema, r.entity.typ, leaf)
    ensures OnlyDepth(CheckChild(w, r, c))
    decreases r.depth, 2, c
  {
    match c
    case LeafChild(leaf) =>
      assert HasLeaf(c, leaf);
      LeafOnlyDepth(w, r, leaf);
    case Rewrite(op, children) =>
      var sets := seq(|children|, i requires 0 <= i < |children| => CheckChild(w, r, children[i]));
      forall i | 0 <= i < |children|
        ensures OnlyDepth(sets[i])
      {
        forall leaf | HasLeaf(children[i], leaf)
          ensures LeafTyped(w.schema, r.entity.typ, leaf) && WalkTyped(w.schema, r.entity.typ, leaf)
        {
          assert HasLeaf(c, leaf);
        }
        ChildOnlyDepth(w, r, children[i]);
      }
      CombinersOnlyDepth(w, sets);
  }

  lemma {:induction false} LeafOnlyDepth(w: World, r: Request, leaf: Leaf)
    requires !w.interruptible && WellTyped(w.schema) && WalksTyped(w.schema) && Conforms(w.schema, w.store)
    requires r.depth > 0 && r.entity.typ in w.schema
    requires LeafTyped(w.schema, r.entity.typ, leaf) && WalkTyped(w.schema, r.entity.typ, leaf)
    ensures OnlyDepth(CheckLeaf(w, r, leaf))
    decreases r.depth, 1
  {
    match leaf
    case ComputedUserSet(exclusion, relation) =>
      ExecuteOnlyDepth(w, Computed(r, r.entity, relation, exclusion));
    case TupleToUserSet(exclusion, tupleSet, relation) =>
      var ss := Query(w.store, r.entity, tupleSet);
      var rs := ParentRequests(r, ss, relation, exclusion);
      forall i | 0 <= i < |ss|
        ensures Defines(w.schema, rs[i].entity.typ, rs[i].permission)
      {
        assert ss[i] in ss;
        assert Accepted(w.schema, Tuple(r.entity, tupleSet, ss[i]));
        assert Storable(TypeOf(ss[i]));
      }
      EachOnlyDepth(w, r.depth, rs);
  }

  /** A request for something undefined runs into one error: for the type if the schema lacks it, else for the name.
      With no depth left, neither is looked at. Only an interruption can come before. */
  lemma {:induction false} UnknownNamesFail(w: World, r: Request)
    requires r.depth == 0 || !Defines(w.schema, r.entity.typ, r.permission)
    ensures forall o :: o in Execute(w, r) ==> o.Failed?
    ensures forall e :: Failed(e) in Execute(w, r) <==>
              || (e == DepthNotEnough && r.depth == 0)
              || (e == SchemaNotFound && r.depth > 0 && r.entity.typ !in w.schema)
              || (e == RelationDefinitionNotFound && r.depth > 0 && r.entity.typ in w.schema)
              || (e == Interrupted && w.interruptible)
  {
  }

  /** Where checks do not get stuck, an error tells what is wrong with the request itself. */
  lemma {:induction false} ErrorsBlameTheRequest(w: World, r: Request)
    requires !w.interruptible && WellTyped(w.schema) && WalksTyped(w.schema) && Conforms(w.schema, w.store)
    ensures Failed(SchemaNotFound) in Execute(w, r) <==> r.depth > 0 && r.entity.typ !in w.schema
    ensures Failed(RelationDefinitionNotFound) in Execute(w, r) <==>
            r.depth > 0 && r.entity.typ in w.schema && !Defines(w.schema, r.entity.typ, r.permission)
    ensures forall e :: Failed(e) in Execute(w, r) ==>
              e == DepthNotEnough || e == SchemaNotFound || e == RelationDefinitionNotFound
  {
    if Defines(w.schema, r.entity.typ, r.permission) {
      ExecuteOnlyDepth(w, r);
    } else {
      UnknownNamesFail(w, r);
    }
  }

  // ---------------------------------------------------------------- and the condition is exact

  /** With two slots, a failure of a leaf can reach the top of its tree. */
  lemma {:induction false} LeafFailureBubbles(w: World, r: Request, c: Child, leaf: Leaf, e: Error)
    requires r.depth > 0 && w.limit >= 2 && Shaped(c) && HasLeaf(c, leaf) && Failed(e) in CheckLeaf(w, r, leaf)
    ensures Failed(e) in CheckChild(w, r, c)
    decreases c
  {
    match c
    case LeafChild(_) =>
    case Rewrite(op, children) =>
      var i :| 0 <= i < |children| && HasLeaf(children[i], leaf);
      LeafFailureBubbles(w, r, children[i], leaf, e);
      var sets := seq(|children|, i requires 0 <= i < |children| => CheckChild(w, r, children[i]));
      StopAt(w, sets, i, Failed(e), if op == Union then Denied else Allowed);
  }

  /** The one-tuple store on which an untyped walk gets stuck. */
  function WalkTuple(typ: string, tupleSet: string, ref: TypeReference): Tuple {
    Tuple(Entity(typ, "1"), tupleSet,
          Subject(ref.typ, "2", if ref.relation == "" && ref.typ != USER then ELLIPSIS else ref.relation))
  }

  lemma {:induction false} QueryOne(t: Tuple, e: Entity, relation: string)
    ensures Query([t], e, relation) == if t.entity == e && t.relation == relation then [t.subject] else []
  {
    assert Query([t][1..], e, relation) == [];
  }

  lemma {:induction false} UntypedWalkGetsStuck(sc: Schema, typ: string, n: string, leaf: Leaf, ref: TypeReference,
                                                subject: Subject, depth: nat, limit: Limit)
    requires depth >= 2 && limit >= 2 && WellTyped(sc) && typ in sc && n in sc[typ].actions &&
             HasLeaf(sc[typ].actions[n], leaf)
    requires leaf.TupleToUserSet? && leaf.tupleSet in sc[typ].relations
    requires ref in sc[typ].relations[leaf.tupleSet] && Storable(ref) && !Defines(sc, ref.typ, leaf.relation)
    ensures var store := [WalkTuple(typ, leaf.tupleSet, ref)];
            && Conforms(sc, store)
            && Failed(RelationDefinitionNotFound) in
                 Execute(World(sc, store, iset{}, false, limit), Ask(Goal(Entity(typ, "1"), n, subject), false, depth))
  {
    var t := WalkTuple(typ, leaf.tupleSet, ref);
    var w := World(sc, [t], iset{}, false, limit);
    var r := Ask(Goal(Entity(typ, "1"), n, subject), false, depth);
    assert ReferenceTyped(sc, ref);
    assert TypeOf(t.subject) == ref;
    assert DefinitionWellFormed(sc[typ]);
    var ss := Query([t], r.entity, leaf.tupleSet);
    QueryOne(t, r.entity, leaf.tupleSet);
    var rs := ParentRequests(r, ss, leaf.relation, leaf.exclusion);
    var sets := ExecuteEach(w, depth, rs);
    assert sets[0] == Execute(w, rs[0]) == {Failed(RelationDefinitionNotFound)};
    StopAt(w, sets, 0, Failed(RelationDefinitionNotFound), Denied);
    LeafFailureBubbles(w, r, sc[typ].actions[n], leaf, RelationDefinitionNotFound);
    OneStops(w, CheckChild(w, r, sc[typ].actions[n]), Denied);
  }

  /** No accepted store makes a check of a defined name fail for any other reason than depth. */
  ghost predicate NeverStuck(sc: Schema, limit: Limit) {
    forall store, r: Request :: Conforms(sc, store) && Defines(sc, r.entity.typ, r.permission) ==>
      OnlyDepth(Execute(World(sc, store, iset{}, false, limit), r))
  }

  /** With typed walks a check never gets stuck, whatever the limit. */
  lemma {:induction false} TypedWalksNeverStick(sc: Schema, limit: Limit)
    requires WellTyped(sc) && WalksTyped(sc)
    ensures NeverStuck(sc, limit)
  {
    forall store, r: Request | Conforms(sc, store) && Defines(sc, r.entity.typ, r.permission)
      ensures OnlyDepth(Execute(World(sc, store, iset{}, false, limit), r))
    {
      ExecuteOnlyDepth(World(sc, store, iset{}, false, limit), r);
    }
  }

  /** A validated schema whose walks go over direct types only never gets stuck: nothing more is assumed. */
  lemma {:induction false} DirectWalksNeverStick(sc: Schema, limit: Limit)
    requires WellTyped(sc) && WalksAreDirect(sc)
    ensures NeverStuck(sc, limit)
  {
    DirectWalksAreTyped(sc);
    TypedWalksNeverStick(sc, limit);
  }

  /** A validated schema never gets stuck exactly when every walk is typed for every type it can meet. With a single
      slot an earlier sibling may keep the walk from ever being tried, so the limit is at least 2. */
  lemma {:induction false} NeverStuckIff(sc: Schema, limit: Limit)
    requires WellTyped(sc) && limit >= 2
    ensures NeverStuck(sc, limit) <==> WalksTyped(sc)
  {
    if WalksTyped(sc) {
      TypedWalksNeverStick(sc, limit);
    } else {
      var typ, n, leaf :| typ in sc && n in sc[typ].actions && HasLeaf(sc[typ].actions[n], leaf) &&
                          !WalkTyped(sc, typ, leaf);
      var ref :| ref in sc[typ].relations[leaf.tupleSet] && Storable(ref) && !Defines(sc, ref.typ, leaf.relation);
      var subject := Subject(USER, "1", "");
      UntypedWalkGetsStuck(sc, typ, n, leaf, ref, subject, 3, limit);
      assert DefinitionWellFormed(sc[typ]);
      assert Defines(sc, typ, n);
      var store := [WalkTuple(typ, leaf.tupleSet, ref)];
      var r := Ask(Goal(Entity(typ, "1"), n, subject), false, 3);
      assert !OnlyDepth(Execute(World(sc, store, iset{}, false, limit), r));
    }
  }
}
