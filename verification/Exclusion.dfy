/** When does an excluded check answer the complement of membership? `checkDirect` hands the exclusion flag to
    the nested checks and every level negates again, so the answer alternates along userset chains. */
module Exclusion {
  import opened Base
  import opened Check
  import opened Membership
  import opened Soundness
  import opened Typing

  /** The relation lists a type `other#relation` whose subjects are followed. */
  ghost predicate ListsUserset(sc: Schema, typ: string, relation: string) {
    typ in sc && relation in sc[typ].relations &&
    exists ref :: ref in sc[typ].relations[relation] && ref.relation != "" && ref.typ != USER
  }

  /** Every error-free excluded answer is the complement of membership. */
  ghost predicate ComplementsOn(sc: Schema, store: seq<Tuple>, g: Goal, depth: nat, limit: Limit) {
    forall b: bool :: Decision(b) in Execute(World(sc, store, iset{}, false, limit), Ask(g, true, depth)) ==>
      b == !Member(sc, store, g)
  }

  ghost predicate ExclusionComplements(sc: Schema, typ: string, relation: string, limit: Limit) {
    forall store, id, subject, depth: nat :: Conforms(sc, store) ==>
      ComplementsOn(sc, store, Goal(Entity(typ, id), relation, subject), depth, limit)
  }

  lemma {:induction false} PlainRelationComplements(sc: Schema, store: seq<Tuple>, g: Goal, depth: nat,
                                                    limit: Limit)
    requires WellTyped(sc) && Conforms(sc, store)
    requires DefinesRelation(sc, g.entity.typ, g.permission)
    requires g.permission in sc[g.entity.typ].relations && !ListsUserset(sc, g.entity.typ, g.permission)
    ensures ComplementsOn(sc, store, g, depth, limit)
  {
    var w := World(sc, store, iset{}, false, limit);
    var ss := Query(store, g.entity, g.permission);
    forall s | s in ss
      ensures !IsUserset(s)
    {
      assert Accepted(sc, Tuple(g.entity, g.permission, s));
    }
    NoUsersets(ss);
    PlainGoalIsDirect(w, g);
    forall b: bool | Decision(b) in Execute(w, Ask(g, true, depth))
      ensures b == !Member(sc, store, g)
    {
      UnionOfOne(w, CheckDirect(w, Ask(g, true, depth)), !b);
      assert Decision(!b) in CheckDirect(w, Ask(g, true, depth));
    }
  }

  /** Goals none of which follows from the goals outside are not members. */
  lemma {:induction false} UnfoundedGoalsAreNotMembers(sc: Schema, store: seq<Tuple>, bad: iset<Goal>)
    requires forall g :: g in bad ==> !Follows(sc, store, (iset h: Goal | h !in bad), g)
    ensures forall g :: g in bad ==> !Member(sc, store, g)
  {
    assert Closed(sc, store, (iset h: Goal | h !in bad));
  }

  /** A stored userset (`t`), the only subject of its relation, whose own relation is empty. */
  ghost predicate LoneUserset(sc: Schema, store: seq<Tuple>, t: Tuple) {
    && DefinesRelation(sc, t.entity.typ, t.relation)
    && DefinesRelation(sc, t.subject.typ, t.subject.relation)
    && IsUserset(t.subject)
    && Query(store, t.entity, t.relation) == [t.subject]
    && Query(store, EntityOf(t.subject), t.subject.relation) == []
  }

  const OUTSIDER := Subject(USER, "x", "")

  function OutsiderGoal(t: Tuple): Goal {
    Goal(t.entity, t.relation, OUTSIDER)
  }

  lemma {:induction false} OutsiderIsNoMember(sc: Schema, store: seq<Tuple>, t: Tuple)
    requires LoneUserset(sc, store, t)
    ensures !Member(sc, store, OutsiderGoal(t))
  {
    var bad := iset{OutsiderGoal(t), Goal(EntityOf(t.subject), t.subject.relation, OUTSIDER)};
    assert OUTSIDER !in Query(store, t.entity, t.relation);
    assert OUTSIDER !in Query(store, EntityOf(t.subject), t.subject.relation);
    UnfoundedGoalsAreNotMembers(sc, store, bad);
  }

  /** Under exclusion the nested check negates, so the relation check allows and the request is denied, at every depth
      from 2 on. */
  lemma {:induction false} OutsiderIsDenied(w: World, t: Tuple, depth: nat)
    requires LoneUserset(w.schema, w.store, t) && depth >= 2
    ensures Allowed in CheckDirect(w, Ask(OutsiderGoal(t), true, depth))
    ensures Denied in Execute(w, Ask(OutsiderGoal(t), true, depth))
  {
    hide Execute;
    var inner := Goal(EntityOf(t.subject), t.subject.relation, OUTSIDER);
    var r := Ask(OutsiderGoal(t), true, depth);
    assert OUTSIDER !in Query(w.store, inner.entity, inner.permission);
    AbsentTupleIsAllowed(w, inner);
    assert Decision(true) in Execute(w, Ask(inner, true, 1));
    ExecuteDepthMonotone(w, Ask(inner, true, 1), depth - 1, true);
    assert Usersets([t.subject][1..]) == [];
    assert Usersets([t.subject]) == [t.subject];
    UsersetIsDirectlyAllowed(w, r, 0);
    assert Decision(true) in CheckDirect(w, r);
    DirectDecides(w, r, true);
  }

  lemma {:induction false} WalkTupleIsLone(sc: Schema, typ: string, relation: string, ref: TypeReference)
    requires WellTyped(sc) && typ in sc && relation in sc[typ].relations
    requires ref in sc[typ].relations[relation] && ref.relation != "" && ref.typ != USER
    ensures LoneUserset(sc, [WalkTuple(typ, relation, ref)], WalkTuple(typ, relation, ref))
    ensures Conforms(sc, [WalkTuple(typ, relation, ref)])
  {
    var t := WalkTuple(typ, relation, ref);
    assert ReferenceTyped(sc, ref) && DefinitionWellFormed(sc[ref.typ]) && DefinitionWellFormed(sc[typ]);
    assert TypeOf(t.subject) == ref;
    QueryOne(t, t.entity, t.relation);
    QueryOne(t, EntityOf(t.subject), t.subject.relation);
  }

  /** One stored userset whose own relation is empty: an outsider is not a member, and is denied as well. */
  lemma {:induction false} UsersetIsNotComplemented(sc: Schema, typ: string, relation: string, ref: TypeReference,
                                                    depth: nat, limit: Limit)
    requires depth >= 2 && WellTyped(sc) && DefinesRelation(sc, typ, relation) && relation in sc[typ].relations
    requires ref in sc[typ].relations[relation] && ref.relation != "" && ref.typ != USER
    ensures Conforms(sc, [WalkTuple(typ, relation, ref)])
    ensures var g := Goal(Entity(typ, "1"), relation, OUTSIDER);
            !ComplementsOn(sc, [WalkTuple(typ, relation, ref)], g, depth, limit)
  {
    var t := WalkTuple(typ, relation, ref);
    WalkTupleIsLone(sc, typ, relation, ref);
    OutsiderIsNoMember(sc, [t], t);
    OutsiderIsDenied(World(sc, [t], iset{}, false, limit), t, depth);
    assert Decision(false) in Execute(World(sc, [t], iset{}, false, limit), Ask(OutsiderGoal(t), true, depth));
  }

  /** Exclusion is complement, over every accepted store, exactly for the relations that list no usersets. */
  lemma {:induction false} ExclusionComplementsIff(sc: Schema, typ: string, relation: string, limit: Limit)
    requires WellTyped(sc) && DefinesRelation(sc, typ, relation) && relation in sc[typ].relations
    ensures ExclusionComplements(sc, typ, relation, limit) <==> !ListsUserset(sc, typ, relation)
  {
    if ListsUserset(sc, typ, relation) {
      var ref :| ref in sc[typ].relations[relation] && ref.relation != "" && ref.typ != USER;
      UsersetIsNotComplemented(sc, typ, relation, ref, 3, limit);
      var store := [WalkTuple(typ, relation, ref)];
      assert !ComplementsOn(sc, store, Goal(Entity(typ, "1"), relation, OUTSIDER), 3, limit);
    } else {
      forall store, id, subject, depth: nat | Conforms(sc, store)
        ensures ComplementsOn(sc, store, Goal(Entity(typ, id), relation, subject), depth, limit)
      {
        PlainRelationComplements(sc, store, Goal(Entity(typ, id), relation, subject), depth, limit);
      }
    }
  }

  // ---------------------------------------------------------------- the relations `not` reaches in a schema

  /** No relation that the leaf asks for under `not` lists a userset type. */
  ghost predicate LeafAvoidsUsersets(sc: Schema, typ: string, leaf: Leaf)
    requires typ in sc
  {
    leaf.exclusion ==>
      match leaf
      case ComputedUserSet(_, relation) => !ListsUserset(sc, typ, relation)
      case TupleToUserSet(_, tupleSet, relation) =>
        tupleSet in sc[typ].relations ==>
          forall ref :: ref in sc[typ].relations[tupleSet] && Storable(ref) ==> !ListsUserset(sc, ref.typ, relation)
  }

  ghost predicate AvoidsUsersets(sc: Schema) {
    forall typ, n, leaf :: typ in sc && n in sc[typ].actions && HasLeaf(sc[typ].actions[n], leaf) ==>
      LeafAvoidsUsersets(sc, typ, leaf)
  }

  lemma {:induction false} UnlistedIsPlain(sc: Schema, store: seq<Tuple>, e: Entity, relation: string)
    requires WellTyped(sc) && Conforms(sc, store) && !ListsUserset(sc, e.typ, relation)
    ensures PlainAt(sc, store, e, relation)
  {
    if DefinesRelation(sc, e.typ, relation) {
      assert DefinitionWellFormed(sc[e.typ]);
      var ss := Query(store, e, relation);
      forall s | s in ss
        ensures !IsUserset(s)
      {
        assert Accepted(sc, Tuple(e, relation, s));
      }
      NoUsersets(ss);
    }
  }

  lemma {:induction false} AvoidingLeafIsPlain(sc: Schema, store: seq<Tuple>, e: Entity, leaf: Leaf)
    requires WellTyped(sc) && Conforms(sc, store) && e.typ in sc && LeafAvoidsUsersets(sc, e.typ, leaf)
    ensures LeafPlain(sc, store, e, leaf)
  {
    if leaf.exclusion {
      match leaf
      case ComputedUserSet(_, relation) => UnlistedIsPlain(sc, store, e, relation);
      case TupleToUserSet(_, tupleSet, relation) =>
        forall s | s in Query(store, e, tupleSet)
          ensures PlainAt(sc, store, EntityOf(s), relation)
        {
          assert Accepted(sc, Tuple(e, tupleSet, s));
          assert Storable(TypeOf(s));
          UnlistedIsPlain(sc, store, EntityOf(s), relation);
        }
    }
  }

  /** The leaf, started at `e`, asks first for the relation that holds `t`. */
  ghost predicate LeafReaches(store: seq<Tuple>, e: Entity, leaf: Leaf, t: Tuple) {
    t.relation == leaf.relation &&
    if leaf.ComputedUserSet? then t.entity == e
    else
      var ss := Query(store, e, leaf.tupleSet);
      ss != [] && EntityOf(ss[0]) == t.entity
  }

  /** A relation under `not` that lists a userset type can hold a lone userset, in a store the writer accepts. */
  lemma {:induction false} ReachedUserset(sc: Schema, typ: string, leaf: Leaf)
    returns (store: seq<Tuple>, e: Entity, t: Tuple)
    requires WellTyped(sc) && typ in sc && !LeafAvoidsUsersets(sc, typ, leaf)
    ensures Conforms(sc, store) && LoneUserset(sc, store, t) && e.typ == typ && LeafReaches(store, e, leaf, t)
    ensures t.entity.id == "1"
  {
    match leaf
    case ComputedUserSet(_, relation) =>
      var ref :| ref in sc[typ].relations[relation] && ref.relation != "" && ref.typ != USER;
      t := WalkTuple(typ, relation, ref);
      store, e := [t], t.entity;
      WalkTupleIsLone(sc, typ, relation, ref);
    case TupleToUserSet(_, tupleSet, relation) =>
      var parent :| parent in sc[typ].relations[tupleSet] && Storable(parent) && ListsUserset(sc, parent.typ, relation);
      var ref :| ref in sc[parent.typ].relations[relation] && ref.relation != "" && ref.typ != USER;
      t := WalkTuple(parent.typ, relation, ref);
      var s := WalkTuple(typ, tupleSet, parent).subject.(id := "1");
      e := Entity(typ, "0");
      store := [Tuple(e, tupleSet, s), t];
      WalkTupleIsLone(sc, parent.typ, relation, ref);
      ParentConforms(sc, typ, tupleSet, parent);
      BehindAParent(sc, Tuple(e, tupleSet, s), t);
  }

  lemma {:induction false} ParentConforms(sc: Schema, typ: string, tupleSet: string, parent: TypeReference)
    requires WellTyped(sc) && typ in sc && tupleSet in sc[typ].relations
    requires parent in sc[typ].relations[tupleSet] && Storable(parent)
    ensures Accepted(sc, Tuple(Entity(typ, "0"), tupleSet, WalkTuple(typ, tupleSet, parent).subject.(id := "1")))
  {
    assert ReferenceTyped(sc, parent);
    assert TypeOf(WalkTuple(typ, tupleSet, parent).subject.(id := "1")) == parent;
  }

  /** A tuple of a third entity in front does not disturb a lone userset. */
  lemma {:induction false} BehindAParent(sc: Schema, p: Tuple, t: Tuple)
    requires LoneUserset(sc, [t], t) && p.entity.id != t.entity.id && p.entity.id != t.subject.id
    ensures LoneUserset(sc, [p, t], t)
    ensures Query([p, t], p.entity, p.relation) == [p.subject]
  {
    assert [p, t][1..] == [t];
    QueryOne(t, p.entity, p.relation);
  }

  /** Every accepted store is plain under `not` exactly when no relation under `not` lists a userset type. */
  lemma {:induction false} AcceptedStoresArePlainIff(sc: Schema)
    requires WellTyped(sc)
    ensures (forall store :: Conforms(sc, store) ==> PlainExclusion(sc, store)) <==> AvoidsUsersets(sc)
  {
    if AvoidsUsersets(sc) {
      forall store, e: Entity, n: string, leaf |
          Conforms(sc, store) && DefinesAction(sc, e.typ, n) && HasLeaf(sc[e.typ].actions[n], leaf)
        ensures LeafPlain(sc, store, e, leaf)
      {
        AvoidingLeafIsPlain(sc, store, e, leaf);
      }
    } else {
      var typ, n, leaf :| typ in sc && n in sc[typ].actions && HasLeaf(sc[typ].actions[n], leaf) &&
                          !LeafAvoidsUsersets(sc, typ, leaf);
      var store, e, t := ReachedUserset(sc, typ, leaf);
      assert DefinitionWellFormed(sc[typ]);
      assert DefinesAction(sc, e.typ, n);
      assert Usersets([t.subject]) == [t.subject] + Usersets([t.subject][1..]);
      assert !PlainAt(sc, store, t.entity, t.relation);
      assert !LeafPlain(sc, store, e, leaf);
      assert !PlainExclusion(sc, store);
    }
  }
}
