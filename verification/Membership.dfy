/** What a check is supposed to decide: membership in the least fixed point of the relation and rewrite
    rules, defined without any reference to depth, order, caching or errors. The theorems compare the
    engine with it. */
module Membership {
  import opened Base
  import opened Check

  /** Does a leaf that names goal `g` hold when `S` is taken for the set of true goals?
      An excluded relation asks for the absence of the tuple; exclusion is ignored on actions. */
  ghost predicate LeafHolds(sc: Schema, store: seq<Tuple>, S: iset<Goal>, g: Goal, exclusion: bool) {
    if exclusion && DefinesRelation(sc, g.entity.typ, g.permission)
    then Tuple(g.entity, g.permission, g.subject) !in store
    else g in S
  }

  ghost predicate ChildHolds(sc: Schema, store: seq<Tuple>, S: iset<Goal>, e: Entity, subject: Subject, c: Child) {
    match c
    case NoChild => false
    case LeafChild(ComputedUserSet(exclusion, relation)) =>
      LeafHolds(sc, store, S, Goal(e, relation, subject), exclusion)
    case LeafChild(TupleToUserSet(exclusion, tupleSet, relation)) =>
      exists s :: s in Query(store, e, tupleSet) &&
                  LeafHolds(sc, store, S, Goal(EntityOf(s), relation, subject), exclusion)
    case Rewrite(op, children) =>
      if op == Unspecified || NoChild in children then false
      else if op == Union then exists i :: 0 <= i < |children| && ChildHolds(sc, store, S, e, subject, children[i])
      else |children| > 0 && forall i :: 0 <= i < |children| ==> ChildHolds(sc, store, S, e, subject, children[i])
  }

  /** One application of the rules: is `g` derivable in one step from the goals in `S`? */
  ghost predicate Follows(sc: Schema, store: seq<Tuple>, S: iset<Goal>, g: Goal) {
    if DefinesRelation(sc, g.entity.typ, g.permission) then
      || Tuple(g.entity, g.permission, g.subject) in store
      || exists s :: s in Query(store, g.entity, g.permission) && IsUserset(s) &&
                     Goal(EntityOf(s), s.relation, g.subject) in S
    else
      && DefinesAction(sc, g.entity.typ, g.permission)
      && ChildHolds(sc, store, S, g.entity, g.subject, sc[g.entity.typ].actions[g.permission])
  }

  ghost predicate Closed(sc: Schema, store: seq<Tuple>, S: iset<Goal>) {
    forall g: Goal :: Follows(sc, store, S, g) ==> g in S
  }

  /** Membership: `g` lies in every set of goals closed under the rules. */
  ghost predicate Member(sc: Schema, store: seq<Tuple>, g: Goal) {
    forall S: iset<Goal> :: Closed(sc, store, S) ==> g in S
  }

  ghost function Members(sc: Schema, store: seq<Tuple>): iset<Goal> {
    iset g: Goal | Member(sc, store, g)
  }

  // ---------------------------------------------------------------- the least fixed point

  lemma {:induction false} ChildHoldsMonotone(sc: Schema, store: seq<Tuple>, S: iset<Goal>, T: iset<Goal>,
                                              e: Entity, subject: Subject, c: Child)
    requires S <= T
    requires ChildHolds(sc, store, S, e, subject, c)
    ensures ChildHolds(sc, store, T, e, subject, c)
    decreases c
  {
    match c
    case NoChild =>
    case LeafChild(leaf) =>
    case Rewrite(op, children) =>
      forall i | 0 <= i < |children| && ChildHolds(sc, store, S, e, subject, children[i])
        ensures ChildHolds(sc, store, T, e, subject, children[i])
      {
        ChildHoldsMonotone(sc, store, S, T, e, subject, children[i]);
      }
  }

  lemma {:induction false} FollowsMonotone(sc: Schema, store: seq<Tuple>, S: iset<Goal>, T: iset<Goal>, g: Goal)
    requires S <= T && Follows(sc, store, S, g)
    ensures Follows(sc, store, T, g)
  {
    if DefinesAction(sc, g.entity.typ, g.permission) && !DefinesRelation(sc, g.entity.typ, g.permission) {
      ChildHoldsMonotone(sc, store, S, T, g.entity, g.subject, sc[g.entity.typ].actions[g.permission]);
    }
  }

  /** Membership obeys its own rules, in both directions. */
  lemma {:induction false} MembersAreAFixedPoint(sc: Schema, store: seq<Tuple>, g: Goal)
    ensures Member(sc, store, g) <==> Follows(sc, store, Members(sc, store), g)
  {
    var M := Members(sc, store);
    forall h: Goal | Follows(sc, store, M, h)
      ensures Member(sc, store, h)
    {
      forall S: iset<Goal> | Closed(sc, store, S)
        ensures h in S
      {
        FollowsMonotone(sc, store, M, S, h);
      }
    }
    var F := iset h: Goal | Follows(sc, store, M, h);
    assert F <= M;
    forall h: Goal | Follows(sc, store, F, h)
      ensures h in F
    {
      FollowsMonotone(sc, store, F, M, h);
    }
    assert Closed(sc, store, F);
  }
}
