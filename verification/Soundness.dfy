/** The engine decides membership: soundness of every error-free answer, completeness with enough depth,
    independence of scheduling and depth, monotonicity. */
module Soundness {
  import opened Base
  import opened Check
  import opened Membership

  // ---------------------------------------------------------------- conditions

  /** On this relation of this entity `not` means absence: no userset is stored in it. */
  ghost predicate PlainAt(sc: Schema, store: seq<Tuple>, e: Entity, relation: string) {
    DefinesRelation(sc, e.typ, relation) ==> Usersets(Query(store, e, relation)) == []
  }

  /** The entities and the relation an excluded leaf asks for, starting from `e`, are plain. */
  ghost predicate LeafPlain(sc: Schema, store: seq<Tuple>, e: Entity, leaf: Leaf) {
    leaf.exclusion ==>
      match leaf
      case ComputedUserSet(_, relation) => PlainAt(sc, store, e, relation)
      case TupleToUserSet(_, tupleSet, relation) =>
        forall s :: s in Query(store, e, tupleSet) ==> PlainAt(sc, store, EntityOf(s), relation)
  }

  ghost predicate ChildPlain(sc: Schema, store: seq<Tuple>, e: Entity, c: Child) {
    forall leaf :: HasLeaf(c, leaf) ==> LeafPlain(sc, store, e, leaf)
  }

  /** Whatever a leaf under `not` asks for is plain. Relations that no such leaf reaches may hold usersets. */
  ghost predicate PlainExclusion(sc: Schema, store: seq<Tuple>) {
    forall e: Entity, action: string :: DefinesAction(sc, e.typ, action) ==>
      ChildPlain(sc, store, e, sc[e.typ].actions[action])
  }

  lemma {:induction false} ChildrenArePlain(sc: Schema, store: seq<Tuple>, e: Entity, c: Child)
    requires c.Rewrite? && ChildPlain(sc, store, e, c)
    ensures forall i :: 0 <= i < |c.children| ==> ChildPlain(sc, store, e, c.children[i])
  {
    forall i, leaf | 0 <= i < |c.children| && HasLeaf(c.children[i], leaf)
      ensures LeafPlain(sc, store, e, leaf)
    {
      assert HasLeaf(c, leaf);
    }
  }

  ghost predicate ExclusionFree(sc: Schema) {
    forall typ, action, leaf :: typ in sc && action in sc[typ].actions && HasLeaf(sc[typ].actions[action], leaf) ==>
      !leaf.exclusion
  }

  /** Every cache entry a lookup may find is the membership answer for its goal. */
  ghost predicate SoundHits(w: World) {
    forall g, b :: (g, b) in w.hits ==> b == Member(w.schema, w.store, g)
  }

  /** The answer the engine owes to a request: membership, or for an excluded relation its complement. */
  ghost predicate Correct(w: World, r: Request, allowed: bool) {
    allowed == ((r.exclusion && DefinesRelation(w.schema, r.entity.typ, r.permission))
                != Member(w.schema, w.store, GoalOf(r)))
  }

  /** The relation of an excluded request carries no usersets. */
  ghost predicate PlainRequest(w: World, r: Request) {
    r.exclusion ==> PlainAt(w.schema, w.store, r.entity, r.permission)
  }

  // ---------------------------------------------------------------- soundness

  lemma {:induction false} PlainGoalIsDirect(w: World, g: Goal)
    requires DefinesRelation(w.schema, g.entity.typ, g.permission)
    requires Usersets(Query(w.store, g.entity, g.permission)) == []
    ensures Member(w.schema, w.store, g) <==> Tuple(g.entity, g.permission, g.subject) in w.store
  {
    MembersAreAFixedPoint(w.schema, w.store, g);
    forall s | s in Query(w.store, g.entity, g.permission)
      ensures !IsUserset(s)
    {
      assert s !in Usersets(Query(w.store, g.entity, g.permission));
    }
  }

  lemma {:induction false} NoUsersets(ss: seq<Subject>)
    requires forall s :: s in ss ==> !IsUserset(s)
    ensures Usersets(ss) == []
  {
    if ss != [] {
      NoUsersets(ss[1..]);
    }
  }

  // ---------------------------------------------------------------- combiners

  lemma {:induction false} BlockedGrows(sets: seq<set<Outcome>>, m: nat, n: nat, neutral: Outcome)
    requires m <= n <= |sets|
    ensures Blocked(sets, m, neutral) <= Blocked(sets, n, neutral) <= Blocked(sets, m, neutral) + (n - m)
  {
    if m < n {
      BlockedGrows(sets, m, n - 1, neutral);
    }
  }

  /** Where every child can deliver more, no more children are in the way. */
  lemma {:induction false} BlockedShrinks(sets: seq<set<Outcome>>, more: seq<set<Outcome>>, n: nat, neutral: Outcome)
    requires n <= |sets| == |more|
    requires forall i :: 0 <= i < n && neutral in sets[i] ==> neutral in more[i]
    ensures Blocked(more, n, neutral) <= Blocked(sets, n, neutral)
  {
    if n > 0 {
      BlockedShrinks(sets, more, n - 1, neutral);
    }
  }

  /** A child among the first `limit` is always started, and so is one with too few others in its way. */
  lemma {:induction false} StopAt(w: World, sets: seq<set<Outcome>>, i: nat, o: Outcome, neutral: Outcome)
    requires i < |sets| && o in sets[i] && o != neutral
    requires i < w.limit || Blocked(sets, i, neutral) < w.limit
    ensures o in Stops(w, sets, neutral)
  {
    BlockedGrows(sets, 0, i, neutral);
  }

  /** Some child is not neutral: then some decision ends the combiner. */
  lemma {:induction false} FirstStops(w: World, sets: seq<set<Outcome>>, neutral: Outcome, n: nat)
    requires n < |sets| && neutral !in sets[n] && (forall i :: 0 <= i < |sets| ==> sets[i] != {})
    ensures Stops(w, sets, neutral) != {}
    decreases n
  {
    if m: nat :| m < n && neutral !in sets[m] {
      FirstStops(w, sets, neutral, m);
    } else {
      NothingBlocks(sets, n, neutral);
      var o :| o in sets[n];
      StopAt(w, sets, n, o, neutral);
    }
  }

  lemma {:induction false} NothingBlocks(sets: seq<set<Outcome>>, n: nat, neutral: Outcome)
    requires n <= |sets| && forall i :: 0 <= i < n ==> neutral in sets[i]
    ensures Blocked(sets, n, neutral) == 0
  {
    if n > 0 {
      NothingBlocks(sets, n - 1, neutral);
    }
  }

  lemma {:induction false} OneStops(w: World, os: set<Outcome>, neutral: Outcome)
    requires neutral == Denied || neutral == Allowed
    ensures Combined(w, [os], neutral) == Interruption(w) + os
  {
    var sets := [os];
    assert sets[0] == os && Blocked(sets, 0, neutral) == 0;
    forall o | o in os && o != neutral
      ensures o in Stops(w, sets, neutral)
    {
      StopAt(w, sets, 0, o, neutral);
    }
    forall o | o in Stops(w, sets, neutral)
      ensures o in os
    {
      var i :| 0 <= i < |sets| && o in sets[i];
    }
  }

  lemma {:induction false} UnionOfOne(w: World, os: set<Outcome>, b: bool)
    ensures Decision(b) in UnionOf(w, [os]) <==> Decision(b) in os
  {
    OneStops(w, os, Denied);
  }

  /** Every error-free answer, under any schedule, any depth and any sound cache, is the correct one. */
  lemma {:induction false} ExecuteIsSound(w: World, r: Request, allowed: bool)
    requires SoundHits(w) && PlainExclusion(w.schema, w.store) && PlainRequest(w, r)
    requires Decision(allowed) in Execute(w, r)
    ensures Correct(w, r, allowed)
    decreases r.depth, 3
  {
    var g := GoalOf(r);
    MembersAreAFixedPoint(w.schema, w.store, g);
    if DefinesRelation(w.schema, r.entity.typ, r.permission) {
      var raw := if r.exclusion then !allowed else allowed;
      assert Decision(raw) in Cached(w, g) + UnionOf(w, [CheckDirect(w, r)]);
      if (g, raw) !in w.hits {
        UnionOfOne(w, CheckDirect(w, r), raw);
        DirectIsSound(w, r, raw);
      }
    } else {
      assert r.permission in w.schema[r.entity.typ].actions;
      var c := w.schema[r.entity.typ].actions[r.permission];
      UnionOfOne(w, CheckChild(w, r, c), allowed);
      ChildIsSound(w, r, c, allowed);
    }
  }

  lemma {:induction false} DirectIsSound(w: World, r: Request, allowed: bool)
    requires SoundHits(w) && PlainExclusion(w.schema, w.store) && PlainRequest(w, r)
    requires DefinesRelation(w.schema, r.entity.typ, r.permission)
    requires r.depth > 0 && Decision(allowed) in CheckDirect(w, r)
    ensures allowed == Member(w.schema, w.store, GoalOf(r))
    decreases r.depth, 1
  {
    hide Execute;
    MembersAreAFixedPoint(w.schema, w.store, GoalOf(r));
    var ss := Query(w.store, r.entity, r.permission);
    var us := Usersets(ss);
    if r.subject !in ss {
      var rs := NestedRequests(r, us);
      var sets := ExecuteEach(w, r.depth, rs);
      forall i, b | 0 <= i < |us| && Decision(b) in sets[i]
        ensures b == Member(w.schema, w.store, Goal(EntityOf(us[i]), us[i].relation, r.subject))
      {
        assert us[i] in us;
        ExecuteIsSound(w, rs[i], b);
      }
      if allowed {
        var i :| 0 <= i < |us| && Allowed in sets[i];
        assert Decision(true) in sets[i] && us[i] in us;
      } else {
        forall s | s in ss && IsUserset(s)
          ensures !Member(w.schema, w.store, Goal(EntityOf(s), s.relation, r.subject))
        {
          assert s in us;
          var i :| 0 <= i < |us| && us[i] == s;
          assert Decision(false) in sets[i];
        }
      }
    }
  }

  lemma {:induction false} ChildIsSound(w: World, r: Request, c: Child, allowed: bool)
    requires SoundHits(w) && PlainExclusion(w.schema, w.store) && ChildPlain(w.schema, w.store, r.entity, c)
    requires r.depth > 0 && Decision(allowed) in CheckChild(w, r, c)
    ensures allowed == ChildHolds(w.schema, w.store, Members(w.schema, w.store), r.entity, r.subject, c)
    decreases r.depth, 2, c
  {
    match c
    case NoChild =>
    case LeafChild(leaf) =>
      assert HasLeaf(c, leaf);
      LeafIsSound(w, r, leaf, allowed);
    case Rewrite(op, children) =>
      ChildrenArePlain(w.schema, w.store, r.entity, c);
      var sets := seq(|children|, i requires 0 <= i < |children| => CheckChild(w, r, children[i]));
      forall i, b | 0 <= i < |children| && Decision(b) in sets[i]
        ensures b == ChildHolds(w.schema, w.store, Members(w.schema, w.store), r.entity, r.subject, children[i])
      {
        ChildIsSound(w, r, children[i], b);
      }
      var neutral := op == Intersection;
      if allowed == neutral {
        forall i | 0 <= i < |children|
          ensures Decision(neutral) in sets[i]
        {
        }
      } else if exists i :: 0 <= i < |sets| && Decision(allowed) in sets[i] {
        var i :| 0 <= i < |sets| && Decision(allowed) in sets[i];
      }
  }

  lemma {:induction false} LeafIsSound(w: World, r: Request, leaf: Leaf, allowed: bool)
    requires SoundHits(w) && PlainExclusion(w.schema, w.store) && LeafPlain(w.schema, w.store, r.entity, leaf)
    requires r.depth > 0 && Decision(allowed) in CheckLeaf(w, r, leaf)
    ensures allowed == ChildHolds(w.schema, w.store, Members(w.schema, w.store), r.entity, r.subject, LeafChild(leaf))
    decreases r.depth, 1, 0
  {
    var M := Members(w.schema, w.store);
    match leaf
    case ComputedUserSet(_, _) =>
      ComputedIsSound(w, r, r.entity, leaf, allowed);
    case TupleToUserSet(exclusion, tupleSet, relation) =>
      var ss := Query(w.store, r.entity, tupleSet);
      var sets := ExecuteEach(w, r.depth, ParentRequests(r, ss, relation, exclusion));
      forall i, b | 0 <= i < |ss| && Decision(b) in sets[i]
        ensures b == LeafHolds(w.schema, w.store, M, Goal(EntityOf(ss[i]), relation, r.subject), exclusion)
      {
        assert ss[i] in ss;
        ComputedIsSound(w, r, EntityOf(ss[i]), leaf, b);
      }
      if allowed {
        var i :| 0 <= i < |ss| && Allowed in sets[i];
        assert Decision(true) in sets[i] && ss[i] in ss;
      } else {
        forall s | s in ss
          ensures !LeafHolds(w.schema, w.store, M, Goal(EntityOf(s), relation, r.subject), exclusion)
        {
          var i :| 0 <= i < |ss| && ss[i] == s;
          assert Decision(false) in sets[i];
        }
      }
  }

  lemma {:induction false} ComputedIsSound(w: World, r: Request, e: Entity, leaf: Leaf, allowed: bool)
    requires SoundHits(w) && PlainExclusion(w.schema, w.store)
    requires leaf.exclusion ==> PlainAt(w.schema, w.store, e, leaf.relation)
    requires r.depth > 0 && Decision(allowed) in Execute(w, Computed(r, e, leaf.relation, leaf.exclusion))
    ensures allowed == LeafHolds(w.schema, w.store, Members(w.schema, w.store),
                                 Goal(e, leaf.relation, r.subject), leaf.exclusion)
    decreases r.depth, 0
  {
    var q := Computed(r, e, leaf.relation, leaf.exclusion);
    if leaf.exclusion && DefinesRelation(w.schema, e.typ, leaf.relation) {
      PlainGoalIsDirect(w, GoalOf(q));
    }
    ExecuteIsSound(w, q, allowed);
  }

  // ---------------------------------------------------------------- completeness

  /** More depth never takes a decision away. */
  lemma {:induction false} ExecuteDepthMonotone(w: World, r: Request, more: nat, b: bool)
    requires r.depth <= more && Decision(b) in Execute(w, r)
    ensures Decision(b) in Execute(w, r.(depth := more))
    decreases r.depth, 3
  {
    var q := r.(depth := more);
    if DefinesRelation(w.schema, r.entity.typ, r.permission) {
      var raw := if r.exclusion then !b else b;
      assert Decision(raw) in Cached(w, GoalOf(r)) + UnionOf(w, [CheckDirect(w, r)]);
      if Decision(raw) !in Cached(w, GoalOf(r)) {
        UnionOfOne(w, CheckDirect(w, r), raw);
        DirectDepthMonotone(w, r, more, raw);
        UnionOfOne(w, CheckDirect(w, q), raw);
      }
      assert Decision(raw) in Cached(w, GoalOf(q)) + UnionOf(w, [CheckDirect(w, q)]);
    } else {
      var c := w.schema[r.entity.typ].actions[r.permission];
      UnionOfOne(w, CheckChild(w, r, c), b);
      ChildDepthMonotone(w, r, more, c, b);
      UnionOfOne(w, CheckChild(w, q, c), b);
    }
  }

  /** A decision survives when every child keeps its decisions. */
  lemma {:induction false} CombinedMonotone(w: World, sets: seq<set<Outcome>>, more: seq<set<Outcome>>,
                                            neutral: Outcome, o: Outcome)
    requires |sets| == |more| && !o.Failed? && !neutral.Failed? && o in Combined(w, sets, neutral)
    requires forall i, b :: 0 <= i < |sets| && Decision(b) in sets[i] ==> Decision(b) in more[i]
    ensures o in Combined(w, more, neutral)
  {
    assert Decision(true) == Allowed && Decision(false) == Denied;
    if o != neutral {
      var i :| 0 <= i < |sets| && o in sets[i] && Blocked(sets, i, neutral) < w.limit;
      BlockedShrinks(sets, more, i, neutral);
      StopAt(w, more, i, o, neutral);
    } else {
      forall i | 0 <= i < |more|
        ensures neutral in more[i]
      {
        assert neutral in sets[i];
      }
    }
  }

  lemma {:induction false} DirectDepthMonotone(w: World, r: Request, more: nat, b: bool)
    requires 0 < r.depth <= more && Decision(b) in CheckDirect(w, r)
    ensures Decision(b) in CheckDirect(w, r.(depth := more))
    decreases r.depth, 1
  {
    var q := r.(depth := more);
    var ss := Query(w.store, r.entity, r.permission);
    var us := Usersets(ss);
    if r.subject !in ss {
      EachDepthMonotone(w, r.depth, more, NestedRequests(r, us), NestedRequests(q, us), b);
    }
  }

  lemma {:induction false} EachDepthMonotone(w: World, depth: nat, more: nat, rs: seq<Request>, qs: seq<Request>,
                                             b: bool)
    requires 0 < depth <= more && |rs| == |qs|
    requires forall i :: 0 <= i < |rs| ==> rs[i].depth == depth - 1 && qs[i] == rs[i].(depth := more - 1)
    requires Decision(b) in UnionOf(w, ExecuteEach(w, depth, rs))
    ensures Decision(b) in UnionOf(w, ExecuteEach(w, more, qs))
    decreases depth, 0
  {
    hide Execute, Combined;
    var sets, wider := ExecuteEach(w, depth, rs), ExecuteEach(w, more, qs);
    forall i, c | 0 <= i < |rs| && Decision(c) in sets[i]
      ensures Decision(c) in wider[i]
    {
      ExecuteDepthMonotone(w, rs[i], more - 1, c);
    }
    CombinedMonotone(w, sets, wider, Denied, Decision(b));
  }

  lemma {:induction false} LeafDepthMonotone(w: World, r: Request, more: nat, leaf: Leaf, b: bool)
    requires 0 < r.depth <= more && Decision(b) in CheckLeaf(w, r, leaf)
    ensures Decision(b) in CheckLeaf(w, r.(depth := more), leaf)
    decreases r.depth, 1, 0
  {
    hide Execute, UnionOf;
    var q := r.(depth := more);
    match leaf
    case ComputedUserSet(exclusion, relation) =>
      ExecuteDepthMonotone(w, Computed(r, r.entity, relation, exclusion), more - 1, b);
    case TupleToUserSet(exclusion, tupleSet, relation) =>
      var ss := Query(w.store, r.entity, tupleSet);
      EachDepthMonotone(w, r.depth, more, ParentRequests(r, ss, relation, exclusion),
                        ParentRequests(q, ss, relation, exclusion), b);
  }

  lemma {:induction false} ChildDepthMonotone(w: World, r: Request, more: nat, c: Child, b: bool)
    requires 0 < r.depth <= more && Decision(b) in CheckChild(w, r, c)
    ensures Decision(b) in CheckChild(w, r.(depth := more), c)
    decreases r.depth, 2, c
  {
    var q := r.(depth := more);
    match c
    case NoChild =>
    case LeafChild(leaf) =>
      LeafDepthMonotone(w, r, more, leaf, b);
    case Rewrite(op, children) =>
      var sets := seq(|children|, i requires 0 <= i < |children| => CheckChild(w, r, children[i]));
      var wider := seq(|children|, i requires 0 <= i < |children| => CheckChild(w, q, children[i]));
      forall i, c | 0 <= i < |children| && Decision(c) in sets[i]
        ensures Decision(c) in wider[i]
      {
        ChildDepthMonotone(w, r, more, children[i], c);
      }
      if children != [] {
        CombinedMonotone(w, sets, wider, if op == Union then Denied else Allowed, Decision(b));
      }
  }

  // ---------------------------------------------------------------- more cache entries

  /** The same data, and at least the same cache entries. */
  ghost predicate Extends(w': World, w: World) {
    w' == w.(hits := w'.hits) && w.hits <= w'.hits
  }

  lemma {:induction false} CombinersKeepOutcomes(w: World, w': World, sets: seq<set<Outcome>>, more: seq<set<Outcome>>)
    requires Extends(w', w) && |sets| == |more| && forall i :: 0 <= i < |sets| ==> sets[i] <= more[i]
    ensures UnionOf(w, sets) <= UnionOf(w', more) && IntersectionOf(w, sets) <= IntersectionOf(w', more)
  {
    CombinedKeepsOutcomes(w, w', sets, more, Denied);
    CombinedKeepsOutcomes(w, w', sets, more, Allowed);
  }

  lemma {:induction false} CombinedKeepsOutcomes(w: World, w': World, sets: seq<set<Outcome>>, more: seq<set<Outcome>>,
                                                 neutral: Outcome)
    requires Extends(w', w) && |sets| == |more| && forall i :: 0 <= i < |sets| ==> sets[i] <= more[i]
    ensures Combined(w, sets, neutral) <= Combined(w', more, neutral)
  {
    forall o | o in Stops(w, sets, neutral)
      ensures o in Stops(w', more, neutral)
    {
      var i :| 0 <= i < |sets| && o in sets[i] && o != neutral && Blocked(sets, i, neutral) < w.limit;
      BlockedShrinks(sets, more, i, neutral);
      StopAt(w', more, i, o, neutral);
    }
  }

  /** An entry more takes no outcome away. */
  lemma {:induction false} ExecuteKeepsOutcomes(w: World, w': World, r: Request)
    requires Extends(w', w)
    ensures Execute(w, r) <= Execute(w', r)
    decreases r.depth, 3
  {
    if r.depth > 0 && DefinesRelation(w.schema, r.entity.typ, r.permission) {
      DirectKeepsOutcomes(w, w', r);
      CombinersKeepOutcomes(w, w', [CheckDirect(w, r)], [CheckDirect(w', r)]);
      CachedKeepsOutcomes(w, w', GoalOf(r));
    } else if r.depth > 0 && DefinesAction(w.schema, r.entity.typ, r.permission) {
      var c := w.schema[r.entity.typ].actions[r.permission];
      ChildKeepsOutcomes(w, w', r, c);
      CombinersKeepOutcomes(w, w', [CheckChild(w, r, c)], [CheckChild(w', r, c)]);
    }
  }

  lemma {:induction false} CachedKeepsOutcomes(w: World, w': World, g: Goal)
    requires Extends(w', w)
    ensures Cached(w, g) <= Cached(w', g)
  {
  }

  lemma {:induction false} EachKeepsOutcomes(w: World, w': World, depth: nat, rs: seq<Request>)
    requires Extends(w', w) && forall i :: 0 <= i < |rs| ==> rs[i].depth < depth
    ensures UnionOf(w, ExecuteEach(w, depth, rs)) <= UnionOf(w', ExecuteEach(w', depth, rs))
    decreases depth, 0
  {
    forall i | 0 <= i < |rs|
      ensures ExecuteEach(w, depth, rs)[i] <= ExecuteEach(w', depth, rs)[i]
    {
      ExecuteKeepsOutcomes(w, w', rs[i]);
    }
    CombinersKeepOutcomes(w, w', ExecuteEach(w, depth, rs), ExecuteEach(w', depth, rs));
  }

  lemma {:induction false} DirectKeepsOutcomes(w: World, w': World, r: Request)
    requires Extends(w', w) && r.depth > 0
    ensures CheckDirect(w, r) <= CheckDirect(w', r)
    decreases r.depth, 1
  {
    EachKeepsOutcomes(w, w', r.depth, NestedRequests(r, Usersets(Query(w.store, r.entity, r.permission))));
  }

  lemma {:induction false} ChildKeepsOutcomes(w: World, w': World, r: Request, c: Child)
    requires Extends(w', w) && r.depth > 0
    ensures CheckChild(w, r, c) <= CheckChild(w', r, c)
    decreases r.depth, 2, c
  {
    match c
    case NoChild =>
    case LeafChild(ComputedUserSet(exclusion, relation)) =>
      ExecuteKeepsOutcomes(w, w', Computed(r, r.entity, relation, exclusion));
    case LeafChild(TupleToUserSet(exclusion, tupleSet, relation)) =>
      EachKeepsOutcomes(w, w', r.depth, ParentRequests(r, Query(w.store, r.entity, tupleSet), relation, exclusion));
    case Rewrite(op, children) =>
      var sets := seq(|children|, i requires 0 <= i < |children| => CheckChild(w, r, children[i]));
      var more := seq(|children|, i requires 0 <= i < |children| => CheckChild(w', r, children[i]));
      forall i | 0 <= i < |children|
        ensures sets[i] <= more[i]
      {
        ChildKeepsOutcomes(w, w', r, children[i]);
      }
      CombinersKeepOutcomes(w, w', sets, more);
  }

  /** A relation request is allowed at depth 1 when the tuple is stored. */
  lemma {:induction false} StoredTupleIsAllowed(w: World, g: Goal)
    requires DefinesRelation(w.schema, g.entity.typ, g.permission)
    requires Tuple(g.entity, g.permission, g.subject) in w.store
    ensures Allowed in Execute(w, Ask(g, false, 1))
  {
    assert Decision(true) in CheckDirect(w, Ask(g, false, 1));
    UnionOfOne(w, CheckDirect(w, Ask(g, false, 1)), true);
  }

  lemma {:induction false} EachIsAllowed(w: World, depth: nat, rs: seq<Request>, i: nat)
    requires forall k :: 0 <= k < |rs| ==> rs[k].depth < depth
    requires i < |rs| && Allowed in Execute(w, rs[i])
    requires i < w.limit || Blocked(ExecuteEach(w, depth, rs), i, Denied) < w.limit
    ensures Allowed in UnionOf(w, ExecuteEach(w, depth, rs))
  {
    hide Execute;
    StopAt(w, ExecuteEach(w, depth, rs), i, Allowed, Denied);
  }

  // ---------------------------------------------------------------- room for every child

  /** No rewrite of the tree has more children than the limit. */
  ghost predicate Narrow(c: Child, limit: Limit) {
    match c
    case NoChild => true
    case LeafChild(_) => true
    case Rewrite(_, children) => |children| <= limit && forall i :: 0 <= i < |children| ==> Narrow(children[i], limit)
  }

  /** The children of the tree, and the parents its walks find at `e`, all get a slot at once. */
  ghost predicate RoomyChild(w: World, e: Entity, c: Child) {
    Narrow(c, w.limit) && forall leaf :: HasLeaf(c, leaf) ==> RoomyLeaf(w, e, leaf)
  }

  ghost predicate RoomyLeaf(w: World, e: Entity, leaf: Leaf) {
    leaf.TupleToUserSet? ==> |Query(w.store, e, leaf.tupleSet)| <= w.limit
  }

  /** The limit is at least the fan-out of every combiner: the usersets of a relation, the parents of a walk, the
      children of a rewrite. */
  ghost predicate Roomy(w: World) {
    && (forall e: Entity, relation: string :: |Usersets(Query(w.store, e, relation))| <= w.limit)
    && (forall e: Entity, action: string :: DefinesAction(w.schema, e.typ, action) ==>
          RoomyChild(w, e, w.schema[e.typ].actions[action]))
  }

  lemma {:induction false} ChildrenAreRoomy(w: World, e: Entity, c: Child)
    requires c.Rewrite? && RoomyChild(w, e, c)
    ensures |c.children| <= w.limit && forall i :: 0 <= i < |c.children| ==> RoomyChild(w, e, c.children[i])
  {
    forall i, leaf | 0 <= i < |c.children| && HasLeaf(c.children[i], leaf)
      ensures RoomyLeaf(w, e, leaf)
    {
      assert HasLeaf(c, leaf);
    }
  }

  lemma {:induction false} UsersetIsAllowed(w: World, g: Goal, s: Subject, d: nat)
    requires DefinesRelation(w.schema, g.entity.typ, g.permission)
    requires |Usersets(Query(w.store, g.entity, g.permission))| <= w.limit
    requires s in Query(w.store, g.entity, g.permission) && IsUserset(s)
    requires Allowed in Execute(w, Ask(Goal(EntityOf(s), s.relation, g.subject), false, d))
    ensures Allowed in Execute(w, Ask(g, false, d + 1))
  {
    hide Execute;
    var us := Usersets(Query(w.store, g.entity, g.permission));
    var i :| 0 <= i < |us| && us[i] == s;
    UsersetIsDirectlyAllowed(w, Ask(g, false, d + 1), i);
    DirectDecides(w, Ask(g, false, d + 1), true);
  }

  /** The decision of a relation check, before exclusion turns it round. */
  lemma {:induction false} DirectDecides(w: World, r: Request, b: bool)
    requires DefinesRelation(w.schema, r.entity.typ, r.permission)
    requires r.depth > 0 && Decision(b) in CheckDirect(w, r)
    ensures Decision(b != r.exclusion) in Execute(w, r)
  {
    hide CheckDirect;
    UnionOfOne(w, CheckDirect(w, r), b);
    assert Decision(b) in Cached(w, GoalOf(r)) + UnionOf(w, [CheckDirect(w, r)]);
  }

  /** A userset that gets a slot and is allowed. */
  lemma {:induction false} UsersetIsDirectlyAllowed(w: World, r: Request, i: nat)
    requires r.depth > 0 && i < |Usersets(Query(w.store, r.entity, r.permission))|
    requires var rs := NestedRequests(r, Usersets(Query(w.store, r.entity, r.permission)));
             && Allowed in Execute(w, rs[i])
             && (i < w.limit || Blocked(ExecuteEach(w, r.depth, rs), i, Denied) < w.limit)
    ensures Allowed in CheckDirect(w, r)
  {
    hide Execute, UnionOf;
    if r.subject !in Query(w.store, r.entity, r.permission) {
      EachIsAllowed(w, r.depth, NestedRequests(r, Usersets(Query(w.store, r.entity, r.permission))), i);
    }
  }

  /** An excluded leaf on a relation without usersets is allowed when the tuple is absent. */
  lemma {:induction false} AbsentTupleIsAllowed(w: World, g: Goal)
    requires DefinesRelation(w.schema, g.entity.typ, g.permission)
    requires Usersets(Query(w.store, g.entity, g.permission)) == []
    requires Tuple(g.entity, g.permission, g.subject) !in w.store
    ensures Allowed in Execute(w, Ask(g, true, 1))
  {
    assert Decision(false) in CheckDirect(w, Ask(g, true, 1));
    DirectDecides(w, Ask(g, true, 1), false);
  }

  /** The goals the engine can allow at some depth. */
  ghost predicate Reaches(w: World, g: Goal) {
    exists d: nat :: Allowed in Execute(w, Ask(g, false, d))
  }

  ghost function Reachable(w: World): iset<Goal> {
    iset g: Goal | Reaches(w, g)
  }

  lemma {:induction false} LeafIsReachable(w: World, g: Goal, exclusion: bool) returns (d: nat)
    requires exclusion ==> PlainAt(w.schema, w.store, g.entity, g.permission)
    requires LeafHolds(w.schema, w.store, Reachable(w), g, exclusion)
    ensures Allowed in Execute(w, Ask(g, exclusion, d))
  {
    if exclusion && DefinesRelation(w.schema, g.entity.typ, g.permission) {
      AbsentTupleIsAllowed(w, g);
      d := 1;
    } else {
      d :| Allowed in Execute(w, Ask(g, false, d));
      if exclusion {
        ActionsIgnoreExclusion(w, g, d);
      }
    }
  }

  /** Exclusion changes nothing on a name that is not a relation (check.go:118 and 141). */
  lemma {:induction false} ActionsIgnoreExclusion(w: World, g: Goal, d: nat)
    requires !DefinesRelation(w.schema, g.entity.typ, g.permission)
    ensures Execute(w, Ask(g, true, d)) == Execute(w, Ask(g, false, d))
  {
    if d > 0 && DefinesAction(w.schema, g.entity.typ, g.permission) {
      ChildIgnoresExclusion(w, Ask(g, true, d), w.schema[g.entity.typ].actions[g.permission]);
    }
  }

  lemma {:induction false} ChildIgnoresExclusion(w: World, r: Request, c: Child)
    requires r.depth > 0
    ensures CheckChild(w, r, c) == CheckChild(w, r.(exclusion := false), c)
    decreases c
  {
    var q := r.(exclusion := false);
    match c
    case NoChild =>
    case LeafChild(ComputedUserSet(_, _)) =>
    case LeafChild(TupleToUserSet(exclusion, tupleSet, relation)) =>
      var ss := Query(w.store, r.entity, tupleSet);
      assert ParentRequests(r, ss, relation, exclusion) == ParentRequests(q, ss, relation, exclusion);
    case Rewrite(op, children) =>
      var sets := seq(|children|, i requires 0 <= i < |children| => CheckChild(w, r, children[i]));
      var same := seq(|children|, i requires 0 <= i < |children| => CheckChild(w, q, children[i]));
      forall i | 0 <= i < |children|
        ensures sets[i] == same[i]
      {
        ChildIgnoresExclusion(w, r, children[i]);
      }
      assert sets == same;
  }

  lemma {:induction false} LeafChildIsReachable(w: World, e: Entity, subject: Subject, p: string, leaf: Leaf)
    returns (d: nat)
    requires LeafPlain(w.schema, w.store, e, leaf) && RoomyLeaf(w, e, leaf)
    requires ChildHolds(w.schema, w.store, Reachable(w), e, subject, LeafChild(leaf))
    ensures d > 0 && Allowed in CheckLeaf(w, Ask(Goal(e, p, subject), false, d), leaf)
  {
    hide Execute;
    match leaf
    case ComputedUserSet(exclusion, relation) =>
      var k := LeafIsReachable(w, Goal(e, relation, subject), exclusion);
      d := k + 1;
      assert Computed(Ask(Goal(e, p, subject), false, d), e, relation, exclusion) ==
             Ask(Goal(e, relation, subject), exclusion, k);
    case TupleToUserSet(exclusion, tupleSet, relation) =>
      var ss := Query(w.store, e, tupleSet);
      var s :| s in ss && LeafHolds(w.schema, w.store, Reachable(w), Goal(EntityOf(s), relation, subject), exclusion);
      var k := LeafIsReachable(w, Goal(EntityOf(s), relation, subject), exclusion);
      d := k + 1;
      assert Computed(Ask(Goal(e, p, subject), false, d), EntityOf(s), relation, exclusion) ==
             Ask(Goal(EntityOf(s), relation, subject), exclusion, k);
      var i :| 0 <= i < |ss| && ss[i] == s;
      ParentIsAllowed(w, Ask(Goal(e, p, subject), false, d), leaf, i);
  }

  /** A parent that gets a slot and is allowed. */
  lemma {:induction false} ParentIsAllowed(w: World, r: Request, leaf: Leaf, i: nat)
    requires r.depth > 0 && leaf.TupleToUserSet? && i < |Query(w.store, r.entity, leaf.tupleSet)|
    requires var rs := ParentRequests(r, Query(w.store, r.entity, leaf.tupleSet), leaf.relation, leaf.exclusion);
             && Allowed in Execute(w, rs[i])
             && (i < w.limit || Blocked(ExecuteEach(w, r.depth, rs), i, Denied) < w.limit)
    ensures Allowed in CheckLeaf(w, r, leaf)
  {
    hide Execute, UnionOf;
    var ss := Query(w.store, r.entity, leaf.tupleSet);
    EachIsAllowed(w, r.depth, ParentRequests(r, ss, leaf.relation, leaf.exclusion), i);
  }

  lemma {:induction false} ChildIsReachable(w: World, e: Entity, subject: Subject, p: string, c: Child) returns (d: nat)
    requires ChildPlain(w.schema, w.store, e, c) && RoomyChild(w, e, c)
    requires ChildHolds(w.schema, w.store, Reachable(w), e, subject, c)
    ensures d > 0 && Allowed in CheckChild(w, Ask(Goal(e, p, subject), false, d), c)
    decreases c, 0
  {
    match c
    case LeafChild(leaf) =>
      assert HasLeaf(c, leaf);
      d := LeafChildIsReachable(w, e, subject, p, leaf);
    case Rewrite(op, children) =>
      ChildrenArePlain(w.schema, w.store, e, c);
      ChildrenAreRoomy(w, e, c);
      if op == Union {
        var i :| 0 <= i < |children| && ChildHolds(w.schema, w.store, Reachable(w), e, subject, children[i]);
        d := ChildIsReachable(w, e, subject, p, children[i]);
        var r := Ask(Goal(e, p, subject), false, d);
        var sets := seq(|children|, i requires 0 <= i < |children| => CheckChild(w, r, children[i]));
        StopAt(w, sets, i, Allowed, Denied);
      } else {
        d := ChildrenAreReachable(w, e, subject, p, c, |children|);
      }
  }

  lemma {:induction false} ChildrenAreReachable(w: World, e: Entity, subject: Subject, p: string, c: Child, n: nat)
    returns (d: nat)
    requires c.Rewrite? && n <= |c.children|
    requires forall i :: 0 <= i < |c.children| ==>
               ChildPlain(w.schema, w.store, e, c.children[i]) && RoomyChild(w, e, c.children[i])
    requires forall i :: 0 <= i < n ==> ChildHolds(w.schema, w.store, Reachable(w), e, subject, c.children[i])
    ensures d > 0
    ensures forall i :: 0 <= i < n ==> Allowed in CheckChild(w, Ask(Goal(e, p, subject), false, d), c.children[i])
    decreases c, 0, n
  {
    hide CheckChild, ChildHolds, ChildPlain, RoomyChild;
    d := 1;
    if n > 0 {
      var d0 := ChildrenAreReachable(w, e, subject, p, c, n - 1);
      var d1 := ChildIsReachable(w, e, subject, p, c.children[n - 1]);
      d := d0 + d1;
      forall i | 0 <= i < n
        ensures Allowed in CheckChild(w, Ask(Goal(e, p, subject), false, d), c.children[i])
      {
        var k := if i < n - 1 then d0 else d1;
        ChildDepthMonotone(w, Ask(Goal(e, p, subject), false, k), d, c.children[i], true);
      }
    }
  }

  lemma {:induction false} ReachableIsClosed(w: World)
    requires PlainExclusion(w.schema, w.store) && Roomy(w)
    ensures Closed(w.schema, w.store, Reachable(w))
  {
    forall g: Goal | Follows(w.schema, w.store, Reachable(w), g)
      ensures g in Reachable(w)
    {
      if !DefinesRelation(w.schema, g.entity.typ, g.permission) {
        var c := w.schema[g.entity.typ].actions[g.permission];
        var d := ChildIsReachable(w, g.entity, g.subject, g.permission, c);
        UnionOfOne(w, CheckChild(w, Ask(g, false, d), c), true);
        assert Allowed in Execute(w, Ask(g, false, d));
      } else if Tuple(g.entity, g.permission, g.subject) in w.store {
        StoredTupleIsAllowed(w, g);
      } else {
        var s :| s in Query(w.store, g.entity, g.permission) && IsUserset(s) &&
                 Goal(EntityOf(s), s.relation, g.subject) in Reachable(w);
        var d: nat :| Allowed in Execute(w, Ask(Goal(EntityOf(s), s.relation, g.subject), false, d));
        UsersetIsAllowed(w, g, s, d);
      }
    }
  }

  /** Soundness and completeness together: where the limit leaves room for every child, the members are exactly the
      goals the engine can allow at some depth. The depth budget is the height of a derivation. */
  lemma {:induction false} MembersAreTheReachableGoals(w: World, g: Goal)
    requires SoundHits(w) && PlainExclusion(w.schema, w.store) && Roomy(w)
    ensures Member(w.schema, w.store, g) <==> Reaches(w, g)
  {
    ReachableIsClosed(w);
    if d: nat :| Allowed in Execute(w, Ask(g, false, d)) {
      assert Decision(true) in Execute(w, Ask(g, false, d));
      ExecuteIsSound(w, Ask(g, false, d), true);
    }
  }
}
