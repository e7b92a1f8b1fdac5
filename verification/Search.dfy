/** Which decisions can the engine reach at all, allowed or denied? Exactly those that a finite search finds: the
    least fixed point of rules for both decisions, with exclusion as the code hands it down and the concurrency limit,
    for every schema and store. */
module Search {
  import opened Base
  import opened Check
  import opened Membership
  import opened Soundness

  /** The request for `goal` under this exclusion flag is decided. */
  datatype Finding = Finding(goal: Goal, exclusion: bool, decision: bool)

  /** How many of the first `n` siblings are not done. */
  function Undone(done: seq<bool>, n: nat): nat
    requires n <= |done|
  {
    if n == 0 then 0 else Undone(done, n - 1) + if done[n - 1] then 0 else 1
  }

  /** Some sibling has decided, and fewer than `limit` of those before it are in its way. */
  ghost predicate OneFound(limit: Limit, found: seq<bool>, done: seq<bool>) {
    |found| == |done| && exists i :: 0 <= i < |found| && found[i] && Undone(done, i) < limit
  }

  ghost predicate AllFound(found: seq<bool>) {
    forall i :: 0 <= i < |found| ==> found[i]
  }

  /** Which of the goals are found decided this way. */
  ghost function Findings(S: iset<Finding>, gs: seq<Goal>, exclusion: bool, b: bool): (found: seq<bool>)
    ensures |found| == |gs| && forall i :: 0 <= i < |gs| ==> found[i] == (Finding(gs[i], exclusion, b) in S)
  {
    seq(|gs|, i requires 0 <= i < |gs| => Finding(gs[i], exclusion, b) in S)
  }

  /** A union of requests: one that allows and gets its slot, or denials from all. */
  ghost predicate UnionFound(limit: Limit, S: iset<Finding>, gs: seq<Goal>, exclusion: bool, b: bool) {
    if b then OneFound(limit, Findings(S, gs, exclusion, true), Findings(S, gs, exclusion, false))
    else AllFound(Findings(S, gs, exclusion, false))
  }

  /** The goals below a relation, and below a walk, in store order. */
  function NestedGoals(store: seq<Tuple>, g: Goal): seq<Goal> {
    var us := Usersets(Query(store, g.entity, g.permission));
    seq(|us|, i requires 0 <= i < |us| => Goal(EntityOf(us[i]), us[i].relation, g.subject))
  }

  function ParentGoals(store: seq<Tuple>, e: Entity, tupleSet: string, relation: string, subject: Subject): seq<Goal> {
    var ss := Query(store, e, tupleSet);
    seq(|ss|, i requires 0 <= i < |ss| => Goal(EntityOf(ss[i]), relation, subject))
  }

  /** A relation holds when the tuple is stored or one userset holds; it fails when all usersets have failed. */
  ghost predicate RelationFound(store: seq<Tuple>, limit: Limit, S: iset<Finding>, g: Goal, exclusion: bool, b: bool) {
    if g.subject in Query(store, g.entity, g.permission) then b
    else UnionFound(limit, S, NestedGoals(store, g), exclusion, b)
  }

  ghost predicate LeafFound(store: seq<Tuple>, limit: Limit, S: iset<Finding>, e: Entity, subject: Subject, leaf: Leaf,
                            b: bool) {
    match leaf
    case ComputedUserSet(exclusion, relation) => Finding(Goal(e, relation, subject), exclusion, b) in S
    case TupleToUserSet(exclusion, tupleSet, relation) =>
      UnionFound(limit, S, ParentGoals(store, e, tupleSet, relation, subject), exclusion, b)
  }

  /** One decisive child that gets its slot is enough; otherwise all children must have been decided. */
  ghost predicate ChildFound(store: seq<Tuple>, limit: Limit, S: iset<Finding>, e: Entity, subject: Subject, c: Child,
                             b: bool)
    decreases c
  {
    match c
    case NoChild => false
    case LeafChild(leaf) => LeafFound(store, limit, S, e, subject, leaf, b)
    case Rewrite(op, children) =>
      var found := seq(|children|, i requires 0 <= i < |children| =>
        ChildFound(store, limit, S, e, subject, children[i], b));
      var other := seq(|children|, i requires 0 <= i < |children| =>
        ChildFound(store, limit, S, e, subject, children[i], !b));
      if op == Unspecified || NoChild in children then false
      else if op == Intersection && children == [] then !b
      else if (op == Union) == b then OneFound(limit, found, other)
      else AllFound(found)
  }

  ghost predicate Found(sc: Schema, store: seq<Tuple>, limit: Limit, S: iset<Finding>, f: Finding) {
    var g := f.goal;
    if DefinesRelation(sc, g.entity.typ, g.permission) then
      RelationFound(store, limit, S, g, f.exclusion, f.decision != f.exclusion)
    else
      && DefinesAction(sc, g.entity.typ, g.permission)
      && ChildFound(store, limit, S, g.entity, g.subject, sc[g.entity.typ].actions[g.permission], f.decision)
  }

  ghost predicate SearchClosed(sc: Schema, store: seq<Tuple>, limit: Limit, S: iset<Finding>) {
    forall f: Finding :: Found(sc, store, limit, S, f) ==> f in S
  }

  /** A finite search finds the decision: it lies in every closed set. */
  ghost predicate Finds(sc: Schema, store: seq<Tuple>, limit: Limit, f: Finding) {
    forall S: iset<Finding> :: SearchClosed(sc, store, limit, S) ==> f in S
  }

  // ---------------------------------------------------------------- what the engine decides is found

  /** Siblings that cannot be neutral are at least those not done. */
  lemma {:induction false} UndoneIsBlocked(sets: seq<set<Outcome>>, done: seq<bool>, n: nat, neutral: Outcome)
    requires n <= |sets| == |done| && forall i :: 0 <= i < n && neutral in sets[i] ==> done[i]
    ensures Undone(done, n) <= Blocked(sets, n, neutral)
  {
    if n > 0 {
      UndoneIsBlocked(sets, done, n - 1, neutral);
    }
  }

  lemma {:induction false} BlockedIsUndone(sets: seq<set<Outcome>>, done: seq<bool>, n: nat, neutral: Outcome)
    requires n <= |sets| == |done| && forall i :: 0 <= i < n && done[i] ==> neutral in sets[i]
    ensures Blocked(sets, n, neutral) <= Undone(done, n)
  {
    if n > 0 {
      BlockedIsUndone(sets, done, n - 1, neutral);
    }
  }

  /** A decision of a combiner is found among its children. */
  lemma {:induction false} CombinedIsFound(w: World, sets: seq<set<Outcome>>, neutral: bool, b: bool, found: seq<bool>,
                                           other: seq<bool>)
    requires |sets| == |found| == |other| && Decision(b) in Combined(w, sets, Decision(neutral))
    requires forall i :: 0 <= i < |sets| && Decision(b) in sets[i] ==> found[i]
    requires forall i :: 0 <= i < |sets| && Decision(!b) in sets[i] ==> other[i]
    ensures if b == neutral then AllFound(found) else OneFound(w.limit, found, other)
  {
    if b != neutral {
      var i :| 0 <= i < |sets| && Decision(b) in sets[i] && Blocked(sets, i, Decision(neutral)) < w.limit;
      UndoneIsBlocked(sets, other, i, Decision(neutral));
    }
  }

  lemma {:induction false} ExecuteIsFound(w: World, S: iset<Finding>, r: Request, b: bool)
    requires w.hits == iset{} && SearchClosed(w.schema, w.store, w.limit, S) && Decision(b) in Execute(w, r)
    ensures Finding(GoalOf(r), r.exclusion, b) in S
    decreases r.depth, 3
  {
    hide RelationFound, ChildFound;
    var f := Finding(GoalOf(r), r.exclusion, b);
    if DefinesRelation(w.schema, r.entity.typ, r.permission) {
      var raw := b != r.exclusion;
      assert Decision(raw) in Cached(w, GoalOf(r)) + UnionOf(w, [CheckDirect(w, r)]);
      UnionOfOne(w, CheckDirect(w, r), raw);
      DirectIsFound(w, S, r, raw);
    } else {
      var c := w.schema[r.entity.typ].actions[r.permission];
      UnionOfOne(w, CheckChild(w, r, c), b);
      ChildIsFound(w, S, r, c, b);
    }
    assert Found(w.schema, w.store, w.limit, S, f);
  }

  /** The requests ask for these goals, one level deeper. */
  ghost predicate AsksFor(rs: seq<Request>, gs: seq<Goal>, exclusion: bool, depth: nat) {
    |rs| == |gs| && forall i :: 0 <= i < |rs| ==> rs[i] == Ask(gs[i], exclusion, depth)
  }

  lemma {:induction false} EachIsFound(w: World, S: iset<Finding>, depth: nat, rs: seq<Request>, gs: seq<Goal>,
                                       exclusion: bool, b: bool)
    requires w.hits == iset{} && SearchClosed(w.schema, w.store, w.limit, S)
    requires depth > 0 && AsksFor(rs, gs, exclusion, depth - 1)
    requires Decision(b) in UnionOf(w, ExecuteEach(w, depth, rs))
    ensures UnionFound(w.limit, S, gs, exclusion, b)
    decreases depth, 0
  {
    hide Execute, SearchClosed, Combined, OneFound, AllFound;
    var sets := ExecuteEach(w, depth, rs);
    var found, other := Findings(S, gs, exclusion, b), Findings(S, gs, exclusion, !b);
    forall i, d: bool | 0 <= i < |rs| && Decision(d) in sets[i]
      ensures Finding(gs[i], exclusion, d) in S
    {
      ExecuteIsFound(w, S, rs[i], d);
    }
    CombinedIsFound(w, sets, false, b, found, other);
  }

  lemma {:induction false} DirectIsFound(w: World, S: iset<Finding>, r: Request, b: bool)
    requires w.hits == iset{} && SearchClosed(w.schema, w.store, w.limit, S)
    requires r.depth > 0 && Decision(b) in CheckDirect(w, r)
    ensures RelationFound(w.store, w.limit, S, GoalOf(r), r.exclusion, b)
    decreases r.depth, 1
  {
    hide Execute, SearchClosed, UnionFound, UnionOf;
    var ss := Query(w.store, r.entity, r.permission);
    if r.subject !in ss {
      EachIsFound(w, S, r.depth, NestedRequests(r, Usersets(ss)), NestedGoals(w.store, GoalOf(r)), r.exclusion, b);
    }
  }

  lemma {:induction false} LeafIsFound(w: World, S: iset<Finding>, r: Request, leaf: Leaf, b: bool)
    requires w.hits == iset{} && SearchClosed(w.schema, w.store, w.limit, S)
    requires r.depth > 0 && Decision(b) in CheckLeaf(w, r, leaf)
    ensures LeafFound(w.store, w.limit, S, r.entity, r.subject, leaf, b)
    decreases r.depth, 1
  {
    hide Execute, SearchClosed, UnionFound, UnionOf;
    match leaf
    case ComputedUserSet(exclusion, relation) =>
      ExecuteIsFound(w, S, Computed(r, r.entity, relation, exclusion), b);
    case TupleToUserSet(exclusion, tupleSet, relation) =>
      var rs := ParentRequests(r, Query(w.store, r.entity, tupleSet), relation, exclusion);
      EachIsFound(w, S, r.depth, rs, ParentGoals(w.store, r.entity, tupleSet, relation, r.subject), exclusion, b);
  }

  lemma {:induction false} ChildIsFound(w: World, S: iset<Finding>, r: Request, c: Child, b: bool)
    requires w.hits == iset{} && SearchClosed(w.schema, w.store, w.limit, S)
    requires r.depth > 0 && Decision(b) in CheckChild(w, r, c)
    ensures ChildFound(w.store, w.limit, S, r.entity, r.subject, c, b)
    decreases r.depth, 2, c
  {
    hide SearchClosed, LeafFound, Combined, OneFound;
    match c
    case NoChild =>
    case LeafChild(leaf) =>
      LeafIsFound(w, S, r, leaf, b);
    case Rewrite(op, children) =>
      var sets := seq(|children|, i requires 0 <= i < |children| => CheckChild(w, r, children[i]));
      forall i, d: bool | 0 <= i < |children| && Decision(d) in sets[i]
        ensures ChildFound(w.store, w.limit, S, r.entity, r.subject, children[i], d)
      {
        ChildIsFound(w, S, r, children[i], d);
      }
      if children == [] {
        EmptyRewrite(w, S, r, c, b);
      } else {
        RewriteIsFound(w, S, r, c, b, sets);
      }
  }

  lemma {:induction false} EmptyRewrite(w: World, S: iset<Finding>, r: Request, c: Child, b: bool)
    requires r.depth > 0 && c.Rewrite? && c.children == [] && c.op != Unspecified
    ensures Decision(b) in CheckChild(w, r, c) <==> !b
    ensures ChildFound(w.store, w.limit, S, r.entity, r.subject, c, b) <==> !b
  {
  }

  lemma {:induction false} RewriteIsFound(w: World, S: iset<Finding>, r: Request, c: Child, b: bool,
                                          sets: seq<set<Outcome>>)
    requires c.Rewrite? && c.op != Unspecified && NoChild !in c.children && c.children != [] && |sets| == |c.children|
    requires Decision(b) in Combined(w, sets, if c.op == Union then Denied else Allowed)
    requires forall i, d: bool :: 0 <= i < |c.children| && Decision(d) in sets[i] ==>
               ChildFound(w.store, w.limit, S, r.entity, r.subject, c.children[i], d)
    ensures ChildFound(w.store, w.limit, S, r.entity, r.subject, c, b)
  {
    hide OneFound, AllFound, Combined;
    var n := |c.children|;
    var found := seq(n, i requires 0 <= i < n =>
      ChildFound(w.store, w.limit, S, r.entity, r.subject, c.children[i], b));
    var other := seq(n, i requires 0 <= i < n =>
      ChildFound(w.store, w.limit, S, r.entity, r.subject, c.children[i], !b));
    CombinedIsFound(w, sets, c.op == Intersection, b, found, other);
  }

  // ---------------------------------------------------------------- what is found the engine decides

  ghost predicate DecidesAt(w: World, f: Finding, d: nat) {
    Decision(f.decision) in Execute(w, Ask(f.goal, f.exclusion, d))
  }

  ghost predicate Decides(w: World, f: Finding) {
    exists d: nat :: DecidesAt(w, f, d)
  }

  ghost function Decided(w: World): iset<Finding> {
    iset f: Finding | Decides(w, f)
  }

  /** Whatever is decided among these requests is decided at one depth. */
  lemma {:induction false} CommonDepth(w: World, fs: seq<Finding>) returns (d: nat)
    ensures forall i :: 0 <= i < |fs| && Decides(w, fs[i]) ==> DecidesAt(w, fs[i], d)
  {
    hide Execute;
    d := 0;
    if fs != [] {
      var n := |fs| - 1;
      var d0 := CommonDepth(w, fs[..n]);
      var d1: nat := 0;
      if Decides(w, fs[n]) {
        d1 :| DecidesAt(w, fs[n], d1);
      }
      d := d0 + d1;
      forall i | 0 <= i < |fs| && Decides(w, fs[i])
        ensures DecidesAt(w, fs[i], d)
      {
        assert i < n ==> fs[i] == fs[..n][i];
        ExecuteDepthMonotone(w, Ask(fs[i].goal, fs[i].exclusion, if i < n then d0 else d1), d, fs[i].decision);
      }
    }
  }

  /** Found among the children at one depth, decided by the combiner. */
  lemma {:induction false} FoundIsCombined(w: World, sets: seq<set<Outcome>>, neutral: bool, b: bool, found: seq<bool>,
                                           other: seq<bool>)
    requires |sets| == |found| == |other|
    requires forall i :: 0 <= i < |sets| && found[i] ==> Decision(b) in sets[i]
    requires forall i :: 0 <= i < |sets| && other[i] ==> Decision(!b) in sets[i]
    requires if b == neutral then AllFound(found) else OneFound(w.limit, found, other)
    ensures Decision(b) in Combined(w, sets, Decision(neutral))
  {
    if b != neutral {
      var i :| 0 <= i < |found| && found[i] && Undone(other, i) < w.limit;
      BlockedIsUndone(sets, other, i, Decision(neutral));
      StopAt(w, sets, i, Decision(b), Decision(neutral));
    }
  }

  lemma {:induction false} UnionIsDecided(w: World, gs: seq<Goal>, exclusion: bool, b: bool) returns (d: nat)
    requires UnionFound(w.limit, Decided(w), gs, exclusion, b)
    ensures forall rs :: AsksFor(rs, gs, exclusion, d) ==> Decision(b) in UnionOf(w, ExecuteEach(w, d + 1, rs))
  {
    hide Execute, Combined;
    var n := |gs|;
    var yes := seq(n, i requires 0 <= i < n => Finding(gs[i], exclusion, b));
    var no := seq(n, i requires 0 <= i < n => Finding(gs[i], exclusion, !b));
    d := CommonDepth(w, yes + no);
    forall i | 0 <= i < n
      ensures Decides(w, yes[i]) ==> DecidesAt(w, yes[i], d)
      ensures Decides(w, no[i]) ==> DecidesAt(w, no[i], d)
    {
      assert (yes + no)[i] == yes[i] && (yes + no)[n + i] == no[i];
    }
    forall rs | AsksFor(rs, gs, exclusion, d)
      ensures Decision(b) in UnionOf(w, ExecuteEach(w, d + 1, rs))
    {
      forall i, x: bool | 0 <= i < n && Decides(w, Finding(gs[i], exclusion, x))
        ensures DecidesAt(w, Finding(gs[i], exclusion, x), d)
      {
        assert Finding(gs[i], exclusion, x) == if x == b then yes[i] else no[i];
      }
      EachIsCombined(w, gs, rs, exclusion, b, d);
    }
  }

  lemma {:induction false} EachIsCombined(w: World, gs: seq<Goal>, rs: seq<Request>, exclusion: bool, b: bool, d: nat)
    requires UnionFound(w.limit, Decided(w), gs, exclusion, b) && AsksFor(rs, gs, exclusion, d)
    requires forall i, x: bool :: 0 <= i < |gs| && Decides(w, Finding(gs[i], exclusion, x)) ==>
               DecidesAt(w, Finding(gs[i], exclusion, x), d)
    ensures Decision(b) in UnionOf(w, ExecuteEach(w, d + 1, rs))
  {
    hide Execute, Combined, OneFound, AllFound;
    var sets := ExecuteEach(w, d + 1, rs);
    var found, other := Findings(Decided(w), gs, exclusion, b), Findings(Decided(w), gs, exclusion, !b);
    forall i, x: bool | 0 <= i < |gs| && Finding(gs[i], exclusion, x) in Decided(w)
      ensures Decision(x) in sets[i]
    {
      assert DecidesAt(w, Finding(gs[i], exclusion, x), d);
    }
    FoundIsCombined(w, sets, false, b, found, other);
  }

  lemma {:induction false} RelationIsDecided(w: World, g: Goal, exclusion: bool, b: bool) returns (d: nat)
    requires RelationFound(w.store, w.limit, Decided(w), g, exclusion, b)
    ensures d > 0 && Decision(b) in CheckDirect(w, Ask(g, exclusion, d))
  {
    hide Execute, UnionOf, UnionFound;
    var ss := Query(w.store, g.entity, g.permission);
    d := 1;
    if g.subject !in ss {
      var k := UnionIsDecided(w, NestedGoals(w.store, g), exclusion, b);
      d := k + 1;
      assert AsksFor(NestedRequests(Ask(g, exclusion, d), Usersets(ss)), NestedGoals(w.store, g), exclusion, k);
    }
  }

  lemma {:induction false} LeafIsDecided(w: World, g: Goal, leaf: Leaf, b: bool) returns (d: nat)
    requires LeafFound(w.store, w.limit, Decided(w), g.entity, g.subject, leaf, b)
    ensures d > 0 && Decision(b) in CheckLeaf(w, Ask(g, false, d), leaf)
  {
    hide Execute, UnionOf, UnionFound;
    match leaf
    case ComputedUserSet(exclusion, relation) =>
      var h := Goal(g.entity, relation, g.subject);
      var k: nat :| DecidesAt(w, Finding(h, exclusion, b), k);
      d := k + 1;
      assert Computed(Ask(g, false, d), g.entity, relation, exclusion) == Ask(h, exclusion, k);
    case TupleToUserSet(exclusion, tupleSet, relation) =>
      var gs := ParentGoals(w.store, g.entity, tupleSet, relation, g.subject);
      var k := UnionIsDecided(w, gs, exclusion, b);
      d := k + 1;
      var rs := ParentRequests(Ask(g, false, d), Query(w.store, g.entity, tupleSet), relation, exclusion);
      assert AsksFor(rs, gs, exclusion, k);
  }

  /** The tree is found decided this way, given what the engine decides. */
  ghost predicate IsFound(w: World, g: Goal, c: Child, b: bool) {
    ChildFound(w.store, w.limit, Decided(w), g.entity, g.subject, c, b)
  }

  lemma {:induction false} ChildIsDecided(w: World, g: Goal, c: Child, b: bool) returns (d: nat)
    requires ChildFound(w.store, w.limit, Decided(w), g.entity, g.subject, c, b)
    ensures d > 0 && Decision(b) in CheckChild(w, Ask(g, false, d), c)
    decreases c, 0
  {
    hide LeafFound, OneFound, Combined;
    match c
    case LeafChild(leaf) =>
      d := LeafIsDecided(w, g, leaf, b);
    case Rewrite(op, children) =>
      d := 1;
      if children == [] {
        EmptyRewrite(w, Decided(w), Ask(g, false, d), c, b);
      } else {
        d := ChildrenAreDecided(w, g, c, |children|);
        RewriteIsDecided(w, g, c, b, d);
      }
  }

  /** Whatever is found of the children is decided at one depth. */
  lemma {:induction false} ChildrenAreDecided(w: World, g: Goal, c: Child, n: nat) returns (d: nat)
    requires c.Rewrite? && n <= |c.children|
    ensures d > 0
    ensures forall i, b: bool :: (0 <= i < n && IsFound(w, g, c.children[i], b)) ==>
              Decision(b) in CheckChild(w, Ask(g, false, d), c.children[i])
    decreases c, 0, n
  {
    hide CheckChild, ChildFound;
    d := 1;
    if n > 0 {
      var x := c.children[n - 1];
      var d0 := ChildrenAreDecided(w, g, c, n - 1);
      var d1: nat, d2: nat := 0, 0;
      if ChildFound(w.store, w.limit, Decided(w), g.entity, g.subject, x, true) {
        d1 := ChildIsDecided(w, g, x, true);
      }
      if ChildFound(w.store, w.limit, Decided(w), g.entity, g.subject, x, false) {
        d2 := ChildIsDecided(w, g, x, false);
      }
      d := d0 + d1 + d2;
      forall i, b: bool | 0 <= i < n && ChildFound(w.store, w.limit, Decided(w), g.entity, g.subject, c.children[i], b)
        ensures Decision(b) in CheckChild(w, Ask(g, false, d), c.children[i])
      {
        var k := if i < n - 1 then d0 else if b then d1 else d2;
        ChildDepthMonotone(w, Ask(g, false, k), d, c.children[i], b);
      }
    }
  }

  lemma {:induction false} RewriteIsDecided(w: World, g: Goal, c: Child, b: bool, d: nat)
    requires d > 0 && c.Rewrite? && c.children != []
    requires ChildFound(w.store, w.limit, Decided(w), g.entity, g.subject, c, b)
    requires forall i, x: bool ::
               (0 <= i < |c.children| && IsFound(w, g, c.children[i], x)) ==>
               Decision(x) in CheckChild(w, Ask(g, false, d), c.children[i])
    ensures Decision(b) in CheckChild(w, Ask(g, false, d), c)
  {
    hide OneFound, AllFound, Combined;
    var n := |c.children|;
    var S := Decided(w);
    var sets := seq(n, i requires 0 <= i < n => CheckChild(w, Ask(g, false, d), c.children[i]));
    var found := seq(n, i requires 0 <= i < n =>
      ChildFound(w.store, w.limit, S, g.entity, g.subject, c.children[i], b));
    var other := seq(n, i requires 0 <= i < n =>
      ChildFound(w.store, w.limit, S, g.entity, g.subject, c.children[i], !b));
    FoundIsCombined(w, sets, c.op == Intersection, b, found, other);
  }

  lemma {:induction false} FoundIsDecided(w: World, f: Finding)
    requires w.hits == iset{} && Found(w.schema, w.store, w.limit, Decided(w), f)
    ensures Decides(w, f)
  {
    hide RelationFound, ChildFound, CheckDirect, CheckChild;
    var g := f.goal;
    if DefinesRelation(w.schema, g.entity.typ, g.permission) {
      var raw := f.decision != f.exclusion;
      var d := RelationIsDecided(w, g, f.exclusion, raw);
      DirectDecides(w, Ask(g, f.exclusion, d), raw);
      assert DecidesAt(w, f, d);
    } else {
      var c := w.schema[g.entity.typ].actions[g.permission];
      var d := ChildIsDecided(w, g, c, f.decision);
      UnionOfOne(w, CheckChild(w, Ask(g, false, d), c), f.decision);
      ActionsIgnoreExclusion(w, g, d);
      assert DecidesAt(w, f, d);
    }
  }

  /** For every schema, store and limit, exclusion included: the engine can decide a request one way, at some depth and
      under some schedule, if and only if a finite search finds that decision. */
  lemma {:induction false} SearchIsExact(w: World, f: Finding)
    requires w.hits == iset{}
    ensures Decides(w, f) <==> Finds(w.schema, w.store, w.limit, f)
  {
    hide Found, Execute;
    if d: nat :| DecidesAt(w, f, d) {
      forall S: iset<Finding> | SearchClosed(w.schema, w.store, w.limit, S)
        ensures f in S
      {
        ExecuteIsFound(w, S, Ask(f.goal, f.exclusion, d), f.decision);
      }
    }
    forall h: Finding | Found(w.schema, w.store, w.limit, Decided(w), h)
      ensures h in Decided(w)
    {
      FoundIsDecided(w, h);
    }
    assert SearchClosed(w.schema, w.store, w.limit, Decided(w));
  }

  /** What the search finds is true: an allowed goal is a member, a denied one is not. A goal can be denied at some
      depth exactly when the search below it is finite and finds nothing; where the limit leaves room for every child,
      it can be allowed exactly when it is a member; and where the search decides nothing, every run at every depth
      ends in an error. */
  lemma {:induction false} NonMembersAreDeniedIff(w: World, g: Goal)
    requires w.hits == iset{} && PlainExclusion(w.schema, w.store)
    ensures Decides(w, Finding(g, false, false)) <==> Finds(w.schema, w.store, w.limit, Finding(g, false, false))
    ensures Finds(w.schema, w.store, w.limit, Finding(g, false, true)) ==> Member(w.schema, w.store, g)
    ensures Finds(w.schema, w.store, w.limit, Finding(g, false, false)) ==> !Member(w.schema, w.store, g)
    ensures Roomy(w) ==> (Member(w.schema, w.store, g) <==> Finds(w.schema, w.store, w.limit, Finding(g, false, true)))
    ensures (forall b: bool :: !Finds(w.schema, w.store, w.limit, Finding(g, false, b))) ==>
              forall d: nat, o :: o in Execute(w, Ask(g, false, d)) ==> o.Failed?
  {
    hide Execute, Member, Finds, PlainExclusion, Roomy;
    SearchIsExact(w, Finding(g, false, true));
    SearchIsExact(w, Finding(g, false, false));
    forall b: bool, d: nat | DecidesAt(w, Finding(g, false, b), d)
      ensures b == Member(w.schema, w.store, g)
    {
      ExecuteIsSound(w, Ask(g, false, d), b);
    }
    if Roomy(w) {
      MembersAreTheReachableGoals(w, g);
      ReachesIsDecides(w, g);
    }
    forall d: nat, o | o in Execute(w, Ask(g, false, d)) && !o.Failed?
      ensures Decides(w, Finding(g, false, o == Allowed))
    {
      assert DecidesAt(w, Finding(g, false, o == Allowed), d);
    }
  }

  lemma {:induction false} ReachesIsDecides(w: World, g: Goal)
    ensures Reaches(w, g) <==> Decides(w, Finding(g, false, true))
  {
    hide Execute;
    if d: nat :| Allowed in Execute(w, Ask(g, false, d)) {
      assert DecidesAt(w, Finding(g, false, true), d);
    }
    if d: nat :| DecidesAt(w, Finding(g, false, true), d) {
      assert Allowed in Execute(w, Ask(g, false, d));
    }
  }

  // ---------------------------------------------------------------- searches that never end

  /** A relation goal that stores no tuple for its subject, but a userset whose goal is in `bad`. */
  ghost predicate GoesOn(sc: Schema, store: seq<Tuple>, bad: iset<Goal>, g: Goal) {
    && DefinesRelation(sc, g.entity.typ, g.permission)
    && g.subject !in Query(store, g.entity, g.permission)
    && exists i :: 0 <= i < |NestedGoals(store, g)| && NestedGoals(store, g)[i] in bad
  }

  /** Goals from which the search goes on among them. */
  ghost predicate Endless(sc: Schema, store: seq<Tuple>, bad: iset<Goal>) {
    forall g {:trigger GoesOn(sc, store, bad, g)} :: g in bad ==> GoesOn(sc, store, bad, g)
  }

  lemma {:induction false} NotAllFound(limit: Limit, S: iset<Finding>, gs: seq<Goal>, exclusion: bool, i: nat)
    requires i < |gs| && Finding(gs[i], exclusion, false) !in S
    ensures !UnionFound(limit, S, gs, exclusion, false)
  {
    assert !Findings(S, gs, exclusion, false)[i];
  }

  lemma {:induction false} NoneFound(limit: Limit, S: iset<Finding>, gs: seq<Goal>, exclusion: bool)
    requires forall i :: 0 <= i < |gs| ==> Finding(gs[i], exclusion, true) !in S
    ensures !UnionFound(limit, S, gs, exclusion, true)
  {
  }

  lemma {:induction false} EndlessIsNotFound(w: World, S: iset<Finding>, bad: iset<Goal>, g: Goal)
    requires Endless(w.schema, w.store, bad) && g in bad
    requires forall h :: h in bad ==> Finding(h, false, false) !in S
    ensures !Found(w.schema, w.store, w.limit, S, Finding(g, false, false))
  {
    hide ChildFound, UnionFound;
    assert GoesOn(w.schema, w.store, bad, g);
    var gs := NestedGoals(w.store, g);
    var i :| 0 <= i < |gs| && gs[i] in bad;
    NotAllFound(w.limit, S, gs, false, i);
  }

  /** In any store and with any limit, such a goal is denied at no depth; and if it is no member, every run at every
      depth ends in an error. */
  lemma {:induction false} EndlessGoalsAreNeverDenied(w: World, bad: iset<Goal>, g: Goal, d: nat)
    requires w.hits == iset{} && Endless(w.schema, w.store, bad) && g in bad
    ensures Denied !in Execute(w, Ask(g, false, d))
    ensures PlainExclusion(w.schema, w.store) && !Member(w.schema, w.store, g) ==>
              forall o :: o in Execute(w, Ask(g, false, d)) ==> o.Failed?
  {
    hide Execute, Found, Endless, PlainExclusion, Member;
    var S := iset f: Finding | !(f.goal in bad && !f.decision && !f.exclusion);
    forall f: Finding | f !in S
      ensures !Found(w.schema, w.store, w.limit, S, f)
    {
      EndlessIsNotFound(w, S, bad, f.goal);
    }
    assert SearchClosed(w.schema, w.store, w.limit, S);
    if Decision(false) in Execute(w, Ask(g, false, d)) {
      ExecuteIsFound(w, S, Ask(g, false, d), false);
    }
    if PlainExclusion(w.schema, w.store) && !Member(w.schema, w.store, g) &&
       Decision(true) in Execute(w, Ask(g, false, d)) {
      ExecuteIsSound(w, Ask(g, false, d), true);
    }
    assert Decision(true) == Allowed && Decision(false) == Denied;
  }

  /** Goals all of whose usersets stay among them, at least one each. */
  ghost predicate Trapped(sc: Schema, store: seq<Tuple>, bad: iset<Goal>) {
    && Endless(sc, store, bad)
    && forall g, i {:trigger NestedGoals(store, g)[i]} ::
         g in bad && 0 <= i < |NestedGoals(store, g)| ==> NestedGoals(store, g)[i] in bad
  }

  lemma {:induction false} TrappedIsNotFound(w: World, S: iset<Finding>, bad: iset<Goal>, f: Finding)
    requires Trapped(w.schema, w.store, bad) && f.goal in bad && forall h: Finding :: h.goal in bad ==> h !in S
    ensures !Found(w.schema, w.store, w.limit, S, f)
  {
    hide ChildFound, UnionFound;
    assert GoesOn(w.schema, w.store, bad, f.goal);
    var gs := NestedGoals(w.store, f.goal);
    var i :| 0 <= i < |gs| && gs[i] in bad;
    NotAllFound(w.limit, S, gs, f.exclusion, i);
    NoneFound(w.limit, S, gs, f.exclusion);
  }

  /** Such a goal is never decided, excluded or not: cycles of usersets that nothing leads out of. */
  lemma {:induction false} TrappedGoalsAreNeverDecided(w: World, bad: iset<Goal>, g: Goal, exclusion: bool, d: nat,
                                                       o: Outcome)
    requires w.hits == iset{} && Trapped(w.schema, w.store, bad) && g in bad
    requires o in Execute(w, Ask(g, exclusion, d))
    ensures o.Failed?
  {
    hide Execute, Found, Trapped;
    var S := iset f: Finding | f.goal !in bad;
    forall f: Finding | f !in S
      ensures !Found(w.schema, w.store, w.limit, S, f)
    {
      TrappedIsNotFound(w, S, bad, f);
    }
    assert SearchClosed(w.schema, w.store, w.limit, S);
    if !o.Failed? {
      ExecuteIsFound(w, S, Ask(g, exclusion, d), o == Allowed);
    }
  }
}
