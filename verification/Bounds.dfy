/** How deep must a check go, and what may it never see? Whatever can be decided at all is decided at a depth of at
    most the number of requests below it; and for every concurrency limit there is a store in which a member is never
    allowed. */
module Bounds {
  import opened Base
  import opened Check
  import opened Membership
  import opened Soundness
  import opened Scheduling
  import opened Search
  import opened Typing

  // ---------------------------------------------------------------- the requests below a request

  /** A request without its depth. */
  type Key = (Goal, bool)

  ghost predicate LeafWithin(store: seq<Tuple>, keys: set<Key>, g: Goal, leaf: Leaf) {
    match leaf
    case ComputedUserSet(exclusion, relation) => (Goal(g.entity, relation, g.subject), exclusion) in keys
    case TupleToUserSet(exclusion, tupleSet, relation) =>
      var gs := ParentGoals(store, g.entity, tupleSet, relation, g.subject);
      forall i :: 0 <= i < |gs| ==> (gs[i], exclusion) in keys
  }

  /** Everything that the evaluation of this request asks for is in `keys`. */
  ghost predicate AllWithin(sc: Schema, store: seq<Tuple>, keys: set<Key>, g: Goal, x: bool) {
    && (forall i :: 0 <= i < |NestedGoals(store, g)| ==> (NestedGoals(store, g)[i], x) in keys)
    && (DefinesAction(sc, g.entity.typ, g.permission) ==>
          forall leaf :: HasLeaf(sc[g.entity.typ].actions[g.permission], leaf) ==> LeafWithin(store, keys, g, leaf))
  }

  ghost predicate Complete(sc: Schema, store: seq<Tuple>, keys: set<Key>) {
    forall k :: k in keys ==> AllWithin(sc, store, keys, k.0, k.1)
  }

  // ---------------------------------------------------------------- one level less

  /** Nothing in `keys` is decided at depth `d + 1` that is not decided at depth `d`. */
  ghost predicate Stable(w: World, keys: set<Key>, d: nat) {
    forall g, x, b: bool :: (g, x) in keys && DecidesAt(w, Finding(g, x, b), d + 1) ==>
      DecidesAt(w, Finding(g, x, b), d)
  }

  lemma {:induction false} EachStepsDown(w: World, keys: set<Key>, d: nat, gs: seq<Goal>, rs: seq<Request>,
                                         qs: seq<Request>, exclusion: bool, b: bool)
    requires Stable(w, keys, d) && forall i :: 0 <= i < |gs| ==> (gs[i], exclusion) in keys
    requires AsksFor(rs, gs, exclusion, d + 1) && AsksFor(qs, gs, exclusion, d)
    requires Decision(b) in UnionOf(w, ExecuteEach(w, d + 2, rs))
    ensures Decision(b) in UnionOf(w, ExecuteEach(w, d + 1, qs))
  {
    hide Execute, Combined;
    var sets, lower := ExecuteEach(w, d + 2, rs), ExecuteEach(w, d + 1, qs);
    forall i, c | 0 <= i < |gs| && Decision(c) in sets[i]
      ensures Decision(c) in lower[i]
    {
      assert DecidesAt(w, Finding(gs[i], exclusion, c), d + 1);
      assert DecidesAt(w, Finding(gs[i], exclusion, c), d);
    }
    CombinedMonotone(w, sets, lower, Denied, Decision(b));
  }

  lemma {:induction false} DirectStepsDown(w: World, keys: set<Key>, d: nat, g: Goal, x: bool, b: bool)
    requires Complete(w.schema, w.store, keys) && Stable(w, keys, d) && (g, x) in keys
    requires Decision(b) in CheckDirect(w, Ask(g, x, d + 2))
    ensures Decision(b) in CheckDirect(w, Ask(g, x, d + 1))
  {
    hide Execute, UnionOf, Stable, LeafWithin;
    assert AllWithin(w.schema, w.store, keys, g, x);
    var ss := Query(w.store, g.entity, g.permission);
    if g.subject !in ss {
      var us := Usersets(ss);
      EachStepsDown(w, keys, d, NestedGoals(w.store, g), NestedRequests(Ask(g, x, d + 2), us),
                    NestedRequests(Ask(g, x, d + 1), us), x, b);
    }
  }

  lemma {:induction false} LeafStepsDown(w: World, keys: set<Key>, d: nat, g: Goal, x: bool, leaf: Leaf, b: bool)
    requires Stable(w, keys, d) && LeafWithin(w.store, keys, g, leaf)
    requires Decision(b) in CheckLeaf(w, Ask(g, x, d + 2), leaf)
    ensures Decision(b) in CheckLeaf(w, Ask(g, x, d + 1), leaf)
  {
    hide Execute, UnionOf;
    match leaf
    case ComputedUserSet(exclusion, relation) =>
      assert DecidesAt(w, Finding(Goal(g.entity, relation, g.subject), exclusion, b), d + 1);
      assert DecidesAt(w, Finding(Goal(g.entity, relation, g.subject), exclusion, b), d);
    case TupleToUserSet(exclusion, tupleSet, relation) =>
      hide Stable;
      var ss := Query(w.store, g.entity, tupleSet);
      var gs := ParentGoals(w.store, g.entity, tupleSet, relation, g.subject);
      EachStepsDown(w, keys, d, gs, ParentRequests(Ask(g, x, d + 2), ss, relation, exclusion),
                    ParentRequests(Ask(g, x, d + 1), ss, relation, exclusion), exclusion, b);
  }

  lemma {:induction false} ChildStepsDown(w: World, keys: set<Key>, d: nat, g: Goal, x: bool, c: Child, b: bool)
    requires Stable(w, keys, d) && forall leaf :: HasLeaf(c, leaf) ==> LeafWithin(w.store, keys, g, leaf)
    requires Decision(b) in CheckChild(w, Ask(g, x, d + 2), c)
    ensures Decision(b) in CheckChild(w, Ask(g, x, d + 1), c)
    decreases c
  {
    hide Stable, LeafWithin, Combined;
    match c
    case NoChild =>
    case LeafChild(leaf) =>
      assert HasLeaf(c, leaf);
      LeafStepsDown(w, keys, d, g, x, leaf, b);
    case Rewrite(op, children) =>
      var sets := seq(|children|, i requires 0 <= i < |children| => CheckChild(w, Ask(g, x, d + 2), children[i]));
      var lower := seq(|children|, i requires 0 <= i < |children| => CheckChild(w, Ask(g, x, d + 1), children[i]));
      forall i, e | 0 <= i < |children| && Decision(e) in sets[i]
        ensures Decision(e) in lower[i]
      {
        forall leaf | HasLeaf(children[i], leaf)
          ensures LeafWithin(w.store, keys, g, leaf)
        {
          assert HasLeaf(c, leaf);
        }
        ChildStepsDown(w, keys, d, g, x, children[i], e);
      }
      if children == [] {
        EmptyRewrite(w, iset{}, Ask(g, x, d + 2), c, b);
        EmptyRewrite(w, iset{}, Ask(g, x, d + 1), c, b);
      } else {
        CombinedMonotone(w, sets, lower, if op == Union then Denied else Allowed, Decision(b));
      }
  }

  /** Once nothing new is decided, nothing new ever is. */
  lemma {:induction false} StableStays(w: World, keys: set<Key>, d: nat)
    requires w.hits == iset{} && Complete(w.schema, w.store, keys) && Stable(w, keys, d)
    ensures Stable(w, keys, d + 1)
  {
    forall g, x, b: bool | (g, x) in keys && DecidesAt(w, Finding(g, x, b), d + 2)
      ensures DecidesAt(w, Finding(g, x, b), d + 1)
    {
      ExecuteStepsDown(w, keys, d, g, x, b);
    }
  }

  lemma {:induction false} ExecuteStepsDown(w: World, keys: set<Key>, d: nat, g: Goal, x: bool, b: bool)
    requires w.hits == iset{} && Complete(w.schema, w.store, keys) && Stable(w, keys, d) && (g, x) in keys
    requires DecidesAt(w, Finding(g, x, b), d + 2)
    ensures DecidesAt(w, Finding(g, x, b), d + 1)
  {
    hide CheckDirect, CheckChild, Stable, Combined;
    var r, q := Ask(g, x, d + 2), Ask(g, x, d + 1);
    if DefinesRelation(w.schema, g.entity.typ, g.permission) {
      var raw := b != x;
      assert Decision(raw) in Cached(w, g) + UnionOf(w, [CheckDirect(w, r)]);
      UnionOfOne(w, CheckDirect(w, r), raw);
      DirectStepsDown(w, keys, d, g, x, raw);
      DirectDecides(w, q, raw);
    } else {
      var c := w.schema[g.entity.typ].actions[g.permission];
      assert AllWithin(w.schema, w.store, keys, g, x);
      UnionOfOne(w, CheckChild(w, r, c), b);
      ChildStepsDown(w, keys, d, g, x, c, b);
      UnionOfOne(w, CheckChild(w, q, c), b);
    }
  }

  // ---------------------------------------------------------------- counting levels

  /** What is decided at depth `d`. */
  ghost function Stage(w: World, keys: set<Key>, d: nat): set<Key> {
    set k | k in keys && exists b: bool :: DecidesAt(w, Finding(k.0, k.1, b), d)
  }

  lemma {:induction false} StageGrows(w: World, keys: set<Key>, d: nat)
    ensures Stage(w, keys, d) <= Stage(w, keys, d + 1)
  {
    hide Execute;
    forall k | k in Stage(w, keys, d)
      ensures k in Stage(w, keys, d + 1)
    {
      var b: bool :| DecidesAt(w, Finding(k.0, k.1, b), d);
      ExecuteDepthMonotone(w, Ask(k.0, k.1, d), d + 1, b);
      assert DecidesAt(w, Finding(k.0, k.1, b), d + 1);
    }
  }

  /** A request is never decided both ways, so a stage that does not grow is stable. */
  lemma {:induction false} SameStageIsStable(w: World, keys: set<Key>, d: nat)
    requires w.hits == iset{} && Stage(w, keys, d) == Stage(w, keys, d + 1)
    ensures Stable(w, keys, d)
  {
    hide Execute;
    forall g, x, b: bool | (g, x) in keys && DecidesAt(w, Finding(g, x, b), d + 1)
      ensures DecidesAt(w, Finding(g, x, b), d)
    {
      assert (g, x) in Stage(w, keys, d + 1);
      var c: bool :| DecidesAt(w, Finding(g, x, c), d);
      RunsNeverDisagree(w, Ask(g, x, d), d + 1, c);
    }
  }

  lemma {:induction false} SubsetsAreSmaller<T>(a: set<T>, b: set<T>)
    requires a <= b
    ensures |a| <= |b| && (|a| == |b| ==> a == b)
    decreases |a|
  {
    if a != {} {
      var x :| x in a;
      SubsetsAreSmaller(a - {x}, b - {x});
      assert a == (a - {x}) + {x} && b == (b - {x}) + {x};
    } else if b != {} {
      assert |b| > 0;
    }
  }

  /** Each level decides a further request, until a level decides none. */
  lemma {:induction false} StagesFill(w: World, keys: set<Key>, d: nat)
    requires w.hits == iset{} && Complete(w.schema, w.store, keys)
    ensures |Stage(w, keys, d)| >= d || Stable(w, keys, d)
    decreases d
  {
    hide Stable, Complete, Stage;
    if d > 0 {
      StagesFill(w, keys, d - 1);
      StageGrows(w, keys, d - 1);
      SubsetsAreSmaller(Stage(w, keys, d - 1), Stage(w, keys, d));
      if Stage(w, keys, d - 1) == Stage(w, keys, d) {
        SameStageIsStable(w, keys, d - 1);
      }
      if Stable(w, keys, d - 1) {
        StableStays(w, keys, d - 1);
      }
    }
  }

  lemma {:induction false} FullStageIsStable(w: World, keys: set<Key>)
    requires w.hits == iset{} && Complete(w.schema, w.store, keys)
    ensures Stable(w, keys, |keys|)
  {
    hide Stable, Complete;
    var d := |keys|;
    StagesFill(w, keys, d);
    StageGrows(w, keys, d);
    SubsetsAreSmaller(Stage(w, keys, d), keys);
    SubsetsAreSmaller(Stage(w, keys, d + 1), keys);
    SubsetsAreSmaller(Stage(w, keys, d), Stage(w, keys, d + 1));
    if |Stage(w, keys, d)| >= d {
      SameStageIsStable(w, keys, d);
    }
  }

  lemma {:induction false} StableForEver(w: World, keys: set<Key>, d: nat, more: nat, f: Finding)
    requires w.hits == iset{} && Complete(w.schema, w.store, keys) && Stable(w, keys, d)
    requires d <= more && (f.goal, f.exclusion) in keys && DecidesAt(w, f, more)
    ensures DecidesAt(w, f, d)
    decreases more - d
  {
    hide Complete, DecidesAt;
    if d < more {
      StableStays(w, keys, d);
      StableForEver(w, keys, d + 1, more, f);
      assert f == Finding(f.goal, f.exclusion, f.decision);
    }
  }

  /** Whatever is decided at all is decided at the depth that is the number of requests it may ask for. */
  lemma {:induction false} DecidedWithinBound(w: World, keys: set<Key>, f: Finding)
    requires w.hits == iset{} && Complete(w.schema, w.store, keys) && (f.goal, f.exclusion) in keys
    ensures Decides(w, f) <==> DecidesAt(w, f, |keys|)
  {
    hide Complete, Execute, Stable;
    FullStageIsStable(w, keys);
    if d: nat :| DecidesAt(w, f, d) {
      if d <= |keys| {
        ExecuteDepthMonotone(w, Ask(f.goal, f.exclusion, d), |keys|, f.decision);
      } else {
        StableForEver(w, keys, |keys|, d, f);
      }
    }
  }

  // ---------------------------------------------------------------- the requests of a store and a schema

  function LeafNames(c: Child): set<string> {
    match c
    case NoChild => {}
    case LeafChild(leaf) => {leaf.relation}
    case Rewrite(_, children) => set i, n | 0 <= i < |children| && n in LeafNames(children[i]) :: n
  }

  lemma {:induction false} LeafIsNamed(c: Child, leaf: Leaf)
    requires HasLeaf(c, leaf)
    ensures leaf.relation in LeafNames(c)
    decreases c
  {
    if c.Rewrite? {
      var i :| 0 <= i < |c.children| && HasLeaf(c.children[i], leaf);
      LeafIsNamed(c.children[i], leaf);
    }
  }

  /** The entity asked for, and those stored as subjects. */
  ghost function Entities(store: seq<Tuple>, g: Goal): set<Entity> {
    {g.entity} + set t | t in store :: EntityOf(t.subject)
  }

  /** The name asked for, those stored in subjects, and those that actions compute. */
  ghost function Names(sc: Schema, store: seq<Tuple>, g: Goal): set<string> {
    {g.permission} + (set t | t in store :: t.subject.relation) +
    (set typ, a, n | typ in sc && a in sc[typ].actions && n in LeafNames(sc[typ].actions[a]) :: n)
  }

  /** All requests for the subject that a check of `g` may come to. */
  ghost function Universe(sc: Schema, store: seq<Tuple>, g: Goal): set<Key> {
    set e, n, x: bool | e in Entities(store, g) && n in Names(sc, store, g) :: (Goal(e, n, g.subject), x)
  }

  lemma {:induction false} UniverseIsComplete(sc: Schema, store: seq<Tuple>, g: Goal)
    ensures Complete(sc, store, Universe(sc, store, g))
    ensures forall x: bool :: (g, x) in Universe(sc, store, g)
  {
    hide Entities, Names;
    var keys := Universe(sc, store, g);
    ItselfIsThere(sc, store, g);
    forall k | k in keys
      ensures AllWithin(sc, store, keys, k.0, k.1)
    {
      RequestIsWithin(sc, store, g, k.0, k.1);
    }
  }

  lemma {:induction false} RequestIsWithin(sc: Schema, store: seq<Tuple>, g: Goal, h: Goal, x: bool)
    requires (h, x) in Universe(sc, store, g)
    ensures AllWithin(sc, store, Universe(sc, store, g), h, x)
  {
    hide Entities, Names, LeafWithin;
    var keys := Universe(sc, store, g);
    forall i | 0 <= i < |NestedGoals(store, h)|
      ensures (NestedGoals(store, h)[i], x) in keys
    {
      var us := Usersets(Query(store, h.entity, h.permission));
      assert us[i] in us;
      SubjectIsThere(sc, store, g, Tuple(h.entity, h.permission, us[i]));
    }
    if DefinesAction(sc, h.entity.typ, h.permission) {
      forall leaf | HasLeaf(sc[h.entity.typ].actions[h.permission], leaf)
        ensures LeafWithin(store, keys, h, leaf)
      {
        LeafIsThere(sc, store, g, h, leaf);
      }
    }
  }

  lemma {:induction false} ItselfIsThere(sc: Schema, store: seq<Tuple>, g: Goal)
    ensures g.entity in Entities(store, g) && g.permission in Names(sc, store, g)
  {
  }

  lemma {:induction false} SubjectIsThere(sc: Schema, store: seq<Tuple>, g: Goal, t: Tuple)
    requires t in store
    ensures EntityOf(t.subject) in Entities(store, g) && t.subject.relation in Names(sc, store, g)
  {
  }

  lemma {:induction false} LeafIsThere(sc: Schema, store: seq<Tuple>, g: Goal, h: Goal, leaf: Leaf)
    requires h.entity in Entities(store, g) && h.subject == g.subject
    requires DefinesAction(sc, h.entity.typ, h.permission) && HasLeaf(sc[h.entity.typ].actions[h.permission], leaf)
    ensures LeafWithin(store, Universe(sc, store, g), h, leaf)
  {
    LeafIsNamed(sc[h.entity.typ].actions[h.permission], leaf);
    assert leaf.relation in Names(sc, store, g);
    hide Names;
    if leaf.TupleToUserSet? {
      var ss := Query(store, h.entity, leaf.tupleSet);
      forall i | 0 <= i < |ss|
        ensures EntityOf(ss[i]) in Entities(store, g)
      {
        assert ss[i] in ss;
        SubjectIsThere(sc, store, g, Tuple(h.entity, leaf.tupleSet, ss[i]));
      }
    }
  }

  /** Whatever is decided at all is decided at a depth bounded by the entities and names of store and schema. */
  lemma {:induction false} DepthIsBounded(w: World, f: Finding)
    requires w.hits == iset{}
    ensures Decides(w, f) <==> DecidesAt(w, f, |Universe(w.schema, w.store, f.goal)|)
  {
    hide Universe, Complete;
    UniverseIsComplete(w.schema, w.store, f.goal);
    DecidedWithinBound(w, Universe(w.schema, w.store, f.goal), f);
  }

  // ---------------------------------------------------------------- members that a limit hides

  lemma {:induction false} UndoneBefore(done: seq<bool>, m: nat, n: nat)
    requires m <= n <= |done| && forall i :: 0 <= i < m ==> !done[i]
    ensures Undone(done, n) >= m
    decreases n
  {
    if n > m {
      UndoneBefore(done, m, n - 1);
    } else if n > 0 {
      UndoneBefore(done, m - 1, n - 1);
    }
  }

  /** When the first `limit` usersets of a relation are trapped, no check of the relation is ever decided, whatever the
      later ones hold. */
  lemma {:induction false} TrappedUsersetsHideTheRest(w: World, bad: iset<Goal>, g: Goal, exclusion: bool, d: nat,
                                                      o: Outcome)
    requires w.hits == iset{} && Trapped(w.schema, w.store, bad)
    requires DefinesRelation(w.schema, g.entity.typ, g.permission)
    requires g.subject !in Query(w.store, g.entity, g.permission)
    requires var gs := NestedGoals(w.store, g); |gs| >= w.limit && forall i :: 0 <= i < w.limit ==> gs[i] in bad
    requires o in Execute(w, Ask(g, exclusion, d))
    ensures o.Failed?
  {
    hide Execute, ChildFound;
    var S := iset f: Finding | f.goal !in bad && f.goal != g;
    forall f: Finding | f !in S
      ensures !Found(w.schema, w.store, w.limit, S, f)
    {
      if f.goal in bad {
        TrappedIsNotFound(w, S, bad, f);
      } else {
        HiddenIsNotFound(w, S, bad, f);
      }
    }
    assert SearchClosed(w.schema, w.store, w.limit, S);
    if !o.Failed? {
      ExecuteIsFound(w, S, Ask(g, exclusion, d), o == Allowed);
    }
  }

  lemma {:induction false} HiddenIsNotFound(w: World, S: iset<Finding>, bad: iset<Goal>, f: Finding)
    requires forall h: Finding :: h.goal in bad ==> h !in S
    requires DefinesRelation(w.schema, f.goal.entity.typ, f.goal.permission)
    requires f.goal.subject !in Query(w.store, f.goal.entity, f.goal.permission)
    requires var gs := NestedGoals(w.store, f.goal); |gs| >= w.limit && forall i :: 0 <= i < w.limit ==> gs[i] in bad
    ensures !Found(w.schema, w.store, w.limit, S, f)
  {
    hide ChildFound;
    var gs := NestedGoals(w.store, f.goal);
    NotAllFound(w.limit, S, gs, f.exclusion, 0);
    var found, done := Findings(S, gs, f.exclusion, true), Findings(S, gs, f.exclusion, false);
    forall i | 0 <= i < |gs| && found[i]
      ensures Undone(done, i) >= w.limit
    {
      UndoneBefore(done, w.limit, i);
    }
  }

  // ---------------------------------------------------------------- such a store for every limit

  /** Pairwise different ids, and different from those with another first letter. */
  function Id(k: nat): string {
    seq(k + 1, _ => 'c')
  }

  function MemberOf(typ: string, id: string, relation: string): Subject {
    Subject(typ, id, relation)
  }

  /** The root relation holds `n` usersets that lead into a cycle, and then the userset of a group; the group holds the
      user. */
  function Blockers(typ: string, relation: string, n: nat): seq<Tuple> {
    seq(n, k requires 0 <= k < n => Tuple(Entity(typ, "root"), relation, MemberOf(typ, Id(k), relation)))
  }

  function Circle(typ: string, relation: string, n: nat): seq<Tuple> {
    seq(n, k requires 0 <= k < n => Tuple(Entity(typ, Id(k)), relation, MemberOf(typ, "turn", relation)))
  }

  function Others(typ: string, relation: string): seq<Tuple> {
    [Tuple(Entity(typ, "turn"), relation, MemberOf(typ, Id(0), relation)),
     Tuple(Entity(typ, "root"), relation, MemberOf(typ, "group", relation)),
     Tuple(Entity(typ, "group"), relation, Subject(USER, "x", ""))]
  }

  function HidingStore(typ: string, relation: string, n: nat): seq<Tuple> {
    Blockers(typ, relation, n) + (Others(typ, relation) + Circle(typ, relation, n))
  }

  /** The relation lists usersets of itself, and users. */
  ghost predicate ListsItself(sc: Schema, typ: string, relation: string) {
    && DefinesRelation(sc, typ, relation) && relation in sc[typ].relations
    && typ != USER && relation != "" && relation != ELLIPSIS
    && TypeReference(typ, relation) in sc[typ].relations[relation]
    && TypeReference(USER, "") in sc[typ].relations[relation]
  }

  lemma {:induction false} QueryAppend(a: seq<Tuple>, b: seq<Tuple>, e: Entity, relation: string)
    ensures Query(a + b, e, relation) == Query(a, e, relation) + Query(b, e, relation)
  {
    if a == [] {
      assert a + b == b;
    } else {
      assert (a + b)[1..] == a[1..] + b;
      QueryAppend(a[1..], b, e, relation);
    }
  }

  function Subjects(ts: seq<Tuple>): seq<Subject> {
    seq(|ts|, i requires 0 <= i < |ts| => ts[i].subject)
  }

  lemma {:induction false} QueryAll(ts: seq<Tuple>, e: Entity, relation: string)
    requires forall t :: t in ts ==> t.entity == e && t.relation == relation
    ensures Query(ts, e, relation) == Subjects(ts)
  {
    if ts != [] {
      assert ts[0] in ts;
      assert forall t :: t in ts[1..] ==> t in ts;
      QueryAll(ts[1..], e, relation);
      assert Subjects(ts) == [ts[0].subject] + Subjects(ts[1..]);
    }
  }

  lemma {:induction false} UsersetsAll(ss: seq<Subject>)
    requires forall s :: s in ss ==> IsUserset(s)
    ensures Usersets(ss) == ss
  {
    if ss != [] {
      UsersetsAll(ss[1..]);
      assert ss == [ss[0]] + ss[1..];
    }
  }

  /** A tuple of the store, by its entity. */
  lemma {:induction false} HidingTuples(typ: string, relation: string, n: nat, t: Tuple)
    requires t in HidingStore(typ, relation, n)
    ensures t.relation == relation && t.entity.typ == typ
    ensures t.entity.id == "group" ==> t.subject == Subject(USER, "x", "")
    ensures t.entity.id == "turn" ==> t.subject == MemberOf(typ, Id(0), relation)
    ensures t.entity.id == "root" || t.entity.id == "turn" || t.entity.id == "group" ||
            (t.subject == MemberOf(typ, "turn", relation) && exists k: nat :: k < n && t.entity.id == Id(k))
    ensures t.entity.id == "root" ==>
              t.subject == MemberOf(typ, "group", relation) ||
              exists k: nat :: k < n && t.subject == MemberOf(typ, Id(k), relation)
  {
    if t in Circle(typ, relation, n) {
      assert t.entity.id[0] == 'c';
    }
  }

  ghost function InTheCircle(typ: string, relation: string, n: nat): iset<Goal> {
    iset g: Goal | g.permission == relation && g.subject == Subject(USER, "x", "") && g.entity.typ == typ &&
                   (g.entity.id == "turn" || exists k: nat :: k < n && g.entity.id == Id(k))
  }

  lemma {:induction false} NestedInTheCircle(typ: string, relation: string, n: nat, g: Goal, i: nat)
    requires n > 0 && g in InTheCircle(typ, relation, n) && i < |NestedGoals(HidingStore(typ, relation, n), g)|
    ensures NestedGoals(HidingStore(typ, relation, n), g)[i] in InTheCircle(typ, relation, n)
  {
    hide HidingStore;
    var store := HidingStore(typ, relation, n);
    var us := Usersets(Query(store, g.entity, g.permission));
    assert us[i] in us;
    HidingTuples(typ, relation, n, Tuple(g.entity, g.permission, us[i]));
    assert forall k: nat :: Id(k)[0] == 'c';
  }

  lemma {:induction false} CircleIsStored(typ: string, relation: string, n: nat, g: Goal)
    requires n > 0 && g in InTheCircle(typ, relation, n)
    ensures var s := MemberOf(typ, if g.entity.id == "turn" then Id(0) else "turn", relation);
            Tuple(g.entity, relation, s) in HidingStore(typ, relation, n)
  {
    var s := MemberOf(typ, if g.entity.id == "turn" then Id(0) else "turn", relation);
    if g.entity.id == "turn" {
      assert Others(typ, relation)[0] == Tuple(g.entity, relation, s);
    } else {
      var k: nat :| k < n && g.entity.id == Id(k);
      assert Circle(typ, relation, n)[k] == Tuple(g.entity, relation, s);
    }
  }

  lemma {:induction false} CircleHoldsNoUser(typ: string, relation: string, n: nat, g: Goal)
    requires g in InTheCircle(typ, relation, n) && typ != USER
    ensures g.subject !in Query(HidingStore(typ, relation, n), g.entity, g.permission)
  {
    hide HidingStore;
    assert g.entity.id == "turn" || g.entity.id[0] == 'c';
    if g.subject in Query(HidingStore(typ, relation, n), g.entity, g.permission) {
      HidingTuples(typ, relation, n, Tuple(g.entity, relation, g.subject));
    }
  }

  lemma {:induction false} CircleGoesOn(typ: string, relation: string, n: nat, g: Goal)
    requires n > 0 && g in InTheCircle(typ, relation, n) && typ != USER && relation != ELLIPSIS
    ensures NestedGoals(HidingStore(typ, relation, n), g) != []
    ensures g.subject !in Query(HidingStore(typ, relation, n), g.entity, g.permission)
  {
    CircleIsStored(typ, relation, n, g);
    CircleHoldsNoUser(typ, relation, n, g);
    hide HidingStore, Id;
    var s := MemberOf(typ, if g.entity.id == "turn" then Id(0) else "turn", relation);
    assert s in Usersets(Query(HidingStore(typ, relation, n), g.entity, g.permission));
  }

  lemma {:induction false} CircleIsTrapped(sc: Schema, typ: string, relation: string, n: nat)
    requires n > 0 && ListsItself(sc, typ, relation)
    ensures Trapped(sc, HidingStore(typ, relation, n), InTheCircle(typ, relation, n))
  {
    hide HidingStore, InTheCircle;
    var store, bad := HidingStore(typ, relation, n), InTheCircle(typ, relation, n);
    forall g, i | g in bad && 0 <= i < |NestedGoals(store, g)|
      ensures NestedGoals(store, g)[i] in bad
    {
      NestedInTheCircle(typ, relation, n, g, i);
    }
    forall g | g in bad
      ensures GoesOn(sc, store, bad, g)
    {
      CircleGoesOn(typ, relation, n, g);
      CircleIsDefined(sc, typ, relation, n, g);
      assert NestedGoals(store, g)[0] in bad;
    }
  }

  lemma {:induction false} CircleIsDefined(sc: Schema, typ: string, relation: string, n: nat, g: Goal)
    requires g in InTheCircle(typ, relation, n) && ListsItself(sc, typ, relation)
    ensures DefinesRelation(sc, g.entity.typ, g.permission)
  {
  }

  function RootGoal(typ: string, relation: string): Goal {
    Goal(Entity(typ, "root"), relation, Subject(USER, "x", ""))
  }

  /** The first usersets of the root are those that lead into the circle. */
  lemma {:induction false} RootIsBlocked(typ: string, relation: string, n: nat)
    requires n > 0 && typ != USER && relation != ELLIPSIS
    ensures var gs := NestedGoals(HidingStore(typ, relation, n), RootGoal(typ, relation));
            |gs| >= n && forall i :: 0 <= i < n ==> gs[i] in InTheCircle(typ, relation, n)
    ensures RootGoal(typ, relation).subject !in Query(HidingStore(typ, relation, n), Entity(typ, "root"), relation)
  {
    RootUsersets(typ, relation, n);
    var tail := RootQuery(typ, relation, n);
    hide HidingStore;
    var us := Subjects(Blockers(typ, relation, n));
    forall i | 0 <= i < n
      ensures (us + tail)[i] == MemberOf(typ, Id(i), relation)
    {
      assert us[i] == Blockers(typ, relation, n)[i].subject;
    }
  }

  lemma {:induction false} RootQuery(typ: string, relation: string, n: nat) returns (tail: seq<Subject>)
    ensures Query(HidingStore(typ, relation, n), Entity(typ, "root"), relation) ==
            Subjects(Blockers(typ, relation, n)) + tail
  {
    var root := Entity(typ, "root");
    var a, b := Blockers(typ, relation, n), Others(typ, relation) + Circle(typ, relation, n);
    tail := Query(b, root, relation);
    hide Others, Circle;
    QueryAppend(a, b, root, relation);
    QueryAll(a, root, relation);
  }

  lemma {:induction false} RootUsersets(typ: string, relation: string, n: nat)
    requires typ != USER && relation != ELLIPSIS
    ensures var ss := Query(HidingStore(typ, relation, n), Entity(typ, "root"), relation);
            Usersets(ss) == ss && Subject(USER, "x", "") !in ss
  {
    hide HidingStore;
    var ss := Query(HidingStore(typ, relation, n), Entity(typ, "root"), relation);
    forall s | s in ss
      ensures IsUserset(s) && s != Subject(USER, "x", "")
    {
      HidingTuples(typ, relation, n, Tuple(Entity(typ, "root"), relation, s));
    }
    UsersetsAll(ss);
  }

  lemma {:induction false} RootIsMember(sc: Schema, typ: string, relation: string, n: nat)
    requires ListsItself(sc, typ, relation)
    ensures Member(sc, HidingStore(typ, relation, n), RootGoal(typ, relation))
  {
    hide Member;
    var store := HidingStore(typ, relation, n);
    var root, group := RootGoal(typ, relation), Goal(Entity(typ, "group"), relation, Subject(USER, "x", ""));
    var s := MemberOf(typ, "group", relation);
    assert Tuple(group.entity, relation, group.subject) == Others(typ, relation)[2];
    assert Tuple(root.entity, relation, s) == Others(typ, relation)[1];
    assert Others(typ, relation)[1] in Others(typ, relation) && Others(typ, relation)[2] in Others(typ, relation);
    MembersAreAFixedPoint(sc, store, group);
    assert s in Query(store, root.entity, relation) && IsUserset(s);
    MembersAreAFixedPoint(sc, store, root);
  }

  lemma {:induction false} HidingStoreConforms(sc: Schema, typ: string, relation: string, n: nat)
    requires ListsItself(sc, typ, relation) && typ in sc
    ensures Conforms(sc, HidingStore(typ, relation, n))
  {
    hide HidingStore;
    forall t | t in HidingStore(typ, relation, n)
      ensures Accepted(sc, t)
    {
      HidingTuples(typ, relation, n, t);
    }
  }

  /** For every limit there is a store of accepted tuples in which a member is allowed at no depth and under no
      schedule: every check of it ends in an error. */
  lemma {:induction false} LimitHidesMembers(sc: Schema, typ: string, relation: string, limit: Limit)
    returns (store: seq<Tuple>)
    requires ListsItself(sc, typ, relation)
    ensures Conforms(sc, store) && Member(sc, store, RootGoal(typ, relation))
    ensures var w := World(sc, store, iset{}, false, limit);
            forall d: nat, o :: o in Execute(w, Ask(RootGoal(typ, relation), false, d)) ==> o.Failed?
  {
    hide Execute, HidingStore, Conforms, Member, Trapped;
    store := HidingStore(typ, relation, limit);
    HidingStoreConforms(sc, typ, relation, limit);
    RootIsMember(sc, typ, relation, limit);
    CircleIsTrapped(sc, typ, relation, limit);
    RootIsBlocked(typ, relation, limit);
    var w := World(sc, store, iset{}, false, limit);
    var g := RootGoal(typ, relation);
    forall d: nat, o | o in Execute(w, Ask(g, false, d))
      ensures o.Failed?
    {
      TrappedUsersetsHideTheRest(w, InTheCircle(typ, relation, limit), g, false, d, o);
    }
  }
}
