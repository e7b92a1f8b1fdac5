/** The check engine (internal/commands/check.go) as a big-step evaluator.
    An evaluation is concurrent, so a request has a SET of possible outcomes: one for each
    order in which the decisions of its children can arrive. */
module Check {
  import opened Base

  datatype Error =
    | DepthNotEnough
    | SchemaNotFound
    | RelationDefinitionNotFound
    | ActionDefinitionNotFound
    | UndefinedChildType
    | Interrupted // a reader failed, or the caller cancelled

  datatype Outcome = Allowed | Denied | Failed(error: Error)

  datatype Request = Request(
    entity: Entity,
    permission: string,
    subject: Subject,
    exclusion: bool,
    depth: nat)

  /** The question a request asks, without the metadata. */
  datatype Goal = Goal(entity: Entity, permission: string, subject: Subject)

  function GoalOf(r: Request): Goal {
    Goal(r.entity, r.permission, r.subject)
  }

  function Ask(g: Goal, exclusion: bool, depth: nat): Request {
    Request(g.entity, g.permission, g.subject, exclusion, depth)
  }

  /** How many children of one combiner are evaluated at a time. */
  type Limit = n: int | n >= 1 witness 1

  /** What an evaluation runs against. `hits` holds the cache entries that a lookup made during the
      evaluation may find; a lookup may always miss. With `interruptible`, readers may fail and the
      caller may cancel. */
  datatype World = World(
    schema: Schema,
    store: seq<Tuple>,
    hits: iset<(Goal, bool)>,
    interruptible: bool,
    limit: Limit)

  function Decision(b: bool): Outcome {
    if b then Allowed else Denied
  }

  /** The subjects of the stored tuples of one entity and relation, in store order. */
  function Query(store: seq<Tuple>, e: Entity, relation: string): (ss: seq<Subject>)
    ensures forall s :: s in ss <==> Tuple(e, relation, s) in store
  {
    if store == [] then []
    else
      var rest := Query(store[1..], e, relation);
      if store[0].entity == e && store[0].relation == relation then [store[0].subject] + rest else rest
  }

  /** The subjects a relation check recurses into. */
  function Usersets(ss: seq<Subject>): (us: seq<Subject>)
    ensures forall s :: s in us <==> s in ss && IsUserset(s)
  {
    if ss == [] then []
    else if IsUserset(ss[0]) then [ss[0]] + Usersets(ss[1..])
    else Usersets(ss[1..])
  }

  // ---------------------------------------------------------------- combiners

  ghost function Interruption(w: World): set<Outcome> {
    if w.interruptible then {Failed(Interrupted)} else {}
  }

  /** How many of the first `n` children can never deliver the decision on which the combiner reads on. Once started,
      such a child keeps its slot until it ends the combiner. */
  ghost function Blocked(sets: seq<set<Outcome>>, n: nat, neutral: Outcome): nat
    requires n <= |sets|
  {
    if n == 0 then 0 else Blocked(sets, n - 1, neutral) + if neutral in sets[n - 1] then 0 else 1
  }

  /** The decisions that can end a combiner early: those of the children that get a slot before it ends. */
  ghost function Stops(w: World, sets: seq<set<Outcome>>, neutral: Outcome): set<Outcome> {
    set i, o | 0 <= i < |sets| && o in sets[i] && o != neutral && Blocked(sets, i, neutral) < w.limit :: o
  }

  /** Every result of a combiner that starts its children in order, `limit` at a time, and stops at the first decision
      that is not neutral. */
  ghost function Combined(w: World, sets: seq<set<Outcome>>, neutral: Outcome): set<Outcome> {
    Interruption(w) + Stops(w, sets, neutral) +
    if forall i :: 0 <= i < |sets| ==> neutral in sets[i] then {neutral} else {}
  }

  /** Every result `checkUnion` can return when child `i` can deliver exactly `sets[i]`. */
  ghost function UnionOf(w: World, sets: seq<set<Outcome>>): set<Outcome> {
    Combined(w, sets, Denied)
  }

  /** Every result `checkIntersection` can return. Without children it denies. */
  ghost function IntersectionOf(w: World, sets: seq<set<Outcome>>): set<Outcome> {
    if sets == [] then {Denied} else Combined(w, sets, Allowed)
  }

  ghost function Negated(exclusion: bool, os: set<Outcome>): set<Outcome> {
    if !exclusion then os
    else set o | o in os :: if o == Allowed then Denied else if o == Denied then Allowed else o
  }

  // ---------------------------------------------------------------- evaluation

  /** `Execute`: depth, definition lookup, cache lookup, evaluation, exclusion. */
  ghost function Execute(w: World, r: Request): set<Outcome>
    decreases r.depth, 3
  {
    Interruption(w) +
    if r.depth == 0 then {Failed(DepthNotEnough)}
    else if r.entity.typ !in w.schema then {Failed(SchemaNotFound)}
    else if !Defines(w.schema, r.entity.typ, r.permission) then {Failed(RelationDefinitionNotFound)}
    else if DefinesRelation(w.schema, r.entity.typ, r.permission) then
      Negated(r.exclusion, Cached(w, GoalOf(r)) + UnionOf(w, [CheckDirect(w, r)]))
    else if r.permission !in w.schema[r.entity.typ].actions then {Failed(ActionDefinitionNotFound)}
    else UnionOf(w, [CheckChild(w, r, w.schema[r.entity.typ].actions[r.permission])])
  }

  /** The decisions a cache lookup for `g` may return. */
  ghost function Cached(w: World, g: Goal): set<Outcome> {
    set b: bool | (g, b) in w.hits :: Decision(b)
  }

  /** `checkDirect`: a stored tuple for the subject, or one of the stored usersets. The exclusion flag of
      the request is handed down unchanged. */
  ghost function CheckDirect(w: World, r: Request): set<Outcome>
    requires r.depth > 0
    decreases r.depth, 1
  {
    var ss := Query(w.store, r.entity, r.permission);
    var us := Usersets(ss);
    Interruption(w) +
    if r.subject in ss then {Allowed}
    else UnionOf(w, ExecuteEach(w, r.depth, NestedRequests(r, us)))
  }

  /** The outcome sets of several requests of smaller depth, one per request. */
  ghost function ExecuteEach(w: World, depth: nat, rs: seq<Request>): (sets: seq<set<Outcome>>)
    requires forall i :: 0 <= i < |rs| ==> rs[i].depth < depth
    ensures |sets| == |rs|
    ensures forall i :: 0 <= i < |rs| ==> sets[i] == Execute(w, rs[i])
    decreases depth, 0
  {
    seq(|rs|, i requires 0 <= i < |rs| => Execute(w, rs[i]))
  }

  /** The requests `checkDirect` starts, one per userset. */
  function NestedRequests(r: Request, us: seq<Subject>): (rs: seq<Request>)
    requires r.depth > 0
  {
    seq(|us|, i requires 0 <= i < |us| =>
      Request(EntityOf(us[i]), us[i].relation, r.subject, r.exclusion, r.depth - 1))
  }

  /** The requests `checkTupleToUserSet` starts, one per parent. */
  function ParentRequests(r: Request, ss: seq<Subject>, relation: string, exclusion: bool): (rs: seq<Request>)
    requires r.depth > 0
  {
    seq(|ss|, i requires 0 <= i < |ss| => Computed(r, EntityOf(ss[i]), relation, exclusion))
  }

  /** `checkRewrite`, `checkLeaf` and `setChild` on one node of a compiled action. */
  ghost function CheckChild(w: World, r: Request, c: Child): set<Outcome>
    requires r.depth > 0
    decreases r.depth, 2, c
  {
    match c
    case NoChild => {Failed(UndefinedChildType)}
    case LeafChild(leaf) => CheckLeaf(w, r, leaf)
    case Rewrite(op, children) =>
      if op == Unspecified || NoChild in children then {Failed(UndefinedChildType)}
      else
        var sets := seq(|children|, i requires 0 <= i < |children| => CheckChild(w, r, children[i]));
        if op == Union then UnionOf(w, sets) else IntersectionOf(w, sets)
  }

  ghost function CheckLeaf(w: World, r: Request, leaf: Leaf): set<Outcome>
    requires r.depth > 0
    decreases r.depth, 1
  {
    match leaf
    case ComputedUserSet(exclusion, relation) =>
      Execute(w, Computed(r, r.entity, relation, exclusion))
    case TupleToUserSet(exclusion, tupleSet, relation) =>
      var ss := Query(w.store, r.entity, tupleSet);
      Interruption(w) +
      UnionOf(w, ExecuteEach(w, r.depth, ParentRequests(r, ss, relation, exclusion)))
  }

  function Computed(r: Request, e: Entity, relation: string, exclusion: bool): Request
    requires r.depth > 0
  {
    Request(e, relation, r.subject, exclusion, r.depth - 1)
  }
}
