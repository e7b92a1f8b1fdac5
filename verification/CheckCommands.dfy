/** The check engine in the form of the source: a command object whose methods loop over stored tuples and over the
    decisions of their children, and share one result cache. Children are evaluated one after the other, in any order
    that the concurrency limit allows; the interleavings of concurrent evaluations are the subject of `Check` and
    `Protocol`. */
module CheckCommands {
  import opened Base
  import opened Check
  import opened Membership
  import opened Soundness
  import opened Keys

  predicate CleanEntity(e: Entity) {
    ':' !in e.typ && '#' !in e.id
  }

  predicate CleanSubject(s: Subject) {
    ':' !in s.typ && if IsSubjectUser(s) then s.relation == "" else '#' !in s.id
  }

  predicate CleanScope(scope: Scope) {
    '_' !in scope.tenant && ':' !in scope.version && ':' !in scope.snap
  }

  ghost predicate CleanChild(c: Child) {
    match c
    case NoChild => true
    case LeafChild(leaf) => '@' !in leaf.relation
    case Rewrite(_, children) => forall i :: 0 <= i < |children| ==> CleanChild(children[i])
  }

  /** Stored names and ids are free of the characters that separate the fields of a cache key. */
  ghost predicate CleanData(sc: Schema, store: seq<Tuple>) {
    && (forall t :: t in store ==> CleanEntity(EntityOf(t.subject)) && '@' !in t.subject.relation)
    && (forall typ, a :: typ in sc && a in sc[typ].actions ==> CleanChild(sc[typ].actions[a]))
  }

  predicate CleanRequest(r: Request) {
    CleanEntity(r.entity) && '@' !in r.permission && CleanSubject(r.subject)
  }

  function Indices(n: nat): (s: set<int>)
    ensures forall i :: i in s <==> 0 <= i < n
  {
    if n == 0 then {} else Indices(n - 1) + {n - 1}
  }

  /** The children before `i` that are not answered yet. */
  function Before(pending: set<int>, i: int): set<int> {
    set j | j in pending && j < i
  }

  /** Some child has a slot: the first one that is not answered. */
  lemma {:induction false} SlotIsFree(pending: set<int>, n: nat, limit: Limit)
    requires pending != {} && pending <= Indices(n)
    ensures exists i :: i in pending && |Before(pending, i)| < limit
  {
    var front := Before(pending, n - 1);
    if front == {} {
      assert |Before(pending, n - 1)| < limit;
      assert pending <= {n - 1};
      assert n - 1 in pending;
    } else {
      SlotIsFree(front, n - 1, limit);
      var j :| j in front && |Before(front, j)| < limit;
      assert Before(pending, j) == Before(front, j);
    }
  }

  lemma {:induction false} BlockedByPending(sets: seq<set<Outcome>>, pending: set<int>, n: nat, neutral: Outcome)
    requires n <= |sets| && forall j :: 0 <= j < n && j !in pending ==> neutral in sets[j]
    ensures Blocked(sets, n, neutral) <= |Before(pending, n)|
  {
    if n > 0 {
      BlockedByPending(sets, pending, n - 1, neutral);
      if n - 1 in pending {
        assert Before(pending, n) == Before(pending, n - 1) + {n - 1};
      } else {
        assert Before(pending, n) == Before(pending, n - 1);
      }
    }
  }

  lemma {:induction false} UnionStops(w: World, sets: seq<set<Outcome>>, pending: set<int>, i: nat, o: Outcome)
    requires i < |sets| && o in sets[i] && o != Denied && |Before(pending, i)| < w.limit
    requires forall j :: 0 <= j < |sets| && j !in pending ==> Denied in sets[j]
    ensures o in UnionOf(w, sets)
  {
    BlockedByPending(sets, pending, i, Denied);
    StopAt(w, sets, i, o, Denied);
  }

  lemma {:induction false} UnionDenies(w: World, sets: seq<set<Outcome>>)
    requires forall i :: 0 <= i < |sets| ==> Denied in sets[i]
    ensures Denied in UnionOf(w, sets)
  {
  }

  /** The decision on which a combiner reads on. */
  function Neutral(op: Operation): Outcome {
    if op == Intersection then Allowed else Denied
  }

  ghost predicate Combinable(c: Child) {
    c.Rewrite? && c.op != Unspecified && NoChild !in c.children
  }

  lemma {:induction false} ChildStops(w: World, r: Request, c: Child, pending: set<int>, i: nat, o: Outcome)
    requires r.depth > 0 && Combinable(c) && i < |c.children| && |Before(pending, i)| < w.limit
    requires forall j :: 0 <= j < |c.children| && j !in pending ==> Neutral(c.op) in CheckChild(w, r, c.children[j])
    requires o in CheckChild(w, r, c.children[i]) && o != Neutral(c.op)
    ensures o in CheckChild(w, r, c)
  {
    var sets := seq(|c.children|, k requires 0 <= k < |c.children| => CheckChild(w, r, c.children[k]));
    BlockedByPending(sets, pending, i, Neutral(c.op));
    StopAt(w, sets, i, o, Neutral(c.op));
  }

  lemma {:induction false} ChildrenAreNeutral(w: World, r: Request, c: Child)
    requires r.depth > 0 && Combinable(c) && c.children != []
    requires forall i :: 0 <= i < |c.children| ==> Neutral(c.op) in CheckChild(w, r, c.children[i])
    ensures Neutral(c.op) in CheckChild(w, r, c)
  {
    var sets := seq(|c.children|, k requires 0 <= k < |c.children| => CheckChild(w, r, c.children[k]));
    assert forall i :: 0 <= i < |sets| ==> Neutral(c.op) in sets[i];
  }

  /** The loop of `checkDirect` over the stored subjects: stop at the subject asked for, else collect the usersets. */
  method Scan(ss: seq<Subject>, subject: Subject) returns (found: bool, us: seq<Subject>)
    ensures found <==> subject in ss
    ensures !found ==> us == Usersets(ss)
  {
    us := [];
    for i := 0 to |ss|
      invariant subject !in ss[..i]
      invariant us + Usersets(ss[i..]) == Usersets(ss)
    {
      assert ss[i..][1..] == ss[i + 1..];
      if ss[i] == subject {
        return true, us;
      }
      if IsUserset(ss[i]) {
        us := us + [ss[i]];
      }
    }
    return false, us;
  }

  class CheckCommand {
    const scope: Scope
    const schema: Schema
    const store: seq<Tuple>
    const limit: Limit
    var cache: map<string, bool>
    /** All entries the cache has ever held. */
    ghost var seen: iset<(string, bool)>

    /** The world of an evaluation: a lookup may find any entry of the past. */
    ghost function W(): World
      reads this
    {
      World(schema, store, Hits(), false, limit)
    }

    ghost function Hits(): iset<(Goal, bool)>
      reads this
    {
      iset g: Goal, b: bool | Separable(scope, g) && (CheckKey(scope, g), b) in seen :: (g, b)
    }

    ghost predicate Valid()
      reads this
    {
      && CleanScope(scope) && CleanData(schema, store)
      && forall k :: k in cache ==> (k, cache[k]) in seen
    }

    /** Nothing `not` reaches holds usersets, and every entry so far is the membership answer of its goal. */
    ghost predicate Sound()
      reads this
    {
      PlainExclusion(schema, store) && SoundHits(W())
    }

    constructor (scope: Scope, schema: Schema, store: seq<Tuple>, limit: Limit)
      requires CleanScope(scope) && CleanData(schema, store)
      ensures Valid() && cache == map[] && SoundHits(W())
      ensures this.scope == scope && this.schema == schema && this.store == store && this.limit == limit
    {
      this.scope, this.schema, this.store, this.limit := scope, schema, store, limit;
      cache, seen := map[], iset{};
    }

    /** A lookup finds the stored entry, or misses because the entry was dropped. */
    method GetCheckKey(g: Goal) returns (found: bool, allowed: bool)
      requires Valid() && Separable(scope, g)
      ensures found ==> CheckKey(scope, g) in cache && allowed == cache[CheckKey(scope, g)]
      ensures found ==> (g, allowed) in W().hits
    {
      var dropped: bool := *;
      found := !dropped && CheckKey(scope, g) in cache;
      allowed := found && cache[CheckKey(scope, g)];
    }

    /** One entry changes, and no other goal finds it. */
    method SetCheckKey(g: Goal, allowed: bool)
      requires Valid() && Separable(scope, g)
      modifies this
      ensures Valid() && cache == old(cache)[CheckKey(scope, g) := allowed]
      ensures W() == old(W()).(hits := old(W()).hits + iset{(g, allowed)})
      ensures old(Sound()) && allowed == Member(schema, store, g) ==> Sound()
    {
      forall h | Separable(scope, h) && CheckKey(scope, h) == CheckKey(scope, g)
        ensures h == g
      {
        CheckKeyIsInjective(scope, h, scope, g);
      }
      cache := cache[CheckKey(scope, g) := allowed];
      seen := seen + iset{(CheckKey(scope, g), allowed)};
      assert W().hits == old(W()).hits + iset{(g, allowed)};
    }

    /** For every request the outcome is one the concurrent engine can return. While the cache is sound and the request
        plain, an error-free outcome is correct and the cache stays sound. */
    method Execute(r: Request) returns (o: Outcome)
      requires Valid() && CleanRequest(r)
      modifies this
      ensures Valid() && Extends(W(), old(W())) && o in Check.Execute(W(), r)
      ensures old(Sound()) && PlainRequest(W(), r) ==> Sound() && (!o.Failed? ==> Correct(W(), r, o == Allowed))
      decreases r.depth, 3
    {
      if r.depth == 0 {
        return Failed(DepthNotEnough);
      }
      if r.entity.typ !in schema {
        return Failed(SchemaNotFound);
      }
      var en := schema[r.entity.typ];
      if r.permission !in en.references {
        return Failed(RelationDefinitionNotFound);
      }
      if en.references[r.permission] == RelationReference {
        o := CheckRelation(r);
        if r.exclusion && !o.Failed? {
          o := Decision(o == Denied);
        }
      } else {
        if r.permission !in en.actions {
          return Failed(ActionDefinitionNotFound);
        }
        var c := en.actions[r.permission];
        o := CheckChild(r, c);
        OneStops(W(), Check.CheckChild(W(), r, c), Denied);
      }
      if old(Sound()) && PlainRequest(W(), r) && !o.Failed? {
        ExecuteIsSound(W(), r, o == Allowed);
      }
    }

    /** The part of `Execute` between cache lookup and exclusion, for a relation. */
    method CheckRelation(r: Request) returns (o: Outcome)
      requires Valid() && CleanRequest(r) && r.depth > 0 && DefinesRelation(schema, r.entity.typ, r.permission)
      modifies this
      ensures Valid() && Extends(W(), old(W()))
      ensures o in Cached(W(), GoalOf(r)) + UnionOf(W(), [Check.CheckDirect(W(), r)])
      ensures old(Sound()) && PlainRequest(W(), r) ==> Sound()
      decreases r.depth, 2
    {
      hide Check.CheckDirect, PlainExclusion, PlainAt;
      var found, allowed := GetCheckKey(GoalOf(r));
      if found {
        return Decision(allowed);
      }
      o := CheckDirect(r);
      if o.Failed? {
        OneStops(W(), Check.CheckDirect(W(), r), Denied);
        return;
      }
      UnionOfOne(W(), Check.CheckDirect(W(), r), o == Allowed);
      assert Decision(o == Allowed) == o;
      if old(Sound()) && PlainRequest(W(), r) {
        DirectIsSound(W(), r, o == Allowed);
      }
      Store(r, o == Allowed);
    }

    /** Storing an answer of `checkDirect` keeps it an answer. */
    method Store(r: Request, allowed: bool)
      requires Valid() && CleanRequest(r) && r.depth > 0 && Decision(allowed) in Check.CheckDirect(W(), r)
      modifies this
      ensures Valid() && Extends(W(), old(W()))
      ensures Decision(allowed) in Check.CheckDirect(W(), r)
      ensures Decision(allowed) in UnionOf(W(), [Check.CheckDirect(W(), r)])
      ensures old(Sound()) && allowed == Member(schema, store, GoalOf(r)) ==> Sound()
    {
      hide Check.CheckDirect, PlainExclusion;
      SetCheckKey(GoalOf(r), allowed);
      DirectKeepsOutcomes(old(W()), W(), r);
      UnionOfOne(W(), Check.CheckDirect(W(), r), allowed);
    }

    method CheckDirect(r: Request) returns (o: Outcome)
      requires Valid() && CleanRequest(r) && r.depth > 0 && DefinesRelation(schema, r.entity.typ, r.permission)
      modifies this
      ensures Valid() && Extends(W(), old(W())) && o in Check.CheckDirect(W(), r)
      ensures old(Sound()) && PlainRequest(W(), r) ==> Sound()
      decreases r.depth, 1
    {
      var ss := Query(store, r.entity, r.permission);
      var found, us := Scan(ss, r.subject);
      if found || |us| == 0 {
        assert Decision(found) in Check.CheckDirect(W(), r);
        if old(Sound()) && PlainRequest(W(), r) {
          DirectIsSound(W(), r, found);
        }
        Store(r, found);
        return Decision(found);
      }
      var rs := NestedRequests(r, us);
      forall i | 0 <= i < |rs|
        ensures CleanRequest(rs[i])
        ensures PlainRequest(W(), r) ==> PlainRequest(W(), rs[i])
      {
        assert us[i] in us && Tuple(r.entity, r.permission, us[i]) in store;
      }
      o := CheckUnion(r.depth, rs);
    }

    /** `checkUnion` over nested requests: any of the first `limit` that are not answered comes next, and the first
        error or permission wins. */
    method CheckUnion(ghost depth: nat, rs: seq<Request>) returns (o: Outcome)
      requires Valid() && forall i :: 0 <= i < |rs| ==> rs[i].depth < depth && CleanRequest(rs[i])
      modifies this
      ensures Valid() && Extends(W(), old(W())) && o in UnionOf(W(), ExecuteEach(W(), depth, rs))
      ensures old(Sound()) && (forall i :: 0 <= i < |rs| ==> PlainRequest(W(), rs[i])) ==> Sound()
      decreases depth, 0
    {
      hide Check.Execute, UnionOf, PlainExclusion, PlainAt, CleanData;
      var pending := Indices(|rs|);
      while pending != {}
        invariant Valid() && Extends(W(), old(W())) && pending <= Indices(|rs|)
        invariant forall i :: 0 <= i < |rs| && i !in pending ==> Denied in Check.Execute(W(), rs[i])
        invariant old(Sound()) && (forall i :: 0 <= i < |rs| ==> PlainRequest(W(), rs[i])) ==> Sound()
        decreases |pending|
      {
        SlotIsFree(pending, |rs|, limit);
        var i :| i in pending && |Before(pending, i)| < limit;
        ghost var before := W();
        o := Execute(rs[i]);
        forall k | 0 <= k < |rs| && k !in pending
          ensures Denied in Check.Execute(W(), rs[k])
        {
          ExecuteKeepsOutcomes(before, W(), rs[k]);
        }
        if o != Denied {
          UnionStops(W(), ExecuteEach(W(), depth, rs), pending, i, o);
          return;
        }
        pending := pending - {i};
      }
      UnionDenies(W(), ExecuteEach(W(), depth, rs));
      return Denied;
    }

    method CheckChild(r: Request, c: Child) returns (o: Outcome)
      requires Valid() && CleanRequest(r) && r.depth > 0 && CleanChild(c)
      modifies this
      ensures Valid() && Extends(W(), old(W())) && o in Check.CheckChild(W(), r, c)
      ensures old(Sound()) && ChildPlain(schema, store, r.entity, c) ==> Sound()
      decreases r.depth, 2, c
    {
      match c
      case NoChild => o := Failed(UndefinedChildType);
      case LeafChild(leaf) =>
        assert HasLeaf(c, leaf);
        o := CheckLeaf(r, leaf);
      case Rewrite(op, children) =>
        if op == Unspecified || NoChild in children {
          return Failed(UndefinedChildType);
        }
        o := CheckChildren(r, c);
    }

    /** `checkUnion` or `checkIntersection` over the children of a rewrite. */
    method CheckChildren(r: Request, c: Child) returns (o: Outcome)
      requires Valid() && CleanRequest(r) && r.depth > 0 && CleanChild(c) && Combinable(c)
      modifies this
      ensures Valid() && Extends(W(), old(W())) && o in Check.CheckChild(W(), r, c)
      ensures old(Sound()) && ChildPlain(schema, store, r.entity, c) ==> Sound()
      decreases r.depth, 2, c, 0
    {
      if |c.children| == 0 {
        return Denied;
      }
      hide Check.CheckChild, PlainExclusion, CleanData, ChildPlain;
      if ChildPlain(schema, store, r.entity, c) {
        ChildrenArePlain(schema, store, r.entity, c);
      }
      var pending := Indices(|c.children|);
      while pending != {}
        invariant Valid() && Extends(W(), old(W())) && pending <= Indices(|c.children|)
        invariant forall i :: 0 <= i < |c.children| && i !in pending ==>
                    Neutral(c.op) in Check.CheckChild(W(), r, c.children[i])
        invariant old(Sound()) && ChildPlain(schema, store, r.entity, c) ==> Sound()
        decreases |pending|
      {
        SlotIsFree(pending, |c.children|, limit);
        var i :| i in pending && |Before(pending, i)| < limit;
        ghost var before := W();
        o := CheckChild(r, c.children[i]);
        forall k | 0 <= k < |c.children| && k !in pending
          ensures Neutral(c.op) in Check.CheckChild(W(), r, c.children[k])
        {
          ChildKeepsOutcomes(before, W(), r, c.children[k]);
        }
        if o != Neutral(c.op) {
          ChildStops(W(), r, c, pending, i, o);
          return;
        }
        pending := pending - {i};
      }
      ChildrenAreNeutral(W(), r, c);
      return Neutral(c.op);
    }

    method CheckLeaf(r: Request, leaf: Leaf) returns (o: Outcome)
      requires Valid() && CleanRequest(r) && r.depth > 0 && '@' !in leaf.relation
      modifies this
      ensures Valid() && Extends(W(), old(W())) && o in Check.CheckLeaf(W(), r, leaf)
      ensures old(Sound()) && LeafPlain(schema, store, r.entity, leaf) ==> Sound()
      decreases r.depth, 1
    {
      match leaf
      case ComputedUserSet(exclusion, relation) =>
        o := Execute(Computed(r, r.entity, relation, exclusion));
      case TupleToUserSet(exclusion, tupleSet, relation) =>
        var ss := Query(store, r.entity, tupleSet);
        var rs := ParentRequests(r, ss, relation, exclusion);
        forall i | 0 <= i < |rs|
          ensures CleanRequest(rs[i])
          ensures LeafPlain(schema, store, r.entity, leaf) ==> PlainRequest(W(), rs[i])
        {
          assert ss[i] in ss && Tuple(r.entity, tupleSet, ss[i]) in store;
        }
        o := CheckUnion(r.depth, rs);
    }
  }
}
