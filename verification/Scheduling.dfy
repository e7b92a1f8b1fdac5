/** Scheduling of the check engine: the closed forms of the combiners are exactly what their receive loops
    return over all arrival orders, and neither schedule nor depth can change an error-free answer. */
module Scheduling {
  import opened Base
  import opened Check
  import opened Membership
  import opened Soundness

  // ---------------------------------------------------------------- the receive loops

  /** What the loop of `checkUnion` returns after reading `arrivals` in this order. */
  function UnionLoop(arrivals: seq<Outcome>): Outcome {
    if arrivals == [] then Denied
    else if arrivals[0] == Denied then UnionLoop(arrivals[1..])
    else arrivals[0]
  }

  /** What the loop of `checkIntersection` returns after reading `arrivals` in this order. */
  function IntersectionLoop(arrivals: seq<Outcome>): Outcome {
    if arrivals == [] then Allowed
    else if arrivals[0] == Allowed then IntersectionLoop(arrivals[1..])
    else arrivals[0]
  }

  method CheckUnion(arrivals: seq<Outcome>) returns (o: Outcome)
    ensures o == UnionLoop(arrivals)
  {
    for i := 0 to |arrivals|
      invariant UnionLoop(arrivals) == UnionLoop(arrivals[i..])
    {
      assert arrivals[i..][1..] == arrivals[i + 1..];
      if arrivals[i].Failed? {
        return arrivals[i];
      }
      if arrivals[i] == Allowed {
        return Allowed;
      }
    }
    return Denied;
  }

  method CheckIntersection(arrivals: seq<Outcome>) returns (o: Outcome)
    ensures o == if arrivals == [] then Denied else IntersectionLoop(arrivals)
  {
    if |arrivals| == 0 {
      return Denied;
    }
    for i := 0 to |arrivals|
      invariant IntersectionLoop(arrivals) == IntersectionLoop(arrivals[i..])
    {
      assert arrivals[i..][1..] == arrivals[i + 1..];
      if arrivals[i].Failed? {
        return arrivals[i];
      }
      if arrivals[i] == Denied {
        return Denied;
      }
    }
    return Allowed;
  }

  // ---------------------------------------------------------------- arrival orders under the limit

  /** How many of the first `n` children have not been heard among the first `k` arrivals. */
  ghost function Missing(order: seq<nat>, k: nat, n: nat): nat
    requires k <= |order|
  {
    if n == 0 then 0 else Missing(order, k, n - 1) + if n - 1 in order[..k] then 0 else 1
  }

  /** No child is heard twice, and each got its slot: children are started in order, and fewer than `limit` of those
      before it are still to be heard. */
  ghost predicate Feasible(order: seq<nat>, n: nat, limit: Limit) {
    && (forall k :: 0 <= k < |order| ==> order[k] < n && Missing(order, k, order[k]) < limit)
    && (forall j, k :: 0 <= j < k < |order| ==> order[j] != order[k])
  }

  /** `arrivals` are possible decisions of children, in a feasible order, until one is not neutral or all are heard. */
  ghost predicate Arrivals(sets: seq<set<Outcome>>, limit: Limit, order: seq<nat>, arrivals: seq<Outcome>,
                           neutral: Outcome) {
    && Feasible(order, |sets|, limit)
    && |arrivals| == |order|
    && (forall k :: 0 <= k < |order| ==> arrivals[k] in sets[order[k]])
    && ((arrivals != [] && arrivals[|arrivals| - 1] != neutral) || forall i: nat :: i < |sets| ==> i in order)
  }

  /** The decision on which the loop reads on. */
  function NeutralOf(union: bool): Outcome {
    if union then Denied else Allowed
  }

  function Loop(union: bool, arrivals: seq<Outcome>): Outcome {
    if union then UnionLoop(arrivals) else IntersectionLoop(arrivals)
  }

  ghost predicate SomeArrival(sets: seq<set<Outcome>>, limit: Limit, union: bool, o: Outcome) {
    exists order, arrivals :: Arrivals(sets, limit, order, arrivals, NeutralOf(union)) && o == Loop(union, arrivals)
  }

  /** The loop stops at the first decision that is not neutral, and otherwise has seen only neutral ones. */
  lemma {:induction false} LoopStops(arrivals: seq<Outcome>, union: bool) returns (k: nat)
    ensures var neutral := NeutralOf(union);
            var o := Loop(union, arrivals);
            && k <= |arrivals|
            && (forall j :: 0 <= j < k ==> arrivals[j] == neutral)
            && if k < |arrivals| then arrivals[k] == o && o != neutral else o == neutral
  {
    var neutral := NeutralOf(union);
    if arrivals == [] || arrivals[0] != neutral {
      k := 0;
    } else {
      var rest := LoopStops(arrivals[1..], union);
      k := rest + 1;
      forall j | 0 <= j < k
        ensures arrivals[j] == neutral
      {
        assert j > 0 ==> arrivals[1..][j - 1] == arrivals[j];
      }
    }
  }

  /** Neutral decisions, and then one that is not. */
  lemma {:induction false} LoopOf(arrivals: seq<Outcome>, union: bool, o: Outcome)
    requires var neutral := NeutralOf(union);
             if arrivals == [] then o == neutral
             else arrivals[|arrivals| - 1] == o && forall j :: 0 <= j < |arrivals| - 1 ==> arrivals[j] == neutral
    ensures o == Loop(union, arrivals)
  {
    var k := LoopStops(arrivals, union);
  }

  /** The first `n` children that can be neutral, in order. */
  ghost function Capable(sets: seq<set<Outcome>>, n: nat, neutral: Outcome): (order: seq<nat>)
    requires n <= |sets|
    ensures forall j: nat :: j in order <==> j < n && neutral in sets[j]
  {
    if n == 0 then [] else Capable(sets, n - 1, neutral) + if neutral in sets[n - 1] then [n - 1] else []
  }

  lemma {:induction false} MissingFromPrefix(order: seq<nat>, longer: seq<nat>, k: nat, n: nat)
    requires k <= |order| <= |longer| && longer[..|order|] == order
    ensures Missing(longer, k, n) == Missing(order, k, n)
  {
    if n > 0 {
      assert longer[..k] == order[..k];
      MissingFromPrefix(order, longer, k, n - 1);
    }
  }

  lemma {:induction false} MissingIsBlocked(sets: seq<set<Outcome>>, order: seq<nat>, k: nat, n: nat, neutral: Outcome)
    requires n <= |sets| && k <= |order|
    requires forall j: nat :: j < n ==> (j in order[..k] <==> neutral in sets[j])
    ensures Missing(order, k, n) == Blocked(sets, n, neutral)
  {
    if n > 0 {
      MissingIsBlocked(sets, order, k, n - 1, neutral);
    }
  }

  lemma {:induction false} BlockedIsMissing(sets: seq<set<Outcome>>, order: seq<nat>, k: nat, n: nat, neutral: Outcome)
    requires n <= |sets| && k <= |order|
    requires forall j: nat :: j < n && j in order[..k] ==> neutral in sets[j]
    ensures Blocked(sets, n, neutral) <= Missing(order, k, n)
  {
    if n > 0 {
      BlockedIsMissing(sets, order, k, n - 1, neutral);
    }
  }

  /** The capable ones in order, and then child `n`, which has room. */
  lemma {:induction false} CapableIsFeasible(sets: seq<set<Outcome>>, n: nat, neutral: Outcome, limit: Limit)
    requires n <= |sets|
    requires n < |sets| ==> Blocked(sets, n, neutral) < limit
    requires n == |sets| ==> forall i :: 0 <= i < n ==> neutral in sets[i]
    ensures Feasible(Capable(sets, n, neutral) + (if n < |sets| then [n] else []), |sets|, limit)
  {
    CapablePrefix(sets, n, neutral, limit);
    var c := Capable(sets, n, neutral);
    if n < |sets| {
      assert c[..|c|] == c;
      MissingIsBlocked(sets, c, |c|, n, neutral);
      OneMoreIsFeasible(c, n, |sets|, limit);
    } else {
      assert c + [] == c;
    }
  }

  lemma {:induction false} OneMoreIsFeasible(order: seq<nat>, x: nat, n: nat, limit: Limit)
    requires Feasible(order, n, limit) && x < n && x !in order && Missing(order, |order|, x) < limit
    ensures Feasible(order + [x], n, limit)
  {
    var longer := order + [x];
    assert longer[..|order|] == order;
    MissingFromPrefix(order, longer, |order|, x);
    forall k | 0 <= k < |order|
      ensures Missing(longer, k, longer[k]) < limit
    {
      MissingFromPrefix(order, longer, k, order[k]);
    }
  }

  lemma {:induction false} CapablePrefix(sets: seq<set<Outcome>>, n: nat, neutral: Outcome, limit: Limit)
    requires n <= |sets| && (n < |sets| ==> Blocked(sets, n, neutral) < limit)
    requires n == |sets| ==> forall i :: 0 <= i < n ==> neutral in sets[i]
    ensures Feasible(Capable(sets, n, neutral), |sets|, limit)
  {
    if n == 0 {
      assert Capable(sets, n, neutral) == [];
    } else {
      if n == |sets| {
        NothingBlocks(sets, n - 1, neutral);
      }
      CapablePrefix(sets, n - 1, neutral, limit);
      hide Feasible, Missing;
      CapableStep(sets, n, neutral, limit);
    }
  }

  lemma {:induction false} CapableStep(sets: seq<set<Outcome>>, n: nat, neutral: Outcome, limit: Limit)
    requires 0 < n <= |sets| && Blocked(sets, n - 1, neutral) < limit
    requires Feasible(Capable(sets, n - 1, neutral), |sets|, limit)
    ensures Feasible(Capable(sets, n, neutral), |sets|, limit)
  {
    hide Feasible, Missing, Blocked;
    var c := Capable(sets, n - 1, neutral);
    if neutral in sets[n - 1] {
      assert c[..|c|] == c;
      MissingIsBlocked(sets, c, |c|, n - 1, neutral);
      OneMoreIsFeasible(c, n - 1, |sets|, limit);
    } else {
      assert c + [] == c;
    }
  }

  /** The receive loop, over all arrivals that the limit allows, returns exactly the set `Combined`. */
  lemma {:induction false} CombinedIsEveryArrival(w: World, sets: seq<set<Outcome>>, union: bool, o: Outcome)
    requires !w.interruptible
    ensures o in Combined(w, sets, NeutralOf(union)) <==> SomeArrival(sets, w.limit, union, o)
  {
    var neutral := NeutralOf(union);
    if o in Combined(w, sets, neutral) {
      CombinedArrives(w, sets, union, o);
    }
    if order, arrivals :| Arrivals(sets, w.limit, order, arrivals, neutral) &&
                          o == Loop(union, arrivals) {
      ArrivalIsCombined(w, sets, union, o, order, arrivals);
    }
  }

  lemma {:induction false} CombinedArrives(w: World, sets: seq<set<Outcome>>, union: bool, o: Outcome)
    requires !w.interruptible && o in Combined(w, sets, NeutralOf(union))
    ensures SomeArrival(sets, w.limit, union, o)
  {
    hide Feasible, Arrivals, UnionLoop, IntersectionLoop, Capable;
    var neutral := NeutralOf(union);
    var n: nat := |sets|;
    if o != neutral {
      n :| n < |sets| && o in sets[n] && Blocked(sets, n, neutral) < w.limit;
    }
    CapableIsFeasible(sets, n, neutral, w.limit);
    var c := Capable(sets, n, neutral);
    var last := if n < |sets| then [n] else [];
    var arrivals := seq(|c|, _ => neutral) + seq(|last|, _ => o);
    CapableArrives(sets, w.limit, c, last, neutral, o);
    LoopOf(arrivals, union, o);
    assert Arrivals(sets, w.limit, c + last, arrivals, NeutralOf(union)) && o == Loop(union, arrivals);
  }

  lemma {:induction false} CapableArrives(sets: seq<set<Outcome>>, limit: Limit, c: seq<nat>, last: seq<nat>,
                                          neutral: Outcome, o: Outcome)
    requires Feasible(c + last, |sets|, limit) && |last| <= 1
    requires forall j: nat :: j in c ==> j < |sets| && neutral in sets[j]
    requires last != [] ==> last[0] < |sets| && o in sets[last[0]] && o != neutral
    requires last == [] ==> forall i: nat :: i < |sets| ==> i in c
    ensures Arrivals(sets, limit, c + last, seq(|c|, _ => neutral) + seq(|last|, _ => o), neutral)
  {
    hide Feasible;
    assert forall k :: 0 <= k < |c| ==> c[k] in c;
  }

  lemma {:induction false} ArrivalIsCombined(w: World, sets: seq<set<Outcome>>, union: bool, o: Outcome,
                                             order: seq<nat>, arrivals: seq<Outcome>)
    requires Arrivals(sets, w.limit, order, arrivals, NeutralOf(union))
    requires o == Loop(union, arrivals)
    ensures o in Combined(w, sets, NeutralOf(union))
  {
    var neutral := NeutralOf(union);
    var k := LoopStops(arrivals, union);
    if k < |arrivals| {
      BlockedIsMissing(sets, order, k, order[k], neutral);
      StopAt(w, sets, order[k], o, neutral);
    } else {
      assert arrivals != [] ==> arrivals[|arrivals| - 1] == neutral;
      forall i: nat | i < |sets|
        ensures neutral in sets[i]
      {
        assert i in order;
        var j :| 0 <= j < |order| && order[j] == i;
      }
    }
  }

  /** `checkUnion` over all arrivals that the limit allows returns exactly the set `UnionOf`. */
  lemma {:induction false} UnionOfIsEveryArrival(w: World, sets: seq<set<Outcome>>, o: Outcome)
    requires !w.interruptible
    ensures o in UnionOf(w, sets) <==> SomeArrival(sets, w.limit, true, o)
  {
    CombinedIsEveryArrival(w, sets, true, o);
  }

  /** `checkIntersection` over all arrivals that the limit allows returns exactly the set `IntersectionOf`. */
  lemma {:induction false} IntersectionOfIsEveryArrival(w: World, sets: seq<set<Outcome>>, o: Outcome)
    requires !w.interruptible && sets != []
    ensures o in IntersectionOf(w, sets) <==> SomeArrival(sets, w.limit, false, o)
  {
    CombinedIsEveryArrival(w, sets, false, o);
  }

  /** A limit of at least the number of children rules no decision out. */
  lemma {:induction false} WideLimitRulesNothingOut(w: World, sets: seq<set<Outcome>>, neutral: Outcome, o: Outcome)
    requires |sets| <= w.limit && o != neutral && !w.interruptible
    ensures o in Combined(w, sets, neutral) <==> exists i :: 0 <= i < |sets| && o in sets[i]
  {
    if i: nat :| i < |sets| && o in sets[i] {
      StopAt(w, sets, i, o, neutral);
    }
  }

  /** The first `limit` children that cannot be neutral keep all others out. */
  lemma {:induction false} FullHouse(w: World, sets: seq<set<Outcome>>, neutral: Outcome, o: Outcome)
    requires !w.interruptible && w.limit <= |sets| && o != neutral
    requires forall i :: 0 <= i < w.limit ==> neutral !in sets[i] && o !in sets[i]
    ensures o !in Combined(w, sets, neutral)
  {
    AllBlock(sets, w.limit, neutral);
    if i: nat :| i < |sets| && o in sets[i] && Blocked(sets, i, neutral) < w.limit {
      BlockedGrows(sets, w.limit, i, neutral);
    }
  }

  lemma {:induction false} AllBlock(sets: seq<set<Outcome>>, n: nat, neutral: Outcome)
    requires n <= |sets| && forall i :: 0 <= i < n ==> neutral !in sets[i]
    ensures Blocked(sets, n, neutral) == n
  {
    if n > 0 {
      AllBlock(sets, n - 1, neutral);
    }
  }

  // ---------------------------------------------------------------- every run answers

  lemma {:induction false} CombinersAnswer(w: World, sets: seq<set<Outcome>>)
    requires forall k :: 0 <= k < |sets| ==> sets[k] != {}
    ensures UnionOf(w, sets) != {} && IntersectionOf(w, sets) != {}
  {
    CombinedAnswers(w, sets, Denied);
    CombinedAnswers(w, sets, Allowed);
  }

  lemma {:induction false} CombinedAnswers(w: World, sets: seq<set<Outcome>>, neutral: Outcome)
    requires forall k :: 0 <= k < |sets| ==> sets[k] != {}
    ensures Combined(w, sets, neutral) != {}
  {
    if n: nat :| n < |sets| && neutral !in sets[n] {
      FirstStops(w, sets, neutral, n);
      var o :| o in Stops(w, sets, neutral);
      assert o in Combined(w, sets, neutral);
    } else {
      assert neutral in Combined(w, sets, neutral);
    }
  }

  /** A check of any request on any schema and store ends with some outcome. */
  lemma {:induction false} ExecuteAnswers(w: World, r: Request)
    ensures Execute(w, r) != {}
    decreases r.depth, 3
  {
    if r.depth > 0 && DefinesRelation(w.schema, r.entity.typ, r.permission) {
      DirectAnswers(w, r);
      CombinersAnswer(w, [CheckDirect(w, r)]);
      var o :| o in UnionOf(w, [CheckDirect(w, r)]);
      var raw := Cached(w, GoalOf(r)) + UnionOf(w, [CheckDirect(w, r)]);
      assert (if !r.exclusion then o else if o == Allowed then Denied else if o == Denied then Allowed else o)
             in Negated(r.exclusion, raw);
    } else if r.depth > 0 && DefinesAction(w.schema, r.entity.typ, r.permission) {
      var c := w.schema[r.entity.typ].actions[r.permission];
      ChildAnswers(w, r, c);
      CombinersAnswer(w, [CheckChild(w, r, c)]);
    }
  }

  lemma {:induction false} EachAnswers(w: World, depth: nat, rs: seq<Request>)
    requires forall i :: 0 <= i < |rs| ==> rs[i].depth < depth
    ensures UnionOf(w, ExecuteEach(w, depth, rs)) != {}
    decreases depth, 0
  {
    forall i | 0 <= i < |rs|
      ensures ExecuteEach(w, depth, rs)[i] != {}
    {
      ExecuteAnswers(w, rs[i]);
    }
    CombinersAnswer(w, ExecuteEach(w, depth, rs));
  }

  lemma {:induction false} DirectAnswers(w: World, r: Request)
    requires r.depth > 0
    ensures CheckDirect(w, r) != {}
    decreases r.depth, 1
  {
    EachAnswers(w, r.depth, NestedRequests(r, Usersets(Query(w.store, r.entity, r.permission))));
  }

  lemma {:induction false} ChildAnswers(w: World, r: Request, c: Child)
    requires r.depth > 0
    ensures CheckChild(w, r, c) != {}
    decreases r.depth, 2, c
  {
    match c
    case NoChild =>
    case LeafChild(ComputedUserSet(exclusion, relation)) =>
      ExecuteAnswers(w, Computed(r, r.entity, relation, exclusion));
    case LeafChild(TupleToUserSet(exclusion, tupleSet, relation)) =>
      EachAnswers(w, r.depth, ParentRequests(r, Query(w.store, r.entity, tupleSet), relation, exclusion));
    case Rewrite(op, children) =>
      var sets := seq(|children|, i requires 0 <= i < |children| => CheckChild(w, r, children[i]));
      forall i | 0 <= i < |children|
        ensures sets[i] != {}
      {
        ChildAnswers(w, r, children[i]);
      }
      CombinersAnswer(w, sets);
  }

  // ---------------------------------------------------------------- one decision at most

  ghost predicate Decisive(os: set<Outcome>) {
    !(Allowed in os && Denied in os)
  }

  lemma {:induction false} CombinersAreDecisive(w: World, sets: seq<set<Outcome>>)
    requires forall k :: 0 <= k < |sets| ==> Decisive(sets[k])
    ensures Decisive(UnionOf(w, sets)) && Decisive(IntersectionOf(w, sets))
  {
  }

  lemma {:induction false} ExecuteIsDecisive(w: World, r: Request)
    requires w.hits == iset{}
    ensures Decisive(Execute(w, r))
    decreases r.depth, 3
  {
    if r.depth > 0 && DefinesRelation(w.schema, r.entity.typ, r.permission) {
      DirectIsDecisive(w, r);
      CombinersAreDecisive(w, [CheckDirect(w, r)]);
    } else if r.depth > 0 && DefinesAction(w.schema, r.entity.typ, r.permission) {
      var c := w.schema[r.entity.typ].actions[r.permission];
      ChildIsDecisive(w, r, c);
      CombinersAreDecisive(w, [CheckChild(w, r, c)]);
    }
  }

  lemma {:induction false} EachIsDecisive(w: World, depth: nat, rs: seq<Request>)
    requires w.hits == iset{} && forall i :: 0 <= i < |rs| ==> rs[i].depth < depth
    ensures Decisive(UnionOf(w, ExecuteEach(w, depth, rs)))
    decreases depth, 0
  {
    forall i | 0 <= i < |rs|
      ensures Decisive(ExecuteEach(w, depth, rs)[i])
    {
      ExecuteIsDecisive(w, rs[i]);
    }
    CombinersAreDecisive(w, ExecuteEach(w, depth, rs));
  }

  lemma {:induction false} DirectIsDecisive(w: World, r: Request)
    requires w.hits == iset{} && r.depth > 0
    ensures Decisive(CheckDirect(w, r))
    decreases r.depth, 1
  {
    EachIsDecisive(w, r.depth, NestedRequests(r, Usersets(Query(w.store, r.entity, r.permission))));
  }

  lemma {:induction false} ChildIsDecisive(w: World, r: Request, c: Child)
    requires w.hits == iset{} && r.depth > 0
    ensures Decisive(CheckChild(w, r, c))
    decreases r.depth, 2, c
  {
    match c
    case NoChild =>
    case LeafChild(ComputedUserSet(exclusion, relation)) =>
      ExecuteIsDecisive(w, Computed(r, r.entity, relation, exclusion));
    case LeafChild(TupleToUserSet(exclusion, tupleSet, relation)) =>
      EachIsDecisive(w, r.depth, ParentRequests(r, Query(w.store, r.entity, tupleSet), relation, exclusion));
    case Rewrite(op, children) =>
      var sets := seq(|children|, i requires 0 <= i < |children| => CheckChild(w, r, children[i]));
      forall i | 0 <= i < |children|
        ensures Decisive(sets[i])
      {
        ChildIsDecisive(w, r, children[i]);
      }
      CombinersAreDecisive(w, sets);
  }

  /** For every schema, exclusion included, and no cache: two runs of one request, under any schedules and at
      any two depths, never both finish without error and disagree. */
  lemma {:induction false} RunsNeverDisagree(w: World, r: Request, depth: nat, b: bool)
    requires w.hits == iset{}
    requires Decision(b) in Execute(w, r)
    ensures Decision(!b) !in Execute(w, r.(depth := depth))
  {
    var most := if r.depth < depth then depth else r.depth;
    ExecuteDepthMonotone(w, r, most, b);
    if Decision(!b) in Execute(w, r.(depth := depth)) {
      ExecuteDepthMonotone(w, r.(depth := depth), most, !b);
    }
    ExecuteIsDecisive(w, r.(depth := most));
  }

  // ---------------------------------------------------------------- more tuples

  lemma {:induction false} ChildHoldsWithMoreTuples(sc: Schema, store: seq<Tuple>, more: seq<Tuple>, S: iset<Goal>,
                                                    e: Entity, subject: Subject, c: Child)
    requires forall t :: t in store ==> t in more
    requires forall leaf :: HasLeaf(c, leaf) ==> !leaf.exclusion
    requires ChildHolds(sc, store, S, e, subject, c)
    ensures ChildHolds(sc, more, S, e, subject, c)
    decreases c
  {
    match c
    case NoChild =>
    case LeafChild(leaf) =>
      assert HasLeaf(c, leaf);
      if leaf.TupleToUserSet? {
        var s :| s in Query(store, e, leaf.tupleSet) && Goal(EntityOf(s), leaf.relation, subject) in S;
        assert s in Query(more, e, leaf.tupleSet);
      }
    case Rewrite(op, children) =>
      forall i | 0 <= i < |children| && ChildHolds(sc, store, S, e, subject, children[i])
        ensures ChildHolds(sc, more, S, e, subject, children[i])
      {
        forall leaf | HasLeaf(children[i], leaf)
          ensures !leaf.exclusion
        {
          assert HasLeaf(c, leaf);
        }
        ChildHoldsWithMoreTuples(sc, store, more, S, e, subject, children[i]);
      }
  }

  lemma {:induction false} MembersGrow(sc: Schema, store: seq<Tuple>, more: seq<Tuple>, g: Goal)
    requires ExclusionFree(sc) && forall t :: t in store ==> t in more
    requires Member(sc, store, g)
    ensures Member(sc, more, g)
  {
    forall S: iset<Goal> | Closed(sc, more, S)
      ensures g in S
    {
      forall h: Goal | Follows(sc, store, S, h)
        ensures Follows(sc, more, S, h)
      {
        if !DefinesRelation(sc, h.entity.typ, h.permission) {
          var c := sc[h.entity.typ].actions[h.permission];
          ChildHoldsWithMoreTuples(sc, store, more, S, h.entity, h.subject, c);
        }
      }
      assert Closed(sc, store, S);
    }
  }

  /** On a schema without exclusion, adding tuples never turns an allowed request into a denied one, at any
      depths, under any schedules and with any sound caches. */
  lemma {:induction false} MoreTuplesNeverDeny(w: World, w': World, g: Goal, d: nat, d': nat)
    requires w.schema == w'.schema && ExclusionFree(w.schema)
    requires forall t :: t in w.store ==> t in w'.store
    requires SoundHits(w) && SoundHits(w')
    requires Allowed in Execute(w, Ask(g, false, d))
    ensures Denied !in Execute(w', Ask(g, false, d'))
  {
    assert Decision(true) in Execute(w, Ask(g, false, d));
    ExecuteIsSound(w, Ask(g, false, d), true);
    MembersGrow(w.schema, w.store, w'.store, g);
    if Decision(false) in Execute(w', Ask(g, false, d')) {
      ExecuteIsSound(w', Ask(g, false, d'), false);
    }
  }
}
