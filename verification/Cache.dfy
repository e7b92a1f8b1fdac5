/** The shared result cache over whole runs: requests write entries while others read them, and the cache may
    forget anything at any time. */
module Cache {
  import opened Base
  import opened Check
  import opened Membership
  import opened Soundness
  import opened Typing
  import opened Exclusion
  import opened Keys

  /** The data a scope denotes, which never changes, because a snap token fixes the tuples; and the concurrency limit
      of the command that answers from it. */
  datatype Data = Data(schema: Schema, store: seq<Tuple>, limit: Limit)

  type Database = Scope -> Data

  type Entries = map<string, bool>

  /** All entries that some state of the history held. */
  ghost function Seen(history: seq<Entries>): iset<(string, bool)> {
    iset i: int, k: string | 0 <= i < |history| && k in history[i] :: (k, history[i][k])
  }

  /** The goals of a scope a lookup can find among `entries`. */
  ghost function Hits(scope: Scope, entries: iset<(string, bool)>): iset<(Goal, bool)> {
    iset g: Goal, b: bool | Separable(scope, g) && (CheckKey(scope, g), b) in entries :: (g, b)
  }

  /** What a request runs against when it may have read any past state of the cache. */
  ghost function WorldAt(db: Database, scope: Scope, history: seq<Entries>): World {
    World(db(scope).schema, db(scope).store, Hits(scope, Seen(history)), true, db(scope).limit)
  }

  // ---------------------------------------------------------------- requests and the requests they start

  /** `q` is one of the requests of a union, and gets a slot. */
  ghost predicate Started(w: World, depth: nat, rs: seq<Request>, q: Request)
    requires forall i :: 0 <= i < |rs| ==> rs[i].depth < depth
  {
    exists i :: 0 <= i < |rs| && rs[i] == q && Blocked(ExecuteEach(w, depth, rs), i, Denied) < w.limit
  }

  /** The leaf, and every tree around it, gets a slot in the evaluation of `c`. */
  ghost predicate LeafStarts(w: World, r: Request, c: Child, leaf: Leaf)
    requires r.depth > 0
    decreases c
  {
    match c
    case NoChild => false
    case LeafChild(l) => l == leaf
    case Rewrite(op, children) =>
      op != Unspecified && NoChild !in children &&
      var sets := seq(|children|, i requires 0 <= i < |children| => CheckChild(w, r, children[i]));
      exists i :: 0 <= i < |children| && LeafStarts(w, r, children[i], leaf) &&
                  Blocked(sets, i, if op == Union then Denied else Allowed) < w.limit
  }

  ghost predicate LeafAsks(w: World, r: Request, leaf: Leaf, q: Request)
    requires r.depth > 0
  {
    match leaf
    case ComputedUserSet(exclusion, relation) => q == Computed(r, r.entity, relation, exclusion)
    case TupleToUserSet(exclusion, tupleSet, relation) =>
      Started(w, r.depth, ParentRequests(r, Query(w.store, r.entity, tupleSet), relation, exclusion), q)
  }

  /** The evaluation of `r` may start `q`. */
  ghost predicate Asks(w: World, r: Request, q: Request) {
    r.depth > 0 &&
    if DefinesRelation(w.schema, r.entity.typ, r.permission) then
      var ss := Query(w.store, r.entity, r.permission);
      r.subject !in ss && Started(w, r.depth, NestedRequests(r, Usersets(ss)), q)
    else
      && DefinesAction(w.schema, r.entity.typ, r.permission)
      && exists leaf :: LeafStarts(w, r, w.schema[r.entity.typ].actions[r.permission], leaf) && LeafAsks(w, r, leaf, q)
  }

  lemma {:induction false} StartedLeafIsThere(w: World, r: Request, c: Child, leaf: Leaf)
    requires r.depth > 0 && LeafStarts(w, r, c, leaf)
    ensures HasLeaf(c, leaf)
    decreases c
  {
    if c.Rewrite? {
      var i :| 0 <= i < |c.children| && LeafStarts(w, r, c.children[i], leaf);
      StartedLeafIsThere(w, r, c.children[i], leaf);
    }
  }

  /** With two slots every leaf of a compiled tree may be started. */
  lemma {:induction false} EveryLeafStarts(w: World, r: Request, c: Child, leaf: Leaf)
    requires r.depth > 0 && w.limit >= 2 && Shaped(c) && HasLeaf(c, leaf)
    ensures LeafStarts(w, r, c, leaf)
    decreases c
  {
    if c.Rewrite? {
      var i :| 0 <= i < |c.children| && HasLeaf(c.children[i], leaf);
      EveryLeafStarts(w, r, c.children[i], leaf);
      var sets := seq(|c.children|, k requires 0 <= k < |c.children| => CheckChild(w, r, c.children[k]));
      BlockedGrows(sets, 0, i, if c.op == Union then Denied else Allowed);
    }
  }

  /** `q` is `client`, or started somewhere below it. */
  ghost predicate Within(w: World, client: Request, q: Request)
    decreases client.depth
  {
    q == client || exists m :: Asks(w, client, m) && m.depth < client.depth && Within(w, m, q)
  }

  /** What happens to the cache: entries are forgotten, or the evaluation of a client's request stores the answer of a
      relation request `asked` below it. */
  datatype Event = Forget | Answer(scope: Scope, client: Request, asked: Request, answer: bool)

  /** The evaluation of `asked` can store `answer`: `checkDirect` and `Execute` both store the decision before exclusion
      is applied. */
  ghost predicate Stores(db: Database, history: seq<Entries>, ev: Event)
    requires ev.Answer?
  {
    var w := WorldAt(db, ev.scope, history);
    && Separable(ev.scope, GoalOf(ev.asked))
    && Within(w, ev.client, ev.asked)
    && ev.asked.depth > 0 && DefinesRelation(w.schema, ev.asked.entity.typ, ev.asked.permission)
    && Decision(ev.answer) in CheckDirect(w, ev.asked)
  }

  ghost predicate SubMap(m: Entries, n: Entries) {
    forall k :: k in m ==> k in n && m[k] == n[k]
  }

  /** One step of the cache. Storing may also forget some entries, the new one included. */
  ghost predicate Step(db: Database, history: seq<Entries>, ev: Event, after: Entries)
    requires history != []
  {
    var before := history[|history| - 1];
    match ev
    case Forget => SubMap(after, before)
    case Answer(scope, _, asked, answer) =>
      Stores(db, history, ev) && SubMap(after, before[CheckKey(scope, GoalOf(asked)) := answer])
  }

  /** Any clients, any requests, in any interleaving. */
  ghost predicate Run(db: Database, events: seq<Event>, history: seq<Entries>) {
    && |history| == |events| + 1 && history[0] == map[]
    && forall i :: 0 <= i < |events| ==> Step(db, history[..i + 1], events[i], history[i + 1])
  }

  /** No client excludes a relation that holds usersets. */
  ghost predicate PlainClients(db: Database, events: seq<Event>) {
    forall ev :: ev in events && ev.Answer? && ev.client.exclusion ==>
      PlainAt(db(ev.scope).schema, db(ev.scope).store, ev.client.entity, ev.client.permission)
  }

  ghost predicate PlainData(db: Database) {
    forall scope :: PlainExclusion(db(scope).schema, db(scope).store)
  }

  lemma {:induction false} AskedIsPlain(w: World, r: Request, q: Request)
    requires PlainExclusion(w.schema, w.store) && PlainRequest(w, r) && Asks(w, r, q)
    ensures PlainRequest(w, q)
  {
    if !DefinesRelation(w.schema, r.entity.typ, r.permission) {
      var c := w.schema[r.entity.typ].actions[r.permission];
      var leaf :| LeafStarts(w, r, c, leaf) && LeafAsks(w, r, leaf, q);
      StartedLeafIsThere(w, r, c, leaf);
      assert LeafPlain(w.schema, w.store, r.entity, leaf);
      if leaf.TupleToUserSet? {
        var ss := Query(w.store, r.entity, leaf.tupleSet);
        var i :| 0 <= i < |ss| && q == ParentRequests(r, ss, leaf.relation, leaf.exclusion)[i];
        assert ss[i] in ss;
      }
    }
  }

  /** Below a plain request all requests are plain. */
  lemma {:induction false} WithinIsPlain(w: World, client: Request, q: Request)
    requires PlainExclusion(w.schema, w.store) && PlainRequest(w, client) && Within(w, client, q)
    ensures PlainRequest(w, q)
    decreases client.depth
  {
    hide PlainExclusion, PlainRequest, Asks;
    if q != client {
      var m :| Asks(w, client, m) && m.depth < client.depth && Within(w, m, q);
      AskedIsPlain(w, client, m);
      WithinIsPlain(w, m, q);
    }
  }

  // ---------------------------------------------------------------- sound caches

  /** The entry is the membership answer of the goal it stands for. */
  ghost predicate EntryIsSound(db: Database, key: string, b: bool) {
    forall scope, g :: Separable(scope, g) && CheckKey(scope, g) == key ==>
      b == Member(db(scope).schema, db(scope).store, g)
  }

  ghost predicate CacheIsSound(db: Database, entries: Entries) {
    forall k :: k in entries ==> EntryIsSound(db, k, entries[k])
  }

  ghost predicate AllSound(db: Database, history: seq<Entries>) {
    forall i :: 0 <= i < |history| ==> CacheIsSound(db, history[i])
  }

  lemma {:induction false} SoundStatesGiveSoundHits(db: Database, scope: Scope, history: seq<Entries>)
    requires AllSound(db, history)
    ensures SoundHits(WorldAt(db, scope, history))
  {
  }

  lemma {:induction false} StoredEntryIsSound(db: Database, history: seq<Entries>, ev: Event)
    requires PlainData(db) && ev.Answer? && PlainClients(db, [ev]) && Stores(db, history, ev)
    requires AllSound(db, history)
    ensures EntryIsSound(db, CheckKey(ev.scope, GoalOf(ev.asked)), ev.answer)
  {
    hide PlainExclusion, CheckDirect;
    var w := WorldAt(db, ev.scope, history);
    assert ev in [ev];
    SoundStatesGiveSoundHits(db, ev.scope, history);
    WithinIsPlain(w, ev.client, ev.asked);
    DirectIsSound(w, ev.asked, ev.answer);
    forall scope, g | Separable(scope, g) && CheckKey(scope, g) == CheckKey(ev.scope, GoalOf(ev.asked))
      ensures ev.answer == Member(db(scope).schema, db(scope).store, g)
    {
      CheckKeyIsInjective(scope, g, ev.scope, GoalOf(ev.asked));
    }
  }

  lemma {:induction false} StepKeepsCacheSound(db: Database, history: seq<Entries>, ev: Event, after: Entries)
    requires PlainData(db) && PlainClients(db, [ev]) && history != [] && Step(db, history, ev, after)
    requires AllSound(db, history)
    ensures CacheIsSound(db, after)
  {
    hide Stores, EntryIsSound, PlainClients;
    var before := history[|history| - 1];
    assert CacheIsSound(db, before);
    if ev.Answer? {
      var key := CheckKey(ev.scope, GoalOf(ev.asked));
      StoredEntryIsSound(db, history, ev);
      forall k | k in after
        ensures EntryIsSound(db, k, after[k])
      {
        if k != key {
          assert EntryIsSound(db, k, before[k]);
        }
      }
    }
  }

  /** In every run in which no client excludes a relation that holds usersets, every state of the cache holds only
      membership answers. */
  lemma {:induction false} CacheStaysSound(db: Database, events: seq<Event>, history: seq<Entries>)
    requires PlainData(db) && PlainClients(db, events) && Run(db, events, history)
    ensures AllSound(db, history)
    decreases |events|
  {
    hide CacheIsSound, Step;
    var n := |events|;
    if n == 0 {
      EmptyCacheIsSound(db);
    } else {
      var past := history[..n];
      RunPrefix(db, events, history);
      CacheStaysSound(db, events[..n - 1], past);
      assert events[n - 1] in events;
      StepKeepsCacheSound(db, past, events[n - 1], history[n]);
      assert history == past + [history[n]];
      AllSoundAppend(db, past, history[n]);
    }
  }

  lemma {:induction false} RunPrefix(db: Database, events: seq<Event>, history: seq<Entries>)
    requires Run(db, events, history) && events != []
    ensures Run(db, events[..|events| - 1], history[..|events|])
  {
    hide Step;
    var before, past := events[..|events| - 1], history[..|events|];
    forall i | 0 <= i < |before|
      ensures Step(db, past[..i + 1], before[i], past[i + 1])
    {
      assert past[..i + 1] == history[..i + 1] && before[i] == events[i];
    }
  }

  lemma {:induction false} EmptyCacheIsSound(db: Database)
    ensures CacheIsSound(db, map[])
  {
  }

  lemma {:induction false} AllSoundAppend(db: Database, history: seq<Entries>, after: Entries)
    requires AllSound(db, history) && CacheIsSound(db, after)
    ensures AllSound(db, history + [after])
  {
  }

  /** In such a run, an error-free answer given with the cache is the correct one, and no evaluation without the
      cache, at any depth, contradicts it. */
  lemma {:induction false} CachedAnswersAreCorrect(db: Database, events: seq<Event>, history: seq<Entries>,
                                                   scope: Scope, r: Request, b: bool, depth: nat)
    requires PlainData(db) && PlainClients(db, events) && Run(db, events, history)
    requires PlainRequest(WorldAt(db, scope, history), r)
    requires Decision(b) in Execute(WorldAt(db, scope, history), r)
    ensures Correct(WorldAt(db, scope, history), r, b)
    ensures Decision(!b) !in Execute(World(db(scope).schema, db(scope).store, iset{}, true, db(scope).limit),
                                     r.(depth := depth))
  {
    CacheStaysSound(db, events, history);
    SoundStatesGiveSoundHits(db, scope, history);
    ExecuteIsSound(WorldAt(db, scope, history), r, b);
    var uncached := World(db(scope).schema, db(scope).store, iset{}, true, db(scope).limit);
    if Decision(!b) in Execute(uncached, r.(depth := depth)) {
      ExecuteIsSound(uncached, r.(depth := depth), !b);
    }
  }

  // ---------------------------------------------------------------- without the condition on exclusion

  /** Everything an excluded evaluation of the relation may store is the membership answer. */
  ghost predicate ExcludedStoresAreSound(sc: Schema, typ: string, relation: string, limit: Limit) {
    forall store, id, subject, depth: nat :: Conforms(sc, store) && depth > 0 ==>
      StoresMembership(sc, store, Goal(Entity(typ, id), relation, subject), depth, limit)
  }

  ghost predicate StoresMembership(sc: Schema, store: seq<Tuple>, g: Goal, depth: nat, limit: Limit)
    requires depth > 0
  {
    forall b: bool :: Decision(b) in CheckDirect(World(sc, store, iset{}, false, limit), Ask(g, true, depth)) ==>
      b == Member(sc, store, g)
  }

  lemma {:induction false} StoresMembershipIffComplements(sc: Schema, store: seq<Tuple>, g: Goal, depth: nat,
                                                          limit: Limit)
    requires depth > 0 && DefinesRelation(sc, g.entity.typ, g.permission)
    ensures StoresMembership(sc, store, g, depth, limit) <==> ComplementsOn(sc, store, g, depth, limit)
  {
    var w := World(sc, store, iset{}, false, limit);
    var r := Ask(g, true, depth);
    forall b: bool
      ensures Decision(b) in CheckDirect(w, r) <==> Decision(!b) in Execute(w, r)
    {
      UnionOfOne(w, CheckDirect(w, r), b);
      assert Cached(w, g) == {};
      if Decision(b) in CheckDirect(w, r) {
        assert Decision(b) in Cached(w, g) + UnionOf(w, [CheckDirect(w, r)]);
      }
    }
    if StoresMembership(sc, store, g, depth, limit) {
      forall b: bool | Decision(b) in Execute(w, r)
        ensures b == !Member(sc, store, g)
      {
        assert Decision(!!b) in Execute(w, r);
        assert Decision(!b) in CheckDirect(w, r);
      }
    }
  }

  /** Over every accepted store, excluded evaluations of a relation leave the cache sound exactly when the
      relation lists no usersets. */
  lemma {:induction false} ExcludedStoresAreSoundIff(sc: Schema, typ: string, relation: string, limit: Limit)
    requires WellTyped(sc) && DefinesRelation(sc, typ, relation) && relation in sc[typ].relations
    ensures ExcludedStoresAreSound(sc, typ, relation, limit) <==> !ListsUserset(sc, typ, relation)
  {
    if ListsUserset(sc, typ, relation) {
      var ref :| ref in sc[typ].relations[relation] && ref.relation != "" && ref.typ != USER;
      UsersetIsNotComplemented(sc, typ, relation, ref, 3, limit);
      var store := [WalkTuple(typ, relation, ref)];
      StoresMembershipIffComplements(sc, store, Goal(Entity(typ, "1"), relation, OUTSIDER), 3, limit);
      assert !StoresMembership(sc, store, Goal(Entity(typ, "1"), relation, OUTSIDER), 3, limit);
    } else {
      forall store, id, subject, depth: nat | Conforms(sc, store) && depth > 0
        ensures StoresMembership(sc, store, Goal(Entity(typ, id), relation, subject), depth, limit)
      {
        var g := Goal(Entity(typ, id), relation, subject);
        PlainRelationComplements(sc, store, g, depth, limit);
        StoresMembershipIffComplements(sc, store, g, depth, limit);
      }
    }
  }

  // ---------------------------------------------------------------- runs that go wrong, and the exact condition

  /** The run of one step in which a client's request stores a wrong entry: the excluded check of a lone userset. */
  ghost predicate GoesWrong(db: Database, scope: Scope, client: Request, t: Tuple, depth: nat) {
    && depth >= 2 && LoneUserset(db(scope).schema, db(scope).store, t)
    && Separable(scope, OutsiderGoal(t))
    && Within(WorldAt(db, scope, [map[]]), client, Ask(OutsiderGoal(t), true, depth))
  }

  function WrongEvent(scope: Scope, client: Request, t: Tuple, depth: nat): Event {
    Answer(scope, client, Ask(OutsiderGoal(t), true, depth), true)
  }

  function WrongHistory(scope: Scope, t: Tuple): seq<Entries> {
    [map[], map[CheckKey(scope, OutsiderGoal(t)) := true]]
  }

  /** After that run a plain request, at any depth, may allow a subject who is no member. */
  lemma {:induction false} WrongEntryAllowsOutsider(db: Database, scope: Scope, client: Request, t: Tuple,
                                                    depth: nat)
    requires GoesWrong(db, scope, client, t, depth)
    ensures Run(db, [WrongEvent(scope, client, t, depth)], WrongHistory(scope, t))
    ensures !Member(db(scope).schema, db(scope).store, OutsiderGoal(t))
    ensures !AllSound(db, WrongHistory(scope, t))
    ensures forall d: nat :: d >= 1 ==>
              Allowed in Execute(WorldAt(db, scope, WrongHistory(scope, t)), Ask(OutsiderGoal(t), false, d))
  {
    hide Check.Execute, Check.CheckDirect, Member, Within;
    var ev, history := WrongEvent(scope, client, t, depth), WrongHistory(scope, t);
    OutsiderIsNoMember(db(scope).schema, db(scope).store, t);
    OutsiderIsDenied(WorldAt(db, scope, [map[]]), t, depth);
    assert history[..1] == [map[]];
    assert Stores(db, [map[]], ev);
    assert !EntryIsSound(db, CheckKey(scope, OutsiderGoal(t)), history[1][CheckKey(scope, OutsiderGoal(t))]);
    assert !CacheIsSound(db, history[1]);
    EntryIsFound(db, scope, history, OutsiderGoal(t));
    forall d: nat | d >= 1
      ensures Allowed in Execute(WorldAt(db, scope, history), Ask(OutsiderGoal(t), false, d))
    {
      HitIsAllowed(WorldAt(db, scope, history), OutsiderGoal(t), d);
    }
  }

  lemma {:induction false} EntryIsFound(db: Database, scope: Scope, history: seq<Entries>, g: Goal)
    requires |history| == 2 && CheckKey(scope, g) in history[1] && Separable(scope, g)
    ensures (g, history[1][CheckKey(scope, g)]) in WorldAt(db, scope, history).hits
  {
    var k := CheckKey(scope, g);
    var b := history[1][k];
    assert (k, b) in Seen(history);
    assert (g, b) in Hits(scope, Seen(history));
  }

  lemma {:induction false} HitIsAllowed(w: World, g: Goal, depth: nat)
    requires depth >= 1 && DefinesRelation(w.schema, g.entity.typ, g.permission) && (g, true) in w.hits
    ensures Allowed in Execute(w, Ask(g, false, depth))
  {
    hide Check.CheckDirect;
    assert Decision(true) in Cached(w, g);
  }

  /** All scopes hold this schema and tuples accepted under it, and are answered with this limit. */
  ghost predicate AcceptedData(db: Database, sc: Schema, limit: Limit) {
    forall scope :: db(scope).schema == sc && db(scope).limit == limit && Conforms(sc, db(scope).store)
  }

  ghost predicate NoClientExcludes(events: seq<Event>) {
    forall ev :: ev in events && ev.Answer? ==> !ev.client.exclusion
  }

  /** No run goes wrong: of any clients, or of clients that leave the exclusion flag alone. */
  ghost predicate NeverWrong(sc: Schema, limit: Limit, excluding: bool) {
    forall db, events, history ::
      AcceptedData(db, sc, limit) && Run(db, events, history) && (excluding || NoClientExcludes(events)) ==>
        AllSound(db, history)
  }

  const HERE := Scope("t", "v", "s")

  lemma {:induction false} GoingWrongIsWrong(sc: Schema, store: seq<Tuple>, limit: Limit, client: Request, t: Tuple,
                                             depth: nat)
    requires CleanNames(sc) && t.entity.typ in sc && DefinitionWellFormed(sc[t.entity.typ])
    requires depth >= 2 && t.entity.id == "1" && Conforms(sc, store) && LoneUserset(sc, store, t)
    requires Within(World(sc, store, iset{}, true, limit), client, Ask(OutsiderGoal(t), true, depth))
    ensures !NeverWrong(sc, limit, client.exclusion)
  {
    hide Within, Run, AllSound, Separable, Conforms, NeverWrong, CleanNames;
    var db := Everywhere(Data(sc, store, limit));
    NothingSeen(db, HERE);
    OutsiderIsSeparable(sc, t);
    WrongEntryAllowsOutsider(db, HERE, client, t, depth);
    OneRunIsEnough(sc, limit, db, [WrongEvent(HERE, client, t, depth)], WrongHistory(HERE, t), client.exclusion);
  }

  function Everywhere(data: Data): (db: Database)
    ensures forall scope :: db(scope) == data
  {
    scope => data
  }

  lemma {:induction false} OneRunIsEnough(sc: Schema, limit: Limit, db: Database, events: seq<Event>,
                                          history: seq<Entries>, excluding: bool)
    requires AcceptedData(db, sc, limit) && Run(db, events, history) && (excluding || NoClientExcludes(events))
    requires !AllSound(db, history)
    ensures !NeverWrong(sc, limit, excluding)
  {
    hide AcceptedData, Run, NoClientExcludes, AllSound;
  }

  lemma {:induction false} OutsiderIsSeparable(sc: Schema, t: Tuple)
    requires CleanNames(sc) && t.entity.typ in sc && DefinitionWellFormed(sc[t.entity.typ])
    requires t.entity.id == "1" && DefinesRelation(sc, t.entity.typ, t.relation)
    ensures Separable(HERE, OutsiderGoal(t))
  {
    assert t.relation in sc[t.entity.typ].relations;
  }

  lemma {:induction false} NothingSeen(db: Database, scope: Scope)
    ensures WorldAt(db, scope, [map[]]) == World(db(scope).schema, db(scope).store, iset{}, true, db(scope).limit)
  {
    assert Seen([map[]]) == iset{};
    assert Hits(scope, iset{}) == iset{};
  }

  /** Whatever clients send, no run goes wrong over any accepted tuples, exactly when no relation of the schema lists a
      userset type. */
  lemma {:induction false} AnyClientsAreSafeIff(sc: Schema, limit: Limit)
    requires WellTyped(sc) && CleanNames(sc)
    ensures NeverWrong(sc, limit, true) <==> forall typ, relation :: !ListsUserset(sc, typ, relation)
  {
    hide AllSound, Run;
    if typ, relation :| ListsUserset(sc, typ, relation) {
      var ref :| ref in sc[typ].relations[relation] && ref.relation != "" && ref.typ != USER;
      var t := WalkTuple(typ, relation, ref);
      WalkTupleIsLone(sc, typ, relation, ref);
      assert DefinitionWellFormed(sc[typ]);
      GoingWrongIsWrong(sc, [t], limit, Ask(OutsiderGoal(t), true, 3), t, 3);
    } else {
      AvoidingRunsAreSound(sc, limit, true);
    }
  }

  /** When clients leave the exclusion flag alone, no run goes wrong over any accepted tuples, exactly when no
      relation that the schema puts under `not` lists a userset type. With a single slot an earlier sibling may keep
      such a leaf from ever being asked, so the limit is at least 2. */
  lemma {:induction false} PlainClientsAreSafeIff(sc: Schema, limit: Limit)
    requires WellTyped(sc) && CleanNames(sc) && limit >= 2
    ensures NeverWrong(sc, limit, false) <==> AvoidsUsersets(sc)
  {
    hide AllSound, Run, LeafAvoidsUsersets, HasLeaf;
    if AvoidsUsersets(sc) {
      AvoidingRunsAreSound(sc, limit, false);
    } else {
      var typ, n, leaf :| typ in sc && n in sc[typ].actions && HasLeaf(sc[typ].actions[n], leaf) &&
                          !LeafAvoidsUsersets(sc, typ, leaf);
      ActionGoesWrong(sc, limit, typ, n, leaf);
    }
  }

  lemma {:induction false} ActionGoesWrong(sc: Schema, limit: Limit, typ: string, n: string, leaf: Leaf)
    requires limit >= 2 && WellTyped(sc) && CleanNames(sc) && typ in sc && n in sc[typ].actions
    requires HasLeaf(sc[typ].actions[n], leaf) && !LeafAvoidsUsersets(sc, typ, leaf)
    ensures !NeverWrong(sc, limit, false)
  {
    var store, e, t := ReachedUserset(sc, typ, leaf);
    assert DefinitionWellFormed(sc[typ]) && DefinitionWellFormed(sc[t.entity.typ]);
    var client := Ask(Goal(e, n, OUTSIDER), false, 3);
    var w := World(sc, store, iset{}, true, limit);
    EveryLeafStarts(w, client, sc[typ].actions[n], leaf);
    LeafAsksFor(w, client, n, leaf, t);
    GoingWrongIsWrong(sc, store, limit, client, t, 2);
  }

  lemma {:induction false} LeafAsksFor(w: World, client: Request, n: string, leaf: Leaf, t: Tuple)
    requires client.depth == 3 && client.permission == n && client.subject == OUTSIDER
    requires DefinesAction(w.schema, client.entity.typ, n)
    requires LeafStarts(w, client, w.schema[client.entity.typ].actions[n], leaf)
    requires leaf.exclusion && LeafReaches(w.store, client.entity, leaf, t)
    ensures Within(w, client, Ask(OutsiderGoal(t), true, 2))
  {
    hide LeafStarts;
    var q := Ask(OutsiderGoal(t), true, 2);
    if leaf.TupleToUserSet? {
      var rs := ParentRequests(client, Query(w.store, client.entity, leaf.tupleSet), leaf.relation, leaf.exclusion);
      assert rs[0] == q && Blocked(ExecuteEach(w, client.depth, rs), 0, Denied) == 0;
    }
    assert LeafAsks(w, client, leaf, q);
    assert Asks(w, client, q) && Within(w, q, q);
  }

  lemma {:induction false} AvoidingRunsAreSound(sc: Schema, limit: Limit, excluding: bool)
    requires WellTyped(sc) && AvoidsUsersets(sc)
    requires excluding ==> forall typ, relation :: !ListsUserset(sc, typ, relation)
    ensures NeverWrong(sc, limit, excluding)
  {
    hide AllSound, Run, AvoidsUsersets, WellTyped, Conforms, PlainExclusion;
    AcceptedStoresArePlainIff(sc);
    forall db: Database, events: seq<Event>, history |
        AcceptedData(db, sc, limit) && Run(db, events, history) && (excluding || NoClientExcludes(events))
      ensures AllSound(db, history)
    {
      forall ev | ev in events && ev.Answer? && ev.client.exclusion
        ensures PlainAt(db(ev.scope).schema, db(ev.scope).store, ev.client.entity, ev.client.permission)
      {
        UnlistedIsPlain(sc, db(ev.scope).store, ev.client.entity, ev.client.permission);
      }
      CacheStaysSound(db, events, history);
    }
  }
}
