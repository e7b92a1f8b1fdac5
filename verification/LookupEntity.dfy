/** LookupEntity (internal/commands/lookupEntity.go) as a small-step state machine: the launcher with its limit of
    running checks, one goroutine per entity id, the bounded result channel and the loop that drains it. */
module LookupEntity {
  import opened Base
  import opened Check
  import opened Membership
  import opened Soundness
  import opened Scheduling
  import opened MemoryStore

  /** Both `SetLimit` and the capacity of the result channel. */
  const LIMIT := 100

  datatype Query = Query(typ: string, permission: string, subject: Subject, depth: nat)

  /** The request `internalCheck` makes for one id. */
  function RequestFor(q: Query, id: string): Request {
    Request(Entity(q.typ, id), q.permission, q.subject, false, q.depth)
  }

  datatype Job =
    | Unborn
    | Running
    | Sending // allowed, about to send its id
    | Over(outcome: Outcome)

  /** Ids stand for themselves by their index. `failed`: the group has kept an error. */
  datatype State = State(
    launched: nat,
    jobs: seq<Job>,
    channel: seq<nat>,
    received: seq<nat>,
    failed: bool,
    closed: bool)

  datatype Step = Launch | Evaluate(job: nat, outcome: Outcome) | Send(job: nat) | Close | Receive

  function Init(n: nat): State {
    State(0, seq(n, _ => Unborn), [], [], false, false)
  }

  ghost function Active(jobs: seq<Job>): set<nat> {
    set i: nat | i < |jobs| && (jobs[i] == Running || jobs[i] == Sending)
  }

  predicate AllOver(jobs: seq<Job>) {
    forall i :: 0 <= i < |jobs| ==> jobs[i].Over?
  }

  /** `close(resultChan)` comes after `g.Wait`; when the group has an error, the send on `errChan`, which nobody reads,
      stands before it. */
  ghost predicate Enabled(w: World, q: Query, ids: seq<string>, s: State, a: Step) {
    |s.jobs| == |ids| &&
    match a
    case Launch => s.launched < |ids| && |Active(s.jobs)| < LIMIT
    case Evaluate(i, o) => i < |ids| && s.jobs[i] == Running && o in Execute(w, RequestFor(q, ids[i]))
    case Send(i) => i < |ids| && s.jobs[i] == Sending && |s.channel| < LIMIT
    case Close => !s.closed && s.launched >= |ids| && AllOver(s.jobs) && !s.failed
    case Receive => s.channel != []
  }

  ghost function Apply(w: World, q: Query, ids: seq<string>, s: State, a: Step): State
    requires Enabled(w, q, ids, s, a)
  {
    match a
    case Launch => s.(launched := s.launched + 1, jobs := s.jobs[s.launched := Running])
    case Evaluate(i, o) =>
      s.(jobs := s.jobs[i := if o == Allowed then Sending else Over(o)], failed := s.failed || o.Failed?)
    case Send(i) => s.(jobs := s.jobs[i := Over(Allowed)], channel := s.channel + [i])
    case Close => s.(closed := true)
    case Receive => s.(channel := s.channel[1..], received := s.received + [s.channel[0]])
  }

  ghost predicate Next(w: World, q: Query, ids: seq<string>, s: State, t: State) {
    exists a :: Enabled(w, q, ids, s, a) && t == Apply(w, q, ids, s, a)
  }

  ghost predicate Run(w: World, q: Query, ids: seq<string>, states: seq<State>) {
    && states != [] && states[0] == Init(|ids|)
    && forall i :: 0 < i < |states| ==> Next(w, q, ids, states[i - 1], states[i])
  }

  /** The drain loop ends on the closed, empty channel. */
  predicate Returned(s: State) {
    s.closed && s.channel == []
  }

  // ---------------------------------------------------------------- what every step keeps

  ghost predicate JobsFit(w: World, q: Query, ids: seq<string>, s: State) {
    && |s.jobs| == |ids| && s.launched <= |ids|
    && (forall i :: 0 <= i < |ids| ==> (s.jobs[i] == Unborn <==> s.launched <= i))
    && (forall i :: 0 <= i < |ids| && s.jobs[i] == Sending ==> Allowed in Execute(w, RequestFor(q, ids[i])))
    && (forall i :: 0 <= i < |ids| && s.jobs[i].Over? ==> s.jobs[i].outcome in Execute(w, RequestFor(q, ids[i])))
    && (s.failed <==> exists i :: 0 <= i < |ids| && s.jobs[i].Over? && s.jobs[i].outcome.Failed?)
    && |Active(s.jobs)| <= LIMIT
  }

  /** The ids sent so far, in the order of the sends: each once, and exactly those whose check allowed. */
  ghost predicate SendsFit(s: State) {
    var sent := s.received + s.channel;
    && (forall i, j :: 0 <= i < j < |sent| ==> sent[i] != sent[j])
    && (forall i: nat :: i in sent <==> i < |s.jobs| && s.jobs[i] == Over(Allowed))
    && |s.channel| <= LIMIT
  }

  ghost predicate Inv(w: World, q: Query, ids: seq<string>, s: State) {
    JobsFit(w, q, ids, s) && SendsFit(s) && (s.closed ==> AllOver(s.jobs) && !s.failed)
  }

  lemma {:induction false} ActiveLaunched(jobs: seq<Job>, i: nat)
    requires i < |jobs| && jobs[i] == Unborn
    ensures |Active(jobs[i := Running])| == |Active(jobs)| + 1
  {
    assert Active(jobs[i := Running]) == Active(jobs) + {i};
  }

  lemma {:induction false} ActiveMoved(jobs: seq<Job>, i: nat, j: Job)
    requires i < |jobs| && (jobs[i] == Running || jobs[i] == Sending) && (j == Sending || j.Over?)
    ensures |Active(jobs[i := j])| <= |Active(jobs)|
  {
    if j == Sending {
      assert Active(jobs[i := j]) == Active(jobs);
    } else {
      assert Active(jobs[i := j]) == Active(jobs) - {i};
    }
  }

  lemma {:induction false} EvaluateKeepsJobs(w: World, q: Query, ids: seq<string>, s: State, i: nat, o: Outcome)
    requires JobsFit(w, q, ids, s) && Enabled(w, q, ids, s, Evaluate(i, o))
    ensures JobsFit(w, q, ids, Apply(w, q, ids, s, Evaluate(i, o)))
  {
    hide Execute, Active;
    var t := Apply(w, q, ids, s, Evaluate(i, o));
    ActiveMoved(s.jobs, i, t.jobs[i]);
    if s.failed {
      var k :| 0 <= k < |ids| && s.jobs[k].Over? && s.jobs[k].outcome.Failed?;
      assert t.jobs[k] == s.jobs[k];
    } else if o.Failed? {
      assert t.jobs[i] == Over(o);
    }
  }

  lemma {:induction false} StepKeepsJobs(w: World, q: Query, ids: seq<string>, s: State, a: Step)
    requires JobsFit(w, q, ids, s) && Enabled(w, q, ids, s, a)
    ensures JobsFit(w, q, ids, Apply(w, q, ids, s, a))
  {
    hide Execute, Active;
    var t := Apply(w, q, ids, s, a);
    if a.Evaluate? {
      EvaluateKeepsJobs(w, q, ids, s, a.job, a.outcome);
    } else if a.Launch? || a.Send? {
      var at := if a.Launch? then s.launched else a.job;
      if a.Launch? {
        ActiveLaunched(s.jobs, at);
      } else {
        ActiveMoved(s.jobs, at, Over(Allowed));
      }
      if s.failed {
        var k :| 0 <= k < |ids| && s.jobs[k].Over? && s.jobs[k].outcome.Failed?;
        assert t.jobs[k] == s.jobs[k];
      }
    }
  }

  lemma {:induction false} StepKeepsSends(w: World, q: Query, ids: seq<string>, s: State, a: Step)
    requires JobsFit(w, q, ids, s) && SendsFit(s) && Enabled(w, q, ids, s, a)
    ensures SendsFit(Apply(w, q, ids, s, a))
  {
    hide Execute, Active;
    var t := Apply(w, q, ids, s, a);
    var sent, sent' := s.received + s.channel, t.received + t.channel;
    if a.Send? {
      assert sent' == sent + [a.job];
      assert a.job !in sent;
    } else {
      assert sent' == sent;
    }
  }

  lemma {:induction false} StepKeepsInv(w: World, q: Query, ids: seq<string>, s: State, a: Step)
    requires Inv(w, q, ids, s) && Enabled(w, q, ids, s, a)
    ensures Inv(w, q, ids, Apply(w, q, ids, s, a))
  {
    StepKeepsJobs(w, q, ids, s, a);
    StepKeepsSends(w, q, ids, s, a);
  }

  lemma {:induction false} RunsKeepInv(w: World, q: Query, ids: seq<string>, states: seq<State>, k: nat)
    requires Run(w, q, ids, states) && k < |states|
    ensures Inv(w, q, ids, states[k])
  {
    hide Execute;
    if k == 0 {
      assert Active(states[0].jobs) == {};
    } else {
      RunsKeepInv(w, q, ids, states, k - 1);
      assert Next(w, q, ids, states[k - 1], states[k]);
      var a :| Enabled(w, q, ids, states[k - 1], a) && states[k] == Apply(w, q, ids, states[k - 1], a);
      hide Inv, Enabled, Apply;
      StepKeepsInv(w, q, ids, states[k - 1], a);
    }
  }

  // ---------------------------------------------------------------- the answer

  ghost predicate InAnswer(ids: seq<string>, s: State, id: string) {
    exists k :: 0 <= k < |s.received| && s.received[k] < |ids| && ids[s.received[k]] == id
  }

  /** Each id at most once. */
  ghost predicate AnswerIsDistinct(ids: seq<string>, s: State) {
    && (forall k :: 0 <= k < |s.received| ==> s.received[k] < |ids|)
    && forall j, k :: 0 <= j < k < |s.received| ==> ids[s.received[j]] != ids[s.received[k]]
  }

  lemma {:induction false} ReturnedAnswers(w: World, q: Query, ids: seq<string>, s: State)
    requires Inv(w, q, ids, s) && Returned(s) && NoDuplicates(ids)
    ensures AnswerIsDistinct(ids, s)
    ensures forall id :: InAnswer(ids, s, id) ==> id in ids && Decision(true) in Execute(w, RequestFor(q, id))
    ensures forall id :: id in ids && !InAnswer(ids, s, id) ==> Decision(false) in Execute(w, RequestFor(q, id))
  {
    hide Execute, Active;
    assert s.received + s.channel == s.received;
    forall k | 0 <= k < |s.received|
      ensures s.received[k] < |ids| && s.jobs[s.received[k]] == Over(Allowed)
    {
      assert s.received[k] in s.received;
    }
    forall i | i in s.received
      ensures i < |ids| && InAnswer(ids, s, ids[i])
    {
      var k :| 0 <= k < |s.received| && s.received[k] == i;
    }
    forall id | id in ids && !InAnswer(ids, s, id)
      ensures Decision(false) in Execute(w, RequestFor(q, id))
    {
      var i: nat :| i < |ids| && ids[i] == id;
      assert i !in s.received && s.jobs[i] != Over(Allowed);
    }
  }

  /** Cache off, any schema, any schedule: when LookupEntity returns, its answer is exactly the listed ids whose check
      is ALLOWED, each once. */
  lemma {:induction false} LookupEntityFilters(w: World, q: Query, ids: seq<string>, states: seq<State>, id: string)
    requires Run(w, q, ids, states) && Returned(states[|states| - 1])
    requires NoDuplicates(ids) && w.hits == iset{}
    ensures AnswerIsDistinct(ids, states[|states| - 1])
    ensures InAnswer(ids, states[|states| - 1], id) <==> id in ids && Allowed in Execute(w, RequestFor(q, id))
  {
    hide Execute, Inv;
    var s := states[|states| - 1];
    RunsKeepInv(w, q, ids, states, |states| - 1);
    ReturnedAnswers(w, q, ids, s);
    ExecuteIsDecisive(w, RequestFor(q, id));
  }

  /** With any sound cache: when LookupEntity returns, its answer is exactly the stored entities of the type of which
      the subject is a member, each once. */
  lemma {:induction false} LookupEntityIsExact(w: World, q: Query, ids: seq<string>, states: seq<State>, id: string)
    requires Run(w, q, ids, states) && Returned(states[|states| - 1])
    requires NoDuplicates(ids) && forall x :: x in ids <==> exists t :: t in w.store && t.entity == Entity(q.typ, x)
    requires SoundHits(w) && PlainExclusion(w.schema, w.store)
    ensures AnswerIsDistinct(ids, states[|states| - 1])
    ensures InAnswer(ids, states[|states| - 1], id) <==>
            (exists t :: t in w.store && t.entity == Entity(q.typ, id)) &&
            Member(w.schema, w.store, Goal(Entity(q.typ, id), q.permission, q.subject))
  {
    hide Execute, Inv, Member, SoundHits, PlainExclusion;
    var s := states[|states| - 1];
    RunsKeepInv(w, q, ids, states, |states| - 1);
    ReturnedAnswers(w, q, ids, s);
    if id in ids {
      ExecuteIsSound(w, RequestFor(q, id), InAnswer(ids, s, id));
    }
  }

  // ---------------------------------------------------------------- does it return?

  ghost predicate Stuck(w: World, q: Query, ids: seq<string>, s: State) {
    forall a :: !Enabled(w, q, ids, s, a)
  }

  lemma {:induction false} RunningGoesOn(w: World, q: Query, ids: seq<string>, s: State, i: nat)
    requires |s.jobs| == |ids| && i < |ids|
    ensures s.jobs[i] == Running ==> !Stuck(w, q, ids, s)
  {
    ExecuteAnswers(w, RequestFor(q, ids[i]));
    var o :| o in Execute(w, RequestFor(q, ids[i]));
    assert Enabled(w, q, ids, s, Evaluate(i, o)) <==> s.jobs[i] == Running;
  }

  /** A run that can take no further step has returned, unless a check failed: then the launcher waits forever on the
      error channel, and the drain loop on the result channel. */
  lemma {:induction false} ReturnsUnlessACheckFails(w: World, q: Query, ids: seq<string>, states: seq<State>)
    requires Run(w, q, ids, states)
    requires Stuck(w, q, ids, states[|states| - 1])
    ensures Returned(states[|states| - 1]) <==> !states[|states| - 1].failed
  {
    hide Execute;
    var s := states[|states| - 1];
    RunsKeepInv(w, q, ids, states, |states| - 1);
    assert !Enabled(w, q, ids, s, Receive);
    assert s.channel == [];
    forall i: nat | i < |ids|
      ensures s.jobs[i] == Unborn || s.jobs[i].Over?
    {
      assert !Enabled(w, q, ids, s, Send(i));
      RunningGoesOn(w, q, ids, s, i);
    }
    assert Active(s.jobs) == {};
    assert !Enabled(w, q, ids, s, Launch);
    assert !Enabled(w, q, ids, s, Close);
  }

  function Weight(j: Job): nat {
    match j
    case Unborn => 4
    case Running => 3
    case Sending => 2
    case Over(_) => 0
  }

  function Weights(jobs: seq<Job>): nat {
    if jobs == [] then 0 else Weight(jobs[0]) + Weights(jobs[1..])
  }

  lemma {:induction false} WeightsUpdate(jobs: seq<Job>, i: nat, j: Job)
    requires i < |jobs|
    ensures Weights(jobs[i := j]) == Weights(jobs) - Weight(jobs[i]) + Weight(j)
  {
    if i == 0 {
      assert jobs[i := j][1..] == jobs[1..];
    } else {
      assert jobs[i := j][1..] == jobs[1..][i - 1 := j];
      WeightsUpdate(jobs[1..], i - 1, j);
    }
  }

  function Measure(s: State): nat {
    Weights(s.jobs) + |s.channel| + if s.closed then 0 else 1
  }

  /** Every step lowers the measure, so every run ends. */
  lemma {:induction false} StepsLowerTheMeasure(w: World, q: Query, ids: seq<string>, s: State, a: Step)
    requires Inv(w, q, ids, s) && Enabled(w, q, ids, s, a)
    ensures Measure(Apply(w, q, ids, s, a)) < Measure(s)
  {
    hide Execute, Active, SendsFit;
    match a
    case Launch => WeightsUpdate(s.jobs, s.launched, Running);
    case Evaluate(i, o) => WeightsUpdate(s.jobs, i, if o == Allowed then Sending else Over(o));
    case Send(i) => WeightsUpdate(s.jobs, i, Over(Allowed));
    case Close =>
    case Receive =>
  }

  // ---------------------------------------------------------------- on which inputs?

  ghost predicate CanFail(w: World, q: Query, id: string) {
    exists e :: Failed(e) in Execute(w, RequestFor(q, id))
  }

  ghost predicate CanSucceed(w: World, q: Query, id: string) {
    exists b :: Decision(b) in Execute(w, RequestFor(q, id))
  }

  /** Every run that goes on as long as it can returns. */
  ghost predicate AlwaysReturns(w: World, q: Query, ids: seq<string>) {
    forall states :: Run(w, q, ids, states) && Stuck(w, q, ids, states[|states| - 1]) ==> Returned(states[|states| - 1])
  }

  ghost predicate SometimesReturns(w: World, q: Query, ids: seq<string>) {
    exists states :: Run(w, q, ids, states) && Returned(states[|states| - 1])
  }

  /** One possible outcome for each id. */
  ghost predicate Picks(w: World, q: Query, ids: seq<string>, picks: seq<Outcome>) {
    |picks| == |ids| && forall i :: 0 <= i < |ids| ==> picks[i] in Execute(w, RequestFor(q, ids[i]))
  }

  /** The checks that are over had the outcomes picked for them. */
  ghost predicate Plays(s: State, picks: seq<Outcome>) {
    && |s.jobs| == |picks|
    && (forall i :: 0 <= i < |picks| && s.jobs[i].Over? ==> s.jobs[i].outcome == picks[i])
    && (forall i :: 0 <= i < |picks| && s.jobs[i] == Sending ==> picks[i] == Allowed)
  }

  lemma {:induction false} PlayOn(w: World, q: Query, ids: seq<string>, picks: seq<Outcome>, s: State) returns (a: Step)
    requires Inv(w, q, ids, s) && Picks(w, q, ids, picks) && Plays(s, picks) && !Stuck(w, q, ids, s)
    ensures Enabled(w, q, ids, s, a) && Plays(Apply(w, q, ids, s, a), picks)
  {
    hide Execute, Active;
    a :| Enabled(w, q, ids, s, a);
    if a.Evaluate? {
      a := Evaluate(a.job, picks[a.job]);
    }
  }

  /** Any pick of outcomes can be played to the end. */
  lemma {:induction false} PlayToTheEnd(w: World, q: Query, ids: seq<string>, picks: seq<Outcome>, before: seq<State>)
    returns (states: seq<State>)
    requires Picks(w, q, ids, picks) && Run(w, q, ids, before) && Plays(before[|before| - 1], picks)
    ensures Run(w, q, ids, states) && Stuck(w, q, ids, states[|states| - 1]) && Plays(states[|states| - 1], picks)
    decreases Measure(before[|before| - 1])
  {
    hide Inv, Picks, Plays, Enabled, Apply, Stuck, Measure;
    var s := before[|before| - 1];
    if Stuck(w, q, ids, s) {
      return before;
    }
    RunsKeepInv(w, q, ids, before, |before| - 1);
    var a := PlayOn(w, q, ids, picks, s);
    StepsLowerTheMeasure(w, q, ids, s, a);
    var t := Apply(w, q, ids, s, a);
    assert Next(w, q, ids, s, t);
    states := PlayToTheEnd(w, q, ids, picks, before + [t]);
  }

  lemma {:induction false} PlayFromTheStart(w: World, q: Query, ids: seq<string>, picks: seq<Outcome>)
    returns (states: seq<State>)
    requires Picks(w, q, ids, picks)
    ensures Run(w, q, ids, states) && Stuck(w, q, ids, states[|states| - 1]) && Plays(states[|states| - 1], picks)
  {
    states := PlayToTheEnd(w, q, ids, picks, [Init(|ids|)]);
  }

  lemma {:induction false} SomeOutcome(w: World, q: Query, id: string) returns (o: Outcome)
    ensures o in Execute(w, RequestFor(q, id))
    ensures CanFail(w, q, id) ==> o.Failed?
  {
    ExecuteAnswers(w, RequestFor(q, id));
    if e :| Failed(e) in Execute(w, RequestFor(q, id)) {
      o := Failed(e);
    } else {
      o :| o in Execute(w, RequestFor(q, id));
    }
  }

  lemma {:induction false} PickFailures(w: World, q: Query, ids: seq<string>, n: nat) returns (picks: seq<Outcome>)
    requires n <= |ids|
    ensures |picks| == n
    ensures forall i :: 0 <= i < n ==>
              picks[i] in Execute(w, RequestFor(q, ids[i])) && (CanFail(w, q, ids[i]) ==> picks[i].Failed?)
  {
    hide Execute, CanFail;
    picks := [];
    if n > 0 {
      var front := PickFailures(w, q, ids, n - 1);
      var o := SomeOutcome(w, q, ids[n - 1]);
      picks := front + [o];
    }
  }

  lemma {:induction false} PickDecisions(w: World, q: Query, ids: seq<string>, n: nat) returns (picks: seq<Outcome>)
    requires n <= |ids| && forall i :: 0 <= i < n ==> CanSucceed(w, q, ids[i])
    ensures |picks| == n
    ensures forall i :: 0 <= i < n ==> picks[i] in Execute(w, RequestFor(q, ids[i])) && !picks[i].Failed?
  {
    hide Execute;
    picks := [];
    if n > 0 {
      var front := PickDecisions(w, q, ids, n - 1);
      assert CanSucceed(w, q, ids[n - 1]);
      var b :| Decision(b) in Execute(w, RequestFor(q, ids[n - 1]));
      picks := front + [Decision(b)];
    }
  }

  lemma {:induction false} ReturnedDecided(w: World, q: Query, ids: seq<string>, states: seq<State>, i: nat)
    requires Run(w, q, ids, states) && Returned(states[|states| - 1]) && i < |ids|
    ensures CanSucceed(w, q, ids[i])
    ensures i < |states[|states| - 1].jobs|
    ensures states[|states| - 1].jobs[i].Over? && !states[|states| - 1].jobs[i].outcome.Failed?
  {
    hide Execute;
    RunsKeepInv(w, q, ids, states, |states| - 1);
    var o := states[|states| - 1].jobs[i].outcome;
    assert o == Decision(o == Allowed);
  }

  /** LookupEntity always returns if and only if no check of a listed id can fail. */
  lemma {:induction false} AlwaysReturnsIff(w: World, q: Query, ids: seq<string>)
    ensures AlwaysReturns(w, q, ids) <==> forall id :: id in ids ==> !CanFail(w, q, id)
  {
    hide Execute, Stuck, Inv;
    if id :| id in ids && CanFail(w, q, id) {
      var i: nat :| i < |ids| && ids[i] == id;
      var picks := PickFailures(w, q, ids, |ids|);
      var states := PlayFromTheStart(w, q, ids, picks);
      if Returned(states[|states| - 1]) {
        ReturnedDecided(w, q, ids, states, i);
      }
    } else {
      forall states | Run(w, q, ids, states) && Stuck(w, q, ids, states[|states| - 1])
        ensures Returned(states[|states| - 1])
      {
        NothingFailed(w, q, ids, states);
        ReturnsUnlessACheckFails(w, q, ids, states);
      }
    }
  }

  lemma {:induction false} NothingFailed(w: World, q: Query, ids: seq<string>, states: seq<State>)
    requires Run(w, q, ids, states) && forall id :: id in ids ==> !CanFail(w, q, id)
    ensures !states[|states| - 1].failed
  {
    hide Execute;
    var s := states[|states| - 1];
    RunsKeepInv(w, q, ids, states, |states| - 1);
    forall i | 0 <= i < |ids| && s.jobs[i].Over?
      ensures !s.jobs[i].outcome.Failed?
    {
      assert !CanFail(w, q, ids[i]);
    }
  }

  /** Some run returns if and only if every listed check can succeed. */
  lemma {:induction false} SometimesReturnsIff(w: World, q: Query, ids: seq<string>)
    ensures SometimesReturns(w, q, ids) <==> forall id :: id in ids ==> CanSucceed(w, q, id)
  {
    hide Execute, Stuck, Inv, CanSucceed;
    if forall id :: id in ids ==> CanSucceed(w, q, id) {
      var picks := PickDecisions(w, q, ids, |ids|);
      var states := PlayFromTheStart(w, q, ids, picks);
      PlayedDecisions(w, q, ids, picks, states);
      ReturnsUnlessACheckFails(w, q, ids, states);
    }
    if states :| Run(w, q, ids, states) && Returned(states[|states| - 1]) {
      forall id | id in ids
        ensures CanSucceed(w, q, id)
      {
        var i: nat :| i < |ids| && ids[i] == id;
        ReturnedDecided(w, q, ids, states, i);
      }
    }
  }

  lemma {:induction false} PlayedDecisions(w: World, q: Query, ids: seq<string>, picks: seq<Outcome>,
                                           states: seq<State>)
    requires Run(w, q, ids, states) && Plays(states[|states| - 1], picks)
    requires |picks| == |ids| && forall i :: 0 <= i < |picks| ==> !picks[i].Failed?
    ensures !states[|states| - 1].failed
  {
    hide Execute;
    RunsKeepInv(w, q, ids, states, |states| - 1);
  }

  /** An input on which LookupEntity hangs in every run: a permission the entity type does not define. */
  lemma {:induction false} UndefinedPermissionHangs(w: World, q: Query, ids: seq<string>)
    requires !Defines(w.schema, q.typ, q.permission) && ids != []
    ensures !SometimesReturns(w, q, ids)
  {
    SometimesReturnsIff(w, q, ids);
    assert ids[0] in ids && !CanSucceed(w, q, ids[0]);
  }
}
