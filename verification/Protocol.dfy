/** The goroutines behind one combiner call (internal/commands/check.go:354-465) as a small-step state machine: the
    launcher of `run`, one goroutine per child, the receive loop of `checkUnion` or `checkIntersection` with its
    deferred cleanup, and cancellation from outside. Every atomic operation on a channel, on the wait group or on the
    cancellation context is one step. */
module Protocol {
  import opened Base
  import opened Check
  import opened Soundness
  import opened Scheduling

  /** `may[i]` are the outcomes child `i` can deliver, at least one; `limit` is the concurrency limit. */
  datatype Config = Config(union: bool, limit: Limit, may: seq<set<Outcome>>)

  ghost predicate ValidConfig(cfg: Config) {
    cfg.may != [] && forall i :: 0 <= i < |cfg.may| ==> cfg.may[i] != {}
  }

  /** The launcher goroutine; `next` is the loop index. */
  datatype Launcher =
    | Selecting(next: nat) // at the select
    | Acquired(next: nat)  // sent to the semaphore channel
    | Counted(next: nat)   // called wg.Add, about to start the child
    | Leaving(next: nat)   // left the loop
    | Gone(next: nat)      // called wg.Done

  datatype Kid =
    | Unborn
    | Running
    | Ready(outcome: Outcome) // evaluated, about to send
    | Sent                    // sent to decisionChan
    | Released                // received from the semaphore channel
    | Finished                // called wg.Done

  datatype Consumer =
    | Reading                 // in the receive loop
    | Returning               // result fixed, deferred function not started
    | Waiting                 // called cancel, waits for the wait group
    | SemaphoreClosed         // closed the semaphore channel
    | Done                    // closed decisionChan and returned

  /** `log` are all sends on decisionChan in order, of which the first `read` have been received. */
  datatype State = State(
    launcher: Launcher,
    kids: seq<Kid>,
    tokens: nat,
    wg: int,
    log: seq<(nat, Outcome)>,
    read: nat,
    consumer: Consumer,
    result: Option<Outcome>,
    parentDone: bool,
    cancelled: bool)

  datatype Action =
    | Acquire | Count | Spawn | BreakOut | LoopEnd | Leave
    | Evaluate(kid: nat, outcome: Outcome) | Send(kid: nat) | Release(kid: nat) | Finish(kid: nat)
    | Receive | ReturnDefault | ReturnCancelled | CallCancel | CloseSemaphore | CloseDecisions
    | CancelParent

  function Init(cfg: Config): State {
    State(Selecting(0), seq(|cfg.may|, _ => Unborn), 0, 1, [], 0, Reading, None, false, false)
  }

  /** The decision on which the receive loop reads on. */
  function Neutral(cfg: Config): Outcome {
    if cfg.union then Denied else Allowed
  }

  /** A step can be taken now: channel operations do not block, the wait is over, the branch is possible. */
  predicate Enabled(cfg: Config, s: State, a: Action) {
    var n := |s.kids|;
    match a
    case Acquire => s.launcher.Selecting? && s.launcher.next < n && s.tokens < cfg.limit
    case Count => s.launcher.Acquired?
    case Spawn => s.launcher.Counted? && s.launcher.next < n
    case BreakOut => s.launcher.Selecting? && s.launcher.next < n && s.cancelled
    case LoopEnd => s.launcher.Selecting? && s.launcher.next >= n
    case Leave => s.launcher.Leaving?
    case Evaluate(i, o) =>
      i < n && s.kids[i] == Running && i < |cfg.may| && (o in cfg.may[i] || (s.cancelled && o == Failed(Interrupted)))
    case Send(i) => i < n && s.kids[i].Ready? && |s.log| - s.read < n
    case Release(i) => i < n && s.kids[i] == Sent && s.tokens > 0
    case Finish(i) => i < n && s.kids[i] == Released
    case Receive => s.consumer == Reading && s.read < n && s.read < |s.log|
    case ReturnDefault => s.consumer == Reading && s.read >= n
    case ReturnCancelled => s.consumer == Reading && s.read < n && s.parentDone
    case CallCancel => s.consumer == Returning
    case CloseSemaphore => s.consumer == Waiting && s.wg == 0
    case CloseDecisions => s.consumer == SemaphoreClosed
    case CancelParent => !s.parentDone
  }

  function Apply(cfg: Config, s: State, a: Action): State
    requires Enabled(cfg, s, a)
  {
    match a
    case Acquire => s.(launcher := Acquired(s.launcher.next), tokens := s.tokens + 1)
    case Count => s.(launcher := Counted(s.launcher.next), wg := s.wg + 1)
    case Spawn => s.(launcher := Selecting(s.launcher.next + 1), kids := s.kids[s.launcher.next := Running])
    case BreakOut => s.(launcher := Leaving(s.launcher.next))
    case LoopEnd => s.(launcher := Leaving(s.launcher.next))
    case Leave => s.(launcher := Gone(s.launcher.next), wg := s.wg - 1)
    case Evaluate(i, o) => s.(kids := s.kids[i := Ready(o)])
    case Send(i) => s.(kids := s.kids[i := Sent], log := s.log + [(i, s.kids[i].outcome)])
    case Release(i) => s.(kids := s.kids[i := Released], tokens := s.tokens - 1)
    case Finish(i) => s.(kids := s.kids[i := Finished], wg := s.wg - 1)
    case Receive =>
      var o := s.log[s.read].1;
      if o == Neutral(cfg) then s.(read := s.read + 1)
      else s.(read := s.read + 1, consumer := Returning, result := Some(o))
    case ReturnDefault => s.(consumer := Returning, result := Some(Neutral(cfg)))
    case ReturnCancelled => s.(consumer := Returning, result := Some(Failed(Interrupted)))
    case CallCancel => s.(consumer := Waiting, cancelled := true)
    case CloseSemaphore => s.(consumer := SemaphoreClosed)
    case CloseDecisions => s.(consumer := Done)
    case CancelParent => s.(parentDone := true, cancelled := true)
  }

  ghost predicate Next(cfg: Config, s: State, t: State) {
    exists a :: Enabled(cfg, s, a) && t == Apply(cfg, s, a)
  }

  ghost predicate Run(cfg: Config, states: seq<State>) {
    && states != [] && states[0] == Init(cfg)
    && forall i :: 0 < i < |states| ==> Next(cfg, states[i - 1], states[i])
  }

  // ---------------------------------------------------------------- counting

  /** Occupies a slot of the semaphore. */
  predicate Holding(k: Kid) { k.Running? || k.Ready? || k.Sent? }

  /** Counted by the wait group. */
  predicate Unfinished(k: Kid) { Holding(k) || k.Released? }

  predicate HasSent(k: Kid) { k.Sent? || k.Released? || k.Finished? }

  datatype Tally = OfHolding | OfUnfinished | OfSent

  predicate Counts(t: Tally, k: Kid) {
    match t
    case OfHolding => Holding(k)
    case OfUnfinished => Unfinished(k)
    case OfSent => HasSent(k)
  }

  function One(b: bool): nat { if b then 1 else 0 }

  function Number(kids: seq<Kid>, t: Tally): nat {
    if kids == [] then 0 else One(Counts(t, kids[0])) + Number(kids[1..], t)
  }

  /** The number is 0 when no child counts, and the number of children when all do. */
  lemma {:induction false} NumberBounds(kids: seq<Kid>, t: Tally)
    ensures Number(kids, t) <= |kids|
    ensures Number(kids, t) == 0 <==> forall i :: 0 <= i < |kids| ==> !Counts(t, kids[i])
    ensures Number(kids, t) == |kids| <==> forall i :: 0 <= i < |kids| ==> Counts(t, kids[i])
  {
    if kids != [] {
      NumberBounds(kids[1..], t);
      assert forall i :: 0 < i < |kids| ==> kids[i] == kids[1..][i - 1];
    }
  }

  lemma {:induction false} NumberUpdate(kids: seq<Kid>, i: nat, k: Kid, t: Tally)
    requires i < |kids|
    ensures Number(kids[i := k], t) + One(Counts(t, kids[i])) == Number(kids, t) + One(Counts(t, k))
  {
    if i == 0 {
      assert kids[i := k][1..] == kids[1..];
    } else {
      assert kids[i := k][1..] == kids[1..][i - 1 := k];
      NumberUpdate(kids[1..], i - 1, k, t);
    }
  }

  // ---------------------------------------------------------------- the invariant

  ghost predicate Counters(cfg: Config, s: State) {
    && s.tokens == One(s.launcher.Acquired? || s.launcher.Counted?) + Number(s.kids, OfHolding)
    && s.tokens <= cfg.limit
    && s.wg == One(!s.launcher.Gone?) + One(s.launcher.Counted?) + Number(s.kids, OfUnfinished)
    && |s.log| == Number(s.kids, OfSent)
    && s.read <= |s.log|
  }

  ghost predicate Launching(s: State) {
    && s.launcher.next <= |s.kids|
    && (s.launcher.Acquired? || s.launcher.Counted? ==> s.launcher.next < |s.kids|)
    && (forall i :: 0 <= i < |s.kids| ==> (s.kids[i] == Unborn <==> i >= s.launcher.next))
    && ((s.launcher.Leaving? || s.launcher.Gone?) && !s.cancelled ==> s.launcher.next == |s.kids|)
  }

  /** What a child may send: its own outcomes, or an interruption once the context is cancelled. */
  ghost predicate Deliverable(cfg: Config, s: State, i: nat, o: Outcome)
    requires i < |cfg.may|
  {
    o in cfg.may[i] || (s.cancelled && o == Failed(Interrupted))
  }

  /** Each child that has sent has exactly one entry in the log, and no other child has any. */
  ghost predicate Sends(cfg: Config, s: State) {
    && |s.kids| == |cfg.may|
    && (forall i :: 0 <= i < |s.kids| && s.kids[i].Ready? ==> Deliverable(cfg, s, i, s.kids[i].outcome))
    && (forall j :: 0 <= j < |s.log| ==>
          s.log[j].0 < |s.kids| && HasSent(s.kids[s.log[j].0]) && Deliverable(cfg, s, s.log[j].0, s.log[j].1))
    && (forall j, k :: 0 <= j < k < |s.log| ==> s.log[j].0 != s.log[k].0)
    && (forall i :: 0 <= i < |s.kids| && HasSent(s.kids[i]) ==> exists j :: 0 <= j < |s.log| && s.log[j].0 == i)
  }

  ghost predicate Consuming(cfg: Config, s: State) {
    && s.read <= |s.log|
    && (s.parentDone ==> s.cancelled)
    && (s.consumer == Reading ==>
          && s.result == None
          && (s.cancelled ==> s.parentDone)
          && forall j :: 0 <= j < s.read ==> s.log[j].1 == Neutral(cfg))
    && (s.consumer != Reading ==> s.result.Some? && Outcomes(cfg, s, s.result.value))
    && (s.consumer.Waiting? || s.consumer.SemaphoreClosed? || s.consumer.Done? ==> s.cancelled)
    && (s.consumer.SemaphoreClosed? || s.consumer.Done? ==> s.wg == 0)
  }

  /** The results of the big-step engine for these children and this limit. */
  ghost function Results(cfg: Config, parentDone: bool): set<Outcome> {
    var w := World(map[], [], iset{}, parentDone, cfg.limit);
    if cfg.union then UnionOf(w, cfg.may) else IntersectionOf(w, cfg.may)
  }

  ghost predicate Outcomes(cfg: Config, s: State, o: Outcome) {
    o in Results(cfg, s.parentDone)
  }

  /** The children in the order in which they have sent. */
  function Heard(log: seq<(nat, Outcome)>): seq<nat> {
    seq(|log|, k requires 0 <= k < |log| => log[k].0)
  }

  /** When a child sends, fewer than `limit` of those before it are still to send. */
  ghost predicate Slots(cfg: Config, s: State) {
    forall k :: 0 <= k < |s.log| ==> Missing(Heard(s.log), k, s.log[k].0) < cfg.limit
  }

  ghost predicate Inv(cfg: Config, s: State) {
    && ValidConfig(cfg)
    && Sends(cfg, s)
    && Slots(cfg, s)
    && s.read <= |s.log|
    && Counters(cfg, s)
    && Launching(s)
    && Consuming(cfg, s)
  }

  // ---------------------------------------------------------------- every step keeps the invariant

  /** The child a step moves, and where to. */
  function Moved(s: State, a: Action): Option<(nat, Kid)> {
    match a
    case Spawn => Some((s.launcher.next, Running))
    case Evaluate(i, o) => Some((i, Ready(o)))
    case Send(i) => Some((i, Sent))
    case Release(i) => Some((i, Released))
    case Finish(i) => Some((i, Finished))
    case _ => None
  }

  lemma {:induction false} CountersKept(cfg: Config, s: State, a: Action)
    requires Counters(cfg, s) && Launching(s) && Enabled(cfg, s, a)
    ensures Counters(cfg, Apply(cfg, s, a))
  {
    hide Counters, Apply, Enabled, Launching;
    if Moved(s, a).Some? {
      ChildStepCounts(cfg, s, a);
    } else {
      OtherStepCounts(cfg, s, a);
    }
  }

  lemma {:induction false} OtherStepCounts(cfg: Config, s: State, a: Action)
    requires Counters(cfg, s) && Launching(s) && Enabled(cfg, s, a) && Moved(s, a).None?
    ensures Counters(cfg, Apply(cfg, s, a))
  {
    hide Number;
    assert Apply(cfg, s, a).kids == s.kids;
  }

  lemma {:induction false} ChildStepCounts(cfg: Config, s: State, a: Action)
    requires Counters(cfg, s) && Launching(s) && Enabled(cfg, s, a) && Moved(s, a).Some?
    ensures Counters(cfg, Apply(cfg, s, a))
  {
    hide Number;
    var (i, k) := Moved(s, a).value;
    NumberUpdate(s.kids, i, k, OfHolding);
    NumberUpdate(s.kids, i, k, OfUnfinished);
    NumberUpdate(s.kids, i, k, OfSent);
  }

  lemma {:induction false} LaunchingKept(cfg: Config, s: State, a: Action)
    requires Inv(cfg, s) && Enabled(cfg, s, a)
    ensures Launching(Apply(cfg, s, a))
  {
    hide Number, Sends, Consuming, ValidConfig;
  }

  lemma {:induction false} SendKeepsSends(cfg: Config, s: State, i: nat)
    requires Sends(cfg, s) && Enabled(cfg, s, Send(i))
    ensures Sends(cfg, Apply(cfg, s, Send(i)))
  {
    var t := Apply(cfg, s, Send(i));
    assert t.log == s.log + [(i, s.kids[i].outcome)];
    assert t.log[|s.log|].0 == i;
    SenderIsLogged(cfg, s, i);
  }

  lemma {:induction false} SenderIsLogged(cfg: Config, s: State, i: nat)
    requires Sends(cfg, s) && Enabled(cfg, s, Send(i))
    ensures var t := Apply(cfg, s, Send(i));
            forall k :: 0 <= k < |t.kids| && HasSent(t.kids[k]) ==> exists j :: 0 <= j < |t.log| && t.log[j].0 == k
  {
    hide Deliverable;
    var t := Apply(cfg, s, Send(i));
    assert t.log[|s.log|].0 == i;
    forall k | 0 <= k < |t.kids| && HasSent(t.kids[k]) && k != i
      ensures exists j :: 0 <= j < |t.log| && t.log[j].0 == k
    {
      assert HasSent(s.kids[k]);
      var j :| 0 <= j < |s.log| && s.log[j].0 == k;
      assert t.log[j].0 == k;
    }
  }

  lemma {:induction false} SameLogKeepsSends(cfg: Config, s: State, t: State)
    requires Sends(cfg, s) && t.log == s.log && |t.kids| == |s.kids| && (s.cancelled ==> t.cancelled)
    requires forall i :: 0 <= i < |s.kids| ==> (HasSent(s.kids[i]) <==> HasSent(t.kids[i]))
    requires forall i :: 0 <= i < |t.kids| && t.kids[i].Ready? ==> Deliverable(cfg, t, i, t.kids[i].outcome)
    ensures Sends(cfg, t)
  {
    forall j | 0 <= j < |t.log|
      ensures Deliverable(cfg, t, t.log[j].0, t.log[j].1)
    {
      assert Deliverable(cfg, s, s.log[j].0, s.log[j].1);
    }
  }

  lemma {:induction false} OtherStepsKeepSends(cfg: Config, s: State, a: Action)
    requires Sends(cfg, s) && Launching(s) && Enabled(cfg, s, a) && !a.Send?
    ensures Sends(cfg, Apply(cfg, s, a))
  {
    OtherStepsSendNothing(cfg, s, a);
    hide Sends, Apply, Deliverable;
    SameLogKeepsSends(cfg, s, Apply(cfg, s, a));
  }

  ghost predicate SendsNothing(cfg: Config, s: State, t: State) {
    && t.log == s.log && |t.kids| == |s.kids| <= |cfg.may| && (s.cancelled ==> t.cancelled)
    && (forall i :: 0 <= i < |s.kids| ==> (HasSent(s.kids[i]) <==> HasSent(t.kids[i])))
    && (forall i :: 0 <= i < |t.kids| && t.kids[i].Ready? ==> Deliverable(cfg, t, i, t.kids[i].outcome))
  }

  lemma {:induction false} OtherStepsSendNothing(cfg: Config, s: State, a: Action)
    requires Sends(cfg, s) && Launching(s) && Enabled(cfg, s, a) && !a.Send?
    ensures SendsNothing(cfg, s, Apply(cfg, s, a))
  {
    if Moved(s, a).Some? {
      ChildStepSendsNothing(cfg, s, a);
    } else {
      assert Apply(cfg, s, a).kids == s.kids;
    }
  }

  lemma {:induction false} ChildStepSendsNothing(cfg: Config, s: State, a: Action)
    requires Sends(cfg, s) && Launching(s) && Enabled(cfg, s, a) && !a.Send? && Moved(s, a).Some?
    ensures SendsNothing(cfg, s, Apply(cfg, s, a))
  {
  }

  lemma {:induction false} NumberAppend(a: seq<Kid>, b: seq<Kid>, t: Tally)
    ensures Number(a + b, t) == Number(a, t) + Number(b, t)
  {
    if a == [] {
      assert a + b == b;
    } else {
      assert (a + b)[1..] == a[1..] + b;
      NumberAppend(a[1..], b, t);
    }
  }

  /** Started children that have not sent hold a slot. */
  lemma {:induction false} UnsentHold(cfg: Config, s: State, n: nat)
    requires Sends(cfg, s) && Launching(s) && n <= s.launcher.next
    ensures Missing(Heard(s.log), |s.log|, n) <= Number(s.kids[..n], OfHolding)
  {
    if n > 0 {
      UnsentHold(cfg, s, n - 1);
      assert s.kids[..n] == s.kids[..n - 1] + [s.kids[n - 1]];
      NumberAppend(s.kids[..n - 1], [s.kids[n - 1]], OfHolding);
      var order := Heard(s.log);
      assert order[..|s.log|] == order;
      if HasSent(s.kids[n - 1]) {
        var j :| 0 <= j < |s.log| && s.log[j].0 == n - 1;
        assert order[j] == n - 1;
      } else {
        assert Holding(s.kids[n - 1]);
      }
    }
  }

  lemma {:induction false} SendHasSlot(cfg: Config, s: State, i: nat)
    requires Sends(cfg, s) && Launching(s) && Counters(cfg, s) && Enabled(cfg, s, Send(i))
    ensures Missing(Heard(s.log), |s.log|, i) < cfg.limit
  {
    UnsentHold(cfg, s, i);
    assert s.kids == s.kids[..i] + ([s.kids[i]] + s.kids[i + 1..]);
    NumberAppend(s.kids[..i], [s.kids[i]] + s.kids[i + 1..], OfHolding);
    assert Number([s.kids[i]] + s.kids[i + 1..], OfHolding) >= 1;
  }

  lemma {:induction false} SlotsKept(cfg: Config, s: State, a: Action)
    requires Sends(cfg, s) && Launching(s) && Counters(cfg, s) && Slots(cfg, s) && Enabled(cfg, s, a)
    ensures Slots(cfg, Apply(cfg, s, a))
  {
    var t := Apply(cfg, s, a);
    if a.Send? {
      SendHasSlot(cfg, s, a.kid);
      hide Sends, Launching, Counters;
      assert t.log == s.log + [(a.kid, s.kids[a.kid].outcome)];
      assert Heard(t.log) == Heard(s.log) + [a.kid];
      forall k | 0 <= k < |t.log|
        ensures Missing(Heard(t.log), k, t.log[k].0) < cfg.limit
      {
        assert Heard(t.log)[..|s.log|] == Heard(s.log);
        MissingFromPrefix(Heard(s.log), Heard(t.log), k, t.log[k].0);
      }
    } else {
      hide Sends, Launching, Counters;
      assert t.log == s.log;
    }
  }

  lemma {:induction false} OutcomesKept(cfg: Config, s: State, t: State, o: Outcome)
    requires Outcomes(cfg, s, o) && (s.parentDone ==> t.parentDone)
    ensures Outcomes(cfg, t, o)
  {
  }

  /** The decision that ends the receive loop is one the big-step engine allows. */
  lemma {:induction false} StoppingIsAllowed(cfg: Config, s: State)
    requires Inv(cfg, s) && Enabled(cfg, s, Receive) && s.log[s.read].1 != Neutral(cfg)
    ensures Outcomes(cfg, s, s.log[s.read].1)
  {
    var (i, o) := s.log[s.read];
    var order := Heard(s.log);
    assert Deliverable(cfg, s, i, o);
    forall j: nat | j < i && j in order[..s.read]
      ensures Neutral(cfg) in cfg.may[j]
    {
      var k :| 0 <= k < s.read && order[k] == j;
      assert Deliverable(cfg, s, j, s.log[k].1);
    }
    BlockedIsMissing(cfg.may, order, s.read, i, Neutral(cfg));
    if o in cfg.may[i] {
      StopAt(World(map[], [], iset{}, s.parentDone, cfg.limit), cfg.may, i, o, Neutral(cfg));
    }
  }

  /** When all decisions were neutral, every child can deliver the neutral one. */
  lemma {:induction false} ReadingAllIsAllowed(cfg: Config, s: State)
    requires Inv(cfg, s) && Enabled(cfg, s, ReturnDefault)
    ensures Outcomes(cfg, s, Neutral(cfg))
  {
    NumberBounds(s.kids, OfSent);
    forall i | 0 <= i < |cfg.may|
      ensures Neutral(cfg) in cfg.may[i]
    {
      assert HasSent(s.kids[i]);
      var j :| 0 <= j < |s.log| && s.log[j].0 == i;
      assert Deliverable(cfg, s, i, s.log[j].1);
    }
  }

  lemma {:induction false} StopKeepsConsuming(cfg: Config, s: State, a: Action)
    requires Inv(cfg, s) && Enabled(cfg, s, a) && a.Receive? && s.log[s.read].1 != Neutral(cfg)
    ensures Consuming(cfg, Apply(cfg, s, a))
  {
    hide Slots, Launching, Sends, Counters, Outcomes;
    StoppingIsAllowed(cfg, s);
    OutcomesKept(cfg, s, Apply(cfg, s, a), Apply(cfg, s, a).result.value);
  }

  lemma {:induction false} DefaultKeepsConsuming(cfg: Config, s: State, a: Action)
    requires Inv(cfg, s) && Enabled(cfg, s, a) && a.ReturnDefault?
    ensures Consuming(cfg, Apply(cfg, s, a))
  {
    hide Slots, Launching, Sends, Counters, Outcomes;
    ReadingAllIsAllowed(cfg, s);
    OutcomesKept(cfg, s, Apply(cfg, s, a), Apply(cfg, s, a).result.value);
  }

  lemma {:induction false} LateStepKeepsConsuming(cfg: Config, s: State, a: Action)
    requires Inv(cfg, s) && Enabled(cfg, s, a) && s.consumer != Reading
    ensures Consuming(cfg, Apply(cfg, s, a))
  {
    hide Slots, Sends, Outcomes;
    NumberBounds(s.kids, OfUnfinished);
    OutcomesKept(cfg, s, Apply(cfg, s, a), s.result.value);
  }

  lemma {:induction false} ConsumingKept(cfg: Config, s: State, a: Action)
    requires Inv(cfg, s) && Enabled(cfg, s, a)
    ensures Consuming(cfg, Apply(cfg, s, a))
  {
    if s.consumer != Reading {
      LateStepKeepsConsuming(cfg, s, a);
    } else if a.Receive? && s.log[s.read].1 != Neutral(cfg) {
      StopKeepsConsuming(cfg, s, a);
    } else if a.ReturnDefault? {
      DefaultKeepsConsuming(cfg, s, a);
    } else {
      hide Slots, Sends, Outcomes, Launching, Counters;
    }
  }

  lemma {:induction false} StepKeepsInv(cfg: Config, s: State, a: Action)
    requires Inv(cfg, s) && Enabled(cfg, s, a)
    ensures Inv(cfg, Apply(cfg, s, a))
  {
    if a.Send? {
      SendKeepsSends(cfg, s, a.kid);
    } else {
      OtherStepsKeepSends(cfg, s, a);
    }
    SlotsKept(cfg, s, a);
    CountersKept(cfg, s, a);
    LaunchingKept(cfg, s, a);
    ConsumingKept(cfg, s, a);
  }

  lemma {:induction false} InitHasInv(cfg: Config)
    requires ValidConfig(cfg)
    ensures Inv(cfg, Init(cfg))
  {
    NumberBounds(Init(cfg).kids, OfHolding);
    NumberBounds(Init(cfg).kids, OfUnfinished);
    NumberBounds(Init(cfg).kids, OfSent);
  }

  lemma {:induction false} RunsKeepInv(cfg: Config, states: seq<State>, n: nat)
    requires ValidConfig(cfg) && Run(cfg, states) && n < |states|
    ensures Inv(cfg, states[n])
  {
    if n == 0 {
      InitHasInv(cfg);
    } else {
      RunsKeepInv(cfg, states, n - 1);
      assert Next(cfg, states[n - 1], states[n]);
      var a :| Enabled(cfg, states[n - 1], a) && states[n] == Apply(cfg, states[n - 1], a);
      StepKeepsInv(cfg, states[n - 1], a);
    }
  }

  // ---------------------------------------------------------------- safety over whole runs

  /** What no interleaving violates. */
  ghost predicate Safe(cfg: Config, s: State) {
    // at most `limit` children are being evaluated
    && Number(s.kids, OfHolding) <= cfg.limit
    // a child never waits to send its decision, nor to give its slot back
    && (forall i :: 0 <= i < |s.kids| && s.kids[i].Ready? ==> Enabled(cfg, s, Send(i)))
    && (forall i :: 0 <= i < |s.kids| && s.kids[i].Sent? ==> Enabled(cfg, s, Release(i)))
    // no child sends twice
    && (forall j, k :: 0 <= j < k < |s.log| ==> s.log[j].0 != s.log[k].0)
    // the wait group counts the live launcher and the unfinished children, and is only raised while positive
    && s.wg == One(!s.launcher.Gone?) + One(s.launcher.Counted?) + Number(s.kids, OfUnfinished)
    && (Enabled(cfg, s, Count) ==> s.wg > 0)
    // once a channel is closed, every goroutine is over: nothing can use it
    && (s.consumer == SemaphoreClosed || s.consumer == Done ==>
          s.launcher.Gone? && forall i :: 0 <= i < |s.kids| ==> s.kids[i] == Unborn || s.kids[i] == Finished)
    // the answer is one of the big-step engine
    && (s.consumer == Done ==> s.result.Some? && Outcomes(cfg, s, s.result.value))
  }

  lemma {:induction false} InvIsSafe(cfg: Config, s: State)
    requires Inv(cfg, s)
    ensures Safe(cfg, s)
  {
    NumberBounds(s.kids, OfHolding);
    NumberBounds(s.kids, OfUnfinished);
    NumberBounds(s.kids, OfSent);
    forall i | 0 <= i < |s.kids| && s.kids[i].Ready?
      ensures Enabled(cfg, s, Send(i))
    {
      assert !Counts(OfSent, s.kids[i]);
    }
    forall i | 0 <= i < |s.kids| && s.kids[i].Sent?
      ensures Enabled(cfg, s, Release(i))
    {
      assert Counts(OfHolding, s.kids[i]);
    }
    forall i | 0 <= i < |s.kids| && s.wg == 0
      ensures s.kids[i] == Unborn || s.kids[i] == Finished
    {
      assert !Counts(OfUnfinished, s.kids[i]);
    }
  }

  lemma {:induction false} RunsAreSafe(cfg: Config, states: seq<State>, n: nat)
    requires ValidConfig(cfg) && Run(cfg, states) && n < |states|
    ensures Safe(cfg, states[n])
  {
    RunsKeepInv(cfg, states, n);
    InvIsSafe(cfg, states[n]);
  }

  // ---------------------------------------------------------------- no deadlock

  /** Some goroutine, not the outside, can take a step. */
  ghost predicate CanStep(cfg: Config, s: State) {
    exists a :: a != CancelParent && Enabled(cfg, s, a)
  }

  lemma {:induction false} UnfinishedChildSteps(cfg: Config, s: State, i: nat)
    requires Inv(cfg, s) && i < |s.kids| && Unfinished(s.kids[i])
    ensures CanStep(cfg, s)
  {
    InvIsSafe(cfg, s);
    match s.kids[i]
    case Running =>
      var o :| o in cfg.may[i];
      assert Enabled(cfg, s, Evaluate(i, o));
    case Ready(_) => assert Enabled(cfg, s, Send(i));
    case Sent => assert Enabled(cfg, s, Release(i));
    case Released => assert Enabled(cfg, s, Finish(i));
  }

  lemma {:induction false} LauncherSteps(cfg: Config, s: State)
    requires Inv(cfg, s) && !s.launcher.Gone?
    ensures CanStep(cfg, s)
  {
    match s.launcher
    case Selecting(next) =>
      if next >= |s.kids| {
        assert Enabled(cfg, s, LoopEnd);
      } else if s.tokens < cfg.limit {
        assert Enabled(cfg, s, Acquire);
      } else {
        NumberBounds(s.kids, OfHolding);
        var i :| 0 <= i < |s.kids| && Counts(OfHolding, s.kids[i]);
        UnfinishedChildSteps(cfg, s, i);
      }
    case Acquired(_) => assert Enabled(cfg, s, Count);
    case Counted(_) => assert Enabled(cfg, s, Spawn);
    case Leaving(_) => assert Enabled(cfg, s, Leave);
  }

  lemma {:induction false} ReadingSteps(cfg: Config, s: State)
    requires Inv(cfg, s) && s.consumer == Reading
    ensures CanStep(cfg, s)
  {
    NumberBounds(s.kids, OfSent);
    if s.read >= |s.kids| {
      assert Enabled(cfg, s, ReturnDefault);
    } else if s.parentDone {
      assert Enabled(cfg, s, ReturnCancelled);
    } else if s.read < |s.log| {
      assert Enabled(cfg, s, Receive);
    } else if !s.launcher.Gone? {
      LauncherSteps(cfg, s);
    } else {
      var i :| 0 <= i < |s.kids| && !Counts(OfSent, s.kids[i]);
      assert s.kids[i] != Unborn;
      UnfinishedChildSteps(cfg, s, i);
    }
  }

  lemma {:induction false} WaitingSteps(cfg: Config, s: State)
    requires Inv(cfg, s) && s.consumer == Waiting
    ensures CanStep(cfg, s)
  {
    NumberBounds(s.kids, OfUnfinished);
    if s.wg == 0 {
      assert Enabled(cfg, s, CloseSemaphore);
    } else if !s.launcher.Gone? {
      LauncherSteps(cfg, s);
    } else {
      var i :| 0 <= i < |s.kids| && Counts(OfUnfinished, s.kids[i]);
      UnfinishedChildSteps(cfg, s, i);
    }
  }

  /** Until the combiner has returned, some step is possible: no deadlock, early return and cancellation included. */
  lemma {:induction false} NoDeadlock(cfg: Config, s: State)
    requires Inv(cfg, s) && s.consumer != Done
    ensures CanStep(cfg, s)
  {
    match s.consumer
    case Reading => ReadingSteps(cfg, s);
    case Returning => assert Enabled(cfg, s, CallCancel);
    case Waiting => WaitingSteps(cfg, s);
    case SemaphoreClosed => assert Enabled(cfg, s, CloseDecisions);
  }

  // ---------------------------------------------------------------- and always an end

  function KidWork(k: Kid): nat {
    match k
    case Unborn => 5
    case Running => 4
    case Ready(_) => 3
    case Sent => 2
    case Released => 1
    case Finished => 0
  }

  function KidsWork(kids: seq<Kid>): nat {
    if kids == [] then 0 else KidWork(kids[0]) + KidsWork(kids[1..])
  }

  lemma {:induction false} KidsWorkUpdate(kids: seq<Kid>, i: nat, k: Kid)
    requires i < |kids|
    ensures KidsWork(kids[i := k]) + KidWork(kids[i]) == KidsWork(kids) + KidWork(k)
  {
    if i == 0 {
      assert kids[i := k][1..] == kids[1..];
    } else {
      assert kids[i := k][1..] == kids[1..][i - 1 := k];
      KidsWorkUpdate(kids[1..], i - 1, k);
    }
  }

  function LauncherWork(s: State): int {
    var rest := 3 * (|s.kids| - s.launcher.next);
    match s.launcher
    case Selecting(_) => rest + 2
    case Acquired(_) => rest + 1
    case Counted(_) => rest
    case Leaving(_) => 1
    case Gone(_) => 0
  }

  function ConsumerWork(s: State): int {
    match s.consumer
    case Reading => 4 + |s.kids| - s.read
    case Returning => 3
    case Waiting => 2
    case SemaphoreClosed => 1
    case Done => 0
  }

  /** An upper bound on the number of steps still to come. */
  function Work(s: State): int {
    KidsWork(s.kids) + LauncherWork(s) + ConsumerWork(s) + One(!s.parentDone)
  }

  lemma {:induction false} WorkIsNatural(cfg: Config, s: State)
    requires Inv(cfg, s)
    ensures Work(s) >= 0 && s.read <= |s.kids|
  {
    NumberBounds(s.kids, OfSent);
  }

  lemma {:induction false} ChildStepWorks(cfg: Config, s: State, a: Action)
    requires Launching(s) && Enabled(cfg, s, a) && Moved(s, a).Some?
    ensures Work(Apply(cfg, s, a)) < Work(s)
  {
    hide KidsWork;
    var (i, k) := Moved(s, a).value;
    KidsWorkUpdate(s.kids, i, k);
    assert KidWork(k) < KidWork(s.kids[i]);
  }

  lemma {:induction false} OtherStepWorks(cfg: Config, s: State, a: Action)
    requires Launching(s) && s.read <= |s.kids| && Enabled(cfg, s, a) && Moved(s, a).None?
    ensures Work(Apply(cfg, s, a)) < Work(s)
  {
    assert Apply(cfg, s, a).kids == s.kids;
  }

  lemma {:induction false} NextWorks(cfg: Config, s: State, t: State)
    requires Inv(cfg, s) && Next(cfg, s, t)
    ensures Work(t) < Work(s)
  {
    var a :| Enabled(cfg, s, a) && t == Apply(cfg, s, a);
    WorkIsNatural(cfg, s);
    if Moved(s, a).Some? {
      ChildStepWorks(cfg, s, a);
    } else {
      OtherStepWorks(cfg, s, a);
    }
  }

  lemma {:induction false} RunsShrinkWork(cfg: Config, states: seq<State>, n: nat)
    requires ValidConfig(cfg) && Run(cfg, states) && n < |states|
    ensures n + Work(states[n]) <= Work(Init(cfg))
  {
    if n > 0 {
      RunsShrinkWork(cfg, states, n - 1);
      RunsKeepInv(cfg, states, n - 1);
      NextWorks(cfg, states[n - 1], states[n]);
    }
  }

  /** Every run is bounded, and a run that no goroutine can extend has returned a result of the big-step engine. */
  lemma {:induction false} CombinerReturns(cfg: Config, states: seq<State>)
    requires ValidConfig(cfg) && Run(cfg, states)
    ensures |states| <= Work(Init(cfg)) + 1
    ensures var last := states[|states| - 1];
            !CanStep(cfg, last) ==> last.consumer == Done && last.result.Some? && Outcomes(cfg, last, last.result.value)
  {
    var n := |states| - 1;
    RunsShrinkWork(cfg, states, n);
    RunsKeepInv(cfg, states, n);
    WorkIsNatural(cfg, states[n]);
    RunsAreSafe(cfg, states, n);
    if states[n].consumer != Done {
      NoDeadlock(cfg, states[n]);
    }
  }

  // ---------------------------------------------------------------- exactly which results

  /** What each child is to deliver, if anything: the neutral decision, and `o` from child `i`; or, with `i` past the
      end, the neutral decision from all. Children before `i` deliver nothing only if they cannot be neutral. */
  ghost predicate Plan(cfg: Config, picks: seq<Option<Outcome>>, i: nat, o: Outcome) {
    && |picks| == |cfg.may|
    && (forall j :: 0 <= j < |picks| && picks[j].Some? ==> picks[j].value in cfg.may[j])
    && (forall j :: 0 <= j < |picks| && picks[j].Some? && j != i ==> picks[j].value == Neutral(cfg))
    && (forall j :: 0 <= j < |picks| && j < i && picks[j].None? ==> Neutral(cfg) !in cfg.may[j])
    && if i < |picks| then picks[i] == Some(o) && o != Neutral(cfg) && Blocked(cfg.may, i, Neutral(cfg)) < cfg.limit
       else i == |picks| && o == Neutral(cfg) && forall j :: 0 <= j < |picks| ==> picks[j].Some?
  }

  lemma {:induction false} ResultHasPlan(cfg: Config, o: Outcome) returns (picks: seq<Option<Outcome>>, i: nat)
    requires ValidConfig(cfg) && o in Results(cfg, false)
    ensures Plan(cfg, picks, i, o)
  {
    var neutral := Neutral(cfg);
    i := |cfg.may|;
    if o != neutral {
      i :| i < |cfg.may| && o in cfg.may[i] && Blocked(cfg.may, i, neutral) < cfg.limit;
    }
    picks := seq(|cfg.may|, j requires 0 <= j < |cfg.may| =>
      if j == i then Some(o) else if neutral in cfg.may[j] then Some(neutral) else None);
  }

  /** While the loop reads, children have delivered what was planned; afterwards the result is the planned one. */
  ghost predicate Plays(cfg: Config, picks: seq<Option<Outcome>>, o: Outcome, s: State) {
    && !s.parentDone && |picks| == |s.kids|
    && (s.consumer == Reading ==>
          && (forall k :: 0 <= k < |s.kids| && s.kids[k].Ready? ==> picks[k] == Some(s.kids[k].outcome))
          && (forall j :: 0 <= j < |s.log| ==> s.log[j].0 < |picks| && picks[s.log[j].0] == Some(s.log[j].1)))
    && (s.consumer != Reading ==> s.result == Some(o))
  }

  /** A step that follows the plan. */
  ghost predicate Planned(cfg: Config, picks: seq<Option<Outcome>>, s: State, a: Action) {
    && Enabled(cfg, s, a) && a != CancelParent
    && (a.Evaluate? ==> a.kid < |picks| && picks[a.kid] == Some(a.outcome))
  }

  /** A planned child that has been started and is not over can follow the plan. */
  lemma {:induction false} PlannedChildSteps(cfg: Config, picks: seq<Option<Outcome>>, i: nat, o: Outcome, s: State,
                                             k: nat)
    requires Inv(cfg, s) && Plan(cfg, picks, i, o) && k < |s.kids| && Unfinished(s.kids[k])
    requires picks[k].Some? || s.kids[k] != Running
    ensures exists a :: Planned(cfg, picks, s, a)
  {
    InvIsSafe(cfg, s);
    match s.kids[k]
    case Running => assert Planned(cfg, picks, s, Evaluate(k, picks[k].value));
    case Ready(_) => assert Planned(cfg, picks, s, Send(k));
    case Sent => assert Planned(cfg, picks, s, Release(k));
    case Released => assert Planned(cfg, picks, s, Finish(k));
  }

  /** The only children that are not over hold a slot, and cannot be neutral. */
  ghost predicate OnlyBlocked(cfg: Config, picks: seq<Option<Outcome>>, s: State) {
    |picks| == |s.kids| &&
    forall k :: 0 <= k < |s.kids| && Unfinished(s.kids[k]) ==> s.kids[k] == Running && picks[k].None?
  }

  lemma {:induction false} HoldersAreBlocked(cfg: Config, picks: seq<Option<Outcome>>, i: nat, o: Outcome, s: State,
                                             n: nat)
    requires Sends(cfg, s) && Plan(cfg, picks, i, o) && OnlyBlocked(cfg, picks, s) && n <= i && n <= |s.kids|
    ensures Number(s.kids[..n], OfHolding) <= Blocked(cfg.may, n, Neutral(cfg))
  {
    if n > 0 {
      HoldersAreBlocked(cfg, picks, i, o, s, n - 1);
      assert s.kids[..n] == s.kids[..n - 1] + [s.kids[n - 1]];
      NumberAppend(s.kids[..n - 1], [s.kids[n - 1]], OfHolding);
    }
  }

  /** Unless child `i` is started, there is a slot for the next child. */
  lemma {:induction false} BlockedLeaveRoom(cfg: Config, picks: seq<Option<Outcome>>, i: nat, o: Outcome, s: State)
    requires Inv(cfg, s) && Plan(cfg, picks, i, o) && OnlyBlocked(cfg, picks, s)
    requires s.launcher.Selecting? && s.launcher.next <= i
    ensures s.tokens < cfg.limit
  {
    hide Number, Slots, Consuming, Plan, OnlyBlocked, Blocked;
    var n := s.launcher.next;
    HoldersAreBlocked(cfg, picks, i, o, s, n);
    FewAreBlocked(cfg, picks, i, o, n);
    hide Sends;
    HoldersAreStarted(s.kids, n);
  }

  /** Only children that were started hold a slot. */
  lemma {:induction false} HoldersAreStarted(kids: seq<Kid>, n: nat)
    requires n <= |kids| && forall k :: n <= k < |kids| ==> kids[k] == Unborn
    ensures Number(kids, OfHolding) == Number(kids[..n], OfHolding)
  {
    hide Number;
    assert kids == kids[..n] + kids[n..];
    NumberAppend(kids[..n], kids[n..], OfHolding);
    NumberBounds(kids[n..], OfHolding);
  }

  lemma {:induction false} FewAreBlocked(cfg: Config, picks: seq<Option<Outcome>>, i: nat, o: Outcome, n: nat)
    requires Plan(cfg, picks, i, o) && n <= i
    ensures n <= |cfg.may| && Blocked(cfg.may, n, Neutral(cfg)) < cfg.limit
  {
    if i < |picks| {
      BlockedGrows(cfg.may, n, i, Neutral(cfg));
    } else {
      NothingBlocks(cfg.may, n, Neutral(cfg));
    }
  }

  lemma {:induction false} SentTargetIsLogged(cfg: Config, picks: seq<Option<Outcome>>, i: nat, o: Outcome, s: State)
    requires Sends(cfg, s) && Plan(cfg, picks, i, o) && Plays(cfg, picks, o, s) && s.consumer == Reading
    ensures i < |s.kids| && HasSent(s.kids[i]) ==> exists j :: 0 <= j < |s.log| && s.log[j] == (i, o)
  {
    if i < |s.kids| && HasSent(s.kids[i]) {
      var j :| 0 <= j < |s.log| && s.log[j].0 == i;
      assert s.log[j] == (i, o);
    }
  }

  /** Once the loop has read all there is, and nothing but blocked children is running, child `i` is not started. */
  lemma {:induction false} TargetIsUnborn(cfg: Config, picks: seq<Option<Outcome>>, i: nat, o: Outcome, s: State)
    requires Inv(cfg, s) && Plan(cfg, picks, i, o) && Plays(cfg, picks, o, s) && OnlyBlocked(cfg, picks, s)
    requires s.consumer == Reading && s.read >= |s.log|
    ensures i < |s.kids| ==> s.kids[i] == Unborn
  {
    hide Counters, Slots, Launching, Number;
    SentTargetIsLogged(cfg, picks, i, o, s);
  }

  lemma {:induction false} PlannedLauncherSteps(cfg: Config, picks: seq<Option<Outcome>>, i: nat, o: Outcome, s: State)
    requires Inv(cfg, s) && Plan(cfg, picks, i, o) && Plays(cfg, picks, o, s) && OnlyBlocked(cfg, picks, s)
    requires s.consumer == Reading && s.read >= |s.log|
    ensures exists a :: Planned(cfg, picks, s, a)
  {
    hide Number, Slots, Sends;
    TargetIsUnborn(cfg, picks, i, o, s);
    match s.launcher
    case Selecting(next) =>
      if next >= |s.kids| {
        assert Planned(cfg, picks, s, LoopEnd);
      } else {
        BlockedLeaveRoom(cfg, picks, i, o, s);
        assert Planned(cfg, picks, s, Acquire);
      }
    case Acquired(_) => assert Planned(cfg, picks, s, Count);
    case Counted(_) => assert Planned(cfg, picks, s, Spawn);
    case Leaving(_) => assert Planned(cfg, picks, s, Leave);
    case Gone(_) =>
      NumberBounds(s.kids, OfSent);
      assert Planned(cfg, picks, s, ReturnDefault);
  }

  /** While the loop reads, some step follows the plan. */
  lemma {:induction false} PlannedStep(cfg: Config, picks: seq<Option<Outcome>>, i: nat, o: Outcome, s: State)
    requires Inv(cfg, s) && Plan(cfg, picks, i, o) && Plays(cfg, picks, o, s) && s.consumer == Reading
    ensures exists a :: Planned(cfg, picks, s, a)
  {
    hide Number, Plan, Slots, Launching, Sends;
    if s.read < |s.log| {
      NumberBounds(s.kids, OfSent);
      assert Planned(cfg, picks, s, Receive);
    } else if k: nat :| k < |s.kids| && Unfinished(s.kids[k]) && (picks[k].Some? || s.kids[k] != Running) {
      PlannedChildSteps(cfg, picks, i, o, s, k);
    } else {
      assert OnlyBlocked(cfg, picks, s);
      PlannedLauncherSteps(cfg, picks, i, o, s);
    }
  }

  /** The loop ends with the planned result. */
  lemma {:induction false} PlannedEnd(cfg: Config, picks: seq<Option<Outcome>>, i: nat, o: Outcome, s: State, a: Action)
    requires Inv(cfg, s) && Plan(cfg, picks, i, o) && Plays(cfg, picks, o, s) && Planned(cfg, picks, s, a)
    requires s.consumer == Reading && Apply(cfg, s, a).consumer != Reading
    ensures Apply(cfg, s, a).result == Some(o)
  {
    hide Number, Slots, Launching;
    SentTargetIsLogged(cfg, picks, i, o, s);
    NumberBounds(s.kids, OfSent);
    assert a == ReturnDefault ==> forall k :: 0 <= k < |s.kids| ==> Counts(OfSent, s.kids[k]);
  }

  lemma {:induction false} PlanIsFollowed(cfg: Config, picks: seq<Option<Outcome>>, i: nat, o: Outcome, s: State,
                                          a: Action)
    requires Inv(cfg, s) && Plan(cfg, picks, i, o) && Plays(cfg, picks, o, s)
    requires s.consumer == Reading ==> Planned(cfg, picks, s, a)
    requires a != CancelParent && Enabled(cfg, s, a)
    ensures Plays(cfg, picks, o, Apply(cfg, s, a))
  {
    hide Number, Counters, Slots, Launching, Sends, Plan, Consuming;
    if s.consumer == Reading && Apply(cfg, s, a).consumer != Reading {
      PlannedEnd(cfg, picks, i, o, s, a);
    }
  }

  /** A run that follows the plan goes on until the combiner has returned the planned result. */
  lemma {:induction false} PlayOn(cfg: Config, picks: seq<Option<Outcome>>, i: nat, o: Outcome, before: seq<State>)
    returns (states: seq<State>)
    requires ValidConfig(cfg) && Run(cfg, before) && Plan(cfg, picks, i, o)
    requires Plays(cfg, picks, o, before[|before| - 1])
    ensures Run(cfg, states) && Plays(cfg, picks, o, states[|states| - 1]) && states[|states| - 1].consumer == Done
    decreases Work(before[|before| - 1]) + 1
  {
    hide Inv, Plan, Plays, Enabled, Apply, Planned, Work;
    var s := before[|before| - 1];
    if s.consumer == Done {
      return before;
    }
    RunsKeepInv(cfg, before, |before| - 1);
    var a := GoOn(cfg, picks, i, o, s);
    PlanIsFollowed(cfg, picks, i, o, s, a);
    var t := Apply(cfg, s, a);
    assert Next(cfg, s, t);
    NextWorks(cfg, s, t);
    WorkIsNatural(cfg, s);
    states := PlayOn(cfg, picks, i, o, before + [t]);
  }

  lemma {:induction false} GoOn(cfg: Config, picks: seq<Option<Outcome>>, i: nat, o: Outcome, s: State)
    returns (a: Action)
    requires Inv(cfg, s) && Plan(cfg, picks, i, o) && Plays(cfg, picks, o, s) && s.consumer != Done
    ensures a != CancelParent && Enabled(cfg, s, a) && (s.consumer == Reading ==> Planned(cfg, picks, s, a))
  {
    hide Inv, Plan, Plays, Enabled;
    if s.consumer == Reading {
      PlannedStep(cfg, picks, i, o, s);
      a :| Planned(cfg, picks, s, a);
    } else {
      NoDeadlock(cfg, s);
      a :| a != CancelParent && Enabled(cfg, s, a);
    }
  }

  /** Some run without cancellation from outside ends with this result. */
  ghost predicate CanReturn(cfg: Config, o: Outcome) {
    exists states :: Run(cfg, states) && Returns(states[|states| - 1], o)
  }

  ghost predicate Returns(s: State, o: Outcome) {
    s.consumer == Done && s.result == Some(o) && !s.parentDone
  }

  /** For every limit: the results of the combiner over all runs without cancellation from outside are exactly those of
      the big-step engine. */
  lemma {:induction false} ResultsAreExact(cfg: Config, o: Outcome)
    requires ValidConfig(cfg)
    ensures CanReturn(cfg, o) <==> o in Results(cfg, false)
  {
    hide Results, Inv;
    if states :| Run(cfg, states) && Returns(states[|states| - 1], o) {
      RunsAreSafe(cfg, states, |states| - 1);
    }
    if o in Results(cfg, false) {
      var picks, i := ResultHasPlan(cfg, o);
      PlanLengths(cfg, picks, i, o);
      var states := PlayOn(cfg, picks, i, o, [Init(cfg)]);
      assert Returns(states[|states| - 1], o);
    }
  }

  lemma {:induction false} PlanLengths(cfg: Config, picks: seq<Option<Outcome>>, i: nat, o: Outcome)
    requires Plan(cfg, picks, i, o)
    ensures Plays(cfg, picks, o, Init(cfg))
  {
  }

  /** Spelled out: a decision that is not neutral can be the result if and only if some child can deliver it while fewer
      than `limit` of those before it cannot be neutral; the neutral one if and only if every child can deliver it. */
  lemma {:induction false} ResultsUnderTheLimit(cfg: Config, o: Outcome)
    requires ValidConfig(cfg)
    ensures CanReturn(cfg, o) <==>
            if o == Neutral(cfg) then forall i :: 0 <= i < |cfg.may| ==> o in cfg.may[i]
            else exists i :: 0 <= i < |cfg.may| && o in cfg.may[i] && Blocked(cfg.may, i, Neutral(cfg)) < cfg.limit
  {
    ResultsAreExact(cfg, o);
  }

  /** A limit of at least the number of children rules nothing out. */
  lemma {:induction false} ResultsOfAWideLimit(cfg: Config, o: Outcome)
    requires ValidConfig(cfg) && |cfg.may| <= cfg.limit && o != Neutral(cfg)
    ensures CanReturn(cfg, o) <==> exists i :: 0 <= i < |cfg.may| && o in cfg.may[i]
  {
    ResultsAreExact(cfg, o);
    WideLimitRulesNothingOut(World(map[], [], iset{}, false, cfg.limit), cfg.may, Neutral(cfg), o);
  }

  /** When none of the first `limit` children can be neutral, no decision that only a later child can deliver is ever
      the result. */
  lemma {:induction false} LaterChildrenAreShutOut(cfg: Config, o: Outcome)
    requires ValidConfig(cfg) && cfg.limit <= |cfg.may| && o != Neutral(cfg)
    requires forall i :: 0 <= i < cfg.limit ==> Neutral(cfg) !in cfg.may[i] && o !in cfg.may[i]
    ensures !CanReturn(cfg, o)
  {
    ResultsAreExact(cfg, o);
    FullHouse(World(map[], [], iset{}, false, cfg.limit), cfg.may, Neutral(cfg), o);
  }
}
