/** Snap tokens of the Postgres store (internal/repositories/postgres): overlapping transactions create and expire
    rows, and a reader holding the token of a committed transaction selects rows by `SnapshotQuery`. The tables
    default the creating transaction, the token and its snapshot to the current transaction
    (migrations/20230117143902_initial.sql). */
module Snapshots {
  import opened Base

  type Xid = nat

  /** What `pg_current_snapshot()` returns: transactions from `xmax` on and those in `xip` are not finished. */
  datatype Snapshot = Snapshot(xmax: Xid, xip: set<Xid>)

  predicate Visible(x: Xid, snap: Snapshot) {
    x < snap.xmax && x !in snap.xip
  }

  /** `expired` is 0 while the row is live. */
  datatype Row = Row(tuple: Tuple, created: Xid, expired: Xid)

  type Table = map<nat, Row>

  /** `SnapshotQuery` for the token `r`, whose snapshot is `snap`. */
  predicate SnapshotQuery(row: Row, snap: Snapshot, r: Xid) {
    && (Visible(row.created, snap) || row.created == r)
    && (!Visible(row.expired, snap) || row.expired == 0)
    && row.expired != r
  }

  /** A transaction: its snapshot, its id once it has written, the rows it creates and the row ids it expires. `base`
      remembers the committed table at the time of the snapshot. */
  datatype Tx = Tx(snap: Snapshot, base: Table, xid: Option<Xid>, created: map<nat, Tuple>, expired: set<nat>)

  /** `tokens` is the committed part of the transactions table. */
  datatype State = State(nextXid: Xid, nextId: nat, running: map<nat, Tx>, tokens: map<Xid, Tx>, rows: Table)

  datatype Action =
    | Begin(session: nat)
    | AssignXid(session: nat)
    | Insert(session: nat, tuple: Tuple)
    | Expire(session: nat, ids: set<nat>)
    | Commit(session: nat)
    | Abort(session: nat)

  const INIT := State(1, 1, map[], map[], map[])

  function ActiveXids(running: map<nat, Tx>): set<Xid> {
    set h | h in running && running[h].xid.Some? :: running[h].xid.value
  }

  /** An update waits for, and fails on, a concurrent update of the same row. */
  predicate CanExpire(s: State, h: nat, ids: set<nat>)
    requires h in s.running
  {
    forall id :: id in ids ==>
      && id in s.running[h].base && s.running[h].base[id].expired == 0
      && id in s.rows && s.rows[id] == s.running[h].base[id]
      && forall k :: k in s.running ==> id !in s.running[k].expired
  }

  predicate Enabled(s: State, a: Action) {
    match a
    case Begin(h) => h !in s.running
    case AssignXid(h) => h in s.running && s.running[h].xid.None?
    case Insert(h, _) => h in s.running && s.running[h].xid.Some?
    case Expire(h, ids) => h in s.running && s.running[h].xid.Some? && CanExpire(s, h, ids)
    case Commit(h) => h in s.running && s.running[h].xid.Some?
    case Abort(h) => h in s.running
  }

  function Publish(rows: Table, tx: Tx): Table
    requires tx.xid.Some?
  {
    map id | id in rows.Keys + tx.created.Keys ::
      if id in tx.created then Row(tx.created[id], tx.xid.value, 0)
      else if id in tx.expired then rows[id].(expired := tx.xid.value)
      else rows[id]
  }

  function Apply(s: State, a: Action): State
    requires Enabled(s, a)
  {
    match a
    case Begin(h) =>
      s.(running := s.running[h := Tx(Snapshot(s.nextXid, ActiveXids(s.running)), s.rows, None, map[], {})])
    case AssignXid(h) =>
      s.(running := s.running[h := s.running[h].(xid := Some(s.nextXid))], nextXid := s.nextXid + 1)
    case Insert(h, t) =>
      s.(running := s.running[h := s.running[h].(created := s.running[h].created[s.nextId := t])],
         nextId := s.nextId + 1)
    case Expire(h, ids) =>
      s.(running := s.running[h := s.running[h].(expired := s.running[h].expired + ids)])
    case Commit(h) =>
      var tx := s.running[h];
      s.(running := s.running - {h}, tokens := s.tokens[tx.xid.value := tx], rows := Publish(s.rows, tx))
    case Abort(h) =>
      s.(running := s.running - {h})
  }

  ghost predicate Next(s: State, t: State) {
    exists a :: Enabled(s, a) && t == Apply(s, a)
  }

  ghost predicate Run(states: seq<State>) {
    && states != [] && states[0] == INIT
    && forall i :: 0 < i < |states| ==> Next(states[i - 1], states[i])
  }

  // ---------------------------------------------------------------- what a token means

  /** The tuples a reader with token `r` selects, by row id. */
  function Selected(s: State, r: Xid): map<nat, Tuple>
    requires r in s.tokens
  {
    map id | id in s.rows && SnapshotQuery(s.rows[id], s.tokens[r].snap, r) :: s.rows[id].tuple
  }

  /** The database as the transaction left it: the live rows of its snapshot, without those it expired, and its own. */
  function View(tx: Tx): map<nat, Tuple> {
    (map id | id in tx.base && tx.base[id].expired == 0 && id !in tx.expired :: tx.base[id].tuple) + tx.created
  }

  // ---------------------------------------------------------------- the invariant

  /** How the committed table relates to the one a transaction saw: nothing visible to it has changed since. */
  ghost predicate Tracks(rows: Table, tx: Tx) {
    && (forall id :: id in tx.base ==>
          && id in rows
          && rows[id].tuple == tx.base[id].tuple && rows[id].created == tx.base[id].created
          && Visible(rows[id].created, tx.snap)
          && (tx.base[id].expired != 0 ==>
                rows[id].expired == tx.base[id].expired && Visible(rows[id].expired, tx.snap))
          && (tx.base[id].expired == 0 ==> rows[id].expired == 0 || !Visible(rows[id].expired, tx.snap)))
    && (forall id :: id in rows && id !in tx.base ==> !Visible(rows[id].created, tx.snap))
  }

  /** A running transaction: its writes are its own, and nobody has touched the rows it expires. */
  ghost predicate Pending(s: State, tx: Tx) {
    && Tracks(s.rows, tx)
    && tx.snap.xmax <= s.nextXid
    && (forall id :: id in tx.created ==> id < s.nextId && id !in s.rows)
    && (forall id :: id in tx.expired ==>
          id in tx.base && id in s.rows && tx.base[id].expired == 0 && s.rows[id] == tx.base[id])
    && tx.created.Keys !! tx.expired
    && (tx.xid.None? ==> tx.created == map[] && tx.expired == {})
    && (tx.xid.Some? ==>
          && 0 < tx.xid.value < s.nextXid && tx.xid.value !in s.tokens
          && forall id :: id in s.rows ==> s.rows[id].created != tx.xid.value && s.rows[id].expired != tx.xid.value)
  }

  /** A committed transaction: its id marks exactly the rows it created and expired. */
  ghost predicate Settled(s: State, r: Xid, tx: Tx) {
    && Tracks(s.rows, tx)
    && tx.snap.xmax <= s.nextXid && 0 < r < s.nextXid
    && (forall id :: id in tx.created ==>
          && id in s.rows && id !in tx.base && s.rows[id].tuple == tx.created[id]
          && (s.rows[id].expired == 0 || !Visible(s.rows[id].expired, tx.snap)))
    && tx.created.Keys !! tx.expired
    && (forall id :: id in s.rows ==> (s.rows[id].created == r <==> id in tx.created))
    && (forall id :: id in s.rows ==> (s.rows[id].expired == r <==> id in tx.expired))
    && (forall id :: id in tx.expired ==> id in tx.base && tx.base[id].expired == 0)
  }

  /** No unfinished transaction is visible in any snapshot. */
  ghost predicate Unseen(s: State, snap: Snapshot) {
    forall h :: h in s.running && s.running[h].xid.Some? ==> !Visible(s.running[h].xid.value, snap)
  }

  ghost predicate Apart(a: Tx, b: Tx) {
    && a.expired !! b.expired
    && a.created.Keys !! b.created.Keys
    && (a.xid.Some? ==> a.xid != b.xid)
  }

  ghost predicate Inv(s: State) {
    && s.nextXid > 0
    && (forall id :: id in s.rows ==>
          id < s.nextId && s.rows[id].created < s.nextXid && s.rows[id].expired < s.nextXid && s.rows[id].created > 0)
    && (forall h :: h in s.running ==> Pending(s, s.running[h]) && Unseen(s, s.running[h].snap))
    && (forall r :: r in s.tokens ==> Settled(s, r, s.tokens[r]) && Unseen(s, s.tokens[r].snap))
    && (forall h, k :: h in s.running && k in s.running && h != k ==> Apart(s.running[h], s.running[k]))
  }

  /** Under the invariant, a token selects the view of its transaction. */
  lemma {:induction false} SettledSelectsView(s: State, r: Xid)
    requires Inv(s) && r in s.tokens
    ensures Selected(s, r) == View(s.tokens[r])
  {
    var tx := s.tokens[r];
    assert Settled(s, r, tx);
    forall id
      ensures id in Selected(s, r) <==> id in View(tx)
      ensures id in View(tx) ==> Selected(s, r)[id] == View(tx)[id]
    {
    }
  }

  // ---------------------------------------------------------------- every step keeps the invariant

  /** A table in which rows were added and live rows expired, all by a transaction that `tx` does not see. */
  ghost predicate UnseenChange(rows: Table, rows': Table, tx: Tx, x: Xid) {
    && x != 0 && !Visible(x, tx.snap)
    && (forall id :: id in rows ==>
          id in rows' && (rows'[id] == rows[id] || (rows[id].expired == 0 && rows'[id] == rows[id].(expired := x))))
    && (forall id :: id in rows' && id !in rows ==> rows'[id].created == x)
  }

  lemma {:induction false} UnseenChangeTracks(rows: Table, rows': Table, tx: Tx, x: Xid)
    requires Tracks(rows, tx) && UnseenChange(rows, rows', tx, x)
    ensures Tracks(rows', tx)
  {
  }

  lemma {:induction false} BeginTracks(s: State, h: nat)
    requires Inv(s) && h !in s.running
    ensures var tx := Apply(s, Begin(h)).running[h];
            Pending(Apply(s, Begin(h)), tx) && Unseen(Apply(s, Begin(h)), tx.snap)
  {
    var snap := Snapshot(s.nextXid, ActiveXids(s.running));
    forall id | id in s.rows
      ensures Visible(s.rows[id].created, snap)
      ensures s.rows[id].expired != 0 ==> Visible(s.rows[id].expired, snap)
    {
      forall k | k in s.running && s.running[k].xid.Some?
        ensures s.rows[id].created != s.running[k].xid.value && s.rows[id].expired != s.running[k].xid.value
      {
        assert Pending(s, s.running[k]);
      }
    }
    forall k | k in s.running && s.running[k].xid.Some?
      ensures !Visible(s.running[k].xid.value, snap)
    {
      assert s.running[k].xid.value in ActiveXids(s.running);
    }
  }

  /** A step of session `h` that publishes nothing. */
  ghost predicate Private(s: State, t: State, h: nat) {
    && t.rows == s.rows && t.tokens == s.tokens && s.nextXid <= t.nextXid && s.nextId <= t.nextId
    && (forall k :: k in t.running && k != h ==> k in s.running && t.running[k] == s.running[k])
    && (h in t.running && t.running[h].xid.Some? ==>
          (h in s.running && s.running[h].xid == t.running[h].xid) || t.running[h].xid.value >= s.nextXid)
  }

  lemma {:induction false} PrivateKeepsUnseen(s: State, t: State, h: nat, snap: Snapshot)
    requires Private(s, t, h) && Unseen(s, snap) && snap.xmax <= s.nextXid
    ensures Unseen(t, snap)
  {
  }

  lemma {:induction false} PrivateKeepsPending(s: State, t: State, h: nat, tx: Tx)
    requires Private(s, t, h) && Pending(s, tx)
    ensures Pending(t, tx)
  {
    hide Tracks;
  }

  lemma {:induction false} PrivateKeepsSettled(s: State, t: State, h: nat, r: Xid, tx: Tx)
    requires Private(s, t, h) && Settled(s, r, tx)
    ensures Settled(t, r, tx)
  {
    hide Tracks;
  }

  lemma {:induction false} SnapshotIsPast(s: State, tx: Tx, r: Xid)
    requires Pending(s, tx) || Settled(s, r, tx)
    ensures tx.snap.xmax <= s.nextXid
  {
    hide Tracks;
  }

  /** The invariant after such a step needs to be shown for the session itself only. */
  lemma {:induction false} PrivateStepKeeps(s: State, t: State, h: nat)
    requires Inv(s) && Private(s, t, h)
    requires h in t.running ==> Pending(t, t.running[h]) && Unseen(t, t.running[h].snap)
    requires forall k :: h in t.running && k in t.running && k != h ==> Apart(t.running[h], t.running[k])
    ensures Inv(t)
  {
    hide Pending, Settled, Unseen;
    forall k | k in t.running && k != h
      ensures Pending(t, t.running[k]) && Unseen(t, t.running[k].snap)
    {
      SnapshotIsPast(s, s.running[k], 0);
      PrivateKeepsPending(s, t, h, s.running[k]);
      PrivateKeepsUnseen(s, t, h, s.running[k].snap);
    }
    forall r | r in t.tokens
      ensures Settled(t, r, t.tokens[r]) && Unseen(t, t.tokens[r].snap)
    {
      SnapshotIsPast(s, s.tokens[r], r);
      PrivateKeepsSettled(s, t, h, r, s.tokens[r]);
      PrivateKeepsUnseen(s, t, h, s.tokens[r].snap);
    }
  }

  lemma {:induction false} BeginKeeps(s: State, h: nat)
    requires Inv(s) && h !in s.running
    ensures Inv(Apply(s, Begin(h)))
  {
    hide Pending, Unseen, Inv;
    BeginTracks(s, h);
    PrivateStepKeeps(s, Apply(s, Begin(h)), h);
  }

  lemma {:induction false} AssignXidKeeps(s: State, h: nat)
    requires Inv(s) && Enabled(s, AssignXid(h))
    ensures Inv(Apply(s, AssignXid(h)))
  {
    var t := Apply(s, AssignXid(h));
    SessionAssigns(s, h);
    forall k | k in t.running && k != h
      ensures Apart(t.running[h], t.running[k])
    {
      assert Pending(s, s.running[k]) && Apart(s.running[h], s.running[k]);
    }
    hide Pending, Unseen, Inv;
    PrivateStepKeeps(s, t, h);
  }

  lemma {:induction false} SessionAssigns(s: State, h: nat)
    requires Inv(s) && Enabled(s, AssignXid(h))
    ensures var t := Apply(s, AssignXid(h)); Pending(t, t.running[h]) && Unseen(t, t.running[h].snap)
  {
    assert Pending(s, s.running[h]) && Unseen(s, s.running[h].snap);
    var t := Apply(s, AssignXid(h));
    forall r | r in s.tokens
      ensures r < s.nextXid
    {
      assert Settled(s, r, s.tokens[r]);
    }
    PrivateKeepsUnseen(s, t, h, s.running[h].snap);
  }

  lemma {:induction false} TracksIgnoresWrites(rows: Table, tx: Tx, tx': Tx)
    requires tx'.snap == tx.snap && tx'.base == tx.base
    ensures Tracks(rows, tx) ==> Tracks(rows, tx')
  {
  }

  lemma {:induction false} InsertKeepsApart(s: State, h: nat, tuple: Tuple, k: nat)
    requires Inv(s) && Enabled(s, Insert(h, tuple)) && k in s.running && k != h
    ensures Apart(Apply(s, Insert(h, tuple)).running[h], s.running[k])
  {
    hide Tracks, Unseen, Settled;
    assert Pending(s, s.running[k]) && Apart(s.running[h], s.running[k]);
  }

  lemma {:induction false} InsertKeeps(s: State, h: nat, tuple: Tuple)
    requires Inv(s) && Enabled(s, Insert(h, tuple))
    ensures Inv(Apply(s, Insert(h, tuple)))
  {
    hide Pending, Unseen, Inv, Apart;
    var t := Apply(s, Insert(h, tuple));
    SessionInserts(s, h, tuple);
    forall k | k in t.running && k != h
      ensures Apart(t.running[h], t.running[k])
    {
      InsertKeepsApart(s, h, tuple, k);
    }
    PrivateStepKeeps(s, t, h);
  }

  lemma {:induction false} SessionInserts(s: State, h: nat, tuple: Tuple)
    requires Inv(s) && Enabled(s, Insert(h, tuple))
    ensures var t := Apply(s, Insert(h, tuple)); Pending(t, t.running[h]) && Unseen(t, t.running[h].snap)
  {
    assert Pending(s, s.running[h]) && Unseen(s, s.running[h].snap);
    hide Inv, Pending, Unseen, Tracks;
    InsertKeepsPending(s, h, tuple);
    PrivateKeepsUnseen(s, Apply(s, Insert(h, tuple)), h, s.running[h].snap);
  }

  lemma {:induction false} InsertKeepsPending(s: State, h: nat, tuple: Tuple)
    requires Enabled(s, Insert(h, tuple)) && Pending(s, s.running[h]) && forall id :: id in s.rows ==> id < s.nextId
    ensures Pending(Apply(s, Insert(h, tuple)), Apply(s, Insert(h, tuple)).running[h])
  {
    hide Tracks;
    TracksIgnoresWrites(s.rows, s.running[h], Apply(s, Insert(h, tuple)).running[h]);
  }

  lemma {:induction false} ExpireKeepsApart(s: State, h: nat, ids: set<nat>, k: nat)
    requires Inv(s) && Enabled(s, Expire(h, ids)) && k in s.running && k != h
    ensures Apart(Apply(s, Expire(h, ids)).running[h], s.running[k])
  {
    hide Pending, Unseen, Settled;
    assert Apart(s.running[h], s.running[k]);
  }

  lemma {:induction false} ExpireKeeps(s: State, h: nat, ids: set<nat>)
    requires Inv(s) && Enabled(s, Expire(h, ids))
    ensures Inv(Apply(s, Expire(h, ids)))
  {
    hide Pending, Unseen, Inv, Apart, CanExpire;
    var t := Apply(s, Expire(h, ids));
    SessionExpires(s, h, ids);
    forall k | k in t.running && k != h
      ensures Apart(t.running[h], t.running[k])
    {
      ExpireKeepsApart(s, h, ids, k);
    }
    PrivateStepKeeps(s, t, h);
  }

  lemma {:induction false} SessionExpires(s: State, h: nat, ids: set<nat>)
    requires Inv(s) && Enabled(s, Expire(h, ids))
    ensures var t := Apply(s, Expire(h, ids)); Pending(t, t.running[h]) && Unseen(t, t.running[h].snap)
  {
    assert Pending(s, s.running[h]) && Unseen(s, s.running[h].snap);
    PrivateKeepsUnseen(s, Apply(s, Expire(h, ids)), h, s.running[h].snap);
  }

  lemma {:induction false} AbortKeeps(s: State, h: nat)
    requires Inv(s) && Enabled(s, Abort(h))
    ensures Inv(Apply(s, Abort(h)))
  {
    hide Pending, Unseen, Inv;
    PrivateStepKeeps(s, Apply(s, Abort(h)), h);
  }

  /** For every other transaction, a commit is a change it does not see. */
  lemma {:induction false} CommitIsUnseen(s: State, h: nat, tx: Tx)
    requires Inv(s) && Enabled(s, Commit(h))
    requires Unseen(s, tx.snap)
    ensures UnseenChange(s.rows, Apply(s, Commit(h)).rows, tx, s.running[h].xid.value)
  {
    assert Pending(s, s.running[h]);
  }

  lemma {:induction false} CommitKeepsPending(s: State, h: nat, k: nat)
    requires Inv(s) && Enabled(s, Commit(h)) && k in s.running && k != h
    ensures Pending(Apply(s, Commit(h)), s.running[k]) && Unseen(Apply(s, Commit(h)), s.running[k].snap)
  {
    assert Pending(s, s.running[k]) && Unseen(s, s.running[k].snap) && Pending(s, s.running[h]);
    assert Apart(s.running[h], s.running[k]);
    hide Inv, Pending, Tracks, Visible, Apart;
    CommitIsUnseen(s, h, s.running[k]);
    UnseenChangeTracks(s.rows, Apply(s, Commit(h)).rows, s.running[k], s.running[h].xid.value);
    ApartKeepsPending(s, h, s.running[k]);
  }

  lemma {:induction false} ApartKeepsPending(s: State, h: nat, tx: Tx)
    requires Enabled(s, Commit(h)) && Pending(s, s.running[h]) && Pending(s, tx) && Apart(s.running[h], tx)
    requires Tracks(Apply(s, Commit(h)).rows, tx)
    ensures Pending(Apply(s, Commit(h)), tx)
  {
    hide Tracks;
  }

  lemma {:induction false} CommitKeepsSettled(s: State, h: nat, r: Xid)
    requires Inv(s) && Enabled(s, Commit(h)) && r in s.tokens
    ensures Settled(Apply(s, Commit(h)), r, s.tokens[r]) && Unseen(Apply(s, Commit(h)), s.tokens[r].snap)
  {
    assert Settled(s, r, s.tokens[r]) && Unseen(s, s.tokens[r].snap) && Pending(s, s.running[h]);
    CommitIsUnseen(s, h, s.tokens[r]);
    UnseenChangeTracks(s.rows, Apply(s, Commit(h)).rows, s.tokens[r], s.running[h].xid.value);
  }

  lemma {:induction false} CommitSettles(s: State, h: nat)
    requires Inv(s) && Enabled(s, Commit(h))
    ensures var tx := s.running[h];
            Settled(Apply(s, Commit(h)), tx.xid.value, tx) && Unseen(Apply(s, Commit(h)), tx.snap)
  {
    var tx := s.running[h];
    assert Pending(s, tx) && Unseen(s, tx.snap);
    CommitIsUnseen(s, h, tx);
    assert tx.base.Keys <= s.rows.Keys;
    hide Inv, Pending, Tracks, Unseen;
    UnseenChangeTracks(s.rows, Apply(s, Commit(h)).rows, tx, tx.xid.value);
    OwnCommitSettles(s, h);
  }

  lemma {:induction false} OwnCommitSettles(s: State, h: nat)
    requires Enabled(s, Commit(h)) && Pending(s, s.running[h]) && Unseen(s, s.running[h].snap)
    requires s.running[h].base.Keys <= s.rows.Keys && Tracks(Apply(s, Commit(h)).rows, s.running[h])
    ensures var tx := s.running[h];
            Settled(Apply(s, Commit(h)), tx.xid.value, tx) && Unseen(Apply(s, Commit(h)), tx.snap)
  {
    hide Tracks;
  }

  lemma {:induction false} CommitKeepsRows(s: State, h: nat)
    requires Inv(s) && Enabled(s, Commit(h))
    ensures var t := Apply(s, Commit(h));
            forall id :: id in t.rows ==>
              id < t.nextId && t.rows[id].created < t.nextXid && t.rows[id].expired < t.nextXid &&
              t.rows[id].created > 0
  {
    assert Pending(s, s.running[h]);
  }

  lemma {:induction false} CommitKeeps(s: State, h: nat)
    requires Inv(s) && Enabled(s, Commit(h))
    ensures Inv(Apply(s, Commit(h)))
  {
    hide Pending, Settled, Unseen, Publish;
    var t := Apply(s, Commit(h));
    CommitKeepsRows(s, h);
    CommitSettles(s, h);
    forall k | k in t.running
      ensures Pending(t, t.running[k]) && Unseen(t, t.running[k].snap)
    {
      CommitKeepsPending(s, h, k);
    }
    forall r | r in t.tokens
      ensures Settled(t, r, t.tokens[r]) && Unseen(t, t.tokens[r].snap)
    {
      if r != s.running[h].xid.value {
        CommitKeepsSettled(s, h, r);
      }
    }
  }

  lemma {:induction false} StepKeepsInv(s: State, a: Action)
    requires Inv(s) && Enabled(s, a)
    ensures Inv(Apply(s, a))
  {
    hide Inv;
    match a
    case Begin(h) => BeginKeeps(s, h);
    case AssignXid(h) => AssignXidKeeps(s, h);
    case Insert(h, t) => InsertKeeps(s, h, t);
    case Expire(h, ids) => ExpireKeeps(s, h, ids);
    case Commit(h) => CommitKeeps(s, h);
    case Abort(h) => AbortKeeps(s, h);
  }

  lemma {:induction false} RunsKeepInv(states: seq<State>, n: nat)
    requires Run(states) && n < |states|
    ensures Inv(states[n])
    decreases n
  {
    if n > 0 {
      RunsKeepInv(states, n - 1);
      assert Next(states[n - 1], states[n]);
      var a :| Enabled(states[n - 1], a) && states[n] == Apply(states[n - 1], a);
      StepKeepsInv(states[n - 1], a);
    }
  }

  /** A step changes the entry of no token. */
  lemma {:induction false} StepKeepsToken(s: State, a: Action, r: Xid)
    requires Inv(s) && Enabled(s, a) && r in s.tokens
    ensures r in Apply(s, a).tokens && Apply(s, a).tokens[r] == s.tokens[r]
  {
    hide Tracks, Settled, Unseen, Apart, CanExpire, Publish;
    if a.Commit? {
      assert Pending(s, s.running[a.session]);
    }
  }

  lemma {:induction false} TokensStay(states: seq<State>, i: nat, j: nat, r: Xid)
    requires Run(states) && i <= j < |states| && r in states[i].tokens
    ensures r in states[j].tokens && states[j].tokens[r] == states[i].tokens[r]
    decreases j
  {
    hide Inv, Enabled, Apply;
    if i < j {
      TokensStay(states, i, j - 1, r);
      RunsKeepInv(states, j - 1);
      assert Next(states[j - 1], states[j]);
      var a :| Enabled(states[j - 1], a) && states[j] == Apply(states[j - 1], a);
      StepKeepsToken(states[j - 1], a, r);
    }
  }

  /** In every run of overlapping transactions, the rows selected for a committed token are exactly those its
      transaction left behind, at that moment and at every later one: no later write or delete changes them. */
  lemma {:induction false} SelectionIsStable(states: seq<State>, i: nat, j: nat, r: Xid)
    requires Run(states) && i <= j < |states| && r in states[i].tokens
    ensures r in states[j].tokens
    ensures Selected(states[j], r) == Selected(states[i], r) == View(states[i].tokens[r])
  {
    TokensStay(states, i, j, r);
    RunsKeepInv(states, i);
    RunsKeepInv(states, j);
    SettledSelectsView(states[i], r);
    SettledSelectsView(states[j], r);
  }

  /** A token shows every tuple its transaction wrote, and none of the rows it expired. */
  lemma {:induction false} TokenSeesItsOwnWrites(states: seq<State>, n: nat, r: Xid)
    requires Run(states) && n < |states| && r in states[n].tokens
    ensures var tx := states[n].tokens[r];
            && (forall id :: id in tx.created ==>
                  id in Selected(states[n], r) && Selected(states[n], r)[id] == tx.created[id])
            && (forall id :: id in tx.expired ==> id !in Selected(states[n], r))
  {
    RunsKeepInv(states, n);
    SettledSelectsView(states[n], r);
    assert Settled(states[n], r, states[n].tokens[r]);
  }

  // ---------------------------------------------------------------- a write and a delete

  /** The steps of `WriteRelationships` and then of `DeleteRelationships`, by one session. */
  function WriteThenDelete(t: Tuple): seq<Action> {
    [Begin(0), AssignXid(0), Insert(0, t), Commit(0), Begin(0), AssignXid(0), Expire(0, {1}), Commit(0)]
  }

  ghost predicate Performs(states: seq<State>, actions: seq<Action>) {
    && |states| == |actions| + 1 && states[0] == INIT
    && forall i :: 0 <= i < |actions| ==>
         Enabled(states[i], actions[i]) && states[i + 1] == Apply(states[i], actions[i])
  }

  const FRESH: Tx := Tx(Snapshot(1, {}), map[], Some(1), map[], {})

  /** The state after the write. */
  function Written(t: Tuple): State {
    State(2, 2, map[], map[1 := FRESH.(created := map[1 := t])], map[1 := Row(t, 1, 0)])
  }

  /** The state after the delete. */
  function Deleted(t: Tuple): State {
    var second := Tx(Snapshot(2, {}), map[1 := Row(t, 1, 0)], Some(2), map[], {1});
    State(3, 2, map[], map[1 := FRESH.(created := map[1 := t]), 2 := second], map[1 := Row(t, 1, 2)])
  }

  lemma {:induction false} WriteRuns(t: Tuple) returns (states: seq<State>)
    ensures |states| == 5 && states[0] == INIT && states[4] == Written(t)
    ensures forall i :: 0 <= i < 4 ==>
              Enabled(states[i], WriteThenDelete(t)[i]) && states[i + 1] == Apply(states[i], WriteThenDelete(t)[i])
  {
    assert ActiveXids(INIT.running) == {};
    var s1 := Apply(INIT, Begin(0));
    var s2 := Apply(s1, AssignXid(0));
    assert s2.running == map[0 := FRESH];
    var s3 := Apply(s2, Insert(0, t));
    assert s3.running == map[0 := FRESH.(created := map[1 := t])];
    var s4 := Apply(s3, Commit(0));
    assert s4.rows == map[1 := Row(t, 1, 0)];
    states := [INIT, s1, s2, s3, s4];
  }

  lemma {:induction false} DeleteRuns(t: Tuple) returns (states: seq<State>)
    ensures |states| == 5 && states[0] == Written(t) && states[4] == Deleted(t)
    ensures forall i :: 0 <= i < 4 ==>
              Enabled(states[i], WriteThenDelete(t)[i + 4]) &&
              states[i + 1] == Apply(states[i], WriteThenDelete(t)[i + 4])
  {
    var s0 := Written(t);
    assert ActiveXids(s0.running) == {};
    var s1 := Apply(s0, Begin(0));
    var s2 := Apply(s1, AssignXid(0));
    var tx := Tx(Snapshot(2, {}), s0.rows, Some(2), map[], {});
    assert s2.running == map[0 := tx];
    var s3 := Apply(s2, Expire(0, {1}));
    assert {} + {1} == {1};
    assert s3.running == map[0 := tx.(expired := {1})];
    var s4 := Apply(s3, Commit(0));
    assert s4.rows == map[1 := Row(t, 1, 2)];
    states := [s0, s1, s2, s3, s4];
  }

  /** The token of the write shows the tuple before and after the delete; the token of the delete shows nothing. */
  lemma {:induction false} OldTokensStillSeeDeletedTuples(t: Tuple) returns (states: seq<State>)
    ensures Run(states) && Performs(states, WriteThenDelete(t))
    ensures 1 in states[4].tokens && Selected(states[4], 1) == map[1 := t]
    ensures 1 in states[8].tokens && Selected(states[8], 1) == map[1 := t]
    ensures 2 in states[8].tokens && Selected(states[8], 2) == map[]
  {
    var first := WriteRuns(t);
    var second := DeleteRuns(t);
    states := first + second[1..];
    SelectionsOf(t);
    hide Apply, Enabled, Written, Deleted, Selected;
    forall i | 0 <= i < 8
      ensures Enabled(states[i], WriteThenDelete(t)[i]) && states[i + 1] == Apply(states[i], WriteThenDelete(t)[i])
    {
      if i >= 4 {
        assert states[i] == second[i - 4] && states[i + 1] == second[i - 3];
        assert Enabled(second[i - 4], WriteThenDelete(t)[i - 4 + 4]);
      }
    }
    PerformedIsRun(states, WriteThenDelete(t));
  }

  lemma {:induction false} SelectionsOf(t: Tuple)
    ensures 1 in Written(t).tokens && Selected(Written(t), 1) == map[1 := t]
    ensures 1 in Deleted(t).tokens && Selected(Deleted(t), 1) == map[1 := t]
    ensures 2 in Deleted(t).tokens && Selected(Deleted(t), 2) == map[]
  {
  }

  lemma {:induction false} PerformedIsRun(states: seq<State>, actions: seq<Action>)
    requires Performs(states, actions)
    ensures Run(states)
  {
    forall i | 0 < i < |states|
      ensures Next(states[i - 1], states[i])
    {
      assert Enabled(states[i - 1], actions[i - 1]) && states[i - 1 + 1] == Apply(states[i - 1], actions[i - 1]);
    }
  }
}
