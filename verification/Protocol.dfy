/**
 The shared database as a state machine: writers and the compactor interleave freely, one statement,
 commit, abort or crash at a time. PostgreSQL is the trusted base: statements see committed rows,
 row locks are exclusive until the end of the transaction, and a commit is atomic.
 */
module Protocol {
  import opened Wrappers
  import opened Model
  import opened Tombstone
  import opened WritePath
  import opened Compaction

  /** What a transaction that holds an xid has done so far. */
  datatype Work =
    | Idle                                  // holds an xid, has written nothing (it may never)
    | Refused(key: Key, args: Args)         // its INSERT hit a unique violation
    | Put(key: Key, row: Row, args: Args, base: Option<Row>)
    | Sweep(gone: map<Key, Row>, raise: Horizon)

  /** `start` is the transaction's now(); `born` is when it took its xid. */
  datatype Tx = Tx(start: Time, born: Time, work: Work)

  /** The commit log. */
  datatype Entry =
    | Wrote(xid: Xid, key: Key, row: Row, args: Args)
    | Swept(xid: Xid, gone: map<Key, Row>)

  datatype Db = Db(
    retention: int,              // the compactors' effective retention; never changes
    next: Xid,                   // the xid the next transaction gets
    now: Time,
    active: map<Xid, Tx>,        // transactions that hold an xid and have not ended
    rows: map<Key, Row>,         // committed
    horizon: Horizon,            // committed
    uids: set<Uid>,              // every uuid generated so far
    log: seq<Entry>)

  datatype Step =
    | Tick(to: Time)
    | Begin(start: Time)
    | Upsert(x: Xid, key: Key, args: Args, uid: Uid)
    | Refuse(x: Xid, key: Key, args: Args)
    | Revive(x: Xid, uid: Uid)
    | SweepRow(x: Xid, key: Key)
    | Commit(x: Xid)
    | Abort(x: Xid)
    | Crash                      // failover: ends every transaction, keeps what is committed

  predicate Locks(work: Work, key: Key) {
    match work
    case Put(k, _, _, _) => k == key
    case Sweep(gone, _) => key in gone
    case _ => false
  }

  ghost predicate Unlocked(s: Db, x: Xid, key: Key) {
    forall y | y in s.active && y != x :: !Locks(s.active[y].work, key)
  }

  function ContextOf(s: Db, x: Xid, uid: Uid): Context
    requires x in s.active
  {
    Context(x, s.active[x].start, uid)
  }

  ghost predicate Enabled(s: Db, step: Step) {
    match step
    case Tick(to) => s.now <= to
    case Begin(start) => start <= s.now
    case Upsert(x, key, args, uid) =>
      && x in s.active && s.active[x].work.Idle? && Unlocked(s, x, key) && uid !in s.uids
      && ProcUpsert(args, ContextOf(s, x, uid), Lookup(s.rows, key)).Applied?
    case Refuse(x, key, args) =>
      && x in s.active && s.active[x].work.Idle? && Unlocked(s, x, key)
      && ProcUpsert(args, ContextOf(s, x, 0), Lookup(s.rows, key)).Duplicate?
    case Revive(x, uid) =>
      && x in s.active && s.active[x].work.Refused? && Unlocked(s, x, s.active[x].work.key) && uid !in s.uids
      && ProcRevive(s.active[x].work.args, ContextOf(s, x, uid), Lookup(s.rows, s.active[x].work.key)).Applied?
    case SweepRow(x, key) =>
      && x in s.active && (s.active[x].work.Idle? || s.active[x].work.Sweep?) && Unlocked(s, x, key)
      && !Locks(s.active[x].work, key)
      && key in s.rows && Compactable(s.rows[key], s.active[x].start, s.retention)
    case Commit(x) => x in s.active
    case Abort(x) => x in s.active
    case Crash => true
  }

  function SetWork(s: Db, x: Xid, work: Work): map<Xid, Tx>
    requires x in s.active
  {
    s.active[x := s.active[x].(work := work)]
  }

  ghost function Do(s: Db, step: Step): Db
    requires Enabled(s, step)
  {
    match step
    case Tick(to) => s.(now := to)
    case Begin(start) => s.(next := s.next + 1, active := s.active[s.next := Tx(start, s.now, Idle)])
    case Upsert(x, key, args, uid) =>
      var base := Lookup(s.rows, key);
      var row := ProcUpsert(args, ContextOf(s, x, uid), base).row;
      s.(active := SetWork(s, x, Put(key, row, args, base)), uids := s.uids + {uid})
    case Refuse(x, key, args) => s.(active := SetWork(s, x, Refused(key, args)))
    case Revive(x, uid) =>
      var work := s.active[x].work;
      var base := Lookup(s.rows, work.key);
      var row := ProcRevive(work.args, ContextOf(s, x, uid), base).row;
      s.(active := SetWork(s, x, Put(work.key, row, work.args, base)), uids := s.uids + {uid})
    case SweepRow(x, key) =>
      var work := s.active[x].work;
      var gone := if work.Sweep? then work.gone else map[];
      var raise := if work.Sweep? then work.raise else map[];
      s.(active := SetWork(s, x, Sweep(gone[key := s.rows[key]], RaiseOne(raise, key.gvk, s.rows[key].stamp))))
    case Commit(x) =>
      var rest := s.(active := s.active - {x});
      (match s.active[x].work
       case Put(key, row, args, _) => rest.(rows := s.rows[key := row], log := s.log + [Wrote(x, key, row, args)])
       case Sweep(gone, raise) =>
         rest.(rows := s.rows - gone.Keys, horizon := Merge(s.horizon, raise), log := s.log + [Swept(x, gone)])
       case _ => rest)
    case Abort(x) => s.(active := s.active - {x})
    case Crash => s.(active := map[])
  }

  ghost predicate Next(s: Db, s': Db) {
    exists step | Enabled(s, step) :: s' == Do(s, step)
  }

  ghost predicate Initial(s: Db) {
    && s.next >= 1
    && s.active == map[] && s.rows == map[] && s.horizon == map[] && s.log == []
  }

  ghost predicate Linked(t: seq<Db>, i: nat)
    requires i + 1 < |t|
  {
    Next(t[i], t[i + 1])
  }

  /** A finite prefix of any interleaving. */
  ghost predicate Run(t: seq<Db>) {
    && |t| > 0
    && Initial(t[0])
    && forall i: nat | i + 1 < |t| :: Linked(t, i)
  }

  /** A stretch of an interleaving, from any state. */
  ghost predicate Path(t: seq<Db>) {
    && |t| > 0
    && forall i: nat | i + 1 < |t| :: Linked(t, i)
  }

  lemma RunIsPath(t: seq<Db>)
    requires Run(t)
    ensures Path(t)
  {
  }

  lemma OneStep(s: Db, s': Db) returns (t: seq<Db>)
    requires Next(s, s')
    ensures Path(t) && t[0] == s && t[|t| - 1] == s'
  {
    t := [s, s'];
    assert Linked(t, 0);
  }

  /** `u` goes on from the last state of `t`. */
  lemma Join(t: seq<Db>, u: seq<Db>) returns (joined: seq<Db>)
    requires Path(t) && Path(u) && t[|t| - 1] == u[0]
    ensures Path(joined) && t <= joined && joined[0] == t[0] && joined[|joined| - 1] == u[|u| - 1]
  {
    joined := t + u[1..];
    forall i: nat | i + 1 < |joined| ensures Linked(joined, i) {
      if i + 1 < |t| {
        assert Linked(t, i);
      } else {
        assert Linked(u, i + 1 - |t|);
      }
    }
  }

  /******* The commit log and the committed rows *******/

  function AfterEntry(rows: map<Key, Row>, e: Entry): map<Key, Row> {
    match e
    case Wrote(_, key, row, _) => rows[key := row]
    case Swept(_, gone) => rows - gone.Keys
  }

  ghost function Replay(log: seq<Entry>): map<Key, Row> {
    if log == [] then map[] else AfterEntry(Replay(log[..|log| - 1]), log[|log| - 1])
  }

  ghost predicate FreshUid(past: seq<Entry>, uid: Uid) {
    forall e | e in past && e.Wrote? :: e.row.uid != uid
  }

  /** How one log entry continues the entries before it. */
  ghost predicate Continues(past: seq<Entry>, e: Entry) {
    && (forall p | p in past :: p.xid != e.xid)
    && match e
       case Wrote(x, key, row, args) =>
         var before := Lookup(Replay(past), key);
         && row.stamp == x
         && row.version >= 1
         && (|| (Creates(args, Context(x, row.updatedAt, row.uid), before, row) && FreshUid(past, row.uid))
             || Advances(args, before, row))
       case Swept(x, gone) =>
         forall k | k in gone :: Lookup(Replay(past), k) == Some(gone[k])
                                 && IsTombstone(gone[k].deletionTs, gone[k].metadata)
  }

  ghost predicate Chained(log: seq<Entry>) {
    forall i | 0 <= i < |log| :: Continues(log[..i], log[i])
  }

  /******* The invariant *******/

  ghost predicate TxsOk(s: Db) {
    && s.next >= 1
    && forall x | x in s.active :: 1 <= x < s.next && s.active[x].start <= s.active[x].born <= s.now
  }

  ghost predicate RowsOk(s: Db) {
    && (forall k | k in s.rows ::
          1 <= s.rows[k].stamp < s.next && s.rows[k].stamp !in s.active && s.rows[k].version >= 1)
    && (forall k, k' | k in s.rows && k' in s.rows && k != k' :: s.rows[k].stamp != s.rows[k'].stamp)
    && (forall g | g in s.horizon :: 1 <= s.horizon[g] < s.next)
  }

  ghost predicate LocksOk(s: Db) {
    forall x, y, k | x in s.active && y in s.active && x != y ::
      !(Locks(s.active[x].work, k) && Locks(s.active[y].work, k))
  }

  predicate Opens(work: Work) {
    work.Put? && work.args.expected == 0
  }

  /** What an uncommitted write or sweep relies on stays true until it commits. */
  ghost predicate PendingOk(s: Db, x: Xid)
    requires x in s.active
  {
    match s.active[x].work
    case Put(key, row, args, base) =>
      && base == Lookup(s.rows, key)
      && row.stamp == x && row.updatedAt == s.active[x].start && row.version >= 1
      && row.uid in s.uids
      && (Creates(args, ContextOf(s, x, row.uid), base, row) || Advances(args, base, row))
      && (args.expected == 0 ==> FreshUid(s.log, row.uid))
    case Sweep(gone, raise) =>
      && IsRaised(map[], gone, raise)
      && forall k | k in gone :: Lookup(s.rows, k) == Some(gone[k])
                                 && Compactable(gone[k], s.active[x].start, s.retention)
    case Refused(key, args) =>
      args.expected == 0 && !args.statusOnly && args.spec.Some? && args.status.Some? && args.metadata.Some?
    case Idle => true
  }

  ghost predicate PendingsOk(s: Db) {
    && (forall x | x in s.active :: PendingOk(s, x))
    && (forall x, y | x in s.active && y in s.active && x != y && Opens(s.active[x].work) && s.active[y].work.Put? ::
          s.active[x].work.row.uid != s.active[y].work.row.uid)
  }

  ghost predicate LogOk(s: Db) {
    && s.rows == Replay(s.log)
    && Chained(s.log)
    && (forall e | e in s.log :: e.xid < s.next && e.xid !in s.active && (e.Wrote? ==> e.row.uid in s.uids))
  }

  ghost predicate Inv(s: Db) {
    TxsOk(s) && RowsOk(s) && LocksOk(s) && PendingsOk(s) && LogOk(s)
  }

  lemma InitialInv(s: Db)
    requires Initial(s)
    ensures Inv(s)
  {
  }

  /** Every committed row is the row of a log entry. */
  lemma {:induction false} RowsComeFromLog(log: seq<Entry>, key: Key)
    requires key in Replay(log)
    ensures exists i | 0 <= i < |log| :: log[i].Wrote? && log[i].key == key && log[i].row == Replay(log)[key]
  {
    var n := |log| - 1;
    if !(log[n].Wrote? && log[n].key == key) {
      RowsComeFromLog(log[..n], key);
    }
  }

  lemma ChainedAppend(log: seq<Entry>, e: Entry)
    requires Chained(log) && Continues(log, e)
    ensures Chained(log + [e])
    ensures Replay(log + [e]) == AfterEntry(Replay(log), e)
  {
    var longer := log + [e];
    assert longer[..|log|] == log;
    forall i | 0 <= i < |longer| ensures Continues(longer[..i], longer[i]) {
      if i < |log| { assert longer[..i] == log[..i]; }
    }
  }

  lemma TickKeepsInv(s: Db, to: Time)
    requires Inv(s) && Enabled(s, Tick(to))
    ensures Inv(Do(s, Tick(to)))
  {
    forall x | x in s.active ensures PendingOk(Do(s, Tick(to)), x) {
      assert PendingOk(s, x);
    }
  }

  lemma BeginKeepsInv(s: Db, start: Time)
    requires Inv(s) && Enabled(s, Begin(start))
    ensures Inv(Do(s, Begin(start)))
  {
    var s' := Do(s, Begin(start));
    forall x | x in s'.active ensures PendingOk(s', x) {
      if x != s.next { assert PendingOk(s, x); }
    }
  }

  lemma WorkKeepsPendings(s: Db, s': Db, x: Xid, work: Work)
    requires Inv(s) && x in s.active
    requires s' == s.(active := SetWork(s, x, work), uids := s'.uids) && s.uids <= s'.uids
    requires PendingOk(s', x)
    requires work.Put? ==> forall y | y in s.active && y != x && s.active[y].work.Put? ::
                             (Opens(work) || Opens(s.active[y].work)) ==> work.row.uid != s.active[y].work.row.uid
    ensures PendingsOk(s')
  {
    forall y | y in s'.active ensures PendingOk(s', y) {
      if y != x { assert PendingOk(s, y); }
    }
  }

  /** A step that only records the work of one transaction keeps the invariant if that work is sound. */
  lemma WorkKeepsInv(s: Db, s': Db, x: Xid, work: Work)
    requires Inv(s) && x in s.active
    requires s' == s.(active := SetWork(s, x, work), uids := s'.uids) && s.uids <= s'.uids
    requires forall k | Locks(work, k) :: Locks(s.active[x].work, k) || Unlocked(s, x, k)
    requires PendingOk(s', x)
    requires work.Put? ==> forall y | y in s.active && y != x && s.active[y].work.Put? ::
                             (Opens(work) || Opens(s.active[y].work)) ==> work.row.uid != s.active[y].work.row.uid
    ensures Inv(s')
  {
    WorkKeepsPendings(s, s', x, work);
  }

  /** The uuid an uncommitted INSERT or revival just drew is nobody else's. */
  lemma NewUidIsFresh(s: Db, uid: Uid)
    requires Inv(s) && uid !in s.uids
    ensures FreshUid(s.log, uid)
    ensures forall y | y in s.active && s.active[y].work.Put? :: s.active[y].work.row.uid != uid
  {
    forall y | y in s.active && s.active[y].work.Put? ensures s.active[y].work.row.uid != uid {
      assert PendingOk(s, y);
    }
  }

  lemma UpsertKeepsInv(s: Db, x: Xid, key: Key, args: Args, uid: Uid)
    requires Inv(s) && Enabled(s, Upsert(x, key, args, uid))
    ensures Inv(Do(s, Upsert(x, key, args, uid)))
  {
    var s' := Do(s, Upsert(x, key, args, uid));
    var work := s'.active[x].work;
    EveryWriteCreatesOrAdvances(args, ContextOf(s, x, uid), work.base, work.row);
    NewUidIsFresh(s, uid);
    if args.expected != 0 {
      RowsComeFromLog(s.log, key);
      forall y | y in s.active && y != x && Opens(s.active[y].work) ensures work.row.uid != s.active[y].work.row.uid {
        assert PendingOk(s, y);
      }
    }
    WorkKeepsInv(s, s', x, work);
  }

  lemma RefuseKeepsInv(s: Db, x: Xid, key: Key, args: Args)
    requires Inv(s) && Enabled(s, Refuse(x, key, args))
    ensures Inv(Do(s, Refuse(x, key, args)))
  {
    WorkKeepsInv(s, Do(s, Refuse(x, key, args)), x, Refused(key, args));
  }

  lemma ReviveKeepsInv(s: Db, x: Xid, uid: Uid)
    requires Inv(s) && Enabled(s, Revive(x, uid))
    ensures Inv(Do(s, Revive(x, uid)))
  {
    var s' := Do(s, Revive(x, uid));
    var work := s'.active[x].work;
    assert PendingOk(s, x);
    EveryWriteCreatesOrAdvances(work.args, ContextOf(s, x, uid), work.base, work.row);
    NewUidIsFresh(s, uid);
    WorkKeepsInv(s, s', x, work);
  }

  lemma SweepRowKeepsInv(s: Db, x: Xid, key: Key)
    requires Inv(s) && Enabled(s, SweepRow(x, key))
    ensures Inv(Do(s, SweepRow(x, key)))
  {
    var s' := Do(s, SweepRow(x, key));
    var work := s.active[x].work;
    assert PendingOk(s, x);
    RaiseOneMore(if work.Sweep? then work.gone else map[], if work.Sweep? then work.raise else map[],
                 key, s.rows[key]);
    WorkKeepsInv(s, s', x, s'.active[x].work);
  }

  /** Ending transactions without committing them. */
  lemma EndKeepsInv(s: Db, s': Db)
    requires Inv(s) && s' == s.(active := s'.active)
    requires forall x | x in s'.active :: x in s.active && s'.active[x] == s.active[x]
    ensures Inv(s')
  {
    forall x | x in s'.active ensures PendingOk(s', x) {
      assert PendingOk(s, x);
    }
  }

  /** Pending work survives a commit that changes only keys the other transaction holds locked. */
  lemma CommitKeepsPendings(s: Db, s': Db, x: Xid)
    requires Inv(s) && x in s.active
    requires s'.active == s.active - {x} && s'.uids == s.uids && s'.retention == s.retention
    requires forall k | !Locks(s.active[x].work, k) :: Lookup(s'.rows, k) == Lookup(s.rows, k)
    requires forall e | e in s'.log && e !in s.log && e.Wrote? ::
               s.active[x].work.Put? && e.row == s.active[x].work.row
    ensures PendingsOk(s')
  {
    forall y | y in s'.active ensures PendingOk(s', y) {
      assert PendingOk(s, y);
      if s.active[y].work.Put? {
        var key := s.active[y].work.key;
        assert Locks(s.active[y].work, key);
        assert !Locks(s.active[x].work, key);
      } else if s.active[y].work.Sweep? {
        forall k | k in s.active[y].work.gone ensures Lookup(s'.rows, k) == Lookup(s.rows, k) {
          assert Locks(s.active[y].work, k);
          assert !Locks(s.active[x].work, k);
        }
      }
    }
  }

  lemma PutKeepsRowsOk(s: Db, x: Xid)
    requires Inv(s) && Enabled(s, Commit(x)) && s.active[x].work.Put?
    ensures RowsOk(Do(s, Commit(x)))
  {
    var s' := Do(s, Commit(x));
    assert PendingOk(s, x);
    forall k | k in s'.rows ensures 1 <= s'.rows[k].stamp < s'.next && s'.rows[k].stamp !in s'.active {
      assert k == s.active[x].work.key || s'.rows[k] == s.rows[k];
    }
  }

  lemma PutContinuesLog(s: Db, x: Xid)
    requires Inv(s) && x in s.active && s.active[x].work.Put?
    ensures var Put(key, row, args, _) := s.active[x].work; Continues(s.log, Wrote(x, key, row, args))
  {
    assert PendingOk(s, x);
  }

  lemma AppendKeepsLogOk(s: Db, s': Db, x: Xid, e: Entry)
    requires LogOk(s) && x in s.active && x < s.next && Continues(s.log, e) && e.xid == x
    requires e.Wrote? ==> e.row.uid in s.uids
    requires s'.rows == AfterEntry(s.rows, e) && s'.log == s.log + [e]
    requires s'.active == s.active - {x} && s'.next == s.next && s'.uids == s.uids
    ensures LogOk(s')
  {
    ChainedAppend(s.log, e);
  }

  lemma PutKeepsLogOk(s: Db, x: Xid)
    requires Inv(s) && Enabled(s, Commit(x)) && s.active[x].work.Put?
    ensures LogOk(Do(s, Commit(x)))
  {
    var Put(key, row, args, _) := s.active[x].work;
    PutContinuesLog(s, x);
    assert PendingOk(s, x);
    AppendKeepsLogOk(s, Do(s, Commit(x)), x, Wrote(x, key, row, args));
  }

  lemma PutKeepsPendings(s: Db, x: Xid)
    requires Inv(s) && Enabled(s, Commit(x)) && s.active[x].work.Put?
    ensures PendingsOk(Do(s, Commit(x)))
  {
    CommitKeepsPendings(s, Do(s, Commit(x)), x);
  }

  lemma CommitPutKeepsInv(s: Db, x: Xid)
    requires Inv(s) && Enabled(s, Commit(x)) && s.active[x].work.Put?
    ensures Inv(Do(s, Commit(x)))
  {
    PutKeepsLogOk(s, x);
    PutKeepsRowsOk(s, x);
    PutKeepsPendings(s, x);
  }

  /** The horizon a sweep commits is the old one raised to the highest deleted stamps. */
  lemma SweepIsRaised(s: Db, x: Xid)
    requires Inv(s) && x in s.active && s.active[x].work.Sweep?
    ensures var Sweep(gone, raise) := s.active[x].work; IsRaised(s.horizon, gone, Merge(s.horizon, raise))
  {
    var Sweep(gone, raise) := s.active[x].work;
    assert PendingOk(s, x);
    MergeIsRaised(s.horizon, gone, raise);
  }

  lemma SweepKeepsRowsOk(s: Db, x: Xid)
    requires Inv(s) && Enabled(s, Commit(x)) && s.active[x].work.Sweep?
    ensures RowsOk(Do(s, Commit(x)))
  {
    var s' := Do(s, Commit(x));
    var Sweep(gone, raise) := s.active[x].work;
    assert PendingOk(s, x);
    forall k | k in gone ensures 1 <= gone[k].stamp < s.next {
      assert Lookup(s.rows, k) == Some(gone[k]);
    }
    MergeIsRaised(s.horizon, gone, raise);
    RaiseWithin(s.horizon, gone, s'.horizon, 1, s.next);
  }

  lemma SweepContinuesLog(s: Db, x: Xid)
    requires Inv(s) && x in s.active && s.active[x].work.Sweep?
    ensures Continues(s.log, Swept(x, s.active[x].work.gone))
  {
    assert PendingOk(s, x);
  }

  lemma SweepKeepsLogOk(s: Db, x: Xid)
    requires Inv(s) && Enabled(s, Commit(x)) && s.active[x].work.Sweep?
    ensures LogOk(Do(s, Commit(x)))
  {
    SweepContinuesLog(s, x);
    AppendKeepsLogOk(s, Do(s, Commit(x)), x, Swept(x, s.active[x].work.gone));
  }

  lemma SweepKeepsPendings(s: Db, x: Xid)
    requires Inv(s) && Enabled(s, Commit(x)) && s.active[x].work.Sweep?
    ensures PendingsOk(Do(s, Commit(x)))
  {
    CommitKeepsPendings(s, Do(s, Commit(x)), x);
  }

  lemma CommitSweepKeepsInv(s: Db, x: Xid)
    requires Inv(s) && Enabled(s, Commit(x)) && s.active[x].work.Sweep?
    ensures Inv(Do(s, Commit(x)))
  {
    SweepKeepsLogOk(s, x);
    SweepKeepsRowsOk(s, x);
    SweepKeepsPendings(s, x);
  }

  lemma StepKeepsInv(s: Db, step: Step)
    requires Inv(s) && Enabled(s, step)
    ensures Inv(Do(s, step))
  {
    match step
    case Tick(to) => TickKeepsInv(s, to);
    case Begin(start) => BeginKeepsInv(s, start);
    case Upsert(x, key, args, uid) => UpsertKeepsInv(s, x, key, args, uid);
    case Refuse(x, key, args) => RefuseKeepsInv(s, x, key, args);
    case Revive(x, uid) => ReviveKeepsInv(s, x, uid);
    case SweepRow(x, key) => SweepRowKeepsInv(s, x, key);
    case Commit(x) =>
      if s.active[x].work.Put? {
        CommitPutKeepsInv(s, x);
      } else if s.active[x].work.Sweep? {
        CommitSweepKeepsInv(s, x);
      } else {
        EndKeepsInv(s, Do(s, step));
      }
    case Abort(x) => EndKeepsInv(s, Do(s, step));
    case Crash => EndKeepsInv(s, Do(s, step));
  }

  lemma NextKeepsInv(s: Db, s': Db)
    requires Inv(s) && Next(s, s')
    ensures Inv(s')
  {
    var step :| Enabled(s, step) && s' == Do(s, step);
    StepKeepsInv(s, step);
  }

  lemma {:induction false} RunInv(t: seq<Db>, i: nat)
    requires Run(t) && i < |t|
    ensures Inv(t[i])
  {
    if i == 0 {
      InitialInv(t[0]);
    } else {
      RunInv(t, i - 1);
      assert Linked(t, i - 1);
      NextKeepsInv(t[i - 1], t[i]);
    }
  }

  /******* What one step can change for everybody else *******/

  ghost predicate CommitsPut(s: Db, s': Db, x: Xid) {
    && x in s.active && s.active[x].work.Put? && s'.active == s.active - {x}
    && var Put(key, row, args, _) := s.active[x].work;
       && s'.rows == s.rows[key := row] && s'.horizon == s.horizon
       && s'.log == s.log + [Wrote(x, key, row, args)]
  }

  ghost predicate CommitsSweep(s: Db, s': Db, x: Xid) {
    && x in s.active && s.active[x].work.Sweep? && s'.active == s.active - {x}
    && var Sweep(gone, raise) := s.active[x].work;
       && s'.rows == s.rows - gone.Keys && s'.horizon == Merge(s.horizon, raise)
       && s'.log == s.log + [Swept(x, gone)]
  }

  predicate PublishesNothing(s: Db, s': Db) {
    s'.rows == s.rows && s'.horizon == s.horizon && s'.log == s.log
  }

  /** Transactions keep their times; at most one appears, with the next xid. */
  predicate CarriesOn(s: Db, s': Db) {
    && s.next <= s'.next && s.now <= s'.now && s.uids <= s'.uids && s.retention == s'.retention
    && forall x | x in s'.active ::
         var tx := s'.active[x];
         || (x in s.active && tx.start == s.active[x].start && tx.born == s.active[x].born)
         || (x == s.next < s'.next && tx.start <= tx.born == s.now == s'.now)
  }

  /** Only commits publish, a commit publishes one write or one sweep, and no step brings an ended
      transaction back. */
  ghost predicate Publishes(s: Db, s': Db) {
    && CarriesOn(s, s')
    && (PublishesNothing(s, s') || exists x :: CommitsPut(s, s', x) || CommitsSweep(s, s', x))
  }

  lemma CommitPublishes(s: Db, x: Xid)
    requires Enabled(s, Commit(x))
    ensures var s' := Do(s, Commit(x)); CommitsPut(s, s', x) || CommitsSweep(s, s', x) || PublishesNothing(s, s')
  {
  }

  lemma StepPublishes(s: Db, step: Step)
    requires Enabled(s, step)
    ensures Publishes(s, Do(s, step))
  {
    if step.Commit? {
      CommitPublishes(s, step.x);
    } else {
      assert PublishesNothing(s, Do(s, step));
    }
  }

  lemma NextPublishes(s: Db, s': Db)
    requires Next(s, s')
    ensures Publishes(s, s')
  {
    var step :| Enabled(s, step) && s' == Do(s, step);
    StepPublishes(s, step);
  }

  lemma RunPublishes(t: seq<Db>, i: nat)
    requires Run(t) && i + 1 < |t|
    ensures Publishes(t[i], t[i + 1])
  {
    assert Linked(t, i);
    NextPublishes(t[i], t[i + 1]);
  }

  lemma RunStep(t: seq<Db>, i: nat)
    requires Run(t) && i + 1 < |t|
    ensures Inv(t[i]) && Publishes(t[i], t[i + 1])
  {
    RunInv(t, i);
    RunPublishes(t, i);
  }

  lemma {:induction false} PathInv(t: seq<Db>, i: nat)
    requires Path(t) && Inv(t[0]) && i < |t|
    ensures Inv(t[i])
  {
    if i > 0 {
      PathInv(t, i - 1);
      assert Linked(t, i - 1);
      NextKeepsInv(t[i - 1], t[i]);
    }
  }

  /******* What one step can change in a transaction's work *******/

  predicate WorkMoves(before: Work, after: Work) {
    || after == before
    || (before.Idle? && !after.Idle?)
    || (before.Refused? && after.Put? && after.key == before.key)
    || (before.Sweep? && after.Sweep?)
  }

  predicate WorksCarryOn(s: Db, s': Db) {
    && s.next <= s'.next
    && forall x | x in s'.active ::
         if x in s.active then WorkMoves(s.active[x].work, s'.active[x].work)
         else x == s.next < s'.next && s'.active[x].work.Idle?
  }

  lemma NextCarriesWorkOn(s: Db, s': Db)
    requires TxsOk(s) && Next(s, s')
    ensures WorksCarryOn(s, s')
  {
    var step :| Enabled(s, step) && s' == Do(s, step);
    StepCarriesWorkOn(s, step);
  }

  lemma StepCarriesWorkOn(s: Db, step: Step)
    requires TxsOk(s) && Enabled(s, step)
    ensures WorksCarryOn(s, Do(s, step))
  {
  }
}
