/**
 Relisting after a 410 makes progress. The watermark a List returns can lie below a horizon that a
 compaction has just raised, and then the fresh watcher is Gone at once; this module says for which
 retention that cannot happen.
 */
module Retention {
  import opened Wrappers
  import opened Json
  import opened Model
  import opened Tombstone
  import opened WritePath
  import opened Compaction
  import opened Protocol
  import opened Snapshots
  import opened ResourceVersion
  import opened Watch
  import opened Agreement

  /** Every transaction that holds an xid ends within `limit` of its start (statement timeout). */
  ghost predicate Prompt(s: Db, limit: int) {
    forall x | x in s.active :: s.now - s.active[x].start <= limit
  }

  /** Xids are taken in time order and soon after the start; so whoever took a lower xid than a
      committed row's started at most `limit` after that row's transaction did. And no transaction in
      progress has an xid at or below a horizon. */
  ghost predicate Timed(s: Db, limit: int) {
    && (forall x, y | x in s.active && y in s.active && x < y :: s.active[x].born <= s.active[y].born)
    && (forall x | x in s.active :: s.active[x].born - s.active[x].start <= limit)
    && (forall k, x | k in s.rows && x in s.active && x < s.rows[k].stamp ::
          s.active[x].start <= s.rows[k].updatedAt + limit)
    && (forall g, x | g in s.horizon && x in s.active :: s.horizon[g] < x)
  }

  lemma SweptRow(s: Db, x: Xid, k: Key)
    requires Inv(s) && x in s.active && s.active[x].work.Sweep? && k in s.active[x].work.gone
    ensures k in s.rows && s.rows[k] == s.active[x].work.gone[k] && s.rows[k].stamp !in s.active
    ensures Compactable(s.rows[k], s.active[x].start, s.retention) && s.active[x].start <= s.now
  {
    assert PendingOk(s, x);
    assert Lookup(s.rows, k) == Some(s.active[x].work.gone[k]);
  }

  /** Every transaction in progress has an xid above what is old enough to be deleted. */
  lemma DueIsSettled(s: Db, limit: int, k: Key, start: Time, y: Xid)
    requires Prompt(s, limit) && Timed(s, limit) && s.retention >= 2 * limit
    requires k in s.rows && s.rows[k].stamp !in s.active && y in s.active
    requires Compactable(s.rows[k], start, s.retention) && start <= s.now
    ensures s.rows[k].stamp < y
  {
  }

  lemma RaisedBelowActive(s: Db, s': Db, limit: int, x: Xid, g: string, y: Xid)
    requires Inv(s) && Prompt(s, limit) && Timed(s, limit) && s.retention >= 2 * limit
    requires CommitsSweep(s, s', x) && g in s'.horizon && y in s'.active
    ensures s'.horizon[g] < y
  {
    var Sweep(gone, raise) := s.active[x].work;
    SweepIsRaised(s, x);
    if !(g in s.horizon && s'.horizon[g] == s.horizon[g]) {
      var k :| k in gone && k.gvk == g && gone[k].stamp == s'.horizon[g];
      SweptRow(s, x, k);
      DueIsSettled(s, limit, k, s.active[x].start, y);
    }
  }

  lemma SweepKeepsTimed(s: Db, s': Db, limit: int, x: Xid)
    requires Inv(s) && Prompt(s, limit) && Timed(s, limit) && s.retention >= 2 * limit
    requires CommitsSweep(s, s', x)
    ensures Timed(s', limit)
  {
    forall g, y | g in s'.horizon && y in s'.active ensures s'.horizon[g] < y {
      RaisedBelowActive(s, s', limit, x, g, y);
    }
  }

  lemma PutKeepsTimed(s: Db, s': Db, limit: int, x: Xid)
    requires Inv(s) && Timed(s, limit) && CommitsPut(s, s', x)
    ensures Timed(s', limit)
  {
    assert PendingOk(s, x);
  }

  lemma QuietStepKeepsTimed(s: Db, s': Db, limit: int)
    requires TxsOk(s) && RowsOk(s) && Timed(s, limit) && Prompt(s', limit)
    requires CarriesOn(s, s') && PublishesNothing(s, s')
    ensures Timed(s', limit)
  {
  }

  lemma StepKeepsTimed(s: Db, s': Db, limit: int)
    requires Inv(s) && Publishes(s, s')
    requires Prompt(s, limit) && Prompt(s', limit) && Timed(s, limit) && s.retention >= 2 * limit
    ensures Timed(s', limit) && s'.retention == s.retention
  {
    if x :| CommitsSweep(s, s', x) {
      SweepKeepsTimed(s, s', limit, x);
    } else if x :| CommitsPut(s, s', x) {
      PutKeepsTimed(s, s', limit, x);
    } else {
      QuietStepKeepsTimed(s, s', limit);
    }
  }

  lemma {:induction false} TimedAlong(t: seq<Db>, limit: int, j: nat)
    requires Run(t) && j < |t| && (forall i | 0 <= i < |t| :: Prompt(t[i], limit)) && t[0].retention >= 2 * limit
    ensures Timed(t[j], limit) && t[j].retention == t[0].retention
  {
    if j > 0 {
      TimedAlong(t, limit, j - 1);
      RunStep(t, j - 1);
      StepKeepsTimed(t[j - 1], t[j], limit);
    }
  }

  /** A List taken now returns a version at or above every compacted_xid: no watcher that starts from
      it is Gone. */
  ghost predicate RelistWorks(s: Db) {
    forall gvk :: !IsGone(Snap(s), gvk, StartMark(Snap(s)))
  }

  lemma RelistMakesProgress(t: seq<Db>, limit: int, j: nat)
    requires Run(t) && XidsFit(t) && j < |t|
    requires (forall i | 0 <= i < |t| :: Prompt(t[i], limit)) && t[0].retention >= 2 * limit
    ensures RelistWorks(t[j])
  {
    TimedAlong(t, limit, j);
    RunInv(t, j);
    XminPositive(t, j);
    RoundTripsExactly(RV(0, Xmin(t[j]) - 1));
  }

  /******* How long a mark stays good *******/

  /** Since a snapshot with this xmin: whoever has a transaction id at or above it started no earlier
      than `floor`, and so did whoever wrote a row with such a stamp; and no such row was compacted. */
  ghost predicate Recent(s: Db, xmin: Xid, floor: Time) {
    && xmin <= s.next
    && (forall x | x in s.active && xmin <= x :: floor <= s.active[x].start)
    && (forall k | k in s.rows && xmin <= s.rows[k].stamp :: floor <= s.rows[k].updatedAt)
    && (forall g | g in s.horizon :: s.horizon[g] < xmin)
  }

  lemma SnapshotIsRecent(s: Db, limit: int)
    requires Inv(s) && Prompt(s, limit) && Timed(s, limit) && limit >= 0
    ensures Recent(s, Xmin(s), s.now - 2 * limit)
  {
    if Xmin(s) != s.next {
      assert Xmin(s) in s.active;
      forall k | k in s.rows && Xmin(s) <= s.rows[k].stamp ensures s.now - 2 * limit <= s.rows[k].updatedAt {
        assert s.rows[k].stamp !in s.active;
      }
    }
  }

  lemma PutKeepsRecent(s: Db, s': Db, xmin: Xid, floor: Time, x: Xid)
    requires Inv(s) && Recent(s, xmin, floor) && CommitsPut(s, s', x) && s.next <= s'.next
    ensures Recent(s', xmin, floor)
  {
    assert PendingOk(s, x);
  }

  lemma SweptIsBelow(s: Db, xmin: Xid, floor: Time, x: Xid, k: Key)
    requires Inv(s) && Recent(s, xmin, floor) && s.now - s.retention <= floor
    requires x in s.active && s.active[x].work.Sweep? && k in s.active[x].work.gone
    ensures s.active[x].work.gone[k].stamp < xmin
  {
    SweptRow(s, x, k);
  }

  lemma SweepRaisesBelow(s: Db, s': Db, xmin: Xid, floor: Time, x: Xid)
    requires Inv(s) && Recent(s, xmin, floor) && CommitsSweep(s, s', x) && s.now - s.retention <= floor
    ensures forall g | g in s'.horizon :: s'.horizon[g] < xmin
  {
    var gone := s.active[x].work.gone;
    forall k | k in gone ensures 0 <= gone[k].stamp < xmin {
      SweptIsBelow(s, xmin, floor, x, k);
    }
    SweepIsRaised(s, x);
    RaiseWithin(s.horizon, gone, s'.horizon, 0, xmin);
  }

  lemma SweepKeepsRecent(s: Db, s': Db, xmin: Xid, floor: Time, x: Xid)
    requires Inv(s) && Recent(s, xmin, floor) && CommitsSweep(s, s', x) && s.next <= s'.next
    requires s.now - s.retention <= floor
    ensures Recent(s', xmin, floor)
  {
    SweepRaisesBelow(s, s', xmin, floor, x);
  }

  lemma StepKeepsRecent(s: Db, s': Db, limit: int, xmin: Xid, floor: Time)
    requires Inv(s) && Publishes(s, s') && Recent(s, xmin, floor) && Prompt(s', limit)
    requires s.now - s.retention <= floor <= s.now - limit
    ensures Recent(s', xmin, floor)
  {
    if x :| CommitsPut(s, s', x) {
      PutKeepsRecent(s, s', xmin, floor, x);
    } else if x :| CommitsSweep(s, s', x) {
      SweepKeepsRecent(s, s', xmin, floor, x);
    }
  }

  lemma {:induction false} RecentAlong(t: seq<Db>, limit: int, i: nat, j: nat)
    requires Run(t) && i <= j < |t| && limit >= 0
    requires (forall m | 0 <= m < |t| :: Prompt(t[m], limit)) && t[0].retention >= 2 * limit
    requires t[j].now - t[i].now <= t[0].retention - 2 * limit
    ensures Recent(t[j], Xmin(t[i]), t[i].now - 2 * limit) && t[i].now <= t[j].now
    decreases j
  {
    if i == j {
      TimedAlong(t, limit, i);
      RunInv(t, i);
      SnapshotIsRecent(t[i], limit);
    } else {
      RunStep(t, j - 1);
      RecentAlong(t, limit, i, j - 1);
      TimedAlong(t, limit, j - 1);
      StepKeepsRecent(t[j - 1], t[j], limit, Xmin(t[i]), t[i].now - 2 * limit);
    }
  }

  /** A watcher whose poll comes within the retention, less twice the longest transaction, of the
      snapshot its mark came from is not Gone: a relisted watcher has that long for its first poll, and
      every later one as long again. */
  lemma MarkStaysGood(t: seq<Db>, limit: int, i: nat, j: nat, gvk: string)
    requires Run(t) && i <= j < |t| && limit >= 0
    requires (forall m | 0 <= m < |t| :: Prompt(t[m], limit)) && t[0].retention >= 2 * limit
    requires t[j].now - t[i].now <= t[0].retention - 2 * limit
    ensures Xmin(t[i]) >= 1 && !IsGone(Snap(t[j]), gvk, Xmin(t[i]) - 1)
  {
    XminPositive(t, i);
    RecentAlong(t, limit, i, j);
  }

  /******* A retention that is too short *******/

  const KEY := Key("g", "n", "o")
  const DEAD := Args(false, 0, false, Some(EMPTY_OBJECT), Some(EMPTY_OBJECT), Some(EMPTY_OBJECT), Some(0))
  const DEAD_ROW := Row(0, 2, 1, EMPTY_OBJECT, EMPTY_OBJECT, EMPTY_OBJECT, Some(0), 0, 0)
  const SWEPT: map<Key, Row> := map[KEY := DEAD_ROW]

  /** xid 1 starts at `limit` and stays open; xid 2, started at 0, takes its xid later all the same. */
  function Early(retention: int, limit: int, next: Xid, write: Option<Work>): Db {
    var slow := map[1 := Tx(limit, limit, Idle)];
    Db(retention, next, limit, if write.None? then slow else slow[2 := Tx(0, limit, write.value)],
       map[], map[], if write.Some? && write.value.Put? then {0} else {}, [])
  }

  /** xid 2 has committed its tombstone; xid 3, if begun, is the compactor. */
  function Late(retention: int, limit: int, now: Time, sweep: Option<Work>): Db {
    var slow := map[1 := Tx(limit, limit, Idle)];
    Db(retention, if sweep.None? then 3 else 4, now,
       if sweep.None? then slow else slow[3 := Tx(2 * limit, 2 * limit, sweep.value)],
       SWEPT, map[], {0}, [Wrote(2, KEY, DEAD_ROW, DEAD)])
  }

  function Compacted(retention: int, limit: int): Db {
    Db(retention, 4, 2 * limit, map[1 := Tx(limit, limit, Idle)], map[], map["g" := 2], {0},
       [Wrote(2, KEY, DEAD_ROW, DEAD), Swept(3, SWEPT)])
  }

  function Story(retention: int, limit: int): (t: seq<Db>)
    ensures |t| == 10
  {
    [Db(retention, 1, 0, map[], map[], map[], {}, []),
     Db(retention, 1, limit, map[], map[], map[], {}, []),
     Early(retention, limit, 2, None),
     Early(retention, limit, 3, Some(Idle)),
     Early(retention, limit, 3, Some(Put(KEY, DEAD_ROW, DEAD, None))),
     Late(retention, limit, limit, None),
     Late(retention, limit, 2 * limit, None),
     Late(retention, limit, 2 * limit, Some(Idle)),
     Late(retention, limit, 2 * limit, Some(Sweep(SWEPT, map["g" := 2]))),
     Compacted(retention, limit)]
  }

  lemma Begins(retention: int, limit: int)
    requires limit >= 0
    ensures var t := Story(retention, limit); Next(t[0], t[1]) && Next(t[1], t[2]) && Next(t[2], t[3])
  {
    var t := Story(retention, limit);
    assert Enabled(t[0], Tick(limit)) && Do(t[0], Tick(limit)) == t[1];
    assert Enabled(t[1], Begin(limit)) && Do(t[1], Begin(limit)) == t[2];
    assert Enabled(t[2], Begin(0)) && Do(t[2], Begin(0)) == t[3];
  }

  lemma Writes(retention: int, limit: int)
    ensures var t := Story(retention, limit); Next(t[3], t[4])
  {
    var t := Story(retention, limit);
    assert Enabled(t[3], Upsert(2, KEY, DEAD, 0)) && Do(t[3], Upsert(2, KEY, DEAD, 0)) == t[4];
  }

  lemma Commits(retention: int, limit: int)
    ensures var t := Story(retention, limit); Next(t[4], t[5])
  {
    var t := Story(retention, limit);
    assert Enabled(t[4], Commit(2)) && Do(t[4], Commit(2)) == t[5];
  }

  lemma Waits(retention: int, limit: int)
    requires limit >= 0
    ensures var t := Story(retention, limit); Next(t[5], t[6]) && Next(t[6], t[7])
  {
    var t := Story(retention, limit);
    assert Enabled(t[5], Tick(2 * limit)) && Do(t[5], Tick(2 * limit)) == t[6];
    assert Enabled(t[6], Begin(2 * limit)) && Do(t[6], Begin(2 * limit)) == t[7];
  }

  lemma Sweeps(retention: int, limit: int)
    requires retention < 2 * limit
    ensures var t := Story(retention, limit); Next(t[7], t[8])
  {
    var t := Story(retention, limit);
    assert Enabled(t[7], SweepRow(3, KEY)) && Do(t[7], SweepRow(3, KEY)) == t[8];
  }

  lemma Compacts(retention: int, limit: int)
    ensures var t := Story(retention, limit); Next(t[8], t[9])
  {
    var t := Story(retention, limit);
    assert Enabled(t[8], Commit(3));
    assert SWEPT - SWEPT.Keys == map[];
    assert Merge(map[], map["g" := 2]) == map["g" := 2];
    assert Do(t[8], Commit(3)) == t[9];
  }

  lemma StoryIsRun(retention: int, limit: int)
    requires limit >= 0 && retention < 2 * limit
    ensures Run(Story(retention, limit))
  {
    var t := Story(retention, limit);
    forall i: nat | i + 1 < |t| ensures Linked(t, i) {
      StoryStep(retention, limit, i);
    }
  }

  lemma StoryStep(retention: int, limit: int, i: nat)
    requires limit >= 0 && retention < 2 * limit && i < 9
    ensures Next(Story(retention, limit)[i], Story(retention, limit)[i + 1])
  {
    if i <= 2 {
      Begins(retention, limit);
    } else if i == 3 {
      Writes(retention, limit);
    } else if i == 4 {
      Commits(retention, limit);
    } else if i <= 6 {
      Waits(retention, limit);
    } else if i == 7 {
      Sweeps(retention, limit);
    } else {
      Compacts(retention, limit);
    }
  }

  lemma StoryIsPrompt(retention: int, limit: int, i: nat)
    requires limit >= 0 && i < 10
    ensures Prompt(Story(retention, limit)[i], limit)
  {
  }

  lemma StoryEndsGone(retention: int, limit: int)
    ensures !RelistWorks(Story(retention, limit)[9])
  {
    var last := Compacted(retention, limit);
    assert 1 in last.active.Keys;
    assert Xmin(last) == 1;
    RoundTripsExactly(RV(0, 0));
    assert IsGone(Snap(last), "g", StartMark(Snap(last)));
  }

  /** A run with this retention whose transactions all live at most `limit`. */
  ghost predicate PromptRun(t: seq<Db>, retention: int, limit: int) {
    && Run(t) && XidsFit(t) && t[0].retention == retention
    && forall i | 0 <= i < |t| :: Prompt(t[i], limit)
  }

  /** Relisting makes progress exactly when tombstones are effectively kept at least twice as long as
      a transaction can live. With that retention the horizon is below xmin in every state of every
      run. With any shorter one some run compacts a tombstone above the xid of a transaction still in
      progress, and every List from then until that transaction ends is answered with another 410. */
  lemma RetentionBoundIsExact(retention: int, limit: int)
    requires limit >= 0
    ensures retention >= 2 * limit
            <==> forall t, j: nat | PromptRun(t, retention, limit) && j < |t| :: RelistWorks(t[j])
  {
    if retention >= 2 * limit {
      forall t, j: nat | PromptRun(t, retention, limit) && j < |t| ensures RelistWorks(t[j]) {
        RelistMakesProgress(t, limit, j);
      }
    } else {
      var t := Story(retention, limit);
      StoryIsRun(retention, limit);
      forall i | 0 <= i < 10 ensures Prompt(t[i], limit) { StoryIsPrompt(retention, limit, i); }
      StoryEndsGone(retention, limit);
      assert PromptRun(t, retention, limit) && !RelistWorks(t[9]);
    }
  }
}
