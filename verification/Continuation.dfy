/**
 What a watcher that goes on from a cache and a watermark can rely on. The watcher knows the two; the
 database is in some reachable state and goes on in any way at all. This module says exactly when every
 way it can go on leaves the watcher's cache equal to the table.
 */
module Continuation {
  import opened Wrappers
  import opened Json
  import opened Model
  import opened Tombstone
  import opened WritePath
  import opened Compaction
  import opened Protocol
  import opened Snapshots
  import opened Watch
  import opened Agreement

  /******* The condition *******/

  /** What List makes of a selected key that holds this. */
  function Shown(row: Option<Row>): Option<Row> {
    if row.Some? && ListShows(row.value.deletionTs, row.value.metadata) then row else None
  }

  /** The next poll will correct the key, or the cache has it as List shows it. */
  predicate AgreesUpTo(cache: Cache, b: Snapshot, sel: Selector, mark: Xid, k: Key) {
    Polled(b, sel, mark, k) || Lookup(cache, k) == Lookup(ListCache(b, sel), k)
  }

  ghost predicate Covers(cache: Cache, b: Snapshot, sel: Selector, mark: Xid) {
    forall k :: AgreesUpTo(cache, b, sel, mark, k)
  }

  ghost predicate Selectable(sel: Selector) {
    exists k :: Selects(sel, k)
  }

  /** What a transaction at or below the mark may be up to. No poll will report what it writes. */
  ghost predicate Harmless(work: Work, cache: Cache, sel: Selector) {
    match work
    case Idle => !Selectable(sel)
    case Refused(key, _) => !Selects(sel, key)
    case Put(key, row, _, _) => Selects(sel, key) ==> Lookup(cache, key) == Shown(Some(row))
    case Sweep(_, _) => true
  }

  ghost predicate NothingToCome(s: Db, cache: Cache, sel: Selector, mark: Xid) {
    && (Selectable(sel) ==> mark < s.next)
    && forall x | x in s.active && x <= mark :: Harmless(s.active[x].work, cache, sel)
  }

  ghost predicate Safe(s: Db, cache: Cache, sel: Selector, mark: Xid) {
    Covers(cache, Snap(s), sel, mark) && NothingToCome(s, cache, sel, mark)
  }

  /** A poll at `s` from the mark, unless it is Gone or meets unreadable metadata, completes the cache. */
  ghost predicate PollAgrees(s: Db, cache: Cache, sel: Selector, mark: Xid) {
    !IsGone(Snap(s), sel.gvk, mark) && Alike(Snap(s), sel, mark) ==>
      Absorb(cache, Snap(s), sel, mark) == ListCache(Snap(s), sel)
  }

  /******* It suffices *******/

  lemma RowReadsAlike(r: Row)
    ensures ListShows(r.deletionTs, r.metadata) <==> !IsTombstone(r.deletionTs, r.metadata)
    ensures r.deletionTs.None? || ReadsAlike(r.metadata) ==>
              (IsFullyDeleted(r.deletionTs, r.metadata) <==> IsTombstone(r.deletionTs, r.metadata))
  {
    SqlTestsAreComplements(r.deletionTs, r.metadata);
    GoAgreesExactly(r.deletionTs, r.metadata);
  }

  lemma ListCacheAt(b: Snapshot, sel: Selector, k: Key)
    ensures Lookup(ListCache(b, sel), k) == if Selects(sel, k) then Shown(Lookup(b.rows, k)) else None
  {
  }

  lemma CoveredPollAgrees(s: Db, cache: Cache, sel: Selector, mark: Xid)
    requires Covers(cache, Snap(s), sel, mark)
    ensures PollAgrees(s, cache, sel, mark)
  {
    var b := Snap(s);
    if Alike(b, sel, mark) {
      var absorbed := Absorb(cache, b, sel, mark);
      forall k ensures Lookup(absorbed, k) == Lookup(ListCache(b, sel), k) {
        assert AgreesUpTo(cache, b, sel, mark, k);
        if Polled(b, sel, mark, k) { RowReadsAlike(b.rows[k]); }
      }
      SameLookupsSameMap(absorbed, ListCache(b, sel));
    }
  }

  lemma PutKeepsCovers(s: Db, s': Db, cache: Cache, sel: Selector, mark: Xid, x: Xid)
    requires Inv(s) && CommitsPut(s, s', x) && Safe(s, cache, sel, mark)
    ensures Covers(cache, Snap(s'), sel, mark)
  {
    var key, row := s.active[x].work.key, s.active[x].work.row;
    assert PendingOk(s, x);
    forall k ensures AgreesUpTo(cache, Snap(s'), sel, mark, k) {
      assert AgreesUpTo(cache, Snap(s), sel, mark, k);
      ListCacheAt(Snap(s), sel, k);
      ListCacheAt(Snap(s'), sel, k);
      if k == key && x <= mark {
        assert Harmless(s.active[x].work, cache, sel);
      }
    }
  }

  lemma SweepKeepsCovers(s: Db, s': Db, cache: Cache, sel: Selector, mark: Xid, x: Xid)
    requires Inv(s) && CommitsSweep(s, s', x) && Covers(cache, Snap(s), sel, mark)
    requires !IsGone(Snap(s'), sel.gvk, mark)
    ensures Covers(cache, Snap(s'), sel, mark)
  {
    forall k ensures AgreesUpTo(cache, Snap(s'), sel, mark, k) {
      assert AgreesUpTo(cache, Snap(s), sel, mark, k);
      ListCacheAt(Snap(s), sel, k);
      ListCacheAt(Snap(s'), sel, k);
      if k in s.rows && k !in s'.rows {
        SweptRowRaisesHorizon(s, s', x, k);
        SqlTestsAreComplements(s.rows[k].deletionTs, s.rows[k].metadata);
      }
    }
  }

  lemma StepKeepsNothingToCome(s: Db, s': Db, cache: Cache, sel: Selector, mark: Xid)
    requires WorksCarryOn(s, s') && NothingToCome(s, cache, sel, mark)
    ensures NothingToCome(s', cache, sel, mark)
  {
    forall x | x in s'.active && x <= mark ensures Harmless(s'.active[x].work, cache, sel) {
      if Selectable(sel) {
        assert Harmless(s.active[x].work, cache, sel);
      }
    }
  }

  lemma StepKeepsSafe(s: Db, s': Db, cache: Cache, sel: Selector, mark: Xid)
    requires Inv(s) && WorksCarryOn(s, s') && Publishes(s, s') && Safe(s, cache, sel, mark)
    requires !IsGone(Snap(s'), sel.gvk, mark)
    ensures Safe(s', cache, sel, mark)
  {
    StepKeepsNothingToCome(s, s', cache, sel, mark);
    if x :| CommitsPut(s, s', x) {
      PutKeepsCovers(s, s', cache, sel, mark, x);
    } else if x :| CommitsSweep(s, s', x) {
      SweepKeepsCovers(s, s', cache, sel, mark, x);
    } else {
      SameRowsKeepCovers(s, s', cache, sel, mark);
    }
  }

  lemma SameRowsKeepCovers(s: Db, s': Db, cache: Cache, sel: Selector, mark: Xid)
    requires s'.rows == s.rows && Covers(cache, Snap(s), sel, mark)
    ensures Covers(cache, Snap(s'), sel, mark)
  {
    forall k ensures AgreesUpTo(cache, Snap(s'), sel, mark, k) {
      assert AgreesUpTo(cache, Snap(s), sel, mark, k);
    }
  }

  lemma GoneStays(s: Db, s': Db, gvk: string, mark: Xid)
    requires Publishes(s, s') && IsGone(Snap(s), gvk, mark)
    ensures IsGone(Snap(s'), gvk, mark)
  {
    if x :| CommitsSweep(s, s', x) {
      MergeIsUpper(s.horizon, s.active[x].work.raise);
    }
  }

  lemma PathStep(t: seq<Db>, i: nat)
    requires Path(t) && Inv(t[0]) && i + 1 < |t|
    ensures Inv(t[i]) && Publishes(t[i], t[i + 1]) && WorksCarryOn(t[i], t[i + 1])
  {
    PathInv(t, i);
    assert Linked(t, i);
    NextPublishes(t[i], t[i + 1]);
    NextCarriesWorkOn(t[i], t[i + 1]);
  }

  lemma {:induction false} GoneStaysAlong(t: seq<Db>, i: nat, j: nat, gvk: string, mark: Xid)
    requires Path(t) && Inv(t[0]) && i <= j < |t| && IsGone(Snap(t[i]), gvk, mark)
    ensures IsGone(Snap(t[j]), gvk, mark)
    decreases j
  {
    if i < j {
      GoneStaysAlong(t, i, j - 1, gvk, mark);
      PathStep(t, j - 1);
      GoneStays(t[j - 1], t[j], gvk, mark);
    }
  }

  lemma {:induction false} SafeAlong(t: seq<Db>, i: nat, j: nat, cache: Cache, sel: Selector, mark: Xid)
    requires Path(t) && Inv(t[0]) && i <= j < |t| && Safe(t[i], cache, sel, mark)
    requires !IsGone(Snap(t[j]), sel.gvk, mark)
    ensures Safe(t[j], cache, sel, mark)
    decreases j
  {
    if i < j {
      PathStep(t, j - 1);
      if IsGone(Snap(t[j - 1]), sel.gvk, mark) {
        GoneStays(t[j - 1], t[j], sel.gvk, mark);
      }
      SafeAlong(t, i, j - 1, cache, sel, mark);
      StepKeepsSafe(t[j - 1], t[j], cache, sel, mark);
    }
  }

  /******* It is necessary: one way to go on for each way to fail *******/

  ghost predicate Refutes(t: seq<Db>, s: Db, cache: Cache, sel: Selector, mark: Xid) {
    Path(t) && t[0] == s && !PollAgrees(t[|t| - 1], cache, sel, mark)
  }

  /** The state a refutation starts from: not Gone already, nothing unreadable to poll. */
  ghost predicate Open(s: Db, sel: Selector, mark: Xid) {
    Inv(s) && !IsGone(Snap(s), sel.gvk, mark) && Alike(Snap(s), sel, mark)
  }

  /** A row written at or below the mark that the cache has otherwise is never corrected. */
  lemma UnreportedWrite(s: Db, e: Db, cache: Cache, sel: Selector, mark: Xid, key: Key, row: Row)
    requires Open(s, sel, mark) && e.rows == s.rows[key := row] && e.horizon == s.horizon
    requires Selects(sel, key) && row.stamp <= mark && Lookup(cache, key) != Shown(Some(row))
    ensures !IsGone(Snap(e), sel.gvk, mark) && Alike(Snap(e), sel, mark)
    ensures !PollAgrees(e, cache, sel, mark)
  {
    var b := Snap(e);
    forall k | Polled(b, sel, mark, k) ensures b.rows[k].deletionTs.None? || ReadsAlike(b.rows[k].metadata) {
      assert Polled(Snap(s), sel, mark, k);
    }
    assert !Polled(b, sel, mark, key);
    ListCacheAt(b, sel, key);
    assert Lookup(Absorb(cache, b, sel, mark), key) == Lookup(cache, key);
  }

  /** A row at or below the mark that is not in the cache as List shows it. */
  lemma UncoveredDisagrees(s: Db, cache: Cache, sel: Selector, mark: Xid) returns (t: seq<Db>)
    requires Open(s, sel, mark) && !Covers(cache, Snap(s), sel, mark)
    ensures Refutes(t, s, cache, sel, mark)
  {
    var k :| !AgreesUpTo(cache, Snap(s), sel, mark, k);
    t := [s];
    assert Lookup(Absorb(cache, Snap(s), sel, mark), k) == Lookup(cache, k);
  }

  /** A pending write at or below the mark, about to commit. */
  lemma PutDisagrees(s: Db, x: Xid, cache: Cache, sel: Selector, mark: Xid) returns (t: seq<Db>)
    requires Open(s, sel, mark) && x in s.active && x <= mark && s.active[x].work.Put?
    requires !Harmless(s.active[x].work, cache, sel)
    ensures Refutes(t, s, cache, sel, mark)
  {
    assert PendingOk(s, x);
    var e := Do(s, Commit(x));
    t := [s, e];
    assert Linked(t, 0) by { assert Enabled(s, Commit(x)); }
    UnreportedWrite(s, e, cache, sel, mark, s.active[x].work.key, s.active[x].work.row);
  }

  lemma {:induction false} Above(uids: set<Uid>) returns (uid: Uid)
    ensures forall u | u in uids :: u < uid
  {
    if uids == {} {
      uid := 0;
    } else {
      var u :| u in uids;
      var other := Above(uids - {u});
      uid := if u < other then other else u + 1;
      assert forall v | v in uids :: v == u || v in uids - {u};
    }
  }

  /** Whoever else holds the key's lock can be rolled back. */
  lemma FreeKey(s: Db, x: Xid, key: Key) returns (s': Db)
    requires Inv(s)
    ensures Next(s, s') && PublishesNothing(s, s') && Unlocked(s', x, key)
    ensures s' == s.(active := s'.active) && s'.active.Keys <= s.active.Keys
    ensures x in s.active ==> x in s'.active && s'.active[x] == s.active[x]
  {
    if Unlocked(s, x, key) {
      s' := Do(s, Tick(s.now));
      assert Enabled(s, Tick(s.now));
    } else {
      var y :| y in s.active && y != x && Locks(s.active[y].work, key);
      s' := Do(s, Abort(y));
      assert Enabled(s, Abort(y));
    }
  }

  /** An idle transaction writes a row and commits. */
  lemma WriteAndCommit(s: Db, x: Xid, key: Key, args: Args, uid: Uid, row: Row) returns (t: seq<Db>)
    requires x in s.active && s.active[x].work.Idle? && Unlocked(s, x, key) && uid !in s.uids
    requires ProcUpsert(args, ContextOf(s, x, uid), Lookup(s.rows, key)) == Applied(row)
    ensures Path(t) && |t| == 3 && t[0] == s
    ensures var e := t[2];
            && e.rows == s.rows[key := row] && e.horizon == s.horizon && e.active == s.active - {x}
            && e.uids == s.uids + {uid} && e.next == s.next && e.now == s.now
            && e.log == s.log + [Wrote(x, key, row, args)]
  {
    assert Enabled(s, Upsert(x, key, args, uid));
    var s1 := Do(s, Upsert(x, key, args, uid));
    assert Enabled(s1, Commit(x));
    t := [s, s1, Do(s1, Commit(x))];
    assert Linked(t, 0) && Linked(t, 1);
  }

  /** A spec the cache does not have under the key. */
  function OtherSpec(held: Option<Row>): Json {
    if held.Some? && held.value.spec == EMPTY_OBJECT then JsonNull else EMPTY_OBJECT
  }

  /** Creates the key, or updates what it holds. */
  function Overwrite(current: Option<Row>, spec: Json, deletionTs: Option<Time>): Args {
    Args(false, if current.Some? then current.value.version else 0, false,
         Some(spec), Some(EMPTY_OBJECT), Some(EMPTY_OBJECT), deletionTs)
  }

  lemma OverwriteApplies(s: Db, key: Key, spec: Json, deletionTs: Option<Time>, c: Context) returns (row: Row)
    requires RowsOk(s)
    ensures ProcUpsert(Overwrite(Lookup(s.rows, key), spec, deletionTs), c, Lookup(s.rows, key)) == Applied(row)
    ensures row.stamp == c.txid && row.spec == spec && row.metadata == EMPTY_OBJECT && row.deletionTs == deletionTs
  {
    row := ProcUpsert(Overwrite(Lookup(s.rows, key), spec, deletionTs), c, Lookup(s.rows, key)).row;
  }

  /** A transaction at or below the mark that has written nothing yet writes any selected key. */
  lemma IdleDisagrees(s: Db, x: Xid, key: Key, cache: Cache, sel: Selector, mark: Xid) returns (t: seq<Db>)
    requires Open(s, sel, mark) && x in s.active && x <= mark && s.active[x].work.Idle? && Selects(sel, key)
    ensures Refutes(t, s, cache, sel, mark)
  {
    var s1 := FreeKey(s, x, key);
    NextKeepsInv(s, s1);
    var spec := OtherSpec(Lookup(cache, key));
    var uid := Above(s.uids);
    var row := OverwriteApplies(s1, key, spec, None, ContextOf(s1, x, uid));
    var u := WriteAndCommit(s1, x, key, Overwrite(Lookup(s1.rows, key), spec, None), uid, row);
    var first := OneStep(s, s1);
    t := Join(first, u);
    RowReadsAlike(row);
    UnreportedWrite(s, u[2], cache, sel, mark, key, row);
  }

  /** Transaction ids not yet handed out lie below the mark. */
  lemma FutureDisagrees(s: Db, cache: Cache, sel: Selector, mark: Xid) returns (t: seq<Db>)
    requires Open(s, sel, mark) && Selectable(sel) && s.next <= mark
    ensures Refutes(t, s, cache, sel, mark)
  {
    var key :| Selects(sel, key);
    assert Enabled(s, Begin(s.now));
    var s1 := Do(s, Begin(s.now));
    NextKeepsInv(s, s1);
    assert Alike(Snap(s1), sel, mark) by {
      forall k | Polled(Snap(s1), sel, mark, k) ensures Polled(Snap(s), sel, mark, k) {}
    }
    var first := OneStep(s, s1);
    var u := IdleDisagrees(s1, s.next, key, cache, sel, mark);
    t := Join(first, u);
  }

  /** Somebody else leaves a tombstone under the key. */
  lemma Bury(s: Db, x: Xid, key: Key) returns (t: seq<Db>, dead: Row)
    requires Inv(s) && x in s.active && Unlocked(s, x, key) && !Locks(s.active[x].work, key)
    ensures Path(t) && t[0] == s
    ensures var e := t[|t| - 1];
            e.rows == s.rows[key := dead] && e.horizon == s.horizon && e.active == s.active
    ensures IsTombstone(dead.deletionTs, dead.metadata)
  {
    var y, s1 := s.next, Do(s, Begin(s.now));
    assert Enabled(s, Begin(s.now)) && s1.active - {y} == s.active;
    var first := OneStep(s, s1);
    var uid := Above(s.uids);
    dead := OverwriteApplies(s, key, EMPTY_OBJECT, Some(s.now), ContextOf(s1, y, uid));
    var u := WriteAndCommit(s1, y, key, Overwrite(Lookup(s.rows, key), EMPTY_OBJECT, Some(s.now)), uid, dead);
    t := Join(first, u);
    SqlTestsAreComplements(dead.deletionTs, dead.metadata);
  }

  lemma ReviveAndCommit(s: Db, x: Xid, uid: Uid) returns (t: seq<Db>, row: Row)
    requires Inv(s) && x in s.active && s.active[x].work.Refused? && Unlocked(s, x, s.active[x].work.key)
    requires var key := s.active[x].work.key; key in s.rows && IsTombstone(s.rows[key].deletionTs, s.rows[key].metadata)
    requires uid !in s.uids
    ensures Path(t) && t[0] == s
    ensures var e := t[|t| - 1]; e.rows == s.rows[s.active[x].work.key := row] && e.horizon == s.horizon
    ensures row.stamp == x && row.uid == uid && row.deletionTs.None?
  {
    assert PendingOk(s, x);
    assert Enabled(s, Revive(x, uid));
    var s1 := Do(s, Revive(x, uid));
    row := s1.active[x].work.row;
    assert Enabled(s1, Commit(x));
    t := [s, s1, Do(s1, Commit(x))];
    assert Linked(t, 0) && Linked(t, 1);
  }

  lemma BuryAndRevive(s: Db, x: Xid, avoid: Option<Row>) returns (t: seq<Db>, row: Row)
    requires Inv(s) && x in s.active && s.active[x].work.Refused? && Unlocked(s, x, s.active[x].work.key)
    ensures Path(t) && t[0] == s
    ensures var e := t[|t| - 1]; e.rows == s.rows[s.active[x].work.key := row] && e.horizon == s.horizon
    ensures row.stamp == x && row.deletionTs.None? && Some(row) != avoid
  {
    var u, dead := Bury(s, x, s.active[x].work.key);
    var e := u[|u| - 1];
    PathInv(u, |u| - 1);
    var uid := Above(e.uids + if avoid.Some? then {avoid.value.uid} else {});
    var v;
    v, row := ReviveAndCommit(e, x, uid);
    t := Join(u, v);
  }

  /** A create at or below the mark that met another row revives its key once that is a tombstone. */
  lemma RefusedDisagrees(s: Db, x: Xid, cache: Cache, sel: Selector, mark: Xid) returns (t: seq<Db>)
    requires Open(s, sel, mark) && x in s.active && x <= mark && s.active[x].work.Refused?
    requires Selects(sel, s.active[x].work.key)
    ensures Refutes(t, s, cache, sel, mark)
  {
    var key := s.active[x].work.key;
    var s1 := FreeKey(s, x, key);
    NextKeepsInv(s, s1);
    var first := OneStep(s, s1);
    var u, row := BuryAndRevive(s1, x, Lookup(cache, key));
    t := Join(first, u);
    RowReadsAlike(row);
    UnreportedWrite(s, u[|u| - 1], cache, sel, mark, key, row);
  }

  lemma NotSafeDisagrees(s: Db, cache: Cache, sel: Selector, mark: Xid) returns (t: seq<Db>)
    requires Open(s, sel, mark) && !Safe(s, cache, sel, mark)
    ensures Refutes(t, s, cache, sel, mark)
  {
    if !Covers(cache, Snap(s), sel, mark) {
      t := UncoveredDisagrees(s, cache, sel, mark);
    } else if Selectable(sel) && s.next <= mark {
      t := FutureDisagrees(s, cache, sel, mark);
    } else {
      var x :| x in s.active && x <= mark && !Harmless(s.active[x].work, cache, sel);
      match s.active[x].work {
        case Idle =>
          var key :| Selects(sel, key);
          t := IdleDisagrees(s, x, key, cache, sel, mark);
        case Refused(_, _) => t := RefusedDisagrees(s, x, cache, sel, mark);
        case Put(_, _, _, _) => t := PutDisagrees(s, x, cache, sel, mark);
      }
    }
  }

  /** However the database goes on from `s`, the watcher's next poll completes its cache, or is Gone, or
      meets unreadable metadata: exactly when it is Gone already; or every selected row at or below the
      mark is in the cache as List shows it, and every transaction at or below the mark is a sweep, or
      confined to a key that is not selected, or about to write what the cache has already. */
  lemma NextPollAgreesExactly(s: Db, cache: Cache, sel: Selector, mark: Xid)
    requires Inv(s) && Alike(Snap(s), sel, mark)
    ensures (forall t | Path(t) && t[0] == s :: PollAgrees(t[|t| - 1], cache, sel, mark))
            <==> IsGone(Snap(s), sel.gvk, mark) || Safe(s, cache, sel, mark)
  {
    if IsGone(Snap(s), sel.gvk, mark) {
      forall t | Path(t) && t[0] == s ensures PollAgrees(t[|t| - 1], cache, sel, mark) {
        GoneStaysAlong(t, 0, |t| - 1, sel.gvk, mark);
      }
    } else if Safe(s, cache, sel, mark) {
      forall t | Path(t) && t[0] == s ensures PollAgrees(t[|t| - 1], cache, sel, mark) {
        if !IsGone(Snap(t[|t| - 1]), sel.gvk, mark) {
          SafeAlong(t, 0, |t| - 1, cache, sel, mark);
          CoveredPollAgrees(t[|t| - 1], cache, sel, mark);
        }
      }
    } else {
      var t := NotSafeDisagrees(s, cache, sel, mark);
      assert Path(t) && t[0] == s;
    }
  }

  /******* Every later poll *******/

  /** A watch that goes on from a cache and a mark, and the completed polls after it. */
  ghost predicate Resumes(t: seq<Db>, sel: Selector, w: Watching, cache: Cache, mark: Xid) {
    && |w.at| == |w.caches| == |w.marks| > 0
    && (forall n | 0 <= n < |w.at| :: w.at[n] < |t|)
    && w.caches[0] == cache && w.marks[0] == mark
    && (forall n | 0 <= n < |w.at| - 1 :: PollMoves(t, sel, w, n))
    && forall n | 0 <= n < |w.at| - 1 :: PollDelivers(t, sel, w, n)
  }

  ghost predicate ReadableUpTo(t: seq<Db>, sel: Selector, w: Watching, n: nat)
    requires |w.marks| == |w.at| && n < |w.at| && forall m | 0 <= m < |w.at| :: w.at[m] < |t|
  {
    forall m | 0 < m <= n :: Alike(At(t, w, m), sel, w.marks[m - 1])
  }

  ghost predicate WatchAgrees(t: seq<Db>, sel: Selector, w: Watching)
    requires |w.at| == |w.caches| == |w.marks| && forall m | 0 <= m < |w.at| :: w.at[m] < |t|
  {
    forall n | 0 < n < |w.at| && ReadableUpTo(t, sel, w, n) :: w.caches[n] == ListCache(At(t, w, n), sel)
  }

  /** A transaction at or below the mark may write only what List shows already, or nothing visible at
      all: the first poll after the resume can replace what the cache had under the key. */
  ghost predicate Settled(work: Work, sel: Selector) {
    work.Put? && Selects(sel, work.key) ==> Shown(work.base) == Shown(Some(work.row))
  }

  ghost predicate SafeForGood(s: Db, cache: Cache, sel: Selector, mark: Xid) {
    && Safe(s, cache, sel, mark)
    && forall x | x in s.active && x <= mark :: Settled(s.active[x].work, sel)
  }

  lemma StepKeepsSettled(s: Db, s': Db, cache: Cache, sel: Selector, mark: Xid)
    requires WorksCarryOn(s, s') && SafeForGood(s, cache, sel, mark)
    ensures forall x | x in s'.active && x <= mark :: Settled(s'.active[x].work, sel)
  {
    forall x | x in s'.active && x <= mark ensures Settled(s'.active[x].work, sel) {
      if Selectable(sel) {
        assert Harmless(s.active[x].work, cache, sel) && Settled(s.active[x].work, sel);
      }
    }
  }

  lemma {:induction false} SafeForGoodAlong(t: seq<Db>, i: nat, j: nat, cache: Cache, sel: Selector, mark: Xid)
    requires Path(t) && Inv(t[0]) && i <= j < |t| && SafeForGood(t[i], cache, sel, mark)
    requires !IsGone(Snap(t[j]), sel.gvk, mark)
    ensures SafeForGood(t[j], cache, sel, mark)
    decreases j
  {
    if i < j {
      PathStep(t, j - 1);
      if IsGone(Snap(t[j - 1]), sel.gvk, mark) {
        GoneStays(t[j - 1], t[j], sel.gvk, mark);
      }
      SafeForGoodAlong(t, i, j - 1, cache, sel, mark);
      StepKeepsSettled(t[j - 1], t[j], cache, sel, mark);
      StepKeepsSafe(t[j - 1], t[j], cache, sel, mark);
    }
  }

  /** A completed poll leaves a cache and a mark to go on from. */
  lemma PollKeepsSafeForGood(s: Db, cache: Cache, sel: Selector, mark: Xid)
    requires Inv(s) && SafeForGood(s, cache, sel, mark)
    ensures SafeForGood(s, ListCache(Snap(s), sel), sel, NextMark(mark, Xmin(s)))
  {
    var listed, after := ListCache(Snap(s), sel), NextMark(mark, Xmin(s));
    assert Covers(listed, Snap(s), sel, after);
    forall x | x in s.active && x <= after
      ensures Harmless(s.active[x].work, listed, sel) && Settled(s.active[x].work, sel)
    {
      assert x <= mark;
      assert Harmless(s.active[x].work, cache, sel) && Settled(s.active[x].work, sel);
      if s.active[x].work.Put? {
        assert PendingOk(s, x);
        ListCacheAt(Snap(s), sel, s.active[x].work.key);
      }
    }
  }

  lemma {:induction false} SafeWatchAt(t: seq<Db>, sel: Selector, w: Watching, cache: Cache, mark: Xid, n: nat)
    requires Path(t) && Inv(t[0]) && Resumes(t, sel, w, cache, mark) && n < |w.at|
    requires SafeForGood(t[w.at[0]], cache, sel, mark) && ReadableUpTo(t, sel, w, n)
    ensures SafeForGood(t[w.at[n]], w.caches[n], sel, w.marks[n])
    ensures n > 0 ==> w.caches[n] == ListCache(At(t, w, n), sel)
  {
    if n > 0 {
      SafeWatchAt(t, sel, w, cache, mark, n - 1);
      assert PollMoves(t, sel, w, n - 1) && PollDelivers(t, sel, w, n - 1);
      OnePollOn(t, sel, w, n - 1);
    }
  }

  lemma OnePollOn(t: seq<Db>, sel: Selector, w: Watching, n: nat)
    requires Path(t) && Inv(t[0]) && |w.at| == |w.caches| == |w.marks| && n + 1 < |w.at|
    requires w.at[n] < |t| && w.at[n + 1] < |t| && PollMoves(t, sel, w, n) && PollDelivers(t, sel, w, n)
    requires SafeForGood(t[w.at[n]], w.caches[n], sel, w.marks[n]) && Alike(At(t, w, n + 1), sel, w.marks[n])
    ensures SafeForGood(t[w.at[n + 1]], w.caches[n + 1], sel, w.marks[n + 1])
    ensures w.caches[n + 1] == ListCache(At(t, w, n + 1), sel)
  {
    var s := t[w.at[n + 1]];
    SafeForGoodAlong(t, w.at[n], w.at[n + 1], w.caches[n], sel, w.marks[n]);
    CoveredPollAgrees(s, w.caches[n], sel, w.marks[n]);
    DeliveryAbsorbs(w.caches[n], Snap(s), sel, w.marks[n], w.caches[n + 1]);
    PathInv(t, w.at[n + 1]);
    PollKeepsSafeForGood(s, w.caches[n], sel, w.marks[n]);
  }

  lemma SafeWatchAgrees(t: seq<Db>, sel: Selector, w: Watching, cache: Cache, mark: Xid)
    requires Path(t) && Inv(t[0]) && Resumes(t, sel, w, cache, mark) && SafeForGood(t[w.at[0]], cache, sel, mark)
    ensures WatchAgrees(t, sel, w)
  {
    forall n | 0 < n < |w.at| && ReadableUpTo(t, sel, w, n) ensures w.caches[n] == ListCache(At(t, w, n), sel) {
      SafeWatchAt(t, sel, w, cache, mark, n);
    }
  }

  lemma GoneWatchAgrees(t: seq<Db>, sel: Selector, w: Watching, cache: Cache, mark: Xid)
    requires Path(t) && Inv(t[0]) && Resumes(t, sel, w, cache, mark) && IsGone(Snap(t[w.at[0]]), sel.gvk, mark)
    ensures WatchAgrees(t, sel, w)
  {
    if |w.at| > 1 {
      assert PollMoves(t, sel, w, 0) && PollDelivers(t, sel, w, 0);
      GoneStaysAlong(t, w.at[0], w.at[1], sel.gvk, mark);
    }
  }

  ghost predicate RefutesWatch(t: seq<Db>, w: Watching, s: Db, cache: Cache, sel: Selector, mark: Xid) {
    Path(t) && t[0] == s && Resumes(t, sel, w, cache, mark) && w.at[0] == 0 && !WatchAgrees(t, sel, w)
  }

  lemma SamePoll(t: seq<Db>, sel: Selector, w: Watching, w': Watching, n: nat)
    requires |w.at| == |w.caches| == |w.marks| && n + 1 < |w.at| && w.at[n + 1] < |t|
    requires w.at <= w'.at && w.caches <= w'.caches && w.marks <= w'.marks && |w'.at| == |w'.caches| == |w'.marks|
    requires PollMoves(t, sel, w, n) && PollDelivers(t, sel, w, n)
    ensures PollMoves(t, sel, w', n) && PollDelivers(t, sel, w', n)
  {
    assert w'.at[n] == w.at[n] && w'.at[n + 1] == w.at[n + 1];
    assert w'.caches[n] == w.caches[n] && w'.caches[n + 1] == w.caches[n + 1];
    assert w'.marks[n] == w.marks[n] && w'.marks[n + 1] == w.marks[n + 1];
  }

  /** One more completed poll, at point `p`. */
  lemma AddPoll(t: seq<Db>, sel: Selector, w: Watching, cache: Cache, mark: Xid, p: nat) returns (w': Watching)
    requires Resumes(t, sel, w, cache, mark) && w.at[|w.at| - 1] <= p < |t|
    requires !IsGone(Snap(t[p]), sel.gvk, w.marks[|w.at| - 1])
    ensures Resumes(t, sel, w', cache, mark)
    ensures w'.at == w.at + [p] && w'.marks == w.marks + [NextMark(w.marks[|w.at| - 1], Xmin(t[p]))]
    ensures w'.caches == w.caches + [Absorb(w.caches[|w.at| - 1], Snap(t[p]), sel, w.marks[|w.at| - 1])]
  {
    var last := |w.at| - 1;
    var absorbed := Absorb(w.caches[last], Snap(t[p]), sel, w.marks[last]);
    w' := Watching(w.at + [p], w.caches + [absorbed], w.marks + [NextMark(w.marks[last], Xmin(t[p]))]);
    DeliveryAbsorbs(w.caches[last], Snap(t[p]), sel, w.marks[last], absorbed);
    forall n | 0 <= n < |w'.at| - 1 ensures PollMoves(t, sel, w', n) && PollDelivers(t, sel, w', n) {
      if n < last { SamePoll(t, sel, w, w', n); }
    }
  }

  lemma NoPolls(t: seq<Db>, sel: Selector, cache: Cache, mark: Xid) returns (w: Watching)
    requires |t| > 0
    ensures Resumes(t, sel, w, cache, mark) && w == Watching([0], [cache], [mark])
  {
    w := Watching([0], [cache], [mark]);
  }

  lemma OneDisagreement(t: seq<Db>, sel: Selector, w: Watching, n: nat)
    requires |w.at| == |w.caches| == |w.marks| && forall m | 0 <= m < |w.at| :: w.at[m] < |t|
    requires 0 < n < |w.at| && ReadableUpTo(t, sel, w, n) && w.caches[n] != ListCache(At(t, w, n), sel)
    ensures !WatchAgrees(t, sel, w)
  {
  }

  lemma FirstPollDisagrees(t: seq<Db>, s: Db, cache: Cache, sel: Selector, mark: Xid) returns (w: Watching)
    requires Refutes(t, s, cache, sel, mark)
    ensures RefutesWatch(t, w, s, cache, sel, mark)
  {
    var none := NoPolls(t, sel, cache, mark);
    w := AddPoll(t, sel, none, cache, mark, |t| - 1);
    OneDisagreement(t, sel, w, 1);
  }

  /** The first poll shows the row below the pending write again, and no later one corrects it. */
  lemma UnsettledCommit(s: Db, x: Xid, cache: Cache, sel: Selector, mark: Xid) returns (e: Db)
    requires Open(s, sel, mark) && Safe(s, cache, sel, mark)
    requires x in s.active && x <= mark && !Settled(s.active[x].work, sel)
    ensures Next(s, e) && !IsGone(Snap(e), sel.gvk, mark) && Alike(Snap(e), sel, mark)
    ensures Absorb(cache, Snap(s), sel, mark) == ListCache(Snap(s), sel) && NextMark(mark, Xmin(s)) == mark
    ensures Absorb(ListCache(Snap(s), sel), Snap(e), sel, mark) != ListCache(Snap(e), sel)
  {
    assert PendingOk(s, x);
    assert Enabled(s, Commit(x));
    e := Do(s, Commit(x));
    var listed := ListCache(Snap(s), sel);
    ListCacheAt(Snap(s), sel, s.active[x].work.key);
    UnreportedWrite(s, e, listed, sel, mark, s.active[x].work.key, s.active[x].work.row);
    CoveredPollAgrees(s, cache, sel, mark);
  }

  lemma PolledTwice(t: seq<Db>, cache: Cache, sel: Selector, mark: Xid) returns (w: Watching)
    requires |t| > 0
    requires !IsGone(Snap(t[0]), sel.gvk, mark) && Alike(Snap(t[0]), sel, mark) && NextMark(mark, Xmin(t[0])) == mark
    requires var b, once := Snap(t[|t| - 1]), Absorb(cache, Snap(t[0]), sel, mark);
             !IsGone(b, sel.gvk, mark) && Alike(b, sel, mark) && Absorb(once, b, sel, mark) != ListCache(b, sel)
    ensures Resumes(t, sel, w, cache, mark) && w.at[0] == 0 && !WatchAgrees(t, sel, w)
  {
    var none := NoPolls(t, sel, cache, mark);
    var one := AddPoll(t, sel, none, cache, mark, 0);
    w := AddPoll(t, sel, one, cache, mark, |t| - 1);
    OneDisagreement(t, sel, w, 2);
  }

  lemma SecondPollDisagrees(s: Db, e: Db, cache: Cache, sel: Selector, mark: Xid)
      returns (t: seq<Db>, w: Watching)
    requires Next(s, e)
    requires !IsGone(Snap(s), sel.gvk, mark) && Alike(Snap(s), sel, mark) && NextMark(mark, Xmin(s)) == mark
    requires !IsGone(Snap(e), sel.gvk, mark) && Alike(Snap(e), sel, mark)
    requires var once := Absorb(cache, Snap(s), sel, mark); Absorb(once, Snap(e), sel, mark) != ListCache(Snap(e), sel)
    ensures RefutesWatch(t, w, s, cache, sel, mark)
  {
    t := OneStep(s, e);
    w := PolledTwice(t, cache, sel, mark);
  }

  lemma NotSafeForGoodDisagrees(s: Db, cache: Cache, sel: Selector, mark: Xid) returns (t: seq<Db>, w: Watching)
    requires Open(s, sel, mark) && !SafeForGood(s, cache, sel, mark)
    ensures RefutesWatch(t, w, s, cache, sel, mark)
  {
    if !Safe(s, cache, sel, mark) {
      t := NotSafeDisagrees(s, cache, sel, mark);
      w := FirstPollDisagrees(t, s, cache, sel, mark);
    } else {
      var x :| x in s.active && x <= mark && !Settled(s.active[x].work, sel);
      var e := UnsettledCommit(s, x, cache, sel, mark);
      t, w := SecondPollDisagrees(s, e, cache, sel, mark);
    }
  }

  /** However the database goes on from `s` and whenever the watcher polls, its cache equals the table
      after every completed poll before it meets unreadable metadata: exactly when the mark is Gone
      already, or the cache and the mark are safe and no pending write at or below the mark changes what
      List shows of a selected key. */
  lemma EveryPollAgreesExactly(s: Db, cache: Cache, sel: Selector, mark: Xid)
    requires Inv(s) && Alike(Snap(s), sel, mark)
    ensures (forall t, w | Path(t) && t[0] == s && Resumes(t, sel, w, cache, mark) && w.at[0] == 0 ::
               WatchAgrees(t, sel, w))
            <==> IsGone(Snap(s), sel.gvk, mark) || SafeForGood(s, cache, sel, mark)
  {
    if IsGone(Snap(s), sel.gvk, mark) || SafeForGood(s, cache, sel, mark) {
      forall t, w | Path(t) && t[0] == s && Resumes(t, sel, w, cache, mark) && w.at[0] == 0
        ensures WatchAgrees(t, sel, w)
      {
        if IsGone(Snap(s), sel.gvk, mark) {
          GoneWatchAgrees(t, sel, w, cache, mark);
        } else {
          SafeWatchAgrees(t, sel, w, cache, mark);
        }
      }
    } else {
      var t, w := NotSafeForGoodDisagrees(s, cache, sel, mark);
      assert RefutesWatch(t, w, s, cache, sel, mark);
    }
  }
}
