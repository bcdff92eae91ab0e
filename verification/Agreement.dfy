/**
 The List/Watch contract over whole runs: a cache seeded by List and kept by polls equals the table
 at every completed poll, whatever writers, aborts, crashes and compactions do in between.
 */
module Agreement {
  import opened Wrappers
  import opened Model
  import opened Tombstone
  import opened WritePath
  import opened Compaction
  import opened Protocol
  import opened Snapshots
  import opened ResourceVersion
  import opened Watch
  import History

  /******* The answers PostgreSQL gives *******/

  lemma {:induction false} HighestStamp(rows: map<Key, Row>, keys: set<Key>) returns (top: Key)
    requires keys != {} && keys <= rows.Keys
    ensures top in keys && forall k | k in keys :: rows[k].stamp <= rows[top].stamp
  {
    top :| top in keys;
    var rest := keys - {top};
    assert forall k | k in keys :: k == top || k in rest;
    if rest != {} {
      var other := HighestStamp(rows, rest);
      if rows[other].stamp > rows[top].stamp { top := other; }
    }
  }

  lemma {:induction false} AnswerAmong(rows: map<Key, Row>, keys: set<Key>, matches: (Key, Row) -> bool)
    returns (answer: seq<Found>)
    requires keys <= rows.Keys && forall k | k in keys :: matches(k, rows[k])
    ensures forall i | 0 <= i < |answer| :: answer[i].key in keys && answer[i].row == rows[answer[i].key]
    ensures forall k | k in keys :: Found(k, rows[k]) in answer
    ensures forall i, j | 0 <= i < j < |answer| ::
              answer[i].key != answer[j].key && answer[i].row.stamp <= answer[j].row.stamp
  {
    if keys == {} {
      answer := [];
    } else {
      var top := HighestStamp(rows, keys);
      var before := AnswerAmong(rows, keys - {top}, matches);
      answer := before + [Found(top, rows[top])];
    }
  }

  /** Every query has an answer, so nothing below is about an impossible poll. */
  lemma AnswerExists(rows: map<Key, Row>, matches: (Key, Row) -> bool) returns (answer: seq<Found>)
    ensures Answers(answer, rows, matches)
  {
    answer := AnswerAmong(rows, (set k | k in rows && matches(k, rows[k])), matches);
  }

  /** In reachable states no two rows share a stamp: a poll's events ascend strictly. */
  lemma EventsAscendStrictly(s: Db, answer: seq<Found>, matches: (Key, Row) -> bool)
    requires Inv(s) && Answers(answer, s.rows, matches)
    ensures forall i, j | 0 <= i < j < |answer| :: answer[i].row.stamp < answer[j].row.stamp
  {
    forall i, j | 0 <= i < j < |answer| ensures answer[i].row.stamp < answer[j].row.stamp {
      assert Lookup(s.rows, answer[i].key) == Some(answer[i].row);
      assert Lookup(s.rows, answer[j].key) == Some(answer[j].row);
    }
  }

  lemma HasElement(s: seq<Found>)
    ensures s != [] ==> exists f :: f in s
  {
    if s != [] { assert s[0] in s; }
  }

  lemma {:induction false} AscendingUnique(a: seq<Found>, b: seq<Found>)
    requires forall i, j | 0 <= i < j < |a| :: a[i].row.stamp < a[j].row.stamp
    requires forall i, j | 0 <= i < j < |b| :: b[i].row.stamp < b[j].row.stamp
    requires forall f :: f in a <==> f in b
    ensures a == b
  {
    HasElement(a);
    HasElement(b);
    if a != [] {
      var m, n := |a| - 1, |b| - 1;
      assert a[m] in b && b[n] in a;
      assert a[m] == b[n];
      forall f ensures f in a[..m] <==> f in b[..n] {
        assert f in a <==> f in a[..m] || f == a[m];
        assert f in b <==> f in b[..n] || f == b[n];
      }
      AscendingUnique(a[..m], b[..n]);
    }
  }

  /** A query over a reachable state has one ordered answer. */
  lemma AnswerIsUnique(s: Db, matches: (Key, Row) -> bool, a: seq<Found>, b: seq<Found>)
    requires Inv(s) && Answers(a, s.rows, matches) && Answers(b, s.rows, matches)
    ensures a == b
  {
    EventsAscendStrictly(s, a, matches);
    EventsAscendStrictly(s, b, matches);
    forall f ensures f in a <==> f in b {
      if f in a { AnsweredAlsoIn(s.rows, matches, a, b, f); }
      if f in b { AnsweredAlsoIn(s.rows, matches, b, a, f); }
    }
    AscendingUnique(a, b);
  }

  lemma AnsweredAlsoIn(rows: map<Key, Row>, matches: (Key, Row) -> bool, a: seq<Found>, b: seq<Found>, f: Found)
    requires Answers(a, rows, matches) && Answers(b, rows, matches) && f in a
    ensures f in b
  {
    var i :| 0 <= i < |a| && a[i] == f;
    assert Lookup(rows, a[i].key) == Some(a[i].row);
    assert Found(f.key, rows[f.key]) in b;
  }

  /** In reachable states the informer is told Added exactly of the live rows whose incarnation has gone
      through one change, its creation or revival; of later changes it is told Modified. */
  lemma AddedMeansOneChange(s: Db, start: Xid, answer: seq<Found>, matches: (Key, Row) -> bool, i: nat)
    requires Inv(s) && Answers(answer, s.rows, matches) && i < |answer|
    ensures var kind, r := Sent(start, answer)[i].kind, answer[i].row;
            kind.Added? <==> r.deletionTs.None? && |History.ChangesOf(s.log, r.uid)| == 1
  {
    SentKinds(start, answer, i);
    History.VersionsCountChanges(s.log);
    assert Lookup(s.rows, answer[i].key) == Some(answer[i].row);
  }

  /******* One poll *******/

  /** Rows on which the relay and List read the tombstone test the same way. */
  ghost predicate Alike(snap: Snapshot, sel: Selector, hwm: Xid) {
    forall k | Polled(snap, sel, hwm, k) ::
      snap.rows[k].deletionTs.None? || ReadsAlike(snap.rows[k].metadata)
  }

  /** A poll that is not Gone, taken at `b` from the watermark of an earlier snapshot `a` of the run,
      turns the cache of `a` into the cache of `b`: exactly when the polled rows read alike. */
  lemma PollAgreesExactly(a: Snapshot, b: Snapshot, sel: Selector, hwm: Xid)
    requires Later(a, b) && hwm + 1 == a.xmin && !IsGone(b, sel.gvk, hwm)
    ensures Absorb(ListCache(a, sel), b, sel, hwm) == ListCache(b, sel) <==> Alike(b, sel, hwm)
  {
    var absorbed, listed := Absorb(ListCache(a, sel), b, sel, hwm), ListCache(b, sel);
    forall k ensures Lookup(absorbed, k) == Lookup(listed, k)
                     <==> (Polled(b, sel, hwm, k) ==>
                             b.rows[k].deletionTs.None? || ReadsAlike(b.rows[k].metadata))
    {
      PollAgreesAt(a, b, sel, hwm, k);
    }
    if Alike(b, sel, hwm) {
      SameLookupsSameMap(absorbed, listed);
    } else {
      var k :| Polled(b, sel, hwm, k) && b.rows[k].deletionTs.Some? && !ReadsAlike(b.rows[k].metadata);
      assert Lookup(absorbed, k) != Lookup(listed, k);
    }
  }

  lemma PollAgreesAt(a: Snapshot, b: Snapshot, sel: Selector, hwm: Xid, k: Key)
    requires Later(a, b) && hwm + 1 == a.xmin && !IsGone(b, sel.gvk, hwm)
    ensures Lookup(Absorb(ListCache(a, sel), b, sel, hwm), k) == Lookup(ListCache(b, sel), k)
            <==> (Polled(b, sel, hwm, k) ==> b.rows[k].deletionTs.None? || ReadsAlike(b.rows[k].metadata))
  {
    if k in b.rows {
      GoAgreesExactly(b.rows[k].deletionTs, b.rows[k].metadata);
      SqlTestsAreComplements(b.rows[k].deletionTs, b.rows[k].metadata);
    } else if k in a.rows {
      SqlTestsAreComplements(a.rows[k].deletionTs, a.rows[k].metadata);
    }
  }

  /******* Whole watches *******/

  /** One List and the completed polls after it: where in the run each took its snapshot, the cache
      after each, and the watermark after each. */
  datatype Watching = Watching(at: seq<nat>, caches: seq<Cache>, marks: seq<Xid>)

  /** The informer's cache after the events a completed, non-Gone poll sent it, one by one. */
  ghost predicate Delivered(cache: Cache, snap: Snapshot, sel: Selector, mark: Xid, after: Cache) {
    exists start, answer ::
      Answers(answer, snap.rows, PollMatches(sel, mark)) && after == ApplyEvents(cache, Sent(start, answer))
  }

  /** Every poll delivers, and what it delivers amounts to one absorption of the snapshot. */
  lemma DeliveryAbsorbs(cache: Cache, snap: Snapshot, sel: Selector, mark: Xid, after: Cache)
    ensures Delivered(cache, snap, sel, mark, after) <==> after == Absorb(cache, snap, sel, mark)
  {
    if Delivered(cache, snap, sel, mark, after) {
      var start, answer :|
        Answers(answer, snap.rows, PollMatches(sel, mark)) && after == ApplyEvents(cache, Sent(start, answer));
      PollThenRelayAbsorbs(cache, snap, sel, mark, start, answer);
    }
    var answer := AnswerExists(snap.rows, PollMatches(sel, mark));
    PollThenRelayAbsorbs(cache, snap, sel, mark, 0, answer);
  }

  /** The version string List returns. */
  function ListVersion(snap: Snapshot): string {
    String(RV(0, if snap.xmin > 0 then snap.xmin - 1 else 0))
  }

  /** The watermark a watcher starts from when it is handed that string. */
  function StartMark(snap: Snapshot): Xid {
    match Parse(ListVersion(snap))
    case Ok(rv) => rv.watermark
    case Err(_) => 0
  }

  ghost function At(t: seq<Db>, w: Watching, n: nat): Snapshot
    requires n < |w.at| && w.at[n] < |t|
  {
    Snap(t[w.at[n]])
  }

  ghost predicate Follows(t: seq<Db>, sel: Selector, w: Watching) {
    && |w.at| == |w.caches| == |w.marks| > 0
    && (forall n | 0 <= n < |w.at| :: w.at[n] < |t|)
    && w.caches[0] == ListCache(At(t, w, 0), sel)
    && w.marks[0] == StartMark(At(t, w, 0))
    && (forall n | 0 <= n < |w.at| - 1 :: PollMoves(t, sel, w, n))
    && forall n | 0 <= n < |w.at| - 1 :: PollDelivers(t, sel, w, n)
  }

  /** The next completed poll is later, is not Gone, and moves the watermark ... */
  ghost predicate PollMoves(t: seq<Db>, sel: Selector, w: Watching, n: nat)
    requires |w.at| == |w.caches| == |w.marks| && n + 1 < |w.at| && w.at[n + 1] < |t|
  {
    && w.at[n] <= w.at[n + 1]
    && !IsGone(At(t, w, n + 1), sel.gvk, w.marks[n])
    && w.marks[n + 1] == NextMark(w.marks[n], At(t, w, n + 1).xmin)
  }

  /** ... and what it sends changes the cache. */
  ghost predicate PollDelivers(t: seq<Db>, sel: Selector, w: Watching, n: nat)
    requires |w.at| == |w.caches| == |w.marks| && n + 1 < |w.at| && w.at[n + 1] < |t|
  {
    Delivered(w.caches[n], At(t, w, n + 1), sel, w.marks[n], w.caches[n + 1])
  }

  /** xid8 values fit the text and integer forms they are handed on in. */
  ghost predicate XidsFit(t: seq<Db>) {
    forall i | 0 <= i < |t| :: t[i].next <= INT64_LIMIT
  }

  lemma XminPositive(t: seq<Db>, i: nat)
    requires Run(t) && i < |t|
    ensures 1 <= Xmin(t[i]) <= t[i].next
  {
    RunInv(t, i);
  }

  lemma {:induction false} MarksAreXmin(t: seq<Db>, sel: Selector, w: Watching, n: nat)
    requires Run(t) && XidsFit(t) && Follows(t, sel, w) && n < |w.at|
    ensures w.marks[n] + 1 == At(t, w, n).xmin
  {
    XminPositive(t, w.at[n]);
    if n == 0 {
      RoundTripsExactly(RV(0, At(t, w, 0).xmin - 1));
    } else {
      MarksAreXmin(t, sel, w, n - 1);
      assert PollMoves(t, sel, w, n - 1);
      SealedPrefix(t, w.at[n - 1], w.at[n]);
    }
  }

  lemma PollKeepsAgreement(t: seq<Db>, sel: Selector, w: Watching, n: nat)
    requires Run(t) && XidsFit(t) && Follows(t, sel, w) && n + 1 < |w.at|
    requires Alike(At(t, w, n + 1), sel, w.marks[n]) && w.caches[n] == ListCache(At(t, w, n), sel)
    ensures w.caches[n + 1] == ListCache(At(t, w, n + 1), sel)
  {
    MarksAreXmin(t, sel, w, n);
    assert PollMoves(t, sel, w, n) && PollDelivers(t, sel, w, n);
    SealedPrefix(t, w.at[n], w.at[n + 1]);
    DeliveryAbsorbs(w.caches[n], At(t, w, n + 1), sel, w.marks[n], w.caches[n + 1]);
    PollAgreesExactly(At(t, w, n), At(t, w, n + 1), sel, w.marks[n]);
  }

  /** Cache/table agreement. In every run, after the List and after every completed non-Gone poll, the
      cache, changed by one relayed event after the other, is exactly the set of rows List would return
      from that poll's snapshot: nothing lost, nothing stale, nothing resurrected. */
  lemma {:induction false} CacheAgreesWithTable(t: seq<Db>, sel: Selector, w: Watching, n: nat)
    requires Run(t) && XidsFit(t) && Follows(t, sel, w) && n < |w.at|
    requires forall m | 0 < m <= n :: Alike(At(t, w, m), sel, w.marks[m - 1])
    ensures w.caches[n] == ListCache(At(t, w, n), sel)
  {
    if n > 0 {
      CacheAgreesWithTable(t, sel, w, n - 1);
      PollKeepsAgreement(t, sel, w, n - 1);
    }
  }

  /******* Runs whose writers store readable metadata *******/

  /** Every write that stored metadata stored metadata both languages read alike. */
  ghost predicate WritesReadAlike(log: seq<Entry>) {
    forall e | e in log && e.Wrote? && e.args.metadata.Some? :: ReadsAlike(e.args.metadata.value)
  }

  lemma {:induction false} RowsReadAlike(log: seq<Entry>)
    requires Chained(log) && WritesReadAlike(log)
    ensures forall k | k in Replay(log) :: ReadsAlike(Replay(log)[k].metadata)
  {
    if log != [] {
      var past := log[..|log| - 1];
      History.LastEntry(log);
      assert WritesReadAlike(past) by { assert forall e | e in past :: e in log; }
      RowsReadAlike(past);
      assert log[|log| - 1] in log;
    }
  }

  lemma StateReadsAlike(t: seq<Db>, i: nat, sel: Selector, hwm: Xid)
    requires Run(t) && i < |t| && WritesReadAlike(t[|t| - 1].log)
    ensures Alike(Snap(t[i]), sel, hwm)
  {
    RunInv(t, i);
    History.LogGrows(t, i, |t| - 1);
    assert forall e | e in t[i].log :: e in t[|t| - 1].log;
    RowsReadAlike(t[i].log);
  }

  /** If every write of the run stored readable metadata, as every write of the client does, the
      agreement needs no other hypothesis. */
  lemma CacheAgreesForReadableWrites(t: seq<Db>, sel: Selector, w: Watching, n: nat)
    requires Run(t) && XidsFit(t) && Follows(t, sel, w) && n < |w.at|
    requires WritesReadAlike(t[|t| - 1].log)
    ensures w.caches[n] == ListCache(At(t, w, n), sel)
  {
    forall m | 0 < m <= n ensures Alike(At(t, w, m), sel, w.marks[m - 1]) {
      StateReadsAlike(t, w.at[m], sel, w.marks[m - 1]);
    }
    CacheAgreesWithTable(t, sel, w, n);
  }

  /******* Compaction *******/

  /** No silent gap: if compaction removes, after a watcher's last snapshot, a row state that snapshot
      did not show, every later poll from that snapshot's watermark is Gone. */
  lemma NoSilentGap(t: seq<Db>, i: nat, m: nat, j: nat, key: Key)
    requires Run(t) && i <= m < j < |t|
    requires key in t[m].rows && key !in t[m + 1].rows
    requires Lookup(t[i].rows, key) != Some(t[m].rows[key])
    ensures Xmin(t[i]) >= 1 && IsGone(Snap(t[j]), key.gvk, Xmin(t[i]) - 1)
  {
    SealedPrefix(t, i, m);
    SealedPrefix(t, m + 1, j);
    RunStep(t, m);
    XminPositive(t, i);
    RemovedRowRaisesHorizon(t[m], t[m + 1], key);
  }

  lemma RemovedRowRaisesHorizon(s: Db, s': Db, key: Key)
    requires Inv(s) && Publishes(s, s') && key in s.rows && key !in s'.rows
    ensures key.gvk in s'.horizon && s.rows[key].stamp <= s'.horizon[key.gvk]
  {
    var x :| CommitsSweep(s, s', x);
    SweptRowRaisesHorizon(s, s', x, key);
  }

  /** Compacted rows in the log whose stamp a watermark does not cover. */
  ghost predicate CompactedAbove(log: seq<Entry>, gvk: string, hwm: Xid) {
    exists i, k | 0 <= i < |log| && log[i].Swept? && k in log[i].gone :: k.gvk == gvk && hwm < log[i].gone[k].stamp
  }

  ghost predicate HorizonIsExact(s: Db) {
    forall gvk, hwm: Xid :: IsGone(Snap(s), gvk, hwm) <==> CompactedAbove(s.log, gvk, hwm)
  }

  /** A sweep adds its rows, and nothing else, to what is compacted above a watermark. */
  lemma SweepExtendsCompacted(log: seq<Entry>, x: Xid, gone: map<Key, Row>, gvk: string, hwm: Xid)
    ensures CompactedAbove(log + [Swept(x, gone)], gvk, hwm)
            <==> || CompactedAbove(log, gvk, hwm)
                 || exists k | k in gone :: k.gvk == gvk && hwm < gone[k].stamp
  {
    var longer := log + [Swept(x, gone)];
    assert longer[|log|] == Swept(x, gone);
    assert forall i | 0 <= i < |log| :: longer[i] == log[i];
    if CompactedAbove(log, gvk, hwm) {
      var i, k :| 0 <= i < |log| && log[i].Swept? && k in log[i].gone && k.gvk == gvk && hwm < log[i].gone[k].stamp;
      assert longer[i].Swept? && k in longer[i].gone;
    }
    if k :| k in gone && k.gvk == gvk && hwm < gone[k].stamp {
      assert longer[|log|].Swept? && k in longer[|log|].gone;
    }
  }

  /** A raised horizon exceeds a watermark if the old one did or a deleted stamp does. */
  lemma RaiseExceeds(before: Horizon, gone: map<Key, Row>, after: Horizon, gvk: string, hwm: Xid)
    requires IsRaised(before, gone, after)
    ensures gvk in after && hwm < after[gvk]
            <==> || (gvk in before && hwm < before[gvk])
                 || exists k | k in gone :: k.gvk == gvk && hwm < gone[k].stamp
  {
  }

  lemma SweepKeepsHorizonExact(s: Db, s': Db, x: Xid)
    requires Inv(s) && CommitsSweep(s, s', x) && HorizonIsExact(s)
    ensures HorizonIsExact(s')
  {
    var Sweep(gone, raise) := s.active[x].work;
    SweepIsRaised(s, x);
    forall gvk, hwm: Xid ensures IsGone(Snap(s'), gvk, hwm) <==> CompactedAbove(s'.log, gvk, hwm) {
      assert IsGone(Snap(s), gvk, hwm) <==> CompactedAbove(s.log, gvk, hwm);
      RaiseExceeds(s.horizon, gone, s'.horizon, gvk, hwm);
      SweepExtendsCompacted(s.log, x, gone, gvk, hwm);
    }
  }

  lemma StepKeepsHorizonExact(s: Db, s': Db)
    requires Inv(s) && Publishes(s, s') && HorizonIsExact(s)
    ensures HorizonIsExact(s')
  {
    if x :| CommitsSweep(s, s', x) {
      SweepKeepsHorizonExact(s, s', x);
    } else {
      forall gvk, hwm: Xid ensures IsGone(Snap(s'), gvk, hwm) <==> CompactedAbove(s'.log, gvk, hwm) {
        SweepsUnchanged(s.log, s'.log, gvk, hwm);
        assert IsGone(Snap(s), gvk, hwm) <==> CompactedAbove(s.log, gvk, hwm);
      }
    }
  }

  lemma SweepsUnchanged(log: seq<Entry>, log': seq<Entry>, gvk: string, hwm: Xid)
    requires log' == log || (|log'| == |log| + 1 && log'[..|log|] == log && log'[|log|].Wrote?)
    ensures CompactedAbove(log', gvk, hwm) <==> CompactedAbove(log, gvk, hwm)
  {
    assert forall i | 0 <= i < |log| :: log'[i] == log[i];
    if CompactedAbove(log, gvk, hwm) {
      var i, k :| 0 <= i < |log| && log[i].Swept? && k in log[i].gone && k.gvk == gvk && hwm < log[i].gone[k].stamp;
      assert log'[i].Swept? && k in log'[i].gone;
    }
  }

  /** The 410 is exact: in every reachable state a watermark is Gone if and only if a row with a stamp
      above it has been compacted; a watermark equal to the highest compacted stamp is still good. */
  lemma {:induction false} GoneExactly(t: seq<Db>, j: nat, gvk: string, hwm: Xid)
    requires Run(t) && j < |t|
    ensures IsGone(Snap(t[j]), gvk, hwm) <==> CompactedAbove(t[j].log, gvk, hwm)
  {
    HorizonExactAlong(t, j);
  }

  lemma NothingCompacted(s: Db)
    requires Initial(s)
    ensures HorizonIsExact(s)
  {
  }

  lemma {:induction false} HorizonExactAlong(t: seq<Db>, j: nat)
    requires Run(t) && j < |t|
    ensures HorizonIsExact(t[j])
  {
    if j == 0 {
      NothingCompacted(t[0]);
    } else {
      HorizonExactAlong(t, j - 1);
      RunStep(t, j - 1);
      StepKeepsHorizonExact(t[j - 1], t[j]);
    }
  }

  /******* Redelivery *******/

  lemma {:induction false} MarksNeverFall(t: seq<Db>, sel: Selector, w: Watching, n: nat, m: nat)
    requires Follows(t, sel, w) && n <= m < |w.at|
    ensures w.marks[n] <= w.marks[m]
    decreases m
  {
    if n < m {
      MarksNeverFall(t, sel, w, n, m - 1);
      assert PollMoves(t, sel, w, m - 1);
    }
  }

  /** Bounded redelivery: a row state sent by poll n is sent again by a later poll m only if at every
      poll from n up to m some transaction with a lower xid was still in progress. Once the watermark
      covers the stamp it is never sent again. */
  lemma RedeliveryIsBounded(t: seq<Db>, sel: Selector, w: Watching, n: nat, m: nat, k: Key)
    requires Run(t) && XidsFit(t) && Follows(t, sel, w) && 0 < n < m < |w.at|
    requires Polled(At(t, w, n), sel, w.marks[n - 1], k) && Polled(At(t, w, m), sel, w.marks[m - 1], k)
    requires At(t, w, n).rows[k].stamp == At(t, w, m).rows[k].stamp
    ensures forall r | n <= r < m ::
              w.marks[r] < At(t, w, n).rows[k].stamp && exists x | x in t[w.at[r]].active :: x < At(t, w, n).rows[k].stamp
  {
    var stamp := At(t, w, n).rows[k].stamp;
    forall r | n <= r < m ensures w.marks[r] < stamp && exists x | x in t[w.at[r]].active :: x < stamp {
      MarksNeverFall(t, sel, w, r, m - 1);
      MarksAreXmin(t, sel, w, r);
      InProgressBelow(t, sel, w, n, r, stamp, k);
    }
  }

  lemma {:induction false} PollsInOrder(t: seq<Db>, sel: Selector, w: Watching, n: nat, m: nat)
    requires Follows(t, sel, w) && n <= m < |w.at|
    ensures w.at[n] <= w.at[m]
    decreases m
  {
    if n < m {
      PollsInOrder(t, sel, w, n, m - 1);
      assert PollMoves(t, sel, w, m - 1);
    }
  }

  lemma InProgressBelow(t: seq<Db>, sel: Selector, w: Watching, n: nat, r: nat, stamp: Xid, k: Key)
    requires Run(t) && Follows(t, sel, w) && n <= r < |w.at|
    requires k in t[w.at[n]].rows && t[w.at[n]].rows[k].stamp == stamp && Xmin(t[w.at[r]]) <= stamp
    ensures exists x | x in t[w.at[r]].active :: x < stamp
  {
    PollsInOrder(t, sel, w, n, r);
    RunInv(t, w.at[n]);
    StampsStaySettled(t, w.at[n], w.at[r], stamp);
    assert Xmin(t[w.at[r]]) in t[w.at[r]].active;
  }

  /** The xid of an ended transaction is never in progress again. */
  lemma {:induction false} StampsStaySettled(t: seq<Db>, i: nat, j: nat, x: Xid)
    requires Run(t) && i <= j < |t| && x < t[i].next && x !in t[i].active
    ensures x < t[j].next && x !in t[j].active
    decreases j
  {
    if i < j {
      StampsStaySettled(t, i, j - 1, x);
      RunStep(t, j - 1);
      XidStaysEnded(t[j - 1], t[j], x);
    }
  }

  lemma XidStaysEnded(s: Db, s': Db, x: Xid)
    requires CarriesOn(s, s') && x < s.next && x !in s.active
    ensures x < s'.next && x !in s'.active
  {
  }
}
