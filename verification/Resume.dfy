/**
 Resuming a watch. The informer restarts its watch from the version on the last object it was sent,
 which is the highest transaction id relayed, not the watcher's own xmin-1 watermark.
 */
module Resume {
  import opened Wrappers
  import opened Json
  import opened Model
  import opened Tombstone
  import opened WritePath
  import opened Protocol
  import opened Snapshots
  import opened ResourceVersion
  import opened Watch
  import opened Agreement
  import opened Continuation

  /** The cache after the first n events of a poll. */
  function PartCache(a: Snapshot, sel: Selector, start: Xid, answer: seq<Found>, n: nat): Cache
    requires n <= |answer|
  {
    ApplyEvents(ListCache(a, sel), Sent(start, answer)[..n])
  }

  /** The version on the n-th event, or the one the relay started from. */
  function ResumeMark(start: Xid, answer: seq<Found>, n: nat): Xid
    requires n <= |answer|
  {
    Relayed(start, EventsOf(answer)[..n])
  }

  /** The string the informer resumes from carries exactly that mark. */
  lemma ResumeVersionCarriesMark(start: Xid, answer: seq<Found>, n: nat)
    requires 0 < n <= |answer|
    requires ResumeMark(start, answer, n) < UINT64_LIMIT
    requires 0 < answer[n - 1].row.version < INT64_LIMIT
    ensures var last := Sent(start, answer)[n - 1];
            && Parse(last.resourceVersion) == Ok(RV(answer[n - 1].row.version, ResumeMark(start, answer, n)))
            && ObjectVersionOf(last.resourceVersion) == Ok(answer[n - 1].row.version)
  {
    RelayAllAt(start, EventsOf(answer), n - 1);
    RoundTripsExactly(RV(answer[n - 1].row.version, ResumeMark(start, answer, n)));
    EitherFormNamesTheVersion(answer[n - 1].row.version, ResumeMark(start, answer, n));
  }

  /** The keys of the first n events are as those events say ... */
  lemma PartCacheSent(a: Snapshot, b: Snapshot, sel: Selector, hwm: Xid, start: Xid, answer: seq<Found>, n: nat, i: nat)
    requires Answers(answer, b.rows, PollMatches(sel, hwm)) && i < n <= |answer|
    ensures Lookup(PartCache(a, sel, start, answer, n), answer[i].key)
            == if IsFullyDeleted(answer[i].row.deletionTs, answer[i].row.metadata) then None else Some(answer[i].row)
  {
    var events := Sent(start, answer)[..n];
    forall j | 0 <= j < n ensures events[j].key == answer[j].key { SentAt(start, answer, j); }
    SentAt(start, answer, i);
    TouchedByEvent(ListCache(a, sel), events, i);
  }

  /** ... and all other keys as they were. */
  lemma PartCacheUnsent(a: Snapshot, sel: Selector, start: Xid, answer: seq<Found>, n: nat, k: Key)
    requires n <= |answer| && forall i | 0 <= i < n :: answer[i].key != k
    ensures Lookup(PartCache(a, sel, start, answer, n), k) == Lookup(ListCache(a, sel), k)
  {
    var events := Sent(start, answer)[..n];
    forall j | 0 <= j < n ensures events[j].key != k { SentAt(start, answer, j); }
    UntouchedByEvents(ListCache(a, sel), events, k);
  }

  /** Every unsent event of the interrupted poll at or below the mark is of a row the cache of the poll's
      start has already: a redelivery. */
  ghost predicate UnsentHeld(a: Snapshot, sel: Selector, answer: seq<Found>, n: nat, mark: Xid)
    requires n <= |answer|
  {
    forall m | n <= m < |answer| && answer[m].row.stamp <= mark ::
      Lookup(ListCache(a, sel), answer[m].key) == Shown(Some(answer[m].row))
  }

  lemma UnpolledAgrees(a: Snapshot, b: Snapshot, sel: Selector, hwm: Xid, start: Xid,
                       answer: seq<Found>, n: nat, k: Key)
    requires Later(a, b) && hwm + 1 == a.xmin && !IsGone(b, sel.gvk, hwm)
    requires Answers(answer, b.rows, PollMatches(sel, hwm)) && n <= |answer| && !Polled(b, sel, hwm, k)
    ensures Lookup(PartCache(a, sel, start, answer, n), k) == Lookup(ListCache(b, sel), k)
  {
    PartCacheUnsent(a, sel, start, answer, n, k);
    PollAgreesAt(a, b, sel, hwm, k);
    assert Lookup(Absorb(ListCache(a, sel), b, sel, hwm), k) == Lookup(ListCache(a, sel), k);
  }

  lemma SentAgrees(a: Snapshot, b: Snapshot, sel: Selector, hwm: Xid, start: Xid, answer: seq<Found>, n: nat, i: nat)
    requires Answers(answer, b.rows, PollMatches(sel, hwm)) && i < n <= |answer| && Alike(b, sel, hwm)
    ensures Lookup(PartCache(a, sel, start, answer, n), answer[i].key) == Lookup(ListCache(b, sel), answer[i].key)
  {
    PartCacheSent(a, b, sel, hwm, start, answer, n, i);
    assert Polled(b, sel, hwm, answer[i].key);
    RowReadsAlike(answer[i].row);
  }

  lemma UnsentStays(a: Snapshot, b: Snapshot, sel: Selector, hwm: Xid, start: Xid, answer: seq<Found>, n: nat, m: nat)
    requires Answers(answer, b.rows, PollMatches(sel, hwm)) && n <= m < |answer|
    ensures var part, k := PartCache(a, sel, start, answer, n), answer[m].key;
            && Lookup(part, k) == Lookup(ListCache(a, sel), k)
            && Lookup(ListCache(b, sel), k) == Shown(Some(answer[m].row))
  {
    PartCacheUnsent(a, sel, start, answer, n, answer[m].key);
    ListCacheAt(b, sel, answer[m].key);
  }

  /** The part cache has everything at or below the mark as List shows it exactly if the events at or
      below the mark that were not sent were redeliveries. */
  lemma PartCacheCoversExactly(a: Snapshot, b: Snapshot, sel: Selector, hwm: Xid, start: Xid,
                               answer: seq<Found>, n: nat, mark: Xid)
    requires Later(a, b) && hwm + 1 == a.xmin && !IsGone(b, sel.gvk, hwm) && Alike(b, sel, hwm)
    requires Answers(answer, b.rows, PollMatches(sel, hwm)) && n <= |answer|
    ensures Covers(PartCache(a, sel, start, answer, n), b, sel, mark) <==> UnsentHeld(a, sel, answer, n, mark)
  {
    var part := PartCache(a, sel, start, answer, n);
    if UnsentHeld(a, sel, answer, n, mark) {
      forall k ensures AgreesUpTo(part, b, sel, mark, k) {
        if Polled(b, sel, hwm, k) {
          var i :| 0 <= i < |answer| && answer[i] == Found(k, b.rows[k]);
          if i < n {
            SentAgrees(a, b, sel, hwm, start, answer, n, i);
          } else {
            UnsentStays(a, b, sel, hwm, start, answer, n, i);
          }
        } else {
          UnpolledAgrees(a, b, sel, hwm, start, answer, n, k);
        }
      }
    } else {
      var m :| n <= m < |answer| && answer[m].row.stamp <= mark
               && Lookup(ListCache(a, sel), answer[m].key) != Shown(Some(answer[m].row));
      UnsentStays(a, b, sel, hwm, start, answer, n, m);
      assert !AgreesUpTo(part, b, sel, mark, answer[m].key);
    }
  }

  /** A watch interrupted after n events of the poll at point j, which started from the snapshot of
      point i: what was answered and sent, and the mark it resumes from. */
  ghost predicate Interrupted(t: seq<Db>, i: nat, j: nat, sel: Selector, start: Xid, answer: seq<Found>, n: nat)
  {
    && Run(t) && i <= j < |t| && n <= |answer| && Xmin(t[i]) >= 1
    && var hwm := Xmin(t[i]) - 1;
       && !IsGone(Snap(t[j]), sel.gvk, hwm)
       && Answers(answer, t[j].rows, PollMatches(sel, hwm))
       && Alike(Snap(t[j]), sel, hwm) && Alike(Snap(t[j]), sel, ResumeMark(start, answer, n))
  }

  /** No transaction at or below the mark is still to change what List shows of a selected key. */
  ghost predicate NoneToCome(s: Db, cache: Cache, sel: Selector, mark: Xid) {
    NothingToCome(s, cache, sel, mark) && forall x | x in s.active && x <= mark :: Settled(s.active[x].work, sel)
  }

  /** Resuming from the version on the last event sent, in the middle of a poll or after it. However the
      run goes on, every completed poll of the resumed watch leaves its cache equal to the table, until
      it meets unreadable metadata: exactly when the mark is Gone already, so that the watcher relists;
      or what was not sent at or below the mark were redeliveries, and no transaction at or below the
      mark is still to change what List shows. */
  lemma ResumeIsSafeExactly(t: seq<Db>, i: nat, j: nat, sel: Selector, start: Xid, answer: seq<Found>, n: nat)
    requires Interrupted(t, i, j, sel, start, answer, n)
    ensures var mark, part := ResumeMark(start, answer, n), PartCache(Snap(t[i]), sel, start, answer, n);
            (forall u, w | Path(u) && u[0] == t[j] && Resumes(u, sel, w, part, mark) && w.at[0] == 0 ::
               WatchAgrees(u, sel, w))
            <==> || IsGone(Snap(t[j]), sel.gvk, mark)
                 || (UnsentHeld(Snap(t[i]), sel, answer, n, mark) && NoneToCome(t[j], part, sel, mark))
  {
    var mark, part := ResumeMark(start, answer, n), PartCache(Snap(t[i]), sel, start, answer, n);
    RunInv(t, j);
    SealedPrefix(t, i, j);
    PartCacheCoversExactly(Snap(t[i]), Snap(t[j]), sel, Xmin(t[i]) - 1, start, answer, n, mark);
    EveryPollAgreesExactly(t[j], part, sel, mark);
  }

  /** In particular it is safe when every event at or below the mark was sent and no transaction at or
      below it is in progress. Here the resumed watch `w` is one along the rest of the same run. */
  lemma ResumeIsSafe(t: seq<Db>, i: nat, j: nat, sel: Selector, start: Xid, answer: seq<Found>, n: nat, w: Watching)
    requires Interrupted(t, i, j, sel, start, answer, n)
    requires var mark := ResumeMark(start, answer, n);
             && (forall m | n <= m < |answer| :: mark < answer[m].row.stamp)
             && (forall x | x in t[j].active :: mark < x) && mark < t[j].next
             && Resumes(t, sel, w, PartCache(Snap(t[i]), sel, start, answer, n), mark) && w.at[0] == j
    ensures WatchAgrees(t, sel, w)
  {
    var mark, part := ResumeMark(start, answer, n), PartCache(Snap(t[i]), sel, start, answer, n);
    RunInv(t, 0);
    RunIsPath(t);
    SealedPrefix(t, i, j);
    PartCacheCoversExactly(Snap(t[i]), Snap(t[j]), sel, Xmin(t[i]) - 1, start, answer, n, mark);
    SafeWatchAgrees(t, sel, w, part, mark);
  }

  /** With a lower xid in flight it is not: whenever some transaction at or below the mark has yet to
      write, it can create an object and commit, and a watch resumed from the mark never hears of it,
      without any 410. The object stays out of the cache until it is next written. */
  lemma ResumeLosesEvent(s: Db, x: Xid, mark: Xid, key: Key, args: Args, uid: Uid, sel: Selector, cache: Cache)
      returns (s': Db, s'': Db)
    requires Inv(s) && x in s.active && s.active[x].work.Idle? && x <= mark
    requires key !in s.rows && Unlocked(s, x, key) && uid !in s.uids && Selects(sel, key) && key !in cache
    requires !args.statusOnly && args.expected == 0 && args.deletionTs.None?
    requires args.spec.Some? && args.status.Some? && args.metadata.Some?
    ensures Next(s, s') && Next(s', s'')
    ensures key in ListCache(Snap(s''), sel)
    ensures key !in Absorb(cache, Snap(s''), sel, mark)
    ensures IsGone(Snap(s''), sel.gvk, mark) <==> IsGone(Snap(s), sel.gvk, mark)
  {
    s' := Do(s, Upsert(x, key, args, uid));
    s'' := Do(s', Commit(x));
    assert Enabled(s, Upsert(x, key, args, uid)) && Enabled(s', Commit(x));
    assert s''.rows[key].stamp == x && s''.rows[key].deletionTs.None?;
    RowReadsAlike(s''.rows[key]);
    assert !IsTombstone(s''.rows[key].deletionTs, s''.rows[key].metadata);
  }

  const PLAIN := Args(false, 0, false, Some(EMPTY_OBJECT), Some(EMPTY_OBJECT), Some(EMPTY_OBJECT), None)

  /** xid 1 is open, xid 2 has created `first`. */
  lemma SlowWriterRun(retention: int, first: Key) returns (t: seq<Db>)
    ensures Run(t) && |t| == 5 && t[0].next == 1
    ensures t[4].rows.Keys == {first} && t[4].rows[first].stamp == 2
    ensures t[4].active == map[1 := Tx(0, 0, Idle)] && t[4].uids == {0} && t[4].horizon == map[]
  {
    var s0 := Db(retention, 1, 0, map[], map[], map[], {}, []);
    var s1 := Do(s0, Begin(0));
    var s2 := Do(s1, Begin(0));
    assert Enabled(s2, Upsert(2, first, PLAIN, 0));
    var s3 := Do(s2, Upsert(2, first, PLAIN, 0));
    var s4 := Do(s3, Commit(2));
    t := [s0, s1, s2, s3, s4];
    assert Next(s0, s1) && Next(s1, s2) && Next(s2, s3) && Next(s3, s4);
  }

  lemma OneRowAnswer(a: Snapshot, b: Snapshot, sel: Selector, first: Key, second: Key) returns (answer: seq<Found>)
    requires a.rows == map[] && b.rows.Keys == {first} && b.rows[first].stamp == 2
    requires Selects(sel, first) && first != second
    ensures Answers(answer, b.rows, PollMatches(sel, 0)) && |answer| == 1 && ResumeMark(0, answer, 1) == 2
    ensures second !in PartCache(a, sel, 0, answer, 1)
  {
    answer := [Found(first, b.rows[first])];
    var events := EventsOf(answer)[..1];
    assert events[..0] == [] && events[0].row == b.rows[first];
    assert Relayed(0, events[..0]) == 0;
    PartCacheUnsent(a, sel, 0, answer, 1, second);
    assert Lookup(PartCache(a, sel, 0, answer, 1), second).None?;
  }

  /** Such a run exists. A watcher that listed the empty table is sent one event, with xid 2, while
      xid 1 is open; it resumes from version 2, and the object xid 1 then creates is missing from its
      cache although List shows it. */
  lemma LostEventIsReachable(retention: int, first: Key, second: Key, sel: Selector)
      returns (t: seq<Db>, answer: seq<Found>)
    requires first != second && Selects(sel, first) && Selects(sel, second)
    ensures Run(t) && |t| == 7 && Xmin(t[0]) == 1 && t[0].rows == map[]
    ensures Answers(answer, t[4].rows, PollMatches(sel, 0)) && |answer| == 1 && ResumeMark(0, answer, 1) == 2
    ensures !IsGone(Snap(t[6]), sel.gvk, 2)
    ensures second in ListCache(Snap(t[6]), sel)
    ensures second !in Absorb(PartCache(Snap(t[0]), sel, 0, answer, 1), Snap(t[6]), sel, 2)
  {
    var early := SlowWriterRun(retention, first);
    answer := OneRowAnswer(Snap(early[0]), Snap(early[4]), sel, first, second);
    RunInv(early, 4);
    var s5, s6 := ResumeLosesEvent(early[4], 1, 2, second, PLAIN, 1, sel, PartCache(Snap(early[0]), sel, 0, answer, 1));
    t := early + [s5, s6];
    ExtendRun(early, s5);
    ExtendRun(early + [s5], s6);
    assert t == early + [s5] + [s6];
  }

  lemma ExtendRun(t: seq<Db>, s: Db)
    requires Run(t) && Next(t[|t| - 1], s)
    ensures Run(t + [s])
  {
    var longer := t + [s];
    forall i: nat | i + 1 < |longer| ensures Linked(longer, i) {
      if i + 1 < |t| { assert Linked(t, i); }
    }
  }
}
