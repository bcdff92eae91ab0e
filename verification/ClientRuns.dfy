/**
 Runs in which every write is an operation of the client, with any number of them interleaved, aborts,
 crashes and compactions included.
 */
module ClientRuns {
  import opened Wrappers
  import opened Model
  import opened Tombstone
  import opened WritePath
  import opened Protocol
  import opened History
  import opened Client
  import Snapshots
  import Watch
  import Agreement

  /** How a committed write came about. `currentRead` is the point of the run at which the operation read
      the current row and `landed` the state its write found; `objectRead` is where the caller of an
      Update had its object from. */
  datatype Issued = Issued(call: ClientCall, objectRead: nat, currentRead: nat, landed: nat)

  /** The operation read its current row, at any point before its write. */
  ghost predicate ReadBefore(t: seq<Db>, log: seq<Entry>, i: nat, origin: Issued)
    requires i < |log| && log[i].Wrote? && (origin.call.ByUpdate? || origin.call.ByDeleteCurrent?)
  {
    && origin.currentRead <= origin.landed < |t|
    && t[origin.landed].log == log[..i]
    && Lookup(t[origin.currentRead].rows, log[i].key) == Some(origin.call.current)
  }

  /** Only a Create names version 0: an Update or status update that does is refused, a Delete that does
      names the version it reads. */
  ghost predicate IssuedBy(t: seq<Db>, log: seq<Entry>, i: nat, origin: Issued)
    requires i < |log| && log[i].Wrote?
  {
    var args := log[i].args;
    && args == ArgsOf(RequestOf(origin.call, args.expected))
    && (origin.call.ByCreate? || args.expected != 0)
    && (origin.call.ByUpdate? || origin.call.ByDeleteCurrent? ==> ReadBefore(t, log, i, origin))
  }

  ghost predicate ClientsOnly(t: seq<Db>, log: seq<Entry>, issued: seq<Issued>) {
    |issued| == |log| && forall i | 0 <= i < |log| && log[i].Wrote? :: IssuedBy(t, log, i, issued[i])
  }

  ghost predicate ClientRun(t: seq<Db>, issued: seq<Issued>) {
    Run(t) && ClientsOnly(t, t[|t| - 1].log, issued)
  }

  /******* Cache/table agreement *******/

  lemma CurrentReadsAlike(t: seq<Db>, log: seq<Entry>, i: nat, origin: Issued)
    requires Run(t) && i < |log| && log[i].Wrote? && origin.call.ByDeleteCurrent? && ReadBefore(t, log, i, origin)
    requires Agreement.WritesReadAlike(log[..i])
    ensures ReadsAlike(origin.call.current.metadata)
  {
    var read := t[origin.currentRead];
    RunInv(t, origin.currentRead);
    LogGrows(t, origin.currentRead, origin.landed);
    assert forall e | e in read.log :: e in log[..i];
    Agreement.RowsReadAlike(read.log);
  }

  lemma {:induction false} ClientLogReadsAlike(t: seq<Db>, log: seq<Entry>, issued: seq<Issued>, m: nat)
    requires Run(t) && ClientsOnly(t, log, issued) && m <= |log|
    ensures Agreement.WritesReadAlike(log[..m])
  {
    if m > 0 {
      ClientLogReadsAlike(t, log, issued, m - 1);
      var e := log[m - 1];
      if e.Wrote? {
        var origin := issued[m - 1];
        assert IssuedBy(t, log, m - 1, origin);
        if origin.call.ByDeleteCurrent? {
          CurrentReadsAlike(t, log, m - 1, origin);
        }
        ClientWritesReadAlike(origin.call, e.args.expected);
      }
      assert forall f | f in log[..m] :: f in log[..m - 1] || f == e;
    }
  }

  /** In every run of client operations the cache agrees with the table after every completed poll; no
      other hypothesis is needed, because the operations keep every row readable. */
  lemma CacheAgreesForClients(t: seq<Db>, issued: seq<Issued>, sel: Watch.Selector, w: Agreement.Watching, n: nat)
    requires ClientRun(t, issued) && Agreement.XidsFit(t) && Agreement.Follows(t, sel, w) && n < |w.at|
    ensures w.caches[n] == Watch.ListCache(Agreement.At(t, w, n), sel)
  {
    var log := t[|t| - 1].log;
    ClientLogReadsAlike(t, log, issued, |log|);
    assert log[..|log|] == log;
    Agreement.CacheAgreesForReadableWrites(t, sel, w, n);
  }

  /******* Deletion is final *******/

  /** A row at version 1 has no deletion timestamp: neither Create's INSERT nor its revival stores one. */
  lemma {:induction false} VersionOneIsUnmarked(t: seq<Db>, log: seq<Entry>, issued: seq<Issued>, m: nat, key: Key)
    requires Chained(log) && ClientsOnly(t, log, issued) && m <= |log|
    ensures key in Replay(log[..m]) && Replay(log[..m])[key].version == 1 ==> Replay(log[..m])[key].deletionTs.None?
  {
    if m > 0 {
      VersionOneIsUnmarked(t, log, issued, m - 1, key);
      LastEntryAt(log, m);
      var e := log[m - 1];
      if e.Wrote? && e.key == key {
        assert IssuedBy(t, log, m - 1, issued[m - 1]);
      }
    }
  }

  /** An Update that names version 2 or higher lands on the incarnation its object was read from. */
  ghost predicate LandsAtHome(t: seq<Db>, log: seq<Entry>, i: nat, origin: Issued)
    requires i < |log| && log[i].Wrote? && IssuedBy(t, log, i, origin)
  {
    var key, expected := log[i].key, log[i].args.expected;
    origin.call.ByUpdate? && expected >= 2 ==>
      && origin.objectRead <= origin.currentRead
      && key in t[origin.objectRead].rows && t[origin.objectRead].rows[key].version == expected
      && (key in t[origin.landed].rows ==> t[origin.landed].rows[key].uid == t[origin.objectRead].rows[key].uid)
  }

  ghost predicate AllLandAtHome(t: seq<Db>, log: seq<Entry>, issued: seq<Issued>)
    requires ClientsOnly(t, log, issued)
  {
    forall i | 0 <= i < |log| && log[i].Wrote? :: LandsAtHome(t, log, i, issued[i])
  }

  lemma DeletionStep(t: seq<Db>, log: seq<Entry>, i: nat, origin: Issued)
    requires Run(t) && i < |log| && log[i].Wrote? && IssuedBy(t, log, i, origin) && LandsAtHome(t, log, i, origin)
    requires Advances(log[i].args, Lookup(Replay(log[..i]), log[i].key), log[i].row) && log[i].args.expected >= 2
    requires Replay(log[..i])[log[i].key].deletionTs.Some?
    ensures log[i].row.deletionTs.Some?
  {
    if origin.call.ByUpdate? {
      RunInv(t, origin.landed);
      SameVersionSameRow(t, origin.objectRead, origin.currentRead, origin.landed, log[i].key);
    }
  }

  ghost predicate Marked(log: seq<Entry>, m: nat, key: Key, uid: Uid)
    requires m <= |log|
  {
    HeldAt(log, m, key, uid) && Replay(log[..m])[key].deletionTs.Some?
  }

  lemma MarkedIsPastOne(t: seq<Db>, log: seq<Entry>, issued: seq<Issued>, m: nat, key: Key, uid: Uid)
    requires Chained(log) && ClientsOnly(t, log, issued) && m <= |log| && Marked(log, m, key, uid)
    ensures Replay(log[..m])[key].version >= 2
  {
    VersionOneIsUnmarked(t, log, issued, m, key);
    ChainedPrefix(log, m);
    RowsComeFromLog(log[..m], key);
  }

  lemma DeletionStepAt(t: seq<Db>, log: seq<Entry>, issued: seq<Issued>, m: nat, key: Key, uid: Uid)
    requires Run(t) && Chained(log) && ClientsOnly(t, log, issued) && AllLandAtHome(t, log, issued) && 0 < m <= |log|
    ensures Marked(log, m - 1, key, uid) && HeldAt(log, m, key, uid) ==> Marked(log, m, key, uid)
  {
    var past, e := log[..m - 1], log[m - 1];
    LastEntryAt(log, m);
    if Marked(log, m - 1, key, uid) && e.Wrote? && e.key == key && e.row.uid == uid {
      UsedUidIsNotFresh(past, key);
      MarkedIsPastOne(t, log, issued, m - 1, key, uid);
      DeletionStep(t, log, m - 1, issued[m - 1]);
    }
  }

  lemma {:induction false} MarkStays(log: seq<Entry>, n: nat, m: nat, key: Key, uid: Uid)
    requires n <= m <= |log| && Marked(log, n, key, uid)
    requires forall p | n < p <= m :: Marked(log, p - 1, key, uid) ==> Marked(log, p, key, uid)
    ensures Marked(log, m, key, uid)
    decreases m
  {
    if n < m {
      MarkStays(log, n, m - 1, key, uid);
    }
  }

  lemma DeletionStaysInLog(t: seq<Db>, log: seq<Entry>, issued: seq<Issued>, n: nat, key: Key, uid: Uid)
    requires Run(t) && Chained(log) && ClientsOnly(t, log, issued) && AllLandAtHome(t, log, issued) && n <= |log|
    requires Marked(log, n, key, uid) && HeldAt(log, |log|, key, uid)
    ensures Marked(log, |log|, key, uid)
  {
    UsedUidIsNotFresh(log[..n], key);
    forall p | n < p <= |log| ensures Marked(log, p - 1, key, uid) ==> Marked(log, p, key, uid) {
      IncarnationNeverReturns(log, n, p, |log|, key, uid);
      DeletionStepAt(t, log, issued, p, key, uid);
    }
    MarkStays(log, n, |log|, key, uid);
  }

  /** Over every run of client operations, a deletion timestamp is final: while a key holds the same
      incarnation it never returns to NULL, whatever creates, updates, status updates, deletes and
      compactions are interleaved, as long as no Update naming version 2 or higher lands on another
      incarnation than its object's. An Update naming version 1 may land anywhere. */
  lemma DeletionIsFinal(t: seq<Db>, issued: seq<Issued>, i: nat, j: nat, key: Key)
    requires Run(t) && i <= j < |t| && ClientsOnly(t, t[j].log, issued) && AllLandAtHome(t, t[j].log, issued)
    requires key in t[i].rows && t[i].rows[key].deletionTs.Some?
    requires key in t[j].rows && t[j].rows[key].uid == t[i].rows[key].uid
    ensures t[j].rows[key].deletionTs.Some?
  {
    var log := LogAlong(t, i, j, j);
    assert log[..|log|] == log;
    DeletionStaysInLog(t, log, issued, |t[i].log|, key, t[i].rows[key].uid);
  }
}
