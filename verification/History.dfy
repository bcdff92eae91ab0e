/**
 What the commit log of every run looks like: version chains per incarnation, lifecycle, and what a
 read-back by transaction id can conclude. An incarnation is the life of one uid.
 */
module History {
  import opened Wrappers
  import opened Model
  import opened Tombstone
  import opened WritePath
  import opened Database
  import opened Protocol

  /** (named version, resulting version) of every committed change of the incarnation `uid`. */
  ghost function ChangesOf(log: seq<Entry>, uid: Uid): seq<(int, int)> {
    if log == [] then []
    else
      var e := log[|log| - 1];
      ChangesOf(log[..|log| - 1], uid)
      + if e.Wrote? && e.row.uid == uid then [(e.args.expected, e.row.version)] else []
  }

  lemma ChainedPrefix(log: seq<Entry>, n: nat)
    requires Chained(log) && n <= |log|
    ensures Chained(log[..n])
  {
    forall i | 0 <= i < n ensures Continues(log[..n][..i], log[..n][i]) {
      assert log[..n][..i] == log[..i];
    }
  }

  lemma LastEntry(log: seq<Entry>)
    requires Chained(log) && log != []
    ensures Chained(log[..|log| - 1])
    ensures Continues(log[..|log| - 1], log[|log| - 1])
    ensures Replay(log) == AfterEntry(Replay(log[..|log| - 1]), log[|log| - 1])
  {
    ChainedPrefix(log, |log| - 1);
  }

  /** An incarnation nobody has opened has no changes. */
  lemma {:induction false} FreshHasNoChanges(log: seq<Entry>, uid: Uid)
    requires FreshUid(log, uid)
    ensures ChangesOf(log, uid) == []
  {
    if log != [] {
      var n := |log| - 1;
      assert log[n] in log;
      FreshHasNoChanges(log[..n], uid);
    }
  }

  /** The incarnation a key holds has gone through as many changes as its version says, and no two
      keys hold the same one. */
  lemma {:induction false} VersionsCountChanges(log: seq<Entry>)
    requires Chained(log)
    ensures forall k | k in Replay(log) :: |ChangesOf(log, Replay(log)[k].uid)| == Replay(log)[k].version
    ensures forall k, k' | k in Replay(log) && k' in Replay(log) && k != k' :: Replay(log)[k].uid != Replay(log)[k'].uid
  {
    if log != [] {
      var past, e := log[..|log| - 1], log[|log| - 1];
      LastEntry(log);
      VersionsCountChanges(past);
      if e.Wrote? {
        forall k | k in Replay(past) ensures !FreshUid(past, Replay(past)[k].uid) {
          RowsComeFromLog(past, k);
        }
        if FreshUid(past, e.row.uid) {
          FreshHasNoChanges(past, e.row.uid);
        }
      }
    }
  }

  /** A write opens an incarnation nobody has opened, or advances the one its key holds. */
  ghost predicate OpensIncarnation(past: seq<Entry>, e: Entry) {
    e.Wrote? && FreshUid(past, e.row.uid) && e.args.expected == 0 && e.row.version == 1
  }

  ghost predicate AdvancesIncarnation(past: seq<Entry>, e: Entry) {
    && e.Wrote? && !FreshUid(past, e.row.uid)
    && e.key in Replay(past) && Replay(past)[e.key].uid == e.row.uid
    && Replay(past)[e.key].version == e.args.expected
    && Replay(past)[e.key].createdAt == e.row.createdAt
    && e.row.version == e.args.expected + 1
  }

  lemma UsedUidIsNotFresh(past: seq<Entry>, key: Key)
    requires key in Replay(past)
    ensures !FreshUid(past, Replay(past)[key].uid)
  {
    RowsComeFromLog(past, key);
  }

  lemma OpensOrAdvances(past: seq<Entry>, e: Entry)
    requires Continues(past, e) && e.Wrote?
    ensures OpensIncarnation(past, e) || AdvancesIncarnation(past, e)
  {
    if e.key in Replay(past) {
      UsedUidIsNotFresh(past, e.key);
    }
  }

  /** The change an entry makes is the one its incarnation is due. */
  lemma NextChange(past: seq<Entry>, e: Entry)
    requires Chained(past) && Continues(past, e) && e.Wrote?
    ensures e.args.expected == |ChangesOf(past, e.row.uid)| && e.row.version == e.args.expected + 1
  {
    OpensOrAdvances(past, e);
    if OpensIncarnation(past, e) {
      FreshHasNoChanges(past, e.row.uid);
    } else {
      VersionsCountChanges(past);
    }
  }

  lemma LastChange(log: seq<Entry>, uid: Uid)
    requires Chained(log) && log != []
    requires var e := log[|log| - 1]; e.Wrote? && e.row.uid == uid
    ensures var n := |ChangesOf(log[..|log| - 1], uid)|;
            ChangesOf(log, uid) == ChangesOf(log[..|log| - 1], uid) + [(n, n + 1)]
  {
    LastEntry(log);
    NextChange(log[..|log| - 1], log[|log| - 1]);
  }

  /** The version chain. The committed changes of one incarnation carry the versions 1, 2, 3, ... in
      commit order without a gap, whichever of the three writes made them, and the m-th change was
      applied to exactly the version its writer named: m, where the opening write names 0. */
  lemma {:induction false} VersionChain(log: seq<Entry>, uid: Uid)
    requires Chained(log)
    ensures forall m | 0 <= m < |ChangesOf(log, uid)| :: ChangesOf(log, uid)[m] == (m, m + 1)
  {
    if log != [] {
      var past, e := log[..|log| - 1], log[|log| - 1];
      ChainedPrefix(log, |log| - 1);
      VersionChain(past, uid);
      if e.Wrote? && e.row.uid == uid {
        LastChange(log, uid);
      } else {
        assert ChangesOf(log, uid) == ChangesOf(past, uid);
      }
    }
  }

  /** Where the change made by entry i stands in its incarnation. */
  lemma {:induction false} ChangeIndex(log: seq<Entry>, i: nat)
    requires Chained(log) && i < |log| && log[i].Wrote?
    ensures var changes := ChangesOf(log, log[i].row.uid);
            && ChangesOf(log[..i + 1], log[i].row.uid) <= changes
            && 1 <= log[i].row.version <= |changes|
            && log[i].args.expected == log[i].row.version - 1
            && |ChangesOf(log[..i + 1], log[i].row.uid)| == log[i].row.version
    decreases |log|
  {
    var past := log[..|log| - 1];
    if i == |log| - 1 {
      assert log[..i + 1] == log;
      VersionChain(log, log[i].row.uid);
      var changes := ChangesOf(log, log[i].row.uid);
      assert changes[|changes| - 1] == (log[i].args.expected, log[i].row.version);
    } else {
      LastEntry(log);
      assert past[i] == log[i] && past[..i + 1] == log[..i + 1];
      ChangeIndex(past, i);
    }
  }

  lemma {:induction false} ChangesGrow(log: seq<Entry>, n: nat, uid: Uid)
    requires n <= |log|
    ensures |ChangesOf(log[..n], uid)| <= |ChangesOf(log, uid)|
    decreases |log|
  {
    if n == |log| {
      assert log[..n] == log;
    } else {
      assert log[..|log| - 1][..n] == log[..n];
      ChangesGrow(log[..|log| - 1], n, uid);
    }
  }

  /** No lost update: of all writers that name the same version of the same incarnation, whether they
      write spec, status or everything, at most one ever commits a change. */
  lemma AtMostOneWinner(log: seq<Entry>, i: nat, j: nat)
    requires Chained(log) && i < |log| && j < |log| && log[i].Wrote? && log[j].Wrote?
    requires log[i].row.uid == log[j].row.uid && log[i].args.expected == log[j].args.expected
    ensures i == j
  {
    if i < j { ChangesStrictlyGrow(log, i, j); }
    if j < i { ChangesStrictlyGrow(log, j, i); }
  }

  lemma ChangesStrictlyGrow(log: seq<Entry>, i: nat, j: nat)
    requires Chained(log) && i < j < |log| && log[i].Wrote? && log[j].Wrote? && log[i].row.uid == log[j].row.uid
    ensures log[i].row.version < log[j].row.version
  {
    VersionIsCount(log, i);
    VersionIsCount(log, j);
    CountsGrow(log, i, j);
  }

  lemma VersionIsCount(log: seq<Entry>, i: nat)
    requires Chained(log) && i < |log| && log[i].Wrote?
    ensures log[i].row.version == |ChangesOf(log[..i + 1], log[i].row.uid)|
  {
    ChangeIndex(log, i);
  }

  lemma CountsGrow(log: seq<Entry>, i: nat, j: nat)
    requires i < j < |log| && log[j].Wrote?
    ensures |ChangesOf(log[..i + 1], log[j].row.uid)| < |ChangesOf(log[..j + 1], log[j].row.uid)|
  {
    assert log[..j][..i + 1] == log[..i + 1] && log[..j + 1][..j] == log[..j];
    ChangesGrow(log[..j], i + 1, log[j].row.uid);
  }

  /******* Incarnations along a run *******/

  predicate Holds(rows: map<Key, Row>, key: Key, uid: Uid) {
    key in rows && rows[key].uid == uid
  }

  lemma NeverReturnsStep(past: seq<Entry>, e: Entry, key: Key, uid: Uid)
    requires Continues(past, e) && !FreshUid(past, uid) && !Holds(Replay(past), key, uid)
    ensures !Holds(AfterEntry(Replay(past), e), key, uid)
  {
    if e.Wrote? {
      OpensOrAdvances(past, e);
    }
  }

  lemma LastEntryAt(log: seq<Entry>, m: nat)
    requires Chained(log) && 0 < m <= |log|
    ensures Continues(log[..m - 1], log[m - 1])
    ensures Replay(log[..m]) == AfterEntry(Replay(log[..m - 1]), log[m - 1])
  {
    assert log[..m][..m - 1] == log[..m - 1];
  }

  lemma UsedStaysUsed(log: seq<Entry>, n: nat, m: nat, uid: Uid)
    requires n <= m <= |log| && !FreshUid(log[..n], uid)
    ensures !FreshUid(log[..m], uid)
  {
    var e :| e in log[..n] && e.Wrote? && e.row.uid == uid;
    assert e in log[..m];
  }

  ghost predicate HeldAt(log: seq<Entry>, m: nat, key: Key, uid: Uid)
    requires m <= |log|
  {
    Holds(Replay(log[..m]), key, uid)
  }

  lemma HeldBefore(log: seq<Entry>, n: nat, m: nat, key: Key, uid: Uid)
    requires Chained(log) && n < m <= |log| && !FreshUid(log[..n], uid)
    ensures HeldAt(log, m, key, uid) ==> HeldAt(log, m - 1, key, uid)
  {
    UsedStaysUsed(log, n, m - 1, uid);
    LastEntryAt(log, m);
    if !HeldAt(log, m - 1, key, uid) {
      NeverReturnsStep(log[..m - 1], log[m - 1], key, uid);
    }
  }

  lemma {:induction false} HeldDown(log: seq<Entry>, p: nat, m: nat, key: Key, uid: Uid)
    requires p <= m <= |log| && HeldAt(log, m, key, uid)
    requires forall q | p < q <= m :: HeldAt(log, q, key, uid) ==> HeldAt(log, q - 1, key, uid)
    ensures HeldAt(log, p, key, uid)
    decreases m
  {
    if p < m {
      HeldDown(log, p, m - 1, key, uid);
    }
  }

  /** Once a used uid no longer sits under its key, it never does again. */
  lemma IncarnationNeverReturns(log: seq<Entry>, n: nat, p: nat, m: nat, key: Key, uid: Uid)
    requires Chained(log) && n <= p <= m <= |log| && !FreshUid(log[..n], uid) && HeldAt(log, m, key, uid)
    ensures HeldAt(log, p, key, uid)
  {
    forall q | p < q <= m ensures HeldAt(log, q, key, uid) ==> HeldAt(log, q - 1, key, uid) {
      HeldBefore(log, n, q, key, uid);
    }
    HeldDown(log, p, m, key, uid);
  }

  /** While an incarnation lasts its version never falls, its creation time never changes, and the
      same version means the same row. */
  lemma {:induction false} IncarnationAdvances(log: seq<Entry>, n: nat, key: Key)
    requires Chained(log) && n <= |log| && Lookup(Replay(log[..n]), key).Some?
    ensures var earlier, now := Replay(log[..n])[key], Lookup(Replay(log), key);
            now.Some? && now.value.uid == earlier.uid ==>
              && earlier.version <= now.value.version
              && earlier.createdAt == now.value.createdAt
              && (earlier.version == now.value.version ==> earlier == now.value)
    decreases |log|
  {
    if n == |log| {
      assert log[..n] == log;
    } else {
      var past, e := log[..|log| - 1], log[|log| - 1];
      LastEntry(log);
      assert past[..n] == log[..n];
      IncarnationAdvances(past, n, key);
      var uid := Replay(log[..n])[key].uid;
      UsedUidIsNotFresh(log[..n], key);
      assert forall u | u in log[..n] :: u in past;
      if e.Wrote? && e.key == key {
        OpensOrAdvances(past, e);
      }
    }
  }

  /******* Along a run *******/

  lemma {:induction false} LogGrows(t: seq<Db>, i: nat, j: nat)
    requires Run(t) && i <= j < |t|
    ensures t[i].log <= t[j].log
    decreases j
  {
    if i < j {
      LogGrows(t, i, j - 1);
      RunStep(t, j - 1);
      LogGrowsAtStep(t[j - 1], t[j]);
    }
  }

  lemma LogGrowsAtStep(s: Db, s': Db)
    requires Publishes(s, s')
    ensures s.log <= s'.log
  {
  }

  predicate Gone(row: Option<Row>) {
    row.None? || IsTombstone(row.value.deletionTs, row.value.metadata)
  }

  lemma SweptRowIsGone(s: Db, x: Xid, key: Key)
    requires Inv(s) && x in s.active && s.active[x].work.Sweep?
    ensures key in s.active[x].work.gone ==> Gone(Lookup(s.rows, key))
  {
    assert PendingOk(s, x);
  }

  lemma LiveRowStep(s: Db, s': Db, key: Key)
    requires Inv(s) && Publishes(s, s') && !Gone(Lookup(s.rows, key))
    ensures key in s'.rows && SameIncarnation(s.rows[key], s'.rows[key])
  {
    if x :| CommitsPut(s, s', x) {
      assert PendingOk(s, x);
    } else if x :| CommitsSweep(s, s', x) {
      SweptRowIsGone(s, x, key);
    }
  }

  predicate SameIncarnation(before: Row, after: Row) {
    before.uid == after.uid && before.createdAt == after.createdAt && before.version <= after.version
  }

  lemma LiveRowAt(t: seq<Db>, m: nat, key: Key)
    requires Run(t) && m + 1 < |t| && !Gone(Lookup(t[m].rows, key))
    ensures key in t[m].rows && key in t[m + 1].rows && SameIncarnation(t[m].rows[key], t[m + 1].rows[key])
  {
    RunStep(t, m);
    LiveRowStep(t[m], t[m + 1], key);
  }

  /** Lifecycle. A key's uid changes, or its row disappears, only through a state in which the row is
      absent or a tombstone: live and dying rows are never compacted and never revived. */
  lemma {:induction false} UidChangesOnlyThroughDeath(t: seq<Db>, i: nat, j: nat, key: Key)
    requires Run(t) && i <= j < |t|
    requires forall m | i <= m < j :: !Gone(Lookup(t[m].rows, key))
    ensures i < j ==> key in t[i].rows && key in t[j].rows && SameIncarnation(t[i].rows[key], t[j].rows[key])
    decreases j
  {
    if i < j {
      UidChangesOnlyThroughDeath(t, i, j - 1, key);
      LiveRowAt(t, j - 1, key);
    }
  }

  lemma SameVersionSameRowInLog(log: seq<Entry>, o: nat, r: nat, key: Key)
    requires Chained(log) && o <= r <= |log| && key in Replay(log[..o])
    requires var earlier, now := Replay(log[..o])[key], Lookup(Replay(log), key);
             now.Some? && now.value.uid == earlier.uid && now.value.version == earlier.version
    ensures Lookup(Replay(log[..r]), key) == Some(Replay(log[..o])[key]) == Lookup(Replay(log), key)
  {
    var uid := Replay(log[..o])[key].uid;
    ChainedPrefix(log, r);
    assert log[..r][..o] == log[..o] && log[..|log|] == log;
    UsedUidIsNotFresh(log[..o], key);
    IncarnationNeverReturns(log, o, r, |log|, key, uid);
    IncarnationAdvances(log[..r], o, key);
    IncarnationAdvances(log, r, key);
  }

  /** If a key holds the same version of the same incarnation at two points of a run, it holds the
      same row there and everywhere in between. */
  lemma SameVersionSameRow(t: seq<Db>, o: nat, r: nat, w: nat, key: Key)
    requires Run(t) && o <= r <= w < |t|
    requires key in t[o].rows && key in t[w].rows
    requires t[o].rows[key].uid == t[w].rows[key].uid && t[o].rows[key].version == t[w].rows[key].version
    ensures Lookup(t[r].rows, key) == Some(t[o].rows[key]) && t[w].rows[key] == t[o].rows[key]
  {
    var log := LogAlong(t, o, r, w);
    SameVersionSameRowInLog(log, |t[o].log|, |t[r].log|, key);
  }

  /** Three states of a run, read off the log of the last. */
  lemma LogAlong(t: seq<Db>, o: nat, r: nat, w: nat) returns (log: seq<Entry>)
    requires Run(t) && o <= r <= w < |t|
    ensures Chained(log) && t[w].rows == Replay(log) && |t[o].log| <= |t[r].log| <= |log|
    ensures t[o].rows == Replay(log[..|t[o].log|]) && t[r].rows == Replay(log[..|t[r].log|]) && log == t[w].log
  {
    RunInv(t, o);
    RunInv(t, r);
    RunInv(t, w);
    LogGrows(t, o, r);
    LogGrows(t, r, w);
    log := t[w].log;
    assert log[..|t[o].log|] == t[o].log && log[..|t[r].log|] == t[r].log;
  }

  /******* Read-back *******/

  predicate Touches(e: Entry, key: Key) {
    match e
    case Wrote(_, k, _, _) => k == key
    case Swept(_, gone) => key in gone
  }

  /** Entry i is the write of `x` to `key`, and nothing has touched the key since. */
  ghost predicate LastWrite(log: seq<Entry>, i: nat, key: Key, x: Xid, row: Row) {
    && i < |log|
    && log[i].Wrote? && log[i].key == key && log[i].xid == x && log[i].row == row
    && forall j | i < j < |log| :: !Touches(log[j], key)
  }

  lemma {:induction false} LastWriteOfKey(log: seq<Entry>, key: Key) returns (i: nat)
    requires key in Replay(log)
    ensures i < |log| && LastWrite(log, i, key, log[i].xid, Replay(log)[key])
  {
    var n := |log| - 1;
    if log[n].Wrote? && log[n].key == key {
      i := n;
    } else {
      i := LastWriteOfKey(log[..n], key);
    }
  }

  lemma {:induction false} LastWriteStands(log: seq<Entry>, i: nat, key: Key, x: Xid, row: Row)
    requires LastWrite(log, i, key, x, row)
    ensures Lookup(Replay(log), key) == Some(row)
  {
    var n := |log| - 1;
    if i < n {
      assert !Touches(log[n], key);
      LastWriteStands(log[..n], i, key, x, row);
    }
  }

  /** In every reachable state, reading back transaction x returns a row exactly when x committed
      that very row and no later commit has overwritten or compacted it. */
  lemma ReadBackExactly(s: Db, key: Key, x: Xid, row: Row)
    requires Inv(s)
    ensures ReadBackOf(s.rows, key, x) == Some(row) <==> exists i: nat :: LastWrite(s.log, i, key, x, row)
    ensures ReadBackOf(s.rows, key, x) == Some(row) ==> x != 0
  {
    if ReadBackOf(s.rows, key, x) == Some(row) {
      var i := LastWriteOfKey(s.log, key);
      assert Continues(s.log[..i], s.log[i]);
    }
    if i: nat :| LastWrite(s.log, i, key, x, row) {
      LastWriteStands(s.log, i, key, x, row);
      assert Continues(s.log[..i], s.log[i]);
    }
  }

  /******* Ambiguous commits *******/

  datatype Resolution = Landed(row: Row) | ReportedConflict

  /** mapWriteError on an AmbiguousCommitError, reading the table it finds. */
  function Resolve(rows: map<Key, Row>, key: Key, txid: Xid): Resolution {
    var r := ReadBackOf(rows, key, txid);
    if r.Some? then Landed(r.value) else ReportedConflict
  }

  /** The transaction id each path puts into the error: the stored-procedure path has none to give. */
  function AmbiguousTxid(storedProc: bool, txid: Xid): Xid {
    if storedProc then 0 else txid
  }

  /** A lost COMMIT reply is reported as a success only if the commit happened, and always if it
      happened last on that key; but only on the path that knows its xid. The stored-procedure path
      reports a conflict even for a write that committed and still stands. */
  lemma AmbiguousCommitResolution(s: Db, key: Key, x: Xid, storedProc: bool, row: Row)
    requires Inv(s) && x > 0
    ensures Resolve(s.rows, key, AmbiguousTxid(storedProc, x)) == Landed(row)
            <==> !storedProc && exists i: nat :: LastWrite(s.log, i, key, x, row)
  {
    ReadBackExactly(s, key, AmbiguousTxid(storedProc, x), row);
  }
}
