/**
 The statements of the write path and of the compactor as they change the tables, step by step.
 `rows` and `horizon` are what the calling session sees committed.
 */
module Database {
  import opened Wrappers
  import opened Json
  import opened Model
  import opened Tombstone
  import opened WritePath
  import opened Compaction

  /** The table as other sessions have left it when this transaction's second statement (INSERT or
      UPDATE) and third statement (revival) get their row locks. */
  datatype Others = Others(atUpsert: map<Key, Row>, atRevival: map<Key, Row>)

  function ViewsOf(key: Key, atRead: map<Key, Row>, others: Others): Views {
    Views(Lookup(atRead, key), Lookup(others.atUpsert, key), Lookup(others.atRevival, key))
  }

  /** The table a call leaves: the one its last statement saw, with the row it put, if any. */
  function TableAfter(key: Key, suppressed: bool, duplicate: bool, put: Option<Row>,
                      atRead: map<Key, Row>, others: Others): map<Key, Row>
  {
    var last := if suppressed then atRead else if duplicate then others.atRevival else others.atUpsert;
    if put.Some? then last[key := put.value] else last
  }

  /** A last statement that wrote a row returns it and stores it; one that raised an error leaves the
      table alone. */
  ghost predicate Stored(upsert: Statement, out: Outcome, before: map<Key, Row>, key: Key, after: map<Key, Row>) {
    match upsert
    case Applied(row) => out == Changed(row.uid, row.version, row.stamp) && after == before[key := row]
    case Raised(error) => out == Failed(error) && after == before
    case Duplicate => false
  }

  /** What a DELETE with the compactor's condition takes. */
  function Due(rows: map<Key, Row>, now: Time, cutoff: int): map<Key, Row> {
    map k | k in rows && Compactable(rows[k], now, cutoff) :: rows[k]
  }

  /** A row is due exactly if both its deletion and its last update lie before the cutoff and it has no
      finalizers. */
  lemma DueExactly(rows: map<Key, Row>, now: Time, retention: int, k: Key)
    requires k in rows
    ensures k in Due(rows, now, retention) <==>
            && rows[k].deletionTs.Some? && rows[k].deletionTs.value < now - retention
            && rows[k].updatedAt < now - retention
            && Arrow(rows[k].metadata, "finalizers") in {None, Some(EMPTY_ARRAY)}
  {
    SqlTestsAreComplements(rows[k].deletionTs, rows[k].metadata);
  }

  lemma DeleteOneMore(before: map<Key, Row>, due: map<Key, Row>, todo: set<Key>, k: Key)
    requires k in todo && todo <= due.Keys
    ensures (due - todo)[k := due[k]] == due - (todo - {k})
    ensures before - (due.Keys - todo) - {k} == before - (due.Keys - (todo - {k}))
  {
    assert due.Keys - (todo - {k}) == due.Keys - todo + {k};
  }

  /** What a transaction reports, given its effect and the fate of its COMMIT. */
  function Reported(outcome: Outcome, commit: Reply, txid: Xid): Outcome {
    if commit.Received? || outcome.Failed? then outcome
    else if outcome.Suppressed? then Failed(CommitFailed)
    else Failed(AmbiguousCommit(txid))
  }

  /** No row other sessions committed under the key carries the transaction id. */
  predicate Unused(txid: Xid, key: Key, others: Others) {
    && (key in others.atUpsert ==> others.atUpsert[key].stamp != txid)
    && (key in others.atRevival ==> others.atRevival[key].stamp != txid)
  }

  class Tables {
    var rows: map<Key, Row>
    var horizon: Horizon

    constructor ()
      ensures rows == map[] && horizon == map[]
    {
      rows, horizon := map[], map[];
    }

    /** The stored procedure, statement by statement. */
    method PgctlWrite(statusOnly: bool, key: Key, expectedVersion: int, forceWrite: bool,
                      spec: Option<Json>, status: Option<Json>, metadata: Option<Json>, deletionTs: Option<Time>,
                      c: Context, others: Others)
      returns (out: Outcome)
      modifies this`rows
      ensures var a := Args(statusOnly, expectedVersion, forceWrite, spec, status, metadata, deletionTs);
              var v := ViewsOf(key, old(rows), others);
              var effect := StoredProc(a, c, v);
              && out == effect.outcome
              && rows == TableAfter(key, out.Suppressed?, ProcUpsert(a, c, v.upsert).Duplicate?, effect.put,
                                    old(rows), others)
      ensures match out
              case Suppressed(uid, version) =>
                !forceWrite && rows == old(rows) && key in rows && uid == rows[key].uid && version == rows[key].version
              case Changed(uid, version, txid) =>
                && key in rows && uid == rows[key].uid && version == rows[key].version
                && txid == c.txid == rows[key].stamp && rows[key].updatedAt == c.now
                && (rows - {key} == others.atUpsert - {key} || rows - {key} == others.atRevival - {key})
              case Failed(_) => rows == others.atUpsert || rows == others.atRevival
    {
      if !forceWrite && key in rows {
        var existing := rows[key];
        if statusOnly {
          if status == Some(existing.status) {
            return Suppressed(existing.uid, existing.version);
          }
        } else {
          if && spec == Some(existing.spec)
             && (status.None? || status == Some(existing.status))
             && metadata == Some(existing.metadata)
             && deletionTs == existing.deletionTs {
            return Suppressed(existing.uid, existing.version);
          }
        }
      }

      rows := others.atUpsert;
      var a := Args(statusOnly, expectedVersion, forceWrite, spec, status, metadata, deletionTs);
      if statusOnly {
        out := UpdateStatus(a, key, c);
      } else if expectedVersion == 0 {
        out := Create(a, key, c, others.atRevival);
      } else {
        out := UpdateObject(a, key, c);
      }
    }

    /** Branch A: WriteStatus. */
    method UpdateStatus(a: Args, key: Key, c: Context) returns (out: Outcome)
      requires a.statusOnly
      modifies this`rows
      ensures Stored(ProcUpsert(a, c, Lookup(old(rows), key)), out, old(rows), key, rows)
    {
      if a.expected == 0 {
        return Failed(NeedsVersion);
      }
      if key !in rows || rows[key].version != a.expected {
        return Failed(Conflict);
      }
      if a.status.None? {
        return Failed(NotNullViolation);
      }
      var row := rows[key];
      row := row.(stamp := c.txid, version := row.version + 1, status := a.status.value, updatedAt := c.now);
      rows := rows[key := row];
      out := Changed(row.uid, row.version, c.txid);
    }

    /** Branch B: the INSERT and, on a unique violation, the revival of a tombstone. */
    method Create(a: Args, key: Key, c: Context, atRevival: map<Key, Row>) returns (out: Outcome)
      requires !a.statusOnly && a.expected == 0
      modifies this`rows
      ensures var insert := ProcUpsert(a, c, Lookup(old(rows), key));
              if insert.Duplicate? then Stored(ProcRevive(a, c, Lookup(atRevival, key)), out, atRevival, key, rows)
              else Stored(insert, out, old(rows), key, rows)
    {
      if a.spec.None? || a.status.None? || a.metadata.None? {
        return Failed(NotNullViolation);
      }
      var row: Row;
      if key !in rows {
        row := Row(c.uid, c.txid, 1, a.spec.value, a.status.value, a.metadata.value, a.deletionTs, c.now, c.now);
      } else {
        // EXCEPTION WHEN unique_violation
        rows := atRevival;
        if key !in rows || !IsTombstone(rows[key].deletionTs, rows[key].metadata) {
          return Failed(AlreadyExists);
        }
        row := Row(c.uid, c.txid, 1, a.spec.value, a.status.value, a.metadata.value, None, c.now, c.now);
      }
      rows := rows[key := row];
      out := Changed(row.uid, row.version, c.txid);
    }

    /** Branch C: Write and WriteObject on an existing row. */
    method UpdateObject(a: Args, key: Key, c: Context) returns (out: Outcome)
      requires !a.statusOnly && a.expected != 0
      modifies this`rows
      ensures Stored(ProcUpsert(a, c, Lookup(old(rows), key)), out, old(rows), key, rows)
    {
      if key !in rows || rows[key].version != a.expected {
        return Failed(Conflict);
      }
      if a.spec.None? || a.metadata.None? {
        return Failed(NotNullViolation);
      }
      var row := rows[key];
      var coalesced := row.status;
      if a.status.Some? {
        coalesced := a.status.value;
      }
      row := row.(stamp := c.txid, version := row.version + 1, spec := a.spec.value, status := coalesced,
                  metadata := a.metadata.value, deletionTs := a.deletionTs, updatedAt := c.now);
      rows := rows[key := row];
      out := Changed(row.uid, row.version, c.txid);
    }

    /** The closure of writeMultiStatement for ExpectedVersion 0: the INSERT and, after ROLLBACK TO
        SAVEPOINT tombstone_revival, the revival. */
    method InsertOrRevive(r: Request, key: Key, c: Context, atRevival: map<Key, Row>) returns (out: Outcome)
      requires r.Write? && r.expected == 0
      modifies this`rows
      ensures var insert := UpsertStatement(r, c, Lookup(old(rows), key));
              if insert.Duplicate? then Stored(RevivalStatement(r, c, Lookup(atRevival, key)), out, atRevival, key, rows)
              else Stored(insert, out, old(rows), key, rows)
    {
      if r.spec.None? || r.status.None? || r.metadata.None? {
        return Failed(NotNullViolation);
      }
      if key !in rows {
        rows := rows[key := Row(c.uid, c.txid, 1, r.spec.value, r.status.value, r.metadata.value, r.deletionTs,
                                c.now, c.now)];
        return Changed(c.uid, 1, c.txid);
      }
      rows := atRevival;
      if key !in rows {
        return Failed(AlreadyExists);
      }
      if !IsTombstone(rows[key].deletionTs, rows[key].metadata) {
        return Failed(AlreadyExists);
      }
      rows := rows[key := Row(c.uid, c.txid, 1, r.spec.value, r.status.value, r.metadata.value, None, c.now, c.now)];
      out := Changed(c.uid, 1, c.txid);
    }

    /** The closures' UPDATE statements; None is a column the statement does not set. */
    method UpdateColumns(key: Key, expected: int, c: Context, spec: Option<Option<Json>>, status: Option<Option<Json>>,
                         metadata: Option<Option<Json>>, deletionTs: Option<Option<Time>>)
      returns (out: Outcome)
      modifies this`rows
      ensures Stored(UpdateWhereVersion(Lookup(old(rows), key), expected, c, spec, status, metadata, deletionTs),
                     out, old(rows), key, rows)
    {
      if key !in rows || rows[key].version != expected {
        return Failed(Conflict);
      }
      var row := rows[key].(stamp := c.txid, version := rows[key].version + 1, updatedAt := c.now);
      if spec.Some? {
        if spec.value.None? { return Failed(NotNullViolation); }
        row := row.(spec := spec.value.value);
      }
      if status.Some? {
        if status.value.None? { return Failed(NotNullViolation); }
        row := row.(status := status.value.value);
      }
      if metadata.Some? {
        if metadata.value.None? { return Failed(NotNullViolation); }
        row := row.(metadata := metadata.value.value);
      }
      if deletionTs.Some? {
        row := row.(deletionTs := deletionTs.value);
      }
      rows := rows[key := row];
      out := Changed(row.uid, row.version, c.txid);
    }

    /** The upsert closures. */
    method Upsert(r: Request, key: Key, c: Context, atRevival: map<Key, Row>) returns (out: Outcome)
      modifies this`rows
      ensures var upsert := UpsertStatement(r, c, Lookup(old(rows), key));
              if upsert.Duplicate? then
                r.Write? && Stored(RevivalStatement(r, c, Lookup(atRevival, key)), out, atRevival, key, rows)
              else Stored(upsert, out, old(rows), key, rows)
    {
      match r {
        case Write(spec, status, metadata, deletionTs, expected, _) =>
          if expected == 0 {
            out := InsertOrRevive(r, key, c, atRevival);
          } else {
            // COALESCE($3, status)
            var coalesced := if status.None? then None else Some(status);
            out := UpdateColumns(key, expected, c, Some(spec), coalesced, Some(metadata), Some(deletionTs));
          }
        case WriteStatus(status, expected, _) =>
          out := UpdateColumns(key, expected, c, None, Some(status), None, None);
        case WriteObject(spec, metadata, deletionTs, expected, _) =>
          out := UpdateColumns(key, expected, c, Some(spec), None, Some(metadata), Some(deletionTs));
      }
    }

    /** execWriteInner: one transaction of several statements. `commit` is how its COMMIT fares: a lost
        reply is reported as ambiguous, whether the write landed or not. */
    method ExecWriteInner(key: Key, r: Request, c: Context, others: Others, commit: Reply) returns (out: Outcome)
      requires !RefusedEarly(r)
      modifies this`rows
      ensures var v := ViewsOf(key, old(rows), others);
              var effect := ViaStatements(r, c, v);
              && out == Reported(effect.outcome, commit, c.txid)
              && rows == TableAfter(key, effect.outcome.Suppressed?, UpsertStatement(r, c, v.upsert).Duplicate?,
                                    if commit == Lost(false) then None else effect.put, old(rows), others)
      ensures var outcome := ViaStatements(r, c, ViewsOf(key, old(rows), others)).outcome;
              && (commit.Received? || outcome.Failed? ==> out == outcome)
              && (commit.Lost? && outcome.Suppressed? ==> out == Failed(CommitFailed))
              && (commit.Lost? && outcome.Changed? ==> out == Failed(AmbiguousCommit(c.txid)))
      // reading the transaction id of a lost reply back finds what was written, exactly if it was
      ensures out.Failed? && out.error.AmbiguousCommit? && Unused(c.txid, key, others) ==>
                && (commit.landed <==> key in rows && rows[key].stamp == out.error.txid)
                && (commit.landed ==> Some(rows[key]) == ViaStatements(r, c, ViewsOf(key, old(rows), others)).put)
      ensures out.Changed? ==>
                && key in rows && out.uid == rows[key].uid && out.version == rows[key].version
                && out.txid == c.txid == rows[key].stamp
      ensures out.Suppressed? ==>
                rows == old(rows) && key in rows && out.uid == rows[key].uid && out.version == rows[key].version
    {
      if !r.force {
        var existing := Lookup(rows, key);
        var suppressed := existing.Some? && ContentEqual(r, existing.value);
        if suppressed {
          if commit.Lost? {
            return Failed(CommitFailed);
          }
          return Suppressed(existing.value.uid, existing.value.version);
        }
      }

      var txid := c.txid;
      rows := others.atUpsert;
      out := Upsert(r, key, c, others.atRevival);
      if out.Failed? {
        return;
      }
      if commit.Lost? {
        if !commit.landed {
          // the server rolled the transaction back: the table as the last statement found it
          rows := if key in others.atUpsert && r.Write? && r.expected == 0 then others.atRevival else others.atUpsert;
        }
        return Failed(AmbiguousCommit(txid));
      }
    }

    /** Compact: the DELETE takes its rows one by one, the horizon CTE groups what it returned. */
    method Compact(retention: int, now: Time) returns (deleted: nat)
      modifies this
      ensures var gone := Due(old(rows), now, EffectiveRetention(retention));
              && rows == old(rows) - gone.Keys
              && deleted == |gone|
              && IsRaised(old(horizon), gone, horizon)
    {
      ghost var before := rows;
      var due := Due(rows, now, EffectiveRetention(retention));
      var todo := due.Keys;
      var raise: Horizon := map[];
      assert due - todo == map[] && before - (due.Keys - todo) == before;
      while todo != {}
        invariant todo <= due.Keys
        invariant rows == before - (due.Keys - todo)
        invariant horizon == old(horizon)
        invariant IsRaised(map[], due - todo, raise)
      {
        var k :| k in todo;
        DeleteOneMore(before, due, todo, k);
        RaiseOneMore(due - todo, raise, k, due[k]);
        raise := RaiseOne(raise, k.gvk, due[k].stamp);
        rows := rows - {k};
        todo := todo - {k};
      }
      assert due - todo == due;
      MergeIsRaised(horizon, due, raise);
      horizon := Merge(horizon, raise);
      deleted := |due|;
    }

    /** ReadBack: the row under the key if it still carries the transaction's stamp. */
    method ReadBack(key: Key, txid: Xid) returns (r: Option<Row>)
      ensures r == ReadBackOf(rows, key, txid)
    {
      if key in rows && rows[key].stamp == txid {
        r := Some(rows[key]);
      } else {
        r := None;
      }
    }
  }

  function ReadBackOf(rows: map<Key, Row>, key: Key, txid: Xid): Option<Row> {
    if key in rows && rows[key].stamp == txid then Some(rows[key]) else None
  }
}
