/**
 The write path, in both its implementations: the stored procedure pgctl_write and the Go
 multi-statement transaction. Under READ COMMITTED every statement sees the rows committed when it
 starts (or when the row lock it waited for is released), so both are functions of what the
 request's key holds at each of up to three statements.
 */
module WritePath {
  import opened Wrappers
  import opened Json
  import opened Model
  import opened Tombstone

  datatype WriteError =
    | Conflict
    | AlreadyExists
    | NeedsVersion      // "requires ExpectedVersion > 0"
    | NotNullViolation  // any other SQL error; a NULL in a NOT NULL column is the one requests can cause
    | CommitFailed      // the COMMIT of a transaction that wrote nothing
    | AmbiguousCommit(txid: Xid)

  datatype Outcome =
    | Suppressed(uid: Uid, version: int)
    | Changed(uid: Uid, version: int, txid: Xid)
    | Failed(error: WriteError)

  /** What a call returns and the row, if any, that it leaves under its key. */
  datatype Effect = Effect(outcome: Outcome, put: Option<Row>)

  /** The committed row under the key at the suppression read, at the INSERT or UPDATE, and at the
      revival UPDATE. */
  datatype Views = Views(read: Option<Row>, upsert: Option<Row>, revive: Option<Row>)

  /** Per-transaction values: pg_current_xact_id(), now() and the uuid gen_random_uuid() returns. */
  datatype Context = Context(txid: Xid, now: Time, uid: Uid)

  /** How the reply to a COMMIT, or to an autocommit call, fares. A lost one leaves open what happened. */
  datatype Reply = Received | Lost(landed: bool)

  /** What an INSERT or UPDATE statement does. */
  datatype Statement =
    | Applied(row: Row)
    | Duplicate         // unique_violation: the caller goes on to the revival UPDATE
    | Raised(error: WriteError)

  function Finish(put: Row): Effect {
    Effect(Changed(put.uid, put.version, put.stamp), Some(put))
  }

  function Fail(error: WriteError): Effect {
    Effect(Failed(error), None)
  }

  /******* pgctl_write *******/

  /** The procedure's parameters; None is SQL NULL. */
  datatype Args = Args(
    statusOnly: bool, expected: int, force: bool,
    spec: Option<Json>, status: Option<Json>, metadata: Option<Json>, deletionTs: Option<Time>)

  /** Step 1, the suppression check. A comparison with a NULL parameter is not TRUE. */
  predicate ProcSuppresses(a: Args, read: Option<Row>) {
    && !a.force
    && read.Some?
    && var existing := read.value;
       if a.statusOnly then
         Some(existing.status) == a.status
       else
         && Some(existing.spec) == a.spec
         && (a.status.None? || Some(existing.status) == a.status)
         && Some(existing.metadata) == a.metadata
         && existing.deletionTs == a.deletionTs
  }

  /** Step 2 up to and including the first INSERT or UPDATE. NOT NULL columns are checked on the new
      row, before the unique index is. */
  function ProcUpsert(a: Args, c: Context, current: Option<Row>): Statement {
    if a.statusOnly then
      if a.expected == 0 then Raised(NeedsVersion)
      else if current.None? || current.value.version != a.expected then Raised(Conflict)
      else if a.status.None? then Raised(NotNullViolation)
      else Applied(current.value.(stamp := c.txid, version := a.expected + 1, status := a.status.value,
                                updatedAt := c.now))
    else if a.expected == 0 then
      if a.spec.None? || a.status.None? || a.metadata.None? then Raised(NotNullViolation)
      else if current.Some? then Duplicate
      else Applied(Row(c.uid, c.txid, 1, a.spec.value, a.status.value, a.metadata.value, a.deletionTs,
                     c.now, c.now))
    else
      if current.None? || current.value.version != a.expected then Raised(Conflict)
      else if a.spec.None? || a.metadata.None? then Raised(NotNullViolation)
      else Applied(current.value.(stamp := c.txid, version := a.expected + 1, spec := a.spec.value,
                                status := if a.status.Some? then a.status.value else current.value.status,
                                metadata := a.metadata.value, deletionTs := a.deletionTs,
                                updatedAt := c.now))
  }

  /** The revival UPDATE, reached only after an INSERT with no NULL column hit a duplicate. */
  function ProcRevive(a: Args, c: Context, current: Option<Row>): Statement {
    if current.None? || !IsTombstone(current.value.deletionTs, current.value.metadata) then
      Raised(AlreadyExists)
    else if a.spec.None? || a.metadata.None? then
      Raised(NotNullViolation)
    else
      var status := if a.status.Some? then a.status.value else EMPTY_OBJECT;
      Applied(Row(c.uid, c.txid, 1, a.spec.value, status, a.metadata.value, None, c.now, c.now))
  }

  function StoredProc(a: Args, c: Context, v: Views): Effect {
    if ProcSuppresses(a, v.read) then
      Effect(Suppressed(v.read.value.uid, v.read.value.version), None)
    else
      match ProcUpsert(a, c, v.upsert)
      case Applied(row) => Finish(row)
      case Raised(error) => Fail(error)
      case Duplicate =>
        match ProcRevive(a, c, v.revive)
        case Applied(row) => Finish(row)
        case Raised(error) => Fail(error)
        case Duplicate => Fail(AlreadyExists)
  }

  /** How the Go writer fills the parameters of the procedure. */
  function ArgsOf(r: Request): Args {
    match r
    case Write(spec, status, metadata, deletionTs, expected, force) =>
      Args(false, expected, force, spec, status, metadata, deletionTs)
    case WriteStatus(status, expected, force) =>
      Args(true, expected, force, None, status, None, None)
    case WriteObject(spec, metadata, deletionTs, expected, force) =>
      Args(false, expected, force, spec, None, metadata, deletionTs)
  }

  /** WriteStatus and WriteObject refuse ExpectedVersion 0 before either path is chosen. */
  predicate RefusedEarly(r: Request) {
    !r.Write? && r.expected == 0
  }

  function ViaProc(r: Request, c: Context, v: Views): Effect {
    if RefusedEarly(r) then Fail(NeedsVersion) else StoredProc(ArgsOf(r), c, v)
  }

  /******* The multi-statement transaction *******/

  /** The three content checkers. JSONEqual on nil and a stored, never nil, value is false. */
  predicate ContentEqual(r: Request, existing: Row) {
    match r
    case Write(spec, status, metadata, deletionTs, _, _) =>
      && spec == Some(existing.spec)
      && status == Some(existing.status)
      && metadata == Some(existing.metadata)
      && deletionTs == existing.deletionTs
    case WriteStatus(status, _, _) =>
      status == Some(existing.status)
    case WriteObject(spec, metadata, deletionTs, _, _) =>
      && spec == Some(existing.spec)
      && metadata == Some(existing.metadata)
      && deletionTs == existing.deletionTs
  }

  /** UPDATE ... SET ..., where every column it does not list keeps its value. None marks such a
      column; Some(None) is an assignment of NULL. */
  function UpdateWhereVersion(current: Option<Row>, expected: int, c: Context,
                              spec: Option<Option<Json>>, status: Option<Option<Json>>,
                              metadata: Option<Option<Json>>, deletionTs: Option<Option<Time>>): Statement
  {
    if current.None? || current.value.version != expected then
      Raised(Conflict)
    else if spec == Some(None) || status == Some(None) || metadata == Some(None) then
      Raised(NotNullViolation)
    else
      var row := current.value;
      Applied(Row(row.uid, c.txid, row.version + 1,
                if spec.Some? then spec.value.value else row.spec,
                if status.Some? then status.value.value else row.status,
                if metadata.Some? then metadata.value.value else row.metadata,
                if deletionTs.Some? then deletionTs.value else row.deletionTs,
                row.createdAt, c.now))
  }

  /** The closures writeMultiStatement, writeStatusMultiStatement and writeObjectMultiStatement pass. */
  function UpsertStatement(r: Request, c: Context, current: Option<Row>): Statement {
    match r
    case Write(spec, status, metadata, deletionTs, expected, _) =>
      if expected == 0 then
        if None in {spec, status, metadata} then Raised(NotNullViolation)
        else if current.None? then
          Applied(Row(c.uid, c.txid, 1, spec.value, status.value, metadata.value, deletionTs, c.now, c.now))
        else Duplicate
      else
        var coalesced := if status.None? then None else Some(status);
        UpdateWhereVersion(current, expected, c, Some(spec), coalesced, Some(metadata), Some(deletionTs))
    case WriteStatus(status, expected, _) =>
      UpdateWhereVersion(current, expected, c, None, Some(status), None, None)
    case WriteObject(spec, metadata, deletionTs, expected, _) =>
      UpdateWhereVersion(current, expected, c, Some(spec), None, Some(metadata), Some(deletionTs))
  }

  /** After ROLLBACK TO SAVEPOINT tombstone_revival. */
  function RevivalStatement(r: Request, c: Context, current: Option<Row>): Statement
    requires r.Write?
  {
    if current.Some? && IsTombstone(current.value.deletionTs, current.value.metadata) then
      if None in {r.spec, r.metadata} then Raised(NotNullViolation)
      else Applied(Row(c.uid, c.txid, 1, r.spec.value,
                     if r.status.None? then EMPTY_OBJECT else r.status.value,
                     r.metadata.value, None, c.now, c.now))
    else
      Raised(AlreadyExists)
  }

  function ViaStatements(r: Request, c: Context, v: Views): Effect {
    if RefusedEarly(r) then Fail(NeedsVersion)
    else if !r.force && v.read.Some? && ContentEqual(r, v.read.value) then
      Effect(Suppressed(v.read.value.uid, v.read.value.version), None)
    else
      var upsert := UpsertStatement(r, c, v.upsert);
      var last := if upsert.Duplicate? && r.Write? then RevivalStatement(r, c, v.revive) else upsert;
      match last
      case Applied(row) => Finish(row)
      case Raised(error) => Fail(error)
      case Duplicate => Fail(AlreadyExists)
  }

  /******* The two agree, but for one case *******/

  /** A full Write with no status whose other content is already stored: the procedure takes it for
      a WriteObject and suppresses it, the Go checker compares the status as well. */
  predicate NilStatusReplay(r: Request, read: Option<Row>) {
    && r.Write? && r.status.None? && !r.force
    && read.Some?
    && r.spec == Some(read.value.spec)
    && r.metadata == Some(read.value.metadata)
    && r.deletionTs == read.value.deletionTs
  }

  /** Same result, same row, same error class, for every request and whatever other sessions commit
      between the statements: exactly outside that one case. */
  lemma PathsAgreeExactly(r: Request, c: Context, v: Views)
    ensures ViaProc(r, c, v) == ViaStatements(r, c, v) <==> !NilStatusReplay(r, v.read)
  {
    if NilStatusReplay(r, v.read) {
      assert ViaProc(r, c, v).outcome.Suppressed?;
      assert !ViaStatements(r, c, v).outcome.Suppressed?;
    }
  }

  /** Which requests are suppressed, and which fail how, in terms of the request and the row each statement
      finds. */
  lemma WriteOutcomesExactly(r: Request, c: Context, v: Views)
    ensures var out := ViaProc(r, c, v).outcome;
            var sameContent := v.read.Some? && match r
              case Write(spec, status, metadata, deletionTs, _, _) =>
                && spec == Some(v.read.value.spec) && metadata == Some(v.read.value.metadata)
                && status in {None, Some(v.read.value.status)} && deletionTs == v.read.value.deletionTs
              case WriteStatus(status, _, _) => status == Some(v.read.value.status)
              case WriteObject(spec, metadata, deletionTs, _, _) =>
                && spec == Some(v.read.value.spec) && metadata == Some(v.read.value.metadata)
                && deletionTs == v.read.value.deletionTs;
            var versionMatches := v.upsert.Some? && v.upsert.value.version == r.expected;
            var missing := match r
              case Write(spec, status, metadata, _, expected, _) =>
                None in {spec, metadata} || (expected == 0 && status.None?)
              case WriteStatus(status, _, _) => status.None?
              case WriteObject(spec, metadata, _, _, _) => None in {spec, metadata};
            && (out.Suppressed? <==> !r.force && sameContent && (r.Write? || r.expected != 0))
            && (out == Failed(NeedsVersion) <==> !r.Write? && r.expected == 0)
            && (out == Failed(Conflict) <==> !out.Suppressed? && r.expected != 0 && !versionMatches)
            && (out == Failed(NotNullViolation) <==>
                  !out.Suppressed? && missing && (versionMatches || r.expected == 0) && (r.Write? || r.expected != 0))
            && (out == Failed(AlreadyExists) <==>
                  && !out.Suppressed? && r.Write? && r.expected == 0 && !missing && v.upsert.Some?
                  && (v.revive.Some? ==> v.revive.value.deletionTs.None?
                                         || Arrow(v.revive.value.metadata, "finalizers") !in {None, Some(EMPTY_ARRAY)}))
            && out != Failed(CommitFailed) && (out.Failed? ==> !out.error.AmbiguousCommit?)
  {
  }

  /******* What one call does to its row *******/

  /** How a committed change relates the row before it to the row after it. */
  predicate Creates(a: Args, c: Context, before: Option<Row>, after: Row) {
    && !a.statusOnly && a.expected == 0
    && (before.Some? ==> IsTombstone(before.value.deletionTs, before.value.metadata))
    && after.uid == c.uid
    && after.version == 1
    && after.createdAt == c.now
    && a.spec == Some(after.spec)
    && a.metadata == Some(after.metadata)
    && after.status == (if a.status.Some? then a.status.value else EMPTY_OBJECT)
    && after.deletionTs == (if before.Some? then None else a.deletionTs)
  }

  predicate Advances(a: Args, before: Option<Row>, after: Row) {
    && before.Some?
    && a.expected != 0
    && before.value.version == a.expected
    && after.version == a.expected + 1
    && after.uid == before.value.uid
    && after.createdAt == before.value.createdAt
    && (a.statusOnly ==> && after.spec == before.value.spec
                         && after.metadata == before.value.metadata
                         && after.deletionTs == before.value.deletionTs)
    && (!a.statusOnly ==> && a.spec == Some(after.spec)
                          && a.metadata == Some(after.metadata)
                          && a.deletionTs == after.deletionTs)
    && after.status == if a.status.Some? then a.status.value else before.value.status
  }

  /** Every row the procedure writes either opens an incarnation (version 1, a new uid, over nothing
      or over a tombstone, whose revival drops the deletion timestamp supplied) or moves the
      incarnation it finds from the version its writer named to the next one, with every value the
      writer supplied and the others as they were; and it carries the writer's xid and clock. */
  lemma EveryWriteCreatesOrAdvances(a: Args, c: Context, before: Option<Row>, after: Row)
    requires || ProcUpsert(a, c, before) == Applied(after)
             || (a.expected == 0 && !a.statusOnly && ProcRevive(a, c, before) == Applied(after))
    ensures Creates(a, c, before, after) || Advances(a, before, after)
    ensures after.stamp == c.txid && after.updatedAt == c.now
  {
  }

  /** A changed write leaves a row that suppresses its own replay, unless it revived a tombstone:
      revival stores no deletion timestamp, so only a request without one matches what it left. */
  lemma ReplayIsSuppressedExactly(r: Request, c: Context, v: Views, later: Option<Row>)
    requires ViaProc(r, c, v).outcome.Changed? && !r.force
    requires later == ViaProc(r, c, v).put
    ensures ProcSuppresses(ArgsOf(r), later)
            <==> !(r.Write? && r.expected == 0 && v.upsert.Some? && r.deletionTs.Some?)
  {
    assert r.Write? && r.expected == 0 && v.upsert.Some? ==> later.value.deletionTs.None?;
  }
}
