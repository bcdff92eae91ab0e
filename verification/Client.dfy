/**
 The controller-runtime client: each operation reads, then writes in a separate transaction, with any
 number of other writers in between.
 */
module Client {
  import opened Wrappers
  import opened Json
  import opened Model
  import opened Tombstone
  import opened WritePath
  import opened Database
  import opened ResourceVersion
  import opened Protocol
  import opened History

  /** The parts of a client.Object the operations use. */
  datatype Object = Object(spec: Json, status: Json, metadata: StoredMetadata, resourceVersion: string)

  datatype ClientError = BadVersion | NotFound | ApiConflict | ApiAlreadyExists | OtherError

  /** mapWriteError, which reads an ambiguously committed row back from the table it finds. */
  function MapWriteError(atReadBack: map<Key, Row>, key: Key, error: WriteError): Result<Row, ClientError> {
    match error
    case Conflict => Err(ApiConflict)
    case AlreadyExists => Err(ApiAlreadyExists)
    case AmbiguousCommit(txid) =>
      (match Resolve(atReadBack, key, txid)
       case Landed(row) => Ok(row)
       case ReportedConflict => Err(ApiConflict))
    case _ => Err(OtherError)
  }

  /** readCurrentResource: a tombstone reads as absent. */
  function ReadCurrent(rows: map<Key, Row>, key: Key): Option<Row> {
    if key in rows && CurrentReadShows(rows[key].deletionTs, rows[key].metadata) then Some(rows[key]) else None
  }

  lemma ReadCurrentExactly(rows: map<Key, Row>, key: Key)
    ensures ReadCurrent(rows, key)
            == if key in rows && !IsTombstone(rows[key].deletionTs, rows[key].metadata) then Some(rows[key]) else None
  {
    if key in rows { SqlTestsAreComplements(rows[key].deletionTs, rows[key].metadata); }
  }

  /******* The requests the operations issue *******/

  function CreateRequest(obj: Object): Request {
    Write(Some(obj.spec), Some(obj.status), Some(Encode(obj.metadata.(generation := 1))), None, 0, false)
  }

  /** Go's n + 1 on an int64. */
  function Incremented(n: Int64): Int64 {
    if n < INT64_LIMIT - 1 then n + 1 else -INT64_LIMIT
  }

  /** The generation Update gives its object, by the row it read. */
  function UpdatedMetadata(obj: Object, current: Row): StoredMetadata {
    if current.spec == obj.spec then obj.metadata
    else obj.metadata.(generation := Incremented(CurrentGeneration(current.metadata)))
  }

  function UpdateRequest(obj: Object, expected: int, current: Row): Request {
    WriteObject(Some(obj.spec), Some(Encode(UpdatedMetadata(obj, current))), current.deletionTs, expected, false)
  }

  function StatusRequest(obj: Object, expected: int): Request {
    WriteStatus(Some(obj.status), expected, false)
  }

  /** Delete of an object that names no version: everything but the deletion time is the row it read. */
  function DeleteCurrentRequest(current: Row, now: Time): Request {
    Write(Some(current.spec), Some(current.status), Some(current.metadata),
          if current.deletionTs.Some? then current.deletionTs else Some(now), current.version, false)
  }

  /** Delete of an object that names a version: its own content, and always a new deletion time. */
  function DeleteNamedRequest(obj: Object, expected: int, now: Time): Request {
    Write(Some(obj.spec), Some(obj.status), Some(Encode(obj.metadata)), Some(now), expected, false)
  }

  /******* The operations *******/

  /** What other sessions commit, between the read and the write, during the write and before a
      read-back; and whether the reply to the write arrives. */
  datatype Interference = Interference(atWrite: map<Key, Row>, during: Others, reply: Reply, atReadBack: map<Key, Row>)

  /** What one writer call returns on the stored-procedure path. A lost reply leaves no transaction id. */
  function CallOutcome(key: Key, r: Request, c: Context, rows: map<Key, Row>, during: Others, reply: Reply): Outcome {
    if RefusedEarly(r) || reply.Received? then ViaProc(r, c, ViewsOf(key, rows, during)).outcome
    else Failed(AmbiguousCommit(AmbiguousTxid(true, c.txid)))
  }

  /** The table it leaves: suppressed, failed, changed, or never run by the server. */
  function TableAfterCall(key: Key, r: Request, c: Context, rows: map<Key, Row>, during: Others, reply: Reply)
    : map<Key, Row>
  {
    var v := ViewsOf(key, rows, during);
    var effect := ViaProc(r, c, v);
    if RefusedEarly(r) || reply == Lost(false) then rows
    else TableAfter(key, effect.outcome.Suppressed?, ProcUpsert(ArgsOf(r), c, v.upsert).Duplicate?, effect.put,
                    rows, during)
  }

  /** An Update succeeds with its own object, or with the row a read-back found. */
  datatype UpdateReply = Written(obj: Object) | FoundWritten(row: Row)

  datatype CreateReply = Created(obj: Object, uid: Uid) | FoundCreated(row: Row)

  /** How an operation passes on what its write returned. */
  function UpdateResult(key: Key, obj: Object, current: Row, out: Outcome, others: Interference)
    : Result<UpdateReply, ClientError>
  {
    match out
    case Suppressed(_, version) => Ok(Written(Updated(obj, current, version)))
    case Changed(_, version, _) => Ok(Written(Updated(obj, current, version)))
    case Failed(error) =>
      match MapWriteError(others.atReadBack, key, error)
      case Ok(row) => Ok(FoundWritten(row))
      case Err(e) => Err(e)
  }

  /** What a call that did not fail leaves under its key: what it was given, under the version it names
      plus one; the rest as it was. */
  ghost predicate Leaves(key: Key, r: Request, c: Context, out: Outcome, rows: map<Key, Row>, during: Others,
                         after: map<Key, Row>)
    requires !out.Failed?
  {
    && key in after
    && out.uid == after[key].uid && out.version == after[key].version
    && (match r
        case Write(spec, status, metadata, _, _, _) =>
          spec == Some(after[key].spec) && metadata == Some(after[key].metadata)
          && (status.Some? ==> status == Some(after[key].status))
        case WriteStatus(status, _, _) => status == Some(after[key].status)
        case WriteObject(spec, metadata, deletionTs, _, _) =>
          spec == Some(after[key].spec) && metadata == Some(after[key].metadata) && deletionTs == after[key].deletionTs)
    && (r.Write? && (out.Suppressed? || r.expected != 0 || key !in during.atUpsert) ==> r.deletionTs == after[key].deletionTs)
    && (out.Suppressed? ==> after == rows)
    && (out.Changed? ==> after[key].stamp == c.txid && after[key].updatedAt == c.now)
    && (out.Changed? && r.expected == 0 ==>
          && after[key].uid == c.uid && after[key].version == 1 && after[key].createdAt == c.now
          && (key in during.atUpsert ==>
                && after[key].deletionTs.None? && key in during.atRevival
                && IsTombstone(during.atRevival[key].deletionTs, during.atRevival[key].metadata)))
    && (out.Changed? && r.expected != 0 ==>
          && key in during.atUpsert
          && var base := during.atUpsert[key];
             && base.version == r.expected && after[key].version == r.expected + 1
             && after[key].uid == base.uid && after[key].createdAt == base.createdAt
             && (r.WriteObject? ==> after[key].status == base.status)
             && (r.WriteStatus? ==> && after[key].spec == base.spec && after[key].metadata == base.metadata
                                    && after[key].deletionTs == base.deletionTs))
  }

  lemma CallLeaves(key: Key, r: Request, c: Context, rows: map<Key, Row>, during: Others, reply: Reply)
    ensures var out := CallOutcome(key, r, c, rows, during, reply);
            !out.Failed? ==> Leaves(key, r, c, out, rows, during, TableAfterCall(key, r, c, rows, during, reply))
  {
  }

  /** The server never reports an ambiguous commit itself. */
  lemma NeverAmbiguous(r: Request, c: Context, v: Views)
    ensures ViaProc(r, c, v).outcome.Failed? ==> !ViaProc(r, c, v).outcome.error.AmbiguousCommit?
  {
  }

  class PgClient {
    const tables: Tables

    constructor (tables: Tables)
      ensures this.tables == tables
    {
      this.tables := tables;
    }

    /** The Go writer's Write, WriteStatus and WriteObject on the stored-procedure path. */
    method Call(key: Key, r: Request, c: Context, during: Others, reply: Reply) returns (out: Outcome)
      modifies tables`rows
      ensures out == CallOutcome(key, r, c, old(tables.rows), during, reply)
      ensures tables.rows == TableAfterCall(key, r, c, old(tables.rows), during, reply)
      ensures !out.Failed? ==> Leaves(key, r, c, out, old(tables.rows), during, tables.rows)
      ensures reply.Lost? ==> out == Failed(if !r.Write? && r.expected == 0 then NeedsVersion else AmbiguousCommit(0))
    {
      CallLeaves(key, r, c, tables.rows, during, reply);
      if r.WriteStatus? || r.WriteObject? {
        if r.expected == 0 {
          return Failed(NeedsVersion);
        }
      }
      if reply != Lost(false) {
        var a := ArgsOf(r);
        out := tables.PgctlWrite(a.statusOnly, key, a.expected, a.force, a.spec, a.status, a.metadata, a.deletionTs,
                                 c, during);
      }
      if reply.Lost? {
        out := Failed(AmbiguousCommit(0));
      }
    }

    /** The object stored is the one given, at generation 1 and not deleted; over a tombstone or nothing it
        opens an incarnation, and a Create of what is there already is suppressed and succeeds. */
    method Create(key: Key, obj: Object, c: Context, others: Interference)
      returns (res: Result<CreateReply, ClientError>)
      modifies tables`rows
      ensures var out := CallOutcome(key, CreateRequest(obj), c, others.atWrite, others.during, others.reply);
              && tables.rows == (if out.Failed? && out.error.AmbiguousCommit? then others.atReadBack
                                 else TableAfterCall(key, CreateRequest(obj), c, others.atWrite, others.during, others.reply))
              && (res.Ok? && res.value.Created? <==> !out.Failed?)
              && (out.Failed? ==> var mapped := MapWriteError(others.atReadBack, key, out.error);
                                  res == if mapped.Ok? then Ok(FoundCreated(mapped.value)) else Err(mapped.error))
      ensures res.Ok? && res.value.Created? ==>
                && key in tables.rows
                && var row, returned := tables.rows[key], res.value.obj;
                   && row.spec == obj.spec && row.status == obj.status && row.deletionTs.None?
                   && row.metadata == Encode(obj.metadata.(generation := 1))
                   && returned.spec == obj.spec && returned.status == obj.status
                   && returned.metadata == obj.metadata.(generation := 1) && res.value.uid == row.uid
                   && (-INT64_LIMIT <= row.version < INT64_LIMIT ==>
                         ObjectVersionOf(returned.resourceVersion) == Ok(row.version))
                   && (tables.rows != others.atWrite ==>
                         && row.uid == c.uid && row.version == 1
                         && (key in others.during.atUpsert ==>
                               && key in others.during.atRevival
                               && var over := others.during.atRevival[key]; IsTombstone(over.deletionTs, over.metadata)))
    {
      var metadata := obj.metadata.(generation := 1);
      var request := Write(Some(obj.spec), Some(obj.status), Some(Encode(metadata)), None, 0, false);
      NeverAmbiguous(request, c, ViewsOf(key, others.atWrite, others.during));
      tables.rows := others.atWrite;
      var out := Call(key, request, c, others.during, others.reply);
      if out.Failed? {
        var mapped := HandleError(key, out.error, others);
        if mapped.Err? {
          return Err(mapped.error);
        }
        return Ok(FoundCreated(mapped.value));
      }
      ReturnedVersion(out.version);
      res := Ok(Created(obj.(metadata := metadata, resourceVersion := FormatInt(out.version)), out.uid));
    }

    /** pgStatusWriter.Update: only the status, and only at the version named. */
    method UpdateStatus(key: Key, obj: Object, c: Context, others: Interference)
      returns (res: Result<UpdateReply, ClientError>)
      modifies tables`rows
      ensures ObjectVersionOf(obj.resourceVersion).Err? ==> res == Err(BadVersion) && tables.rows == old(tables.rows)
      ensures ObjectVersionOf(obj.resourceVersion) == Ok(0) ==> res == Err(OtherError) && tables.rows == others.atWrite
      ensures res.Ok? && res.value.Written? ==>
                && key in tables.rows && tables.rows[key].status == obj.status
                && res.value.obj == obj.(resourceVersion := res.value.obj.resourceVersion)
                && (-INT64_LIMIT <= tables.rows[key].version < INT64_LIMIT ==>
                      ObjectVersionOf(res.value.obj.resourceVersion) == Ok(tables.rows[key].version))
                && (tables.rows != others.atWrite ==>
                      && key in others.during.atUpsert
                      && var base, row := others.during.atUpsert[key], tables.rows[key];
                         && ObjectVersionOf(obj.resourceVersion) == Ok(base.version) && row.version == base.version + 1
                         && row.uid == base.uid && row.spec == base.spec && row.metadata == base.metadata
                         && row.deletionTs == base.deletionTs && row.createdAt == base.createdAt)
    {
      var parsed := ObjectVersionOf(obj.resourceVersion);
      if parsed.Err? {
        return Err(BadVersion);
      }
      tables.rows := others.atWrite;
      var out := Call(key, WriteStatus(Some(obj.status), parsed.value, false), c, others.during, others.reply);
      if out.Failed? {
        var mapped := HandleError(key, out.error, others);
        if mapped.Err? {
          return Err(mapped.error);
        }
        return Ok(FoundWritten(mapped.value));
      }
      ReturnedVersion(out.version);
      res := Ok(Written(obj.(resourceVersion := FormatInt(out.version))));
    }

    method Update(key: Key, obj: Object, c: Context, others: Interference)
      returns (res: Result<UpdateReply, ClientError>)
      modifies tables`rows
      ensures var version := ObjectVersionOf(obj.resourceVersion);
              var current := ReadCurrent(old(tables.rows), key);
              if version.Err? then res == Err(BadVersion) && tables.rows == old(tables.rows)
              else if current.None? then res == Err(NotFound) && tables.rows == old(tables.rows)
              else
                var r := UpdateRequest(obj, version.value, current.value);
                var out := CallOutcome(key, r, c, others.atWrite, others.during, others.reply);
                && res == UpdateResult(key, obj, current.value, out, others)
                && tables.rows == if out.Failed? && out.error.AmbiguousCommit? then others.atReadBack
                                  else TableAfterCall(key, r, c, others.atWrite, others.during, others.reply)
      ensures res == Err(BadVersion) <==> ObjectVersionOf(obj.resourceVersion).Err?
      ensures res == Err(NotFound) <==>
                && ObjectVersionOf(obj.resourceVersion).Ok?
                && (key in old(tables.rows) ==>
                      var read := old(tables.rows)[key]; IsTombstone(read.deletionTs, read.metadata))
      // a success stores the object and nothing else, and returns what it stored
      ensures res.Ok? && res.value.Written? ==>
                && key in old(tables.rows) && key in tables.rows
                && var read, row, returned := old(tables.rows)[key], tables.rows[key], res.value.obj;
                   var was := CurrentGeneration(read.metadata);
                   var generation: Int64 := if read.spec == obj.spec then obj.metadata.generation
                                            else if was == 0x7fff_ffff_ffff_ffff then -0x8000_0000_0000_0000 else was + 1;
                   && row.spec == obj.spec && row.deletionTs == read.deletionTs
                   && row.metadata == Encode(obj.metadata.(generation := generation))
                   && (HasFinalizers(row.metadata) <==> obj.metadata.finalizers != [])
                   && returned.spec == obj.spec && returned.status == obj.status
                   && returned.metadata == obj.metadata.(generation := generation)
                   && (-INT64_LIMIT <= row.version < INT64_LIMIT ==>
                         ObjectVersionOf(returned.resourceVersion) == Ok(row.version))
                   && (tables.rows != others.atWrite ==>
                         && key in others.during.atUpsert
                         && var base := others.during.atUpsert[key];
                            && ObjectVersionOf(obj.resourceVersion) == Ok(base.version) && row.version == base.version + 1
                            && row.uid == base.uid && row.status == base.status)
      ensures res.Ok? && res.value.FoundWritten? ==>
                key in others.atReadBack && others.atReadBack[key] == res.value.row && res.value.row.stamp == 0
    {
      var parsed := ObjectVersionOf(obj.resourceVersion);
      if parsed.Err? {
        return Err(BadVersion);
      }
      var current := ReadCurrent(tables.rows, key);
      ReadCurrentExactly(tables.rows, key);
      if current.None? {
        return Err(NotFound);
      }
      var metadata := obj.metadata;
      if current.value.spec != obj.spec {
        metadata := metadata.(generation := Incremented(CurrentGeneration(current.value.metadata)));
      }
      res := StoreUpdated(key, obj.(metadata := metadata), current.value, parsed.value, c, others);
    }

    /** The write of an Update, once its object carries the generation to store. */
    method StoreUpdated(key: Key, obj: Object, current: Row, expected: int, c: Context, others: Interference)
      returns (res: Result<UpdateReply, ClientError>)
      modifies tables`rows
      ensures var r := WriteObject(Some(obj.spec), Some(Encode(obj.metadata)), current.deletionTs, expected, false);
              var out := CallOutcome(key, r, c, others.atWrite, others.during, others.reply);
              && tables.rows == (if out.Failed? && out.error.AmbiguousCommit? then others.atReadBack
                                 else TableAfterCall(key, r, c, others.atWrite, others.during, others.reply))
              && (!out.Failed? ==> res == Ok(Written(obj.(resourceVersion := FormatInt(out.version)))))
              && (out.Failed? ==> var mapped := MapWriteError(others.atReadBack, key, out.error);
                                  res == if mapped.Ok? then Ok(FoundWritten(mapped.value)) else Err(mapped.error))
      ensures res.Err? ==> res.error !in {BadVersion, NotFound}
      ensures res.Ok? && res.value.FoundWritten? ==>
                key in others.atReadBack && others.atReadBack[key] == res.value.row && res.value.row.stamp == 0
      ensures res.Ok? && res.value.Written? ==>
                && key in tables.rows
                && var row := tables.rows[key];
                   && row.spec == obj.spec && row.deletionTs == current.deletionTs && row.metadata == Encode(obj.metadata)
                   && (HasFinalizers(row.metadata) <==> obj.metadata.finalizers != [])
                   && (-INT64_LIMIT <= row.version < INT64_LIMIT ==>
                         ObjectVersionOf(res.value.obj.resourceVersion) == Ok(row.version))
                   && (tables.rows != others.atWrite ==>
                         && key in others.during.atUpsert
                         && var base := others.during.atUpsert[key];
                            && expected == base.version && row.version == base.version + 1
                            && row.uid == base.uid && row.status == base.status)
    {
      tables.rows := others.atWrite;
      var out := Call(key, WriteObject(Some(obj.spec), Some(Encode(obj.metadata)), current.deletionTs, expected, false),
                      c, others.during, others.reply);
      if out.Failed? {
        NeverAmbiguous(WriteObject(Some(obj.spec), Some(Encode(obj.metadata)), current.deletionTs, expected, false),
                       c, ViewsOf(key, others.atWrite, others.during));
        var mapped := HandleError(key, out.error, others);
        if mapped.Err? {
          return Err(mapped.error);
        }
        return Ok(FoundWritten(mapped.value));
      }
      ReturnedVersion(out.version);
      ClientMetadataReadsAlike(obj.metadata);
      res := Ok(Written(obj.(resourceVersion := FormatInt(out.version))));
    }

    /** The error branch of every operation. */
    method HandleError(key: Key, error: WriteError, others: Interference) returns (res: Result<Row, ClientError>)
      modifies tables`rows
      ensures res == MapWriteError(others.atReadBack, key, error)
      ensures match error
              case Conflict => res == Err(ApiConflict)
              case AlreadyExists => res == Err(ApiAlreadyExists)
              case AmbiguousCommit(txid) =>
                if key in others.atReadBack && others.atReadBack[key].stamp == txid
                then res == Ok(others.atReadBack[key]) else res == Err(ApiConflict)
              case _ => res == Err(OtherError)
      ensures tables.rows == if error.AmbiguousCommit? then others.atReadBack else old(tables.rows)
    {
      match error {
        case Conflict => res := Err(ApiConflict);
        case AlreadyExists => res := Err(ApiAlreadyExists);
        case AmbiguousCommit(txid) =>
          tables.rows := others.atReadBack;
          var r := tables.ReadBack(key, txid);
          if r.None? {
            return Err(ApiConflict);
          }
          res := Ok(r.value);
        case _ => res := Err(OtherError);
      }
    }

    method Delete(key: Key, obj: Object, now: Time, c: Context, others: Interference)
      returns (res: Result<(), ClientError>)
      modifies tables`rows
      ensures var version := ObjectVersionOf(obj.resourceVersion);
              var current := ReadCurrent(old(tables.rows), key);
              if version.Err? then res == Err(BadVersion) && tables.rows == old(tables.rows)
              else if version.value == 0 && current.None? then res == Err(NotFound) && tables.rows == old(tables.rows)
              else
                var r := if version.value == 0 then DeleteCurrentRequest(current.value, now)
                         else DeleteNamedRequest(obj, version.value, now);
                var out := CallOutcome(key, r, c, others.atWrite, others.during, others.reply);
                var mapped := if out.Failed? then Some(MapWriteError(others.atReadBack, key, out.error)) else None;
                && res == (if mapped.Some? && mapped.value.Err? then Err(mapped.value.error) else Ok(()))
                && tables.rows == if out.Failed? && out.error.AmbiguousCommit? then others.atReadBack
                                  else TableAfterCall(key, r, c, others.atWrite, others.during, others.reply)
      ensures res == Err(BadVersion) <==> ObjectVersionOf(obj.resourceVersion).Err?
      ensures res == Err(NotFound) <==>
                && ObjectVersionOf(obj.resourceVersion) == Ok(0)
                && (key in old(tables.rows) ==>
                      var read := old(tables.rows)[key]; IsTombstone(read.deletionTs, read.metadata))
      // a Delete that names no version stores the row it read, marked; one that does, its own content
      ensures res.Ok? && others.reply.Received? && obj.resourceVersion == "" && key in old(tables.rows) ==>
                var read := old(tables.rows)[key];
                read.version != 0 ==>
                  && key in tables.rows
                  && var row := tables.rows[key];
                     && row.spec == read.spec && row.status == read.status && row.metadata == read.metadata
                     && row.deletionTs == Some(if read.deletionTs.Some? then read.deletionTs.value else now)
                     && (tables.rows != others.atWrite ==>
                           && key in others.during.atUpsert && others.during.atUpsert[key].version == read.version
                           && row.uid == others.during.atUpsert[key].uid && row.version == read.version + 1)
      ensures res.Ok? && others.reply.Received? && ObjectVersionOf(obj.resourceVersion) != Ok(0) ==>
                && key in tables.rows
                && var row := tables.rows[key];
                   && row.spec == obj.spec && row.status == obj.status && row.metadata == Encode(obj.metadata)
                   && row.deletionTs == Some(now)
                   && (tables.rows != others.atWrite ==>
                         && key in others.during.atUpsert
                         && ObjectVersionOf(obj.resourceVersion) == Ok(others.during.atUpsert[key].version)
                         && row.uid == others.during.atUpsert[key].uid && row.version == others.during.atUpsert[key].version + 1)
    {
      var parsed := ObjectVersionOf(obj.resourceVersion);
      if parsed.Err? {
        return Err(BadVersion);
      }
      ObjectVersionExactly("", 0);
      ReadCurrentExactly(tables.rows, key);
      var expected := parsed.value;
      var spec, status, metadata;
      var existing: Option<Time> := None;
      if expected == 0 {
        var current := ReadCurrent(tables.rows, key);
        if current.None? {
          return Err(NotFound);
        }
        expected := current.value.version;
        spec, status, metadata := current.value.spec, current.value.status, current.value.metadata;
        existing := current.value.deletionTs;
      } else {
        spec, status, metadata := obj.spec, obj.status, Encode(obj.metadata);
      }
      var deletionTs := existing;
      if deletionTs.None? {
        deletionTs := Some(now);
      }
      res := StoreDeleted(key, spec, status, metadata, deletionTs.value, expected, c, others);
    }

    /** The write of a Delete. */
    method StoreDeleted(key: Key, spec: Json, status: Json, metadata: Json, deletionTs: Time, expected: int,
                        c: Context, others: Interference)
      returns (res: Result<(), ClientError>)
      modifies tables`rows
      ensures var r := Write(Some(spec), Some(status), Some(metadata), Some(deletionTs), expected, false);
              var out := CallOutcome(key, r, c, others.atWrite, others.during, others.reply);
              var mapped := if out.Failed? then Some(MapWriteError(others.atReadBack, key, out.error)) else None;
              && res == (if mapped.Some? && mapped.value.Err? then Err(mapped.value.error) else Ok(()))
              && tables.rows == if out.Failed? && out.error.AmbiguousCommit? then others.atReadBack
                                else TableAfterCall(key, r, c, others.atWrite, others.during, others.reply)
      ensures res.Err? ==> res.error !in {BadVersion, NotFound}
      ensures res.Ok? && others.reply.Received? && expected != 0 ==>
                && key in tables.rows
                && var row := tables.rows[key];
                   && row.spec == spec && row.status == status && row.metadata == metadata
                   && row.deletionTs == Some(deletionTs)
                   && (tables.rows != others.atWrite ==>
                         && key in others.during.atUpsert && others.during.atUpsert[key].version == expected
                         && row.uid == others.during.atUpsert[key].uid && row.version == expected + 1)
    {
      NeverAmbiguous(Write(Some(spec), Some(status), Some(metadata), Some(deletionTs), expected, false),
                     c, ViewsOf(key, others.atWrite, others.during));
      tables.rows := others.atWrite;
      var out := Call(key, Write(Some(spec), Some(status), Some(metadata), Some(deletionTs), expected, false),
                      c, others.during, others.reply);
      res := Ok(());
      if out.Failed? {
        var mapped := HandleError(key, out.error, others);
        if mapped.Err? {
          res := Err(mapped.error);
        }
      }
    }
  }

  /** The version on a returned object names the row just written. */
  lemma ReturnedVersion(version: int)
    ensures -INT64_LIMIT <= version < INT64_LIMIT ==> ObjectVersionOf(FormatInt(version)) == Ok(version)
  {
    if -INT64_LIMIT <= version < INT64_LIMIT {
      SignedRoundTrip(version);
      ObjectVersionExactly(FormatInt(version), version);
    }
  }

  /** The object Update hands back. */
  function Updated(obj: Object, current: Row, version: int): Object {
    obj.(metadata := UpdatedMetadata(obj, current), resourceVersion := FormatInt(version))
  }

  /******* What Update keeps *******/

  /** The object an Update is given was read from the row at point `o` of the run. */
  ghost predicate ReadFrom(obj: Object, row: Row) {
    && ObjectVersionOf(obj.resourceVersion) == Ok(row.version)
    && obj.metadata.generation == CurrentGeneration(row.metadata)
  }

  /** An Update whose object was read at point `o`, which itself read the current row at `r` and whose
      write landed at `w`, on the incarnation the object came from: whatever other writers did in
      between, it changed neither status nor deletion timestamp, and raised the generation by exactly
      one if it changed the spec and not otherwise. */
  lemma UpdateKeepsStatusAndDeletion(t: seq<Db>, o: nat, r: nat, w: nat, key: Key, obj: Object, c: Context, row: Row)
    requires Run(t) && o <= r <= w < |t|
    requires key in t[o].rows && ReadFrom(obj, t[o].rows[key])
    requires ReadCurrent(t[r].rows, key).Some?
    requires var request := UpdateRequest(obj, t[o].rows[key].version, t[r].rows[key]);
             ProcUpsert(ArgsOf(request), c, Lookup(t[w].rows, key)) == Applied(row)
    requires key in t[w].rows && t[w].rows[key].uid == t[o].rows[key].uid
    ensures var base := t[w].rows[key];
            && row.spec == obj.spec
            && row.status == base.status
            && row.deletionTs == base.deletionTs
            && var before, after := CurrentGeneration(base.metadata), CurrentGeneration(row.metadata);
               if row.spec == base.spec then after == before
               else if before < INT64_LIMIT - 1 then after == before + 1 else after == -INT64_LIMIT
  {
    RunInv(t, o);
    SameVersionSameRow(t, o, r, w, key);
    ClientMetadataReadsAlike(UpdatedMetadata(obj, t[r].rows[key]));
  }

  /******* What the other operations store *******/

  datatype ClientCall =
    | ByCreate(obj: Object)
    | ByUpdate(obj: Object, current: Row)
    | ByStatusUpdate(obj: Object)
    | ByDeleteCurrent(current: Row, now: Time)
    | ByDeleteNamed(obj: Object, now: Time)

  function RequestOf(call: ClientCall, expected: int): Request {
    match call
    case ByCreate(obj) => CreateRequest(obj)
    case ByUpdate(obj, current) => UpdateRequest(obj, expected, current)
    case ByStatusUpdate(obj) => StatusRequest(obj, expected)
    case ByDeleteCurrent(current, now) => DeleteCurrentRequest(current, now)
    case ByDeleteNamed(obj, now) => DeleteNamedRequest(obj, expected, now)
  }

  /** An object deleted without finalizers becomes a tombstone, one with finalizers stays visible as
      dying, and List, the current-row read and the watch agree on which it is. */
  lemma DeleteMakesTombstoneExactly(obj: Object, expected: int, now: Time, c: Context, base: Row, row: Row)
    requires ProcUpsert(ArgsOf(DeleteNamedRequest(obj, expected, now)), c, Some(base)) == Applied(row)
    ensures IsTombstone(row.deletionTs, row.metadata) <==> obj.metadata.finalizers == []
    ensures IsFullyDeleted(row.deletionTs, row.metadata) <==> IsTombstone(row.deletionTs, row.metadata)
  {
    ClientMetadataReadsAlike(obj.metadata);
    GoAgreesExactly(row.deletionTs, row.metadata);
  }

  /** Whatever an operation stores as metadata reads alike in both languages, if what it copies does. */
  lemma ClientWritesReadAlike(call: ClientCall, expected: int)
    requires call.ByDeleteCurrent? ==> ReadsAlike(call.current.metadata)
    ensures var metadata := ArgsOf(RequestOf(call, expected)).metadata; metadata.Some? ==> ReadsAlike(metadata.value)
  {
    match call
    case ByCreate(obj) => ClientMetadataReadsAlike(obj.metadata.(generation := 1));
    case ByUpdate(obj, current) => ClientMetadataReadsAlike(UpdatedMetadata(obj, current));
    case ByDeleteNamed(obj, _) => ClientMetadataReadsAlike(obj.metadata);
    case _ =>
  }
}
