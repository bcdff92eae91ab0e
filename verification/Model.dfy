/** The rows of kubernetes_resources and the three write requests. */
module Model {
  import opened Wrappers
  import opened Json

  /** A moment on the database clock, in nanoseconds. */
  type Time = int

  /** A 64-bit PostgreSQL transaction id (xid8); never wraps. Real ids start at 3. */
  type Xid = nat

  /** gen_random_uuid() is modelled by identifiers its caller supplies; see Protocol for freshness. */
  type Uid = nat

  /** The primary key (gvk, namespace, name). */
  datatype Key = Key(gvk: string, namespace: string, name: string)

  datatype Row = Row(
    uid: Uid,
    stamp: Xid,
    version: int,
    spec: Json,
    status: Json,
    metadata: Json,
    deletionTs: Option<Time>,
    createdAt: Time,
    updatedAt: Time)

  /** WriteRequest, StatusWriteRequest and ObjectWriteRequest. A nil json.RawMessage, SQL NULL once
      bound to a parameter, is None. `expected` is ExpectedVersion: 0 to create, positive to update. */
  datatype Request =
    | Write(spec: Option<Json>, status: Option<Json>, metadata: Option<Json>,
            deletionTs: Option<Time>, expected: int, force: bool)
    | WriteStatus(status: Option<Json>, expected: int, force: bool)
    | WriteObject(spec: Option<Json>, metadata: Option<Json>,
                  deletionTs: Option<Time>, expected: int, force: bool)

  function Lookup(rows: map<Key, Row>, key: Key): Option<Row> {
    if key in rows then Some(rows[key]) else None
  }
}
