/**
 Optimistic concurrency is per incarnation: versions restart at 1 when a tombstone is revived, so a
 version number read in one incarnation can match a row of the next. This module says exactly when an
 Update can thereby take a deletion timestamp away.
 */
module Incarnations {
  import opened Wrappers
  import opened Json
  import opened Model
  import opened Tombstone
  import opened WritePath
  import opened Protocol
  import opened Client
  import opened ClientRuns
  import Continuation

  function Last(t: seq<Db>): Db
    requires t != []
  {
    t[|t| - 1]
  }

  /** Nobody holds the key's row lock. */
  ghost predicate Free(s: Db, key: Key) {
    forall y | y in s.active :: !Locks(s.active[y].work, key)
  }

  /** `u` goes on from the run `t` with client operations. */
  ghost predicate GoesOn(t: seq<Db>, issued: seq<Issued>, u: seq<Db>, more: seq<Issued>) {
    t <= u && issued <= more && ClientRun(u, more)
  }

  lemma LongerRunSameOrigin(t: seq<Db>, log: seq<Entry>, u: seq<Db>, longer: seq<Entry>, i: nat, origin: Issued)
    requires t <= u && log <= longer && i < |log| && log[i].Wrote? && IssuedBy(t, log, i, origin)
    ensures IssuedBy(u, longer, i, origin)
  {
    assert longer[i] == log[i] && longer[..i] == log[..i];
  }

  /** One more write by an operation that reads nothing first. */
  lemma OneMoreWrite(t: seq<Db>, issued: seq<Issued>, u: seq<Db>, call: ClientCall, e: Entry) returns (more: seq<Issued>)
    requires ClientRun(t, issued) && Run(u) && t <= u && Last(u).log == Last(t).log + [e] && e.Wrote?
    requires e.args == ArgsOf(RequestOf(call, e.args.expected)) && (call.ByCreate? || e.args.expected != 0)
    requires !call.ByUpdate? && !call.ByDeleteCurrent?
    ensures GoesOn(t, issued, u, more)
  {
    var log, longer := Last(t).log, Last(u).log;
    more := issued + [Issued(call, 0, 0, 0)];
    forall i | 0 <= i < |longer| && longer[i].Wrote? ensures IssuedBy(u, longer, i, more[i]) {
      if i < |log| {
        assert longer[i] == log[i];
        LongerRunSameOrigin(t, log, u, longer, i, issued[i]);
      }
    }
  }

  lemma PathIsRun(t: seq<Db>)
    requires Path(t) && Initial(t[0])
    ensures Run(t)
  {
  }

  lemma RunJoin(t: seq<Db>, u: seq<Db>) returns (joined: seq<Db>)
    requires Run(t) && Path(u) && Last(t) == u[0]
    ensures Run(joined) && t <= joined && Last(joined) == Last(u)
  {
    RunIsPath(t);
    joined := Join(t, u);
    PathIsRun(joined);
  }

  /** Whoever holds the key's lock is rolled back; nothing else happens. */
  lemma ReleaseKey(t: seq<Db>, issued: seq<Issued>, key: Key) returns (u: seq<Db>)
    requires ClientRun(t, issued)
    ensures GoesOn(t, issued, u, issued) && Free(Last(u), key) && Last(u).rows == Last(t).rows
  {
    var s := Last(t);
    RunInv(t, |t| - 1);
    var s' := Continuation.FreeKey(s, s.next, key);
    var step := OneStep(s, s');
    u := RunJoin(t, step);
    forall i | 0 <= i < |s.log| && s.log[i].Wrote? ensures IssuedBy(u, s.log, i, issued[i]) {
      LongerRunSameOrigin(t, s.log, u, s.log, i, issued[i]);
    }
  }

  lemma BeginWriteCommit(s: Db, key: Key, args: Args, uid: Uid, row: Row) returns (t: seq<Db>)
    requires Free(s, key) && TxsOk(s) && uid !in s.uids
    requires ProcUpsert(args, Context(s.next, s.now, uid), Lookup(s.rows, key)) == Applied(row)
    ensures Path(t) && t[0] == s
    ensures Last(t).rows == s.rows[key := row] && Last(t).now == s.now && Last(t).active == s.active
    ensures Last(t).log == s.log + [Wrote(s.next, key, row, args)]
  {
    assert Enabled(s, Begin(s.now));
    var s1 := Do(s, Begin(s.now));
    assert s1.active - {s.next} == s.active;
    var first := OneStep(s, s1);
    var second := Continuation.WriteAndCommit(s1, s.next, key, args, uid, row);
    t := Join(first, second);
  }

  /** One autocommit operation that writes. */
  lemma Operate(t: seq<Db>, issued: seq<Issued>, key: Key, call: ClientCall, expected: int, uid: Uid, row: Row)
      returns (u: seq<Db>, more: seq<Issued>)
    requires ClientRun(t, issued) && Free(Last(t), key) && uid !in Last(t).uids
    requires !call.ByUpdate? && !call.ByDeleteCurrent? && (call.ByCreate? || expected != 0)
    requires var args := ArgsOf(RequestOf(call, expected));
             && args.expected == expected
             && ProcUpsert(args, Context(Last(t).next, Last(t).now, uid), Lookup(Last(t).rows, key)) == Applied(row)
    ensures GoesOn(t, issued, u, more) && Free(Last(u), key)
    ensures Last(u).rows == Last(t).rows[key := row] && Last(u).now == Last(t).now
  {
    var s, args := Last(t), ArgsOf(RequestOf(call, expected));
    RunInv(t, |t| - 1);
    var path := BeginWriteCommit(s, key, args, uid, row);
    u := RunJoin(t, path);
    more := OneMoreWrite(t, issued, u, call, Wrote(s.next, key, row, args));
  }

  lemma BeginRefuse(s: Db, key: Key, args: Args) returns (t: seq<Db>)
    requires Free(s, key)
    requires ProcUpsert(args, Context(s.next, s.now, 0), Lookup(s.rows, key)).Duplicate?
    ensures Path(t) && t[0] == s
    ensures Last(t) == s.(next := s.next + 1, active := s.active[s.next := Tx(s.now, s.now, Refused(key, args))])
  {
    assert Enabled(s, Begin(s.now));
    var s1 := Do(s, Begin(s.now));
    assert Enabled(s1, Refuse(s.next, key, args));
    t := [s, s1, Do(s1, Refuse(s.next, key, args))];
    assert Linked(t, 0) && Linked(t, 1);
  }

  lemma ReviveCommit(s: Db, x: Xid, uid: Uid, row: Row) returns (t: seq<Db>)
    requires x in s.active && s.active[x].work.Refused? && Free(s, s.active[x].work.key) && uid !in s.uids
    requires var work := s.active[x].work;
             ProcRevive(work.args, ContextOf(s, x, uid), Lookup(s.rows, work.key)) == Applied(row)
    ensures Path(t) && t[0] == s
    ensures var work, e := s.active[x].work, Last(t);
            && e.rows == s.rows[work.key := row] && e.now == s.now && e.active == s.active - {x}
            && e.log == s.log + [Wrote(x, work.key, row, work.args)]
  {
    assert Enabled(s, Revive(x, uid));
    var s1 := Do(s, Revive(x, uid));
    t := [s, s1, Do(s1, Commit(x))];
    assert Linked(t, 0) && Linked(t, 1) by { assert Enabled(s1, Commit(x)); }
  }

  lemma RefuseReviveCommit(s: Db, key: Key, args: Args, uid: Uid, row: Row) returns (t: seq<Db>)
    requires Free(s, key) && TxsOk(s) && uid !in s.uids
    requires ProcUpsert(args, Context(s.next, s.now, 0), Lookup(s.rows, key)).Duplicate?
    requires ProcRevive(args, Context(s.next, s.now, uid), Lookup(s.rows, key)) == Applied(row)
    ensures Path(t) && t[0] == s
    ensures Last(t).rows == s.rows[key := row] && Last(t).now == s.now && Last(t).active == s.active
    ensures Last(t).log == s.log + [Wrote(s.next, key, row, args)]
  {
    var first := BeginRefuse(s, key, args);
    var second := ReviveCommit(Last(first), s.next, uid, row);
    assert Last(first).active - {s.next} == s.active;
    t := Join(first, second);
  }

  /** A Create revives a tombstone. */
  lemma Recreate(t: seq<Db>, issued: seq<Issued>, key: Key, obj: Object, uid: Uid)
      returns (u: seq<Db>, more: seq<Issued>, row: Row)
    requires ClientRun(t, issued) && Free(Last(t), key) && uid !in Last(t).uids
    requires var rows := Last(t).rows; key in rows && IsTombstone(rows[key].deletionTs, rows[key].metadata)
    ensures GoesOn(t, issued, u, more) && Free(Last(u), key) && Last(u).rows == Last(t).rows[key := row]
    ensures row.uid == uid && row.version == 1 && row.deletionTs.None?
  {
    var s, args := Last(t), ArgsOf(CreateRequest(obj));
    RunInv(t, |t| - 1);
    row := ProcRevive(args, Context(s.next, s.now, uid), Lookup(s.rows, key)).row;
    var path := RefuseReviveCommit(s, key, args, uid, row);
    u := RunJoin(t, path);
    more := OneMoreWrite(t, issued, u, ByCreate(obj), Wrote(s.next, key, row, args));
  }

  function Plain(status: Json, finalizers: seq<string>): Object {
    Object(EMPTY_OBJECT, status, StoredMetadata(map[], map[], [], finalizers, 0), "")
  }

  /** A Delete that names the row's version and keeps `finalizers`. */
  lemma DeleteNow(t: seq<Db>, issued: seq<Issued>, key: Key, finalizers: seq<string>)
      returns (u: seq<Db>, more: seq<Issued>, row: Row)
    requires ClientRun(t, issued) && Free(Last(t), key) && key in Last(t).rows
    ensures GoesOn(t, issued, u, more) && Free(Last(u), key) && Last(u).rows == Last(t).rows[key := row]
    ensures var base := Last(t).rows[key];
            row.uid == base.uid && row.version == base.version + 1 && row.deletionTs.Some?
    ensures IsTombstone(row.deletionTs, row.metadata) <==> finalizers == []
  {
    var s := Last(t);
    RunInv(t, |t| - 1);
    var base, obj := s.rows[key], Plain(EMPTY_OBJECT, finalizers);
    var call := ByDeleteNamed(obj, s.now);
    var uid := Continuation.Above(s.uids);
    var c := Context(s.next, s.now, uid);
    row := ProcUpsert(ArgsOf(RequestOf(call, base.version)), c, Some(base)).row;
    DeleteMakesTombstoneExactly(obj, base.version, s.now, c, base, row);
    u, more := Operate(t, issued, key, call, base.version, uid, row);
  }

  /** A status update, to a status the row does not have. */
  lemma Touch(t: seq<Db>, issued: seq<Issued>, key: Key) returns (u: seq<Db>, more: seq<Issued>, row: Row)
    requires ClientRun(t, issued) && Free(Last(t), key) && key in Last(t).rows
    ensures GoesOn(t, issued, u, more) && Free(Last(u), key) && Last(u).rows == Last(t).rows[key := row]
    ensures var base := Last(t).rows[key];
            row == base.(stamp := row.stamp, version := base.version + 1, status := row.status, updatedAt := row.updatedAt)
            && row.status != base.status
  {
    var s := Last(t);
    RunInv(t, |t| - 1);
    var base := s.rows[key];
    var status := if base.status == EMPTY_OBJECT then JsonNull else EMPTY_OBJECT;
    var call := ByStatusUpdate(Plain(status, []));
    var uid := Continuation.Above(s.uids);
    row := ProcUpsert(ArgsOf(RequestOf(call, base.version)), Context(s.next, s.now, uid), Some(base)).row;
    u, more := Operate(t, issued, key, call, base.version, uid, row);
  }

  lemma {:induction false} TouchTimes(t: seq<Db>, issued: seq<Issued>, key: Key, n: nat)
      returns (u: seq<Db>, more: seq<Issued>)
    requires ClientRun(t, issued) && Free(Last(t), key) && key in Last(t).rows
    ensures GoesOn(t, issued, u, more) && Free(Last(u), key) && key in Last(u).rows
    ensures var base, row := Last(t).rows[key], Last(u).rows[key];
            row.uid == base.uid && row.version == base.version + n
    decreases n
  {
    if n == 0 {
      u, more := t, issued;
    } else {
      var v, some, row := Touch(t, issued, key);
      u, more := TouchTimes(v, some, key, n - 1);
    }
  }

  /** The key holds another incarnation than `read`, marked for deletion, and an Update of `obj` that
      names version `v` and read `read` would land on it and take the mark away. */
  ghost predicate Undone(s: Db, key: Key, read: Row, obj: Object, v: int) {
    && key in s.rows && s.rows[key].uid != read.uid && s.rows[key].deletionTs.Some?
    && exists c, row ::
         ProcUpsert(ArgsOf(UpdateRequest(obj, v, read)), c, Some(s.rows[key])) == Applied(row) && row.deletionTs.None?
  }

  /** Delete and re-create the object, touch it v - 2 times and delete it again with a finalizer. */
  lemma UndoRun(t: seq<Db>, issued: seq<Issued>, key: Key, obj: Object, v: nat) returns (u: seq<Db>, more: seq<Issued>)
    requires ClientRun(t, issued) && key in Last(t).rows && Last(t).rows[key].deletionTs.None? && v >= 2
    ensures GoesOn(t, issued, u, more) && Undone(Last(u), key, Last(t).rows[key], obj, v)
  {
    var read := Last(t).rows[key];
    var t1 := ReleaseKey(t, issued, key);
    var t2, issued2, dead := DeleteNow(t1, issued, key, []);
    var uid := Continuation.Above(Last(t2).uids + {read.uid});
    var t3, issued3, born := Recreate(t2, issued2, key, Plain(EMPTY_OBJECT, []), uid);
    var t4, issued4 := TouchTimes(t3, issued3, key, v - 2);
    var marked;
    u, more, marked := DeleteNow(t4, issued4, key, ["f"]);
    var c := Context(0, 0, 0);
    var row := ProcUpsert(ArgsOf(UpdateRequest(obj, v, read)), c, Some(marked)).row;
    assert ProcUpsert(ArgsOf(UpdateRequest(obj, v, read)), c, Some(Last(u).rows[key])) == Applied(row);
  }

  lemma UndoneNeedsTwo(u: seq<Db>, more: seq<Issued>, key: Key, read: Row, obj: Object, v: int)
    requires ClientRun(u, more) && Undone(Last(u), key, read, obj, v)
    ensures v >= 2 && read.deletionTs.None?
  {
    var s := Last(u);
    RunInv(u, |u| - 1);
    assert s.log[..|s.log|] == s.log;
    VersionOneIsUnmarked(u, s.log, more, |s.log|, key);
    assert s.rows[key].version >= 1;
  }

  /** In every run of client operations, an Update that has read its current row and names version `v` can
      come to take the deletion timestamp of another incarnation away, through some continuation by
      client operations between its read and its write, exactly when v is at least 2 and the row it read
      had none. Both are known to the Update before it writes. */
  lemma UpdateUndoesDeletionExactly(t: seq<Db>, issued: seq<Issued>, key: Key, obj: Object, v: int)
    requires ClientRun(t, issued) && ReadCurrent(Last(t).rows, key).Some?
    ensures (exists u, more :: GoesOn(t, issued, u, more) && Undone(Last(u), key, Last(t).rows[key], obj, v))
            <==> v >= 2 && Last(t).rows[key].deletionTs.None?
  {
    if v >= 2 && Last(t).rows[key].deletionTs.None? {
      var u, more := UndoRun(t, issued, key, obj, v);
      assert GoesOn(t, issued, u, more);
    }
    if u, more :| GoesOn(t, issued, u, more) && Undone(Last(u), key, Last(t).rows[key], obj, v) {
      UndoneNeedsTwo(u, more, key, Last(t).rows[key], obj, v);
    }
  }
}
