/** What a REPEATABLE READ snapshot sees, and how a later snapshot of a run relates to an earlier one. */
module Snapshots {
  import opened Wrappers
  import opened Model
  import opened Tombstone
  import opened WritePath
  import opened Compaction
  import opened Protocol

  /** pg_snapshot_xmin with the committed tables of the same instant. */
  datatype Snapshot = Snapshot(xmin: Xid, rows: map<Key, Row>, horizon: Horizon)

  ghost function Least(xids: set<Xid>, top: Xid): (m: Xid)
    ensures m <= top && (forall x | x in xids :: m <= x) && (m == top || m in xids)
  {
    if xids == {} then top
    else
      var x :| x in xids;
      var m := Least(xids - {x}, top);
      assert forall y | y in xids :: y == x || y in xids - {x};
      if x < m then x else m
  }

  /** The lowest xid still in progress, or the next one to be handed out. */
  ghost function Xmin(s: Db): Xid {
    Least(s.active.Keys, s.next)
  }

  ghost function Snap(s: Db): Snapshot {
    Snapshot(Xmin(s), s.rows, s.horizon)
  }

  /** What can have happened between two snapshots. A row that differs carries a stamp the first
      snapshot's xmin does not cover. A row that is gone raised the horizon to the stamp it had when it
      was deleted: that of the tombstone the first snapshot saw, or one its xmin does not cover. */
  ghost predicate Later(a: Snapshot, b: Snapshot) {
    && a.xmin <= b.xmin
    && (forall k | k in b.rows :: Lookup(a.rows, k) == Some(b.rows[k]) || a.xmin <= b.rows[k].stamp)
    && (forall k | k in a.rows && k !in b.rows ::
          && k.gvk in b.horizon
          && (|| a.xmin <= b.horizon[k.gvk]
              || (&& IsTombstone(a.rows[k].deletionTs, a.rows[k].metadata)
                  && a.rows[k].stamp <= b.horizon[k.gvk])))
    && (forall g | g in a.horizon :: g in b.horizon && a.horizon[g] <= b.horizon[g])
  }

  lemma XminNeverFalls(s: Db, s': Db)
    requires TxsOk(s) && CarriesOn(s, s')
    ensures Xmin(s) <= Xmin(s')
  {
    if Xmin(s') != s'.next {
      assert Xmin(s') in s'.active;
    }
  }

  lemma PutIsLater(a: Snapshot, s: Db, s': Db, x: Xid)
    requires Inv(s) && CommitsPut(s, s', x) && Later(a, Snap(s)) && a.xmin <= Xmin(s')
    ensures Later(a, Snap(s'))
  {
    assert PendingOk(s, x);
    assert a.xmin <= x;
  }

  lemma SweptRowRaisesHorizon(s: Db, s': Db, x: Xid, k: Key)
    requires Inv(s) && CommitsSweep(s, s', x) && k in s.rows && k !in s'.rows
    ensures k.gvk in s'.horizon && s.rows[k].stamp <= s'.horizon[k.gvk]
    ensures IsTombstone(s.rows[k].deletionTs, s.rows[k].metadata)
  {
    var Sweep(gone, raise) := s.active[x].work;
    assert PendingOk(s, x);
    assert Lookup(s.rows, k) == Some(gone[k]);
    MergeIsRaised(s.horizon, gone, raise);
  }

  lemma SweepIsLater(a: Snapshot, s: Db, s': Db, x: Xid)
    requires Inv(s) && CommitsSweep(s, s', x) && Later(a, Snap(s)) && a.xmin <= Xmin(s')
    ensures Later(a, Snap(s'))
  {
    forall k | k in a.rows && k in s.rows && k !in s'.rows
      ensures k.gvk in s'.horizon
      ensures || a.xmin <= s'.horizon[k.gvk]
              || (&& IsTombstone(a.rows[k].deletionTs, a.rows[k].metadata)
                  && a.rows[k].stamp <= s'.horizon[k.gvk])
    {
      SweptRowRaisesHorizon(s, s', x, k);
    }
    MergeIsUpper(s.horizon, s.active[x].work.raise);
  }

  lemma StepIsLater(a: Snapshot, s: Db, s': Db)
    requires Inv(s) && Publishes(s, s') && Later(a, Snap(s))
    ensures Later(a, Snap(s'))
  {
    XminNeverFalls(s, s');
    if x :| CommitsPut(s, s', x) {
      PutIsLater(a, s, s', x);
    } else if x :| CommitsSweep(s, s', x) {
      SweepIsLater(a, s, s', x);
    }
  }

  lemma SealStep(t: seq<Db>, i: nat, m: nat)
    requires Run(t) && i <= m && m + 1 < |t| && Later(Snap(t[i]), Snap(t[m]))
    ensures Later(Snap(t[i]), Snap(t[m + 1]))
  {
    RunStep(t, m);
    StepIsLater(Snap(t[i]), t[m], t[m + 1]);
  }

  /** Sealed prefix. Along every run xmin never falls, and whatever is committed after a snapshot has
      a stamp at or above its xmin, even when a low xid revives a tombstone stamped by a higher one.
      So no row state at or below a watermark xmin-1 first becomes visible later. */
  lemma {:induction false} SealedPrefix(t: seq<Db>, i: nat, j: nat)
    requires Run(t) && i <= j < |t|
    ensures Later(Snap(t[i]), Snap(t[j]))
    decreases j
  {
    if i < j {
      SealedPrefix(t, i, j - 1);
      SealStep(t, i, j - 1);
    }
  }
}
