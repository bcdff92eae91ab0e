/** The compactor: which rows it deletes and how it raises the per-GVK horizon. */
module Compaction {
  import opened Wrappers
  import opened Model
  import opened Tombstone

  const SECOND: int := 1_000_000_000
  const DEFAULT_RETENTION: int := 24 * 60 * 60 * SECOND

  /** int(cfg.Retention.Seconds()) seconds, after the zero default: Go truncates toward zero, so a
      retention below one second keeps tombstones for no time at all. */
  function EffectiveRetention(retention: int): int {
    var r := if retention == 0 then DEFAULT_RETENTION else retention;
    if r >= 0 then r / SECOND * SECOND else -((-r) / SECOND * SECOND)
  }

  /** A positive retention is truncated to seconds; zero means a day; a negative one is truncated too, and
      deletes tombstones from the future. */
  lemma RetentionTruncates(retention: int)
    ensures retention == 0 ==> EffectiveRetention(retention) == 86_400_000_000_000
    ensures retention > 0 ==> EffectiveRetention(retention) <= retention < EffectiveRetention(retention) + 1_000_000_000
    ensures retention < 0 ==> EffectiveRetention(retention) - 1_000_000_000 < retention <= EffectiveRetention(retention)
    ensures EffectiveRetention(retention) % 1_000_000_000 == 0
    ensures EffectiveRetention(retention) == 0 <==> -1_000_000_000 < retention < 1_000_000_000 && retention != 0
    ensures retention != 0 ==> EffectiveRetention(-retention) == -EffectiveRetention(retention)
  {
  }

  function Max(a: int, b: int): int {
    if a < b then b else a
  }

  /** The DELETE's WHERE clause, in a transaction started at `now`. */
  predicate Compactable(row: Row, now: Time, retention: int) {
    && row.deletionTs.Some?
    && Max(row.deletionTs.value, row.updatedAt) < now - retention
    && IsTombstone(row.deletionTs, row.metadata)
  }

  /** compacted_xid per GVK; no entry, no row. */
  type Horizon = map<string, Xid>

  function RaiseOne(h: Horizon, gvk: string, stamp: Xid): Horizon {
    if gvk in h && stamp <= h[gvk] then h else h[gvk := stamp]
  }

  /** INSERT ... ON CONFLICT DO UPDATE SET compacted_xid = GREATEST(old, new). */
  function Merge(h: Horizon, raise: Horizon): Horizon {
    map g | g in h.Keys + raise.Keys ::
      if g !in raise then h[g] else if g !in h || h[g] < raise[g] then raise[g] else h[g]
  }

  ghost predicate Attained(gone: map<Key, Row>, gvk: string, stamp: Xid) {
    exists k | k in gone :: k.gvk == gvk && gone[k].stamp == stamp
  }

  /** `after` is `before` raised to the highest stamp among the rows `gone` of each GVK: an upper
      bound of both, and one that is attained. */
  ghost predicate IsRaised(before: Horizon, gone: map<Key, Row>, after: Horizon) {
    && (forall g | g in before :: g in after && before[g] <= after[g])
    && (forall k | k in gone :: k.gvk in after && gone[k].stamp <= after[k.gvk])
    && (forall g | g in after :: (g in before && after[g] == before[g]) || Attained(gone, g, after[g]))
  }

  lemma StillAttained(gone: map<Key, Row>, more: map<Key, Row>, gvk: string, stamp: Xid)
    requires forall k | k in gone :: k in more && more[k] == gone[k]
    requires Attained(gone, gvk, stamp)
    ensures Attained(more, gvk, stamp)
  {
    var k :| k in gone && k.gvk == gvk && gone[k].stamp == stamp;
    assert k in more;
  }

  lemma RaiseOneMore(gone: map<Key, Row>, raise: Horizon, k: Key, row: Row)
    requires IsRaised(map[], gone, raise) && k !in gone
    ensures IsRaised(map[], gone[k := row], RaiseOne(raise, k.gvk, row.stamp))
  {
    var gone', raise' := gone[k := row], RaiseOne(raise, k.gvk, row.stamp);
    forall g | g in raise' ensures Attained(gone', g, raise'[g]) {
      if g == k.gvk && raise'[g] == row.stamp {
        assert k in gone' && gone'[k] == row;
      } else {
        StillAttained(gone, gone', g, raise[g]);
      }
    }
  }

  lemma MergeIsUpper(h: Horizon, raise: Horizon)
    ensures forall g | g in h :: g in Merge(h, raise) && h[g] <= Merge(h, raise)[g]
  {
  }

  lemma MergeIsRaised(h: Horizon, gone: map<Key, Row>, raise: Horizon)
    requires IsRaised(map[], gone, raise)
    ensures IsRaised(h, gone, Merge(h, raise))
  {
    var after := Merge(h, raise);
    forall g | g in after && !(g in h && after[g] == h[g]) ensures Attained(gone, g, after[g]) {
      assert g in raise && after[g] == raise[g];
    }
  }

  /** A raise stays within any bounds that hold of the old horizon and of the deleted stamps. */
  lemma RaiseWithin(before: Horizon, gone: map<Key, Row>, after: Horizon, low: int, high: int)
    requires IsRaised(before, gone, after)
    requires forall g | g in before :: low <= before[g] < high
    requires forall k | k in gone :: low <= gone[k].stamp < high
    ensures forall g | g in after :: low <= after[g] < high
  {
  }
}
