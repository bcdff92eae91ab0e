/** The watcher's poll, the relay to the informer, and the cache they keep. */
module Watch {
  import opened Wrappers
  import opened Model
  import opened Tombstone
  import opened Compaction
  import opened Snapshots
  import opened ResourceVersion

  /** Which rows a List or Watch covers: one GVK and, when sharded, the owned namespaces. */
  datatype Selector = Selector(gvk: string, owns: string -> bool)

  predicate Selects(sel: Selector, key: Key) {
    key.gvk == sel.gvk && sel.owns(key.namespace)
  }

  datatype Found = Found(key: Key, row: Row)

  /** PostgreSQL's contract for SELECT ... WHERE ... ORDER BY txid_stamp: each matching row once, in
      ascending stamp order. */
  ghost predicate Answers(answer: seq<Found>, rows: map<Key, Row>, matches: (Key, Row) -> bool) {
    && (forall i | 0 <= i < |answer| ::
          Lookup(rows, answer[i].key) == Some(answer[i].row) && matches(answer[i].key, answer[i].row))
    && (forall k | k in rows && matches(k, rows[k]) :: Found(k, rows[k]) in answer)
    && (forall i, j | 0 <= i < j < |answer| ::
          answer[i].key != answer[j].key && answer[i].row.stamp <= answer[j].row.stamp)
  }

  function ListMatches(sel: Selector): (Key, Row) -> bool {
    (k: Key, r: Row) => Selects(sel, k) && ListShows(r.deletionTs, r.metadata)
  }

  function PollMatches(sel: Selector, hwm: Xid): (Key, Row) -> bool {
    (k: Key, r: Row) => Selects(sel, k) && r.stamp > hwm
  }

  /******* reader.Watcher *******/

  datatype EventType = EventAdded | EventModified | EventDeleted

  datatype Event = Event(kind: EventType, key: Key, row: Row)

  function EventTypeOf(r: Row): EventType {
    if r.deletionTs.Some? then EventDeleted else if r.version == 1 then EventAdded else EventModified
  }

  function EventsOf(answer: seq<Found>): (events: seq<Event>)
    ensures |events| == |answer|
  {
    seq(|answer|, i requires 0 <= i < |answer| => Event(EventTypeOf(answer[i].row), answer[i].key, answer[i].row))
  }

  datatype PollError = Gone

  /** The horizon check: `hwm == compacted_xid` is still good. */
  predicate IsGone(snap: Snapshot, gvk: string, hwm: Xid) {
    gvk in snap.horizon && hwm < snap.horizon[gvk]
  }

  function NextMark(hwm: Xid, xmin: Xid): Xid {
    if xmin > 0 && xmin - 1 > hwm then xmin - 1 else hwm
  }

  class Watcher {
    const sel: Selector
    var hwm: Xid

    constructor (sel: Selector, startRV: RV)
      ensures this.sel == sel && hwm == startRV.watermark
    {
      this.sel := sel;
      hwm := startRV.watermark;
    }

    /** pollAll. `tx` is the REPEATABLE READ snapshot all three queries of the poll share, `answer`
        what PostgreSQL answers to the row query. */
    method PollAll(tx: Snapshot, answer: seq<Found>) returns (res: Result<seq<Event>, PollError>)
      requires Answers(answer, tx.rows, PollMatches(sel, hwm))
      modifies this`hwm
      ensures res == if IsGone(tx, sel.gvk, old(hwm)) then Err(Gone) else Ok(EventsOf(answer))
      ensures hwm == if res.Err? then old(hwm) else NextMark(old(hwm), tx.xmin)
      ensures res.Err? <==> sel.gvk in tx.horizon && old(hwm) < tx.horizon[sel.gvk]
      ensures old(hwm) <= hwm && (hwm == old(hwm) || hwm == tx.xmin - 1) && (res.Ok? ==> tx.xmin - 1 <= hwm)
      ensures res.Ok? ==> |res.value| == |answer| && forall i | 0 <= i < |answer| ::
                var ev, found := res.value[i], answer[i];
                && ev.key == found.key && ev.row == found.row
                && (ev.kind.EventDeleted? <==> found.row.deletionTs.Some?)
                && (ev.kind.EventAdded? <==> found.row.deletionTs.None? && found.row.version == 1)
    {
      var xmin := tx.xmin;
      if sel.gvk in tx.horizon {
        var compactedXid := tx.horizon[sel.gvk];
        if hwm < compactedXid {
          return Err(Gone);
        }
      }
      var events := [];
      for i := 0 to |answer|
        invariant events == EventsOf(answer)[..i]
      {
        var r := answer[i].row;
        var evType;
        if r.deletionTs.Some? {
          evType := EventDeleted;
        } else if r.version == 1 {
          evType := EventAdded;
        } else {
          evType := EventModified;
        }
        events := events + [Event(evType, answer[i].key, r)];
      }
      if xmin > 0 && xmin - 1 > hwm {
        hwm := xmin - 1;
      }
      assert EventsOf(answer)[..|answer|] == EventsOf(answer);
      res := Ok(events);
    }
  }

  /******* pgWatcher *******/

  datatype WatchType = Added | ModifiedObject | DeletedObject

  datatype WatchEvent = WatchEvent(kind: WatchType, key: Key, row: Row, resourceVersion: string)

  function WatchTypeOf(ev: Event): WatchType {
    match ev.kind
    case EventAdded => Added
    case EventModified => ModifiedObject
    case EventDeleted => if HasFinalizers(ev.row.metadata) then ModifiedObject else DeletedObject
  }

  /** The highest stamp relayed so far, at least the start watermark. */
  function Relayed(start: Xid, events: seq<Event>): Xid {
    if events == [] then start
    else
      var last := events[|events| - 1].row.stamp;
      var w := Relayed(start, events[..|events| - 1]);
      if last > w then last else w
  }

  lemma {:induction false} RelayedIsHighest(start: Xid, events: seq<Event>)
    ensures start <= Relayed(start, events)
    ensures forall i | 0 <= i < |events| :: events[i].row.stamp <= Relayed(start, events)
    ensures Relayed(start, events) == start
            || exists i | 0 <= i < |events| :: events[i].row.stamp == Relayed(start, events)
  {
    if events != [] {
      RelayedIsHighest(start, events[..|events| - 1]);
    }
  }

  /** What relay forwards: each object carries its own version in front of the watermark so far. */
  function RelayAll(start: Xid, events: seq<Event>): (result: seq<WatchEvent>)
    ensures |result| == |events|
  {
    if events == [] then []
    else
      RelayAll(start, events[..|events| - 1]) + [RelayLast(start, events)]
  }

  function RelayLast(start: Xid, events: seq<Event>): WatchEvent
    requires events != []
  {
    var ev := events[|events| - 1];
    WatchEvent(WatchTypeOf(ev), ev.key, ev.row, String(RV(ev.row.version, Relayed(start, events))))
  }

  class PgWatcher {
    var currentRV: RV

    constructor (startRV: RV)
      ensures currentRV == RV(0, startRV.watermark)
    {
      currentRV := RV(0, startRV.watermark);
    }

    /** relay. `converts` is whether resourceToObject succeeds on an event, `accepted` how many events the
        informer takes before it stops the watch. What it takes is a prefix of what RelayAll says, up to
        the first event that does not convert, which ends the watch with an error. */
    method Relay(events: seq<Event>, converts: Event -> bool, accepted: nat)
      returns (result: seq<WatchEvent>, failed: bool)
      modifies this
      ensures |result| <= |events| && |result| <= accepted
      ensures result == RelayAll(old(currentRV.watermark), events[..|result|])
      ensures forall i | 0 <= i < |result| ::
                var out, ev := result[i], events[i];
                && converts(ev) && out.key == ev.key && out.row == ev.row
                && (out.kind.Added? <==> ev.kind.EventAdded?)
                && (out.kind.DeletedObject? <==> ev.kind.EventDeleted? && !HasFinalizers(ev.row.metadata))
      ensures failed ==> |result| < |events| && !converts(events[|result|])
      ensures !failed ==> |result| == |events| || (|result| == accepted && converts(events[|result|]))
      ensures failed || |result| == |events| ==>
                currentRV.watermark == Relayed(old(currentRV.watermark), events[..|result|])
    {
      result := [];
      for i := 0 to |events|
        invariant |result| == i <= accepted
        invariant forall j | 0 <= j < i ::
                    var out, before := result[j], events[j];
                    && converts(before) && out.key == before.key && out.row == before.row
                    && (out.kind.Added? <==> before.kind.EventAdded?)
                    && (out.kind.DeletedObject? <==> before.kind.EventDeleted? && !HasFinalizers(before.row.metadata))
        invariant result == RelayAll(old(currentRV.watermark), events[..i])
        invariant currentRV.watermark == Relayed(old(currentRV.watermark), events[..i])
      {
        var ev := events[i];
        assert events[..i + 1][..i] == events[..i];
        if !converts(ev) {
          return result, true;
        }
        if ev.row.stamp > currentRV.watermark {
          currentRV := currentRV.(watermark := ev.row.stamp);
        }
        currentRV := currentRV.(objectVersion := ev.row.version);
        var eventType;
        match ev.kind {
          case EventAdded => eventType := Added;
          case EventModified => eventType := ModifiedObject;
          case EventDeleted =>
            if HasFinalizers(ev.row.metadata) {
              eventType := ModifiedObject;
            } else {
              eventType := DeletedObject;
            }
        }
        if i == accepted {
          // <-pw.done: the event is stamped but not taken
          return result, false;
        }
        result := result + [WatchEvent(eventType, ev.key, ev.row, String(currentRV))];
      }
      assert events[..|events|] == events;
      failed := false;
    }
  }

  /******* The informer cache *******/

  type Cache = map<Key, Row>

  /** The informer stores added and modified objects and drops deleted ones. */
  function ApplyEvent(cache: Cache, ev: WatchEvent): Cache {
    if ev.kind.DeletedObject? then cache - {ev.key} else cache[ev.key := ev.row]
  }

  function ApplyEvents(cache: Cache, events: seq<WatchEvent>): Cache {
    if events == [] then cache
    else ApplyEvent(ApplyEvents(cache, events[..|events| - 1]), events[|events| - 1])
  }

  /** What List returns, as a cache. */
  function ListCache(snap: Snapshot, sel: Selector): Cache {
    map k | k in snap.rows && ListMatches(sel)(k, snap.rows[k]) :: snap.rows[k]
  }

  /** The rows a poll's query matches. */
  predicate Polled(snap: Snapshot, sel: Selector, hwm: Xid, k: Key) {
    k in snap.rows && PollMatches(sel, hwm)(k, snap.rows[k])
  }

  /** A completed poll as one operation on the cache. */
  function Absorb(cache: Cache, snap: Snapshot, sel: Selector, hwm: Xid): Cache {
    map k | k in cache.Keys + snap.rows.Keys
            && if Polled(snap, sel, hwm, k) then !IsFullyDeleted(snap.rows[k].deletionTs, snap.rows[k].metadata)
               else k in cache
      :: if Polled(snap, sel, hwm, k) then snap.rows[k] else cache[k]
  }

  lemma {:induction false} RelayAllAt(start: Xid, events: seq<Event>, i: nat)
    requires i < |events|
    ensures RelayAll(start, events)[i] == RelayLast(start, events[..i + 1])
  {
    var n := |events| - 1;
    if i < n {
      assert events[..n][..i + 1] == events[..i + 1];
      RelayAllAt(start, events[..n], i);
    } else {
      assert events[..i + 1] == events;
    }
  }

  lemma {:induction false} UntouchedByEvents(cache: Cache, events: seq<WatchEvent>, k: Key)
    requires forall i | 0 <= i < |events| :: events[i].key != k
    ensures Lookup(ApplyEvents(cache, events), k) == Lookup(cache, k)
  {
    if events != [] {
      UntouchedByEvents(cache, events[..|events| - 1], k);
    }
  }

  /** With every key at most once, a key ends up as its event says. */
  lemma {:induction false} TouchedByEvent(cache: Cache, events: seq<WatchEvent>, i: nat)
    requires i < |events| && forall j | i < j < |events| :: events[j].key != events[i].key
    ensures Lookup(ApplyEvents(cache, events), events[i].key)
            == if events[i].kind.DeletedObject? then None else Some(events[i].row)
  {
    var n := |events| - 1;
    if i < n {
      TouchedByEvent(cache, events[..n], i);
    }
  }

  /** What a completed, non-Gone poll sends the informer. */
  function Sent(start: Xid, answer: seq<Found>): (events: seq<WatchEvent>)
    ensures |events| == |answer|
  {
    RelayAll(start, EventsOf(answer))
  }

  lemma SentAt(start: Xid, answer: seq<Found>, i: nat)
    requires i < |answer|
    ensures var ev, r := Sent(start, answer)[i], answer[i].row;
            && ev.key == answer[i].key && ev.row == r
            && (ev.kind.DeletedObject? <==> IsFullyDeleted(r.deletionTs, r.metadata))
  {
    RelayAllAt(start, EventsOf(answer), i);
  }

  /** What the informer is told of the i-th row polled: Added exactly if it is not deleted and at version
      1, Deleted exactly if it is deleted and Go sees no finalizer, and otherwise, dying rows included,
      Modified. */
  lemma SentKinds(start: Xid, answer: seq<Found>, i: nat)
    requires i < |answer|
    ensures var kind, r := Sent(start, answer)[i].kind, answer[i].row;
            && (kind.Added? <==> r.deletionTs.None? && r.version == 1)
            && (kind.DeletedObject? <==> r.deletionTs.Some? && !HasFinalizers(r.metadata))
            && (kind.ModifiedObject? <==> || (r.deletionTs.None? && r.version != 1)
                                          || (r.deletionTs.Some? && HasFinalizers(r.metadata)))
  {
    RelayAllAt(start, EventsOf(answer), i);
  }

  /** One key of the next lemma. */
  lemma PollThenRelayAbsorbsAt(cache: Cache, snap: Snapshot, sel: Selector, hwm: Xid, start: Xid,
                               answer: seq<Found>, k: Key)
    requires Answers(answer, snap.rows, PollMatches(sel, hwm))
    ensures Lookup(ApplyEvents(cache, Sent(start, answer)), k) == Lookup(Absorb(cache, snap, sel, hwm), k)
  {
    var events := Sent(start, answer);
    forall i | 0 <= i < |answer| ensures events[i].key == answer[i].key { SentAt(start, answer, i); }
    if Polled(snap, sel, hwm, k) {
      var i :| 0 <= i < |answer| && answer[i] == Found(k, snap.rows[k]);
      SentAt(start, answer, i);
      TouchedByEvent(cache, events, i);
    } else {
      UntouchedByEvents(cache, events, k);
    }
  }

  lemma SameLookupsSameMap(a: Cache, b: Cache)
    requires forall k :: Lookup(a, k) == Lookup(b, k)
    ensures a == b
  {
    assert forall k :: (k in a <==> Lookup(a, k).Some?) && (k in b <==> Lookup(b, k).Some?);
    assert forall k | k in a :: Some(a[k]) == Lookup(a, k) == Lookup(b, k);
  }

  /** Applying what a poll sends, event by event, does to the cache exactly what Absorb says. */
  lemma PollThenRelayAbsorbs(cache: Cache, snap: Snapshot, sel: Selector, hwm: Xid, start: Xid, answer: seq<Found>)
    requires Answers(answer, snap.rows, PollMatches(sel, hwm))
    ensures ApplyEvents(cache, Sent(start, answer)) == Absorb(cache, snap, sel, hwm)
  {
    var sent := ApplyEvents(cache, Sent(start, answer));
    forall k ensures Lookup(sent, k) == Lookup(Absorb(cache, snap, sel, hwm), k) {
      PollThenRelayAbsorbsAt(cache, snap, sel, hwm, start, answer, k);
    }
    SameLookupsSameMap(sent, Absorb(cache, snap, sel, hwm));
  }
}
