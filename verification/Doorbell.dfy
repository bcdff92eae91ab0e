/** The debouncer between writers and pg_notify: a dirty set, a flushing goroutine, and Close. */
module Doorbell {

  /** doorbell.Debouncer. A map[string]bool that only ever stores true is the set of its keys. `attempts`
      is what the connection was asked to notify; `bell` is the state of the machine below that the
      methods, each one critical section or one send, take step by step. */
  class Debouncer {
    var dirty: set<string>
    var stopped: bool
    var attempts: seq<string>
    ghost var bell: Bell

    ghost predicate Valid()
      reads this
    {
      dirty == bell.dirty && stopped == bell.stopped && attempts == Attempts(bell.log)
    }

    constructor ()
      ensures Valid() && bell == START
    {
      dirty, stopped, attempts, bell := {}, false, [], START;
    }

    method Ring(gvk: string)
      requires Valid()
      modifies this
      ensures Valid() && bell == Do(old(bell), DoRing(gvk))
    {
      dirty := dirty + {gvk};
      AttemptsAppend(bell.log, Rang(gvk, bell.flushes));
      bell := Do(bell, DoRing(gvk));
    }

    /** close(d.stop); a second Close panics. */
    method Close()
      requires Valid() && !stopped
      modifies this
      ensures Valid() && bell == Do(old(bell), DoClose)
    {
      stopped := true;
      AttemptsAppend(bell.log, CloseCalled);
      bell := Do(bell, DoClose);
    }

    /** The part of flush that holds the mutex: copies the dirty set into a slice and swaps it out. */
    method TakeDirty(last: bool) returns (gvks: seq<string>)
      requires Valid() && bell.phase.Waiting? && (last ==> stopped)
      modifies this
      ensures Valid() && bell == Do(old(bell), if last then StopFlush else TickFlush)
      ensures stopped == old(stopped)
      ensures (set g | g in gvks) == bell.sending
      ensures forall i, j | 0 <= i < j < |gvks| :: gvks[i] != gvks[j]
    {
      gvks := [];
      var rest := dirty;
      while rest != {}
        invariant rest <= old(dirty) && dirty == old(dirty) && Valid() && bell == old(bell) && stopped == old(stopped)
        invariant forall g :: g in gvks <==> g in old(dirty) - rest
        invariant forall i, j | 0 <= i < j < |gvks| :: gvks[i] != gvks[j]
      {
        var gvk :| gvk in rest;
        assert gvk !in gvks;
        gvks := gvks + [gvk];
        rest := rest - {gvk};
      }
      dirty := {};
      bell := Do(bell, if last then StopFlush else TickFlush);
    }

    /** One pg_notify attempt, successful or not. */
    method Notify(gvk: string)
      requires Valid() && bell.phase.Sending? && gvk in bell.sending
      modifies this
      ensures Valid() && bell == Do(old(bell), SendNotify(gvk)) && stopped == old(stopped)
      ensures attempts == old(attempts) + [gvk]
    {
      attempts := attempts + [gvk];
      AttemptsAppend(bell.log, Notified(gvk, bell.flushes));
      bell := Do(bell, SendNotify(gvk));
    }

    /** flush, when nobody rings while it sends: one attempt for each GVK that was dirty, none twice. */
    method FlushAll(last: bool)
      requires Valid() && bell.phase.Waiting? && (last ==> stopped)
      modifies this
      ensures Valid() && dirty == {} && bell.flushes == old(bell.flushes) + 1 && stopped == old(stopped)
      ensures bell.phase == if last then Done else Waiting
      ensures old(attempts) <= attempts
      ensures var sent := attempts[|old(attempts)|..];
              && (set g | g in sent) == old(dirty)
              && forall i, j | 0 <= i < j < |sent| :: sent[i] != sent[j]
    {
      var gvks := TakeDirty(last);
      ghost var before := attempts;
      for i := 0 to |gvks|
        invariant Valid() && dirty == {} && stopped == old(stopped)
        invariant bell.phase == Sending(last) && bell.flushes == old(bell.flushes) + 1
        invariant forall g :: g in bell.sending <==> g in gvks[i..]
        invariant attempts == before + gvks[..i]
      {
        assert gvks[i..] == [gvks[i]] + gvks[i + 1..];
        assert forall j | i < j < |gvks| :: gvks[j] != gvks[i];
        Notify(gvks[i]);
      }
      assert gvks[..|gvks|] == gvks && attempts[|before|..] == gvks;
      bell := Do(bell, EndFlush);
    }
  }

  /** The GVKs notified, in order. */
  function Attempts(log: seq<Event>): seq<string> {
    if log == [] then []
    else
      var e := log[|log| - 1];
      Attempts(log[..|log| - 1]) + if e.Notified? then [e.gvk] else []
  }

  lemma AttemptsAppend(log: seq<Event>, e: Event)
    ensures Attempts(log + [e]) == Attempts(log) + if e.Notified? then [e.gvk] else []
  {
    assert (log + [e])[..|log|] == log;
  }

  const START := Bell({}, {}, Waiting, false, 0, [])

  /******* Rings, flushes and Close, interleaved *******/

  /** Flushes are numbered from 1. A ring belongs to the flush period it happened in; flush f sends
      what was rung in period f - 1. Events stand in the order they completed. */
  datatype Event =
    | Rang(gvk: string, period: nat)
    | Notified(gvk: string, flush: nat)   // one pg_notify attempt, successful or not
    | CloseCalled

  datatype Phase = Waiting | Sending(last: bool) | Done

  datatype Bell = Bell(dirty: set<string>, sending: set<string>, phase: Phase, stopped: bool,
                       flushes: nat, log: seq<Event>)

  datatype Step =
    | DoRing(gvk: string)        // any goroutine, at any time
    | DoClose
    | TickFlush                  // the ticker fired
    | StopFlush                  // the stop channel is closed: one last flush, then the loop ends
    | SendNotify(gvk: string)    // map iteration order is arbitrary
    | EndFlush

  predicate Enabled(b: Bell, step: Step) {
    match step
    case DoRing(_) => true
    case DoClose => !b.stopped
    case TickFlush => b.phase.Waiting?
    case StopFlush => b.phase.Waiting? && b.stopped
    case SendNotify(gvk) => b.phase.Sending? && gvk in b.sending
    case EndFlush => b.phase.Sending? && b.sending == {}
  }

  function Flush(b: Bell, last: bool): Bell {
    b.(phase := Sending(last), sending := b.dirty, dirty := {}, flushes := b.flushes + 1)
  }

  function Do(b: Bell, step: Step): Bell
    requires Enabled(b, step)
  {
    match step
    case DoRing(gvk) => b.(dirty := b.dirty + {gvk}, log := b.log + [Rang(gvk, b.flushes)])
    case DoClose => b.(stopped := true, log := b.log + [CloseCalled])
    case TickFlush => Flush(b, false)
    case StopFlush => Flush(b, true)
    case SendNotify(gvk) => b.(sending := b.sending - {gvk}, log := b.log + [Notified(gvk, b.flushes)])
    case EndFlush => b.(phase := if b.phase.last then Done else Waiting)
  }

  ghost predicate Next(b: Bell, b': Bell) {
    exists step | Enabled(b, step) :: b' == Do(b, step)
  }

  ghost predicate Run(t: seq<Bell>) {
    && |t| > 0
    && t[0] == START
    && forall i: nat | i + 1 < |t| :: Linked(t, i)
  }

  ghost predicate Linked(t: seq<Bell>, i: nat)
    requires i + 1 < |t|
  {
    Next(t[i], t[i + 1])
  }

  /******* What holds throughout *******/

  ghost predicate Pending(b: Bell, gvk: string) {
    b.phase.Sending? && gvk in b.sending
  }

  /** What the log holds. */
  ghost predicate HoldsOk(b: Bell) {
    // dirty is what was rung since the last flush began
    && (forall g :: g in b.dirty <==> Rang(g, b.flushes) in b.log)
    // what an older period rang is notified by the next flush, or about to be
    && (forall g, f: nat :: f < b.flushes && Rang(g, f) in b.log ==>
          Notified(g, f + 1) in b.log || (f + 1 == b.flushes && Pending(b, g)))
    && (forall g :: Pending(b, g) ==> b.flushes > 0 && Rang(g, b.flushes - 1) in b.log && Notified(g, b.flushes) !in b.log)
    // nothing is notified, or rung, ahead of its time
    && (forall g, f: nat :: Notified(g, f) in b.log ==> 1 <= f <= b.flushes && Rang(g, f - 1) in b.log)
    && (forall g, f: nat :: Rang(g, f) in b.log ==> f <= b.flushes)
    && (b.stopped <==> CloseCalled in b.log)
    && (b.phase.Done? || (b.phase.Sending? && b.phase.last) ==> b.stopped)
    && (b.phase.Waiting? || b.phase.Done? ==> b.sending == {})
  }

  /** In which order it stands: nothing is notified twice, and after Close there is one more flush. */
  ghost predicate OrderOk(b: Bell) {
    && (forall i, j | 0 <= i < j < |b.log| && b.log[i].Notified? :: b.log[i] != b.log[j])
    && (b.phase.Done? || (b.phase.Sending? && b.phase.last) ==>
          forall i, c | 0 <= i < c < |b.log| && b.log[i].Rang? && b.log[c].CloseCalled? :: b.log[i].period < b.flushes)
  }

  ghost predicate BellOk(b: Bell) {
    HoldsOk(b) && OrderOk(b)
  }

  /** A ring comes before the notifications of the next flush. */
  ghost predicate InOrder(b: Bell) {
    forall i, j | 0 <= i < |b.log| && 0 <= j < |b.log| && b.log[i].Rang?
                  && b.log[j] == Notified(b.log[i].gvk, b.log[i].period + 1) :: i < j
  }

  lemma InAppended(log: seq<Event>, e: Event)
    ensures forall e' :: e' in log + [e] <==> e' in log || e' == e
  {
  }

  lemma AppendKeepsInOrder(b: Bell, b': Bell, e: Event)
    requires InOrder(b) && b'.log == b.log + [e]
    requires e.Rang? ==> Notified(e.gvk, e.period + 1) !in b.log
    ensures InOrder(b')
  {
    forall i, j | 0 <= i < |b'.log| && 0 <= j < |b'.log| && b'.log[i].Rang?
                  && b'.log[j] == Notified(b'.log[i].gvk, b'.log[i].period + 1)
      ensures i < j
    {
      if j < |b.log| { assert b'.log[j] in b.log; }
    }
  }

  lemma StepKeepsInOrder(b: Bell, step: Step)
    requires BellOk(b) && InOrder(b) && Enabled(b, step)
    ensures InOrder(Do(b, step))
  {
    match step
    case DoRing(gvk) => AppendKeepsInOrder(b, Do(b, step), Rang(gvk, b.flushes));
    case DoClose => AppendKeepsInOrder(b, Do(b, step), CloseCalled);
    case SendNotify(gvk) => AppendKeepsInOrder(b, Do(b, step), Notified(gvk, b.flushes));
    case _ =>
  }

  lemma RingKeepsHoldsOk(b: Bell, gvk: string)
    requires HoldsOk(b)
    ensures HoldsOk(Do(b, DoRing(gvk)))
  {
    var b' := Do(b, DoRing(gvk));
    InAppended(b.log, Rang(gvk, b.flushes));
    assert forall g :: Pending(b', g) <==> Pending(b, g);
    assert forall g, f: nat :: Rang(g, f) in b'.log <==> Rang(g, f) in b.log || (g == gvk && f == b.flushes);
    assert forall g, f: nat :: Notified(g, f) in b'.log <==> Notified(g, f) in b.log;
  }

  lemma RingKeepsBellOk(b: Bell, gvk: string)
    requires BellOk(b)
    ensures BellOk(Do(b, DoRing(gvk)))
  {
    RingKeepsHoldsOk(b, gvk);
  }

  lemma SendKeepsHoldsOk(b: Bell, gvk: string)
    requires HoldsOk(b) && Enabled(b, SendNotify(gvk))
    ensures HoldsOk(Do(b, SendNotify(gvk)))
  {
    var b' := Do(b, SendNotify(gvk));
    InAppended(b.log, Notified(gvk, b.flushes));
    assert Pending(b, gvk);
    assert forall g, f: nat :: Rang(g, f) in b'.log <==> Rang(g, f) in b.log;
    assert forall g, f: nat :: Notified(g, f) in b'.log <==> Notified(g, f) in b.log || (g == gvk && f == b.flushes);
  }

  lemma SendKeepsBellOk(b: Bell, gvk: string)
    requires BellOk(b) && Enabled(b, SendNotify(gvk))
    ensures BellOk(Do(b, SendNotify(gvk)))
  {
    SendKeepsHoldsOk(b, gvk);
    assert Pending(b, gvk);
    var notified := Notified(gvk, b.flushes);
    assert forall i | 0 <= i < |b.log| :: b.log[i] in b.log && b.log[i] != notified;
  }

  lemma FlushKeepsBellOk(b: Bell, last: bool)
    requires BellOk(b) && b.phase.Waiting? && (last ==> b.stopped)
    ensures BellOk(Flush(b, last))
  {
    forall i | 0 <= i < |b.log| && b.log[i].Rang? ensures b.log[i].period < b.flushes + 1 {
      assert Rang(b.log[i].gvk, b.log[i].period) in b.log;
    }
  }

  lemma CloseKeepsBellOk(b: Bell)
    requires BellOk(b) && Enabled(b, DoClose)
    ensures BellOk(Do(b, DoClose))
  {
    var b' := Do(b, DoClose);
    InAppended(b.log, CloseCalled);
    assert forall g :: Pending(b', g) <==> Pending(b, g);
  }

  lemma StepKeepsBellOk(b: Bell, step: Step)
    requires BellOk(b) && Enabled(b, step)
    ensures BellOk(Do(b, step))
  {
    match step
    case DoRing(gvk) => RingKeepsBellOk(b, gvk);
    case DoClose => CloseKeepsBellOk(b);
    case TickFlush => FlushKeepsBellOk(b, false);
    case StopFlush => FlushKeepsBellOk(b, true);
    case SendNotify(gvk) => SendKeepsBellOk(b, gvk);
    case EndFlush =>
  }

  lemma NextKeepsBellOk(b: Bell, b': Bell)
    requires BellOk(b) && InOrder(b) && Next(b, b')
    ensures BellOk(b') && InOrder(b')
  {
    var step :| Enabled(b, step) && b' == Do(b, step);
    StepKeepsBellOk(b, step);
    StepKeepsInOrder(b, step);
  }

  lemma {:induction false} BellOkAlong(t: seq<Bell>, n: nat)
    requires Run(t) && n < |t|
    ensures BellOk(t[n]) && InOrder(t[n])
  {
    if n > 0 {
      BellOkAlong(t, n - 1);
      assert Linked(t, n - 1);
      NextKeepsBellOk(t[n - 1], t[n]);
    }
  }

  /** Conservation. When the loop has ended, every Ring that completed before Close was called has been
      followed by a notification of its GVK. */
  lemma EveryRingIsNotified(t: seq<Bell>, n: nat, i: nat, c: nat)
    requires Run(t) && n < |t| && t[n].phase.Done?
    requires i < c < |t[n].log| && t[n].log[i].Rang? && t[n].log[c].CloseCalled?
    ensures exists j | i < j < |t[n].log| :: t[n].log[j] == Notified(t[n].log[i].gvk, t[n].log[i].period + 1)
  {
    BellOkAlong(t, n);
    var Rang(g, f) := t[n].log[i];
    assert Rang(g, f) in t[n].log;
    var j :| 0 <= j < |t[n].log| && t[n].log[j] == Notified(g, f + 1);
  }

  /** Coalescing. A flush attempts at most one notification per GVK, and only for a GVK rung since the
      previous flush; a GVK is quiet in a flush exactly when nobody rang it in the period before. */
  lemma NotificationsAreCoalesced(t: seq<Bell>, n: nat, g: string, f: nat)
    requires Run(t) && n < |t|
    ensures Notified(g, f + 1) in t[n].log ==> Rang(g, f) in t[n].log
    ensures Rang(g, f) in t[n].log && (f + 1 < t[n].flushes || (f + 1 == t[n].flushes && !t[n].phase.Sending?))
            ==> Notified(g, f + 1) in t[n].log
    ensures forall i, j | 0 <= i < |t[n].log| && 0 <= j < |t[n].log| ::
              t[n].log[i] == Notified(g, f + 1) == t[n].log[j] ==> i == j
  {
    BellOkAlong(t, n);
  }
}
