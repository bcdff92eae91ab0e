/**
 When the watcher polls: Watcher.Run's timer, its debounced doorbell and the one-slot channel the
 listen goroutine wakes it through.
 */
module Scheduler {
  import opened Model

  const MILLISECOND: int := 1_000_000

  /** BaselineInterval and DebounceFloor after NewWatcher's defaults for zero. */
  datatype Config = Config(baseline: int, floor: int)

  function NewConfig(baselineInterval: int, debounceFloor: int): Config {
    Config(if baselineInterval == 0 then 5000 * MILLISECOND else baselineInterval,
           if debounceFloor == 0 then 100 * MILLISECOND else debounceFloor)
  }

  /** Run's local variables; `deadline` is what the timer is armed for. */
  datatype Timers = Timers(lastPoll: Time, doorbellPending: bool, deadline: Time)

  predicate LeadingEdge(cfg: Config, v: Timers, now: Time) {
    now - v.lastPoll >= cfg.floor
  }

  /** A doorbell inside the debounce window re-arms the timer for the window's end. */
  function Postpone(cfg: Config, v: Timers, now: Time): Timers {
    v.(doorbellPending := true, deadline := now + (cfg.floor - (now - v.lastPoll)))
  }

  function AfterPoll(cfg: Config, now: Time): Timers {
    Timers(now, false, now + cfg.baseline)
  }

  /******* Run *******/

  /** What one `select` returned, and when the poll it led to, if any, ended (or failed). */
  datatype Input =
    | Doorbell(at: Time, pollEnd: Time, pollFails: bool)
    | TimerFired(at: Time, pollEnd: Time, pollFails: bool)
    | Cancelled
    | Stopped

  datatype Exit = Running | ExitCancelled | ExitStopped | ExitPollError

  datatype Progress = Progress(v: Timers, exit: Exit, polls: nat, doorbellPolls: nat, baselinePolls: nat)

  function React(cfg: Config, p: Progress, input: Input): Progress {
    match input
    case Cancelled => p.(exit := ExitCancelled)
    case Stopped => p.(exit := ExitStopped)
    case Doorbell(at, pollEnd, pollFails) =>
      if !LeadingEdge(cfg, p.v, at) then p.(v := Postpone(cfg, p.v, at))
      else if pollFails then p.(exit := ExitPollError, polls := p.polls + 1, doorbellPolls := p.doorbellPolls + 1)
      else p.(v := AfterPoll(cfg, pollEnd), polls := p.polls + 1, doorbellPolls := p.doorbellPolls + 1)
    case TimerFired(at, pollEnd, pollFails) =>
      if pollFails then p.(exit := ExitPollError, polls := p.polls + 1)
      else
        var doorbell := if p.v.doorbellPending then 1 else 0;
        Progress(AfterPoll(cfg, pollEnd), Running, p.polls + 1, p.doorbellPolls + doorbell, p.baselinePolls + 1 - doorbell)
  }

  /** The loop stops at its first exit. */
  function RunOver(cfg: Config, p: Progress, inputs: seq<Input>): Progress
    decreases |inputs|
  {
    if inputs == [] || !p.exit.Running? then p else RunOver(cfg, React(cfg, p, inputs[0]), inputs[1..])
  }

  /** Everything Run does after a first poll that ended at `started`, and nothing if that poll failed. */
  function RunOutcome(cfg: Config, started: Time, firstFails: bool, inputs: seq<Input>): Progress {
    if firstFails then Progress(Timers(started, false, started), ExitPollError, 0, 0, 0)
    else RunOver(cfg, Progress(AfterPoll(cfg, started), Running, 0, 0, 0), inputs)
  }

  /** Run, with the intervals as configured; the first poll comes before the loop and is not counted. */
  method Run(baselineInterval: int, debounceFloor: int, started: Time, firstFails: bool, inputs: seq<Input>)
    returns (p: Progress)
    ensures p == RunOutcome(NewConfig(baselineInterval, debounceFloor), started, firstFails, inputs)
    ensures firstFails ==> p.exit.ExitPollError? && p.polls == p.doorbellPolls == p.baselinePolls == 0
    ensures !firstFails ==>
              EndsSomewhere(Config(if baselineInterval == 0 then 5_000_000_000 else baselineInterval,
                                   if debounceFloor == 0 then 100_000_000 else debounceFloor), started, inputs, p)
  {
    var cfg := NewConfig(baselineInterval, debounceFloor);
    RunEnds(cfg, started, inputs);
    if firstFails {
      return Progress(Timers(started, false, started), ExitPollError, 0, 0, 0);
    }
    var lastPoll, doorbellPending, deadline := started, false, started + cfg.baseline;
    var exit, polls, doorbellPolls, baselinePolls := Running, 0, 0, 0;
    var i := 0;
    ghost var whole := RunOver(cfg, Progress(AfterPoll(cfg, started), Running, 0, 0, 0), inputs);
    assert inputs[0..] == inputs;
    while i < |inputs| && exit.Running?
      invariant 0 <= i <= |inputs|
      invariant RunOver(cfg, Progress(Timers(lastPoll, doorbellPending, deadline), exit, polls,
                                      doorbellPolls, baselinePolls), inputs[i..]) == whole
    {
      assert inputs[i..][0] == inputs[i] && inputs[i..][1..] == inputs[i + 1..];
      match inputs[i] {
        case Cancelled =>
          exit := ExitCancelled;
        case Stopped =>
          exit := ExitStopped;
        case Doorbell(at, pollEnd, pollFails) =>
          var sinceLastPoll := at - lastPoll;
          if sinceLastPoll >= cfg.floor {
            doorbellPolls := doorbellPolls + 1;
            polls := polls + 1;
            if pollFails {
              exit := ExitPollError;
            } else {
              lastPoll := pollEnd;
              doorbellPending := false;
              deadline := pollEnd + cfg.baseline;
            }
          } else {
            doorbellPending := true;
            var remaining := cfg.floor - sinceLastPoll;
            deadline := at + remaining;
          }
        case TimerFired(at, pollEnd, pollFails) =>
          var wasDoorbell := doorbellPending;
          polls := polls + 1;
          if pollFails {
            exit := ExitPollError;
          } else {
            if wasDoorbell {
              doorbellPolls := doorbellPolls + 1;
            } else {
              baselinePolls := baselinePolls + 1;
            }
            lastPoll := pollEnd;
            doorbellPending := false;
            deadline := pollEnd + cfg.baseline;
          }
      }
      i := i + 1;
    }
    p := Progress(Timers(lastPoll, doorbellPending, deadline), exit, polls, doorbellPolls, baselinePolls);
  }

  /******* What Run does, said of its inputs *******/

  /** When the last successful poll ended: a doorbell leads to a poll if the last one ended at least the
      floor ago, an expired timer always does. */
  function LastPollEnd(floor: int, started: Time, inputs: seq<Input>): Time {
    if inputs == [] then started
    else
      var before := LastPollEnd(floor, started, inputs[..|inputs| - 1]);
      match inputs[|inputs| - 1]
      case TimerFired(_, pollEnd, false) => pollEnd
      case Doorbell(at, pollEnd, false) => if at - before >= floor then pollEnd else before
      case _ => before
  }

  predicate LedToPoll(floor: int, started: Time, inputs: seq<Input>, i: nat)
    requires i < |inputs|
  {
    || inputs[i].TimerFired?
    || (inputs[i].Doorbell? && inputs[i].at - LastPollEnd(floor, started, inputs[..i]) >= floor)
  }

  predicate EndsRun(floor: int, started: Time, inputs: seq<Input>, i: nat)
    requires i < |inputs|
  {
    inputs[i].Cancelled? || inputs[i].Stopped? || (LedToPoll(floor, started, inputs, i) && inputs[i].pollFails)
  }

  /** A doorbell came too early for a poll and none has followed. */
  ghost predicate PostponedBy(floor: int, started: Time, inputs: seq<Input>, j: nat) {
    && j < |inputs| && inputs[j].Doorbell?
    && forall m: nat | j <= m < |inputs| :: !LedToPoll(floor, started, inputs, m)
  }

  ghost predicate PollPostponed(floor: int, started: Time, inputs: seq<Input>) {
    exists j: nat :: PostponedBy(floor, started, inputs, j)
  }

  /** A poll a doorbell caused, at once or on the timer it re-armed; a failed one on the timer is not
      counted. */
  ghost predicate ByDoorbell(floor: int, started: Time, inputs: seq<Input>, i: nat)
    requires i < |inputs|
  {
    && LedToPoll(floor, started, inputs, i)
    && (inputs[i].Doorbell? || (!inputs[i].pollFails && PollPostponed(floor, started, inputs[..i])))
  }

  ghost function CountPolls(floor: int, started: Time, inputs: seq<Input>): nat {
    if inputs == [] then 0
    else
      var n := |inputs| - 1;
      CountPolls(floor, started, inputs[..n]) + if LedToPoll(floor, started, inputs, n) then 1 else 0
  }

  ghost function CountByDoorbell(floor: int, started: Time, inputs: seq<Input>): nat {
    if inputs == [] then 0
    else
      var n := |inputs| - 1;
      CountByDoorbell(floor, started, inputs[..n]) + if ByDoorbell(floor, started, inputs, n) then 1 else 0
  }

  /** The local variables after inputs none of which ended the loop. */
  ghost predicate Tracks(cfg: Config, started: Time, inputs: seq<Input>, v: Timers) {
    && v.lastPoll == LastPollEnd(cfg.floor, started, inputs)
    && (v.doorbellPending <==> PollPostponed(cfg.floor, started, inputs))
    && v.deadline == v.lastPoll + if v.doorbellPending then cfg.floor else cfg.baseline
  }

  ghost predicate NoneEnds(floor: int, started: Time, inputs: seq<Input>) {
    forall i: nat | i < |inputs| :: !EndsRun(floor, started, inputs, i)
  }

  lemma SamePrefix(floor: int, started: Time, inputs: seq<Input>, n: nat, i: nat)
    requires i < n <= |inputs|
    ensures LedToPoll(floor, started, inputs[..n], i) == LedToPoll(floor, started, inputs, i)
    ensures EndsRun(floor, started, inputs[..n], i) == EndsRun(floor, started, inputs, i)
  {
    assert inputs[..n][..i] == inputs[..i];
  }

  lemma PostponedStep(floor: int, started: Time, inputs: seq<Input>)
    requires inputs != []
    ensures var n := |inputs| - 1;
            PollPostponed(floor, started, inputs) <==>
              !LedToPoll(floor, started, inputs, n)
              && (inputs[n].Doorbell? || PollPostponed(floor, started, inputs[..n]))
  {
    var n := |inputs| - 1;
    var past := inputs[..n];
    forall i: nat | i < n ensures LedToPoll(floor, started, past, i) == LedToPoll(floor, started, inputs, i) {
      SamePrefix(floor, started, inputs, n, i);
    }
    if j: nat :| PostponedBy(floor, started, inputs, j) {
      assert !LedToPoll(floor, started, inputs, n);
      if j < n { assert PostponedBy(floor, started, past, j); }
    }
    if !LedToPoll(floor, started, inputs, n) {
      if inputs[n].Doorbell? {
        assert PostponedBy(floor, started, inputs, n);
      } else if j: nat :| PostponedBy(floor, started, past, j) {
        assert PostponedBy(floor, started, inputs, j);
      }
    }
  }

  /** The progress after inputs none of which ended the loop. */
  ghost predicate GoesOn(cfg: Config, started: Time, inputs: seq<Input>, p: Progress) {
    && p.exit.Running? && Tracks(cfg, started, inputs, p.v)
    && p.polls == CountPolls(cfg.floor, started, inputs)
    && p.doorbellPolls == CountByDoorbell(cfg.floor, started, inputs)
    && p.baselinePolls == p.polls - p.doorbellPolls
  }

  lemma ReactGoesOn(cfg: Config, started: Time, inputs: seq<Input>, p: Progress)
    requires inputs != [] && GoesOn(cfg, started, inputs[..|inputs| - 1], p)
    requires !EndsRun(cfg.floor, started, inputs, |inputs| - 1)
    ensures GoesOn(cfg, started, inputs, React(cfg, p, inputs[|inputs| - 1]))
  {
    PostponedStep(cfg.floor, started, inputs);
  }

  lemma {:induction false} RunGoesOn(cfg: Config, started: Time, inputs: seq<Input>)
    requires NoneEnds(cfg.floor, started, inputs)
    ensures GoesOn(cfg, started, inputs, RunOver(cfg, Progress(AfterPoll(cfg, started), Running, 0, 0, 0), inputs))
  {
    if inputs != [] {
      var n := |inputs| - 1;
      forall i: nat | i < n ensures !EndsRun(cfg.floor, started, inputs[..n], i) {
        SamePrefix(cfg.floor, started, inputs, n, i);
      }
      RunGoesOn(cfg, started, inputs[..n]);
      RunOverAppend(cfg, Progress(AfterPoll(cfg, started), Running, 0, 0, 0), inputs[..n], inputs[n]);
      assert inputs[..n] + [inputs[n]] == inputs;
      ReactGoesOn(cfg, started, inputs, RunOver(cfg, Progress(AfterPoll(cfg, started), Running, 0, 0, 0), inputs[..n]));
    }
  }

  /** The first input that ends the loop, if any, is number n: everything before it has been handled,
      nothing after it is, and it changes no timer; if it is a poll that fails, the poll is counted. */
  ghost predicate EndsAt(cfg: Config, started: Time, inputs: seq<Input>, n: nat, p: Progress) {
    && n <= |inputs| && NoneEnds(cfg.floor, started, inputs[..n])
    && Tracks(cfg, started, inputs[..n], p.v)
    && var polls, byDoorbell := CountPolls(cfg.floor, started, inputs[..n]), CountByDoorbell(cfg.floor, started, inputs[..n]);
       && p.baselinePolls == polls - byDoorbell
       && if n == |inputs| then p.exit.Running? && p.polls == polls && p.doorbellPolls == byDoorbell
          else
            && EndsRun(cfg.floor, started, inputs, n)
            && match inputs[n]
               case Cancelled => p.exit.ExitCancelled? && p.polls == polls && p.doorbellPolls == byDoorbell
               case Stopped => p.exit.ExitStopped? && p.polls == polls && p.doorbellPolls == byDoorbell
               case TimerFired(_, _, _) => p.exit.ExitPollError? && p.polls == polls + 1 && p.doorbellPolls == byDoorbell
               case Doorbell(_, _, _) => p.exit.ExitPollError? && p.polls == polls + 1 && p.doorbellPolls == byDoorbell + 1
  }

  lemma {:induction false} RunOverInTwo(cfg: Config, p: Progress, first: seq<Input>, second: seq<Input>)
    ensures RunOver(cfg, p, first + second) == RunOver(cfg, RunOver(cfg, p, first), second)
    decreases |first|
  {
    if first == [] {
      assert first + second == second;
    } else if p.exit.Running? {
      assert (first + second)[1..] == first[1..] + second;
      RunOverInTwo(cfg, React(cfg, p, first[0]), first[1..], second);
    }
  }

  ghost predicate EndsSomewhere(cfg: Config, started: Time, inputs: seq<Input>, p: Progress) {
    exists n: nat :: EndsAt(cfg, started, inputs, n, p)
  }

  lemma RunEnds(cfg: Config, started: Time, inputs: seq<Input>)
    ensures EndsSomewhere(cfg, started, inputs, RunOver(cfg, Progress(AfterPoll(cfg, started), Running, 0, 0, 0), inputs))
  {
    var n := RunEndsAt(cfg, started, inputs);
  }

  /** Run ends with the first input that ends it: a cancellation, a stop, or a poll that fails. */
  lemma RunEndsAt(cfg: Config, started: Time, inputs: seq<Input>) returns (n: nat)
    ensures EndsAt(cfg, started, inputs, n, RunOver(cfg, Progress(AfterPoll(cfg, started), Running, 0, 0, 0), inputs))
  {
    n := FirstEnd(cfg.floor, started, inputs);
    var p0 := Progress(AfterPoll(cfg, started), Running, 0, 0, 0);
    RunGoesOn(cfg, started, inputs[..n]);
    if n == |inputs| {
      assert inputs[..n] == inputs;
    } else {
      assert inputs == inputs[..n] + ([inputs[n]] + inputs[n + 1..]);
      RunOverInTwo(cfg, p0, inputs[..n], [inputs[n]] + inputs[n + 1..]);
      LastReaction(cfg, RunOver(cfg, p0, inputs[..n]), inputs[n], inputs[n + 1..]);
    }
  }

  lemma LastReaction(cfg: Config, p: Progress, input: Input, rest: seq<Input>)
    requires p.exit.Running? && !React(cfg, p, input).exit.Running?
    ensures RunOver(cfg, p, [input] + rest) == React(cfg, p, input)
  {
    assert ([input] + rest)[1..] == rest;
  }

  lemma {:induction false} FirstEnd(floor: int, started: Time, inputs: seq<Input>) returns (n: nat)
    ensures n <= |inputs| && NoneEnds(floor, started, inputs[..n])
    ensures n < |inputs| ==> EndsRun(floor, started, inputs, n)
  {
    if inputs == [] {
      n := 0;
    } else {
      var m := |inputs| - 1;
      n := FirstEnd(floor, started, inputs[..m]);
      assert inputs[..m][..n] == inputs[..n];
      if n < m {
        SamePrefix(floor, started, inputs, m, n);
      } else if !EndsRun(floor, started, inputs, m) {
        n := |inputs|;
        forall i: nat | i < n ensures !EndsRun(floor, started, inputs[..n], i) {
          assert inputs[..n] == inputs;
          if i < m { SamePrefix(floor, started, inputs, m, i); }
        }
      }
    }
  }

  /** The counters account for every poll that did not fail on the timer branch. */
  lemma {:induction false} CountersAddUp(cfg: Config, p: Progress, inputs: seq<Input>)
    requires p.exit.Running? && p.doorbellPolls + p.baselinePolls == p.polls
    ensures var q := RunOver(cfg, p, inputs);
            q.polls - 1 <= q.doorbellPolls + q.baselinePolls <= q.polls
            && (!q.exit.ExitPollError? ==> q.doorbellPolls + q.baselinePolls == q.polls)
    decreases |inputs|
  {
    if inputs != [] {
      var next := React(cfg, p, inputs[0]);
      if next.exit.Running? {
        CountersAddUp(cfg, next, inputs[1..]);
      }
    }
  }

  /******* The loop among notifications and passing time *******/

  datatype Phase = Idle | Polling

  datatype Poll = Poll(start: Time, end: Time)

  /** `slot` is the one-element channel; `unserved` the time of the earliest notification since the
      last poll began; `polls` the completed polls, `began` the start of the current one and `rung`
      whether a doorbell started it. */
  datatype Loop = Loop(cfg: Config, now: Time, phase: Phase, v: Timers, slot: bool,
                       unserved: seq<Time>, began: Time, rung: bool, polls: seq<Poll>)

  datatype Move =
    | Pass(to: Time)     // time passes; an idle loop does not sit on a wake-up or an expired timer
    | Notify             // the listen goroutine's non-blocking send
    | TakeDoorbell
    | Fire
    | Finish             // the poll in progress completes

  predicate Can(s: Loop, m: Move) {
    match m
    case Pass(to) => s.now <= to && (s.phase.Idle? ==> !s.slot && to <= s.v.deadline)
    case Notify => true
    case TakeDoorbell => s.phase.Idle? && s.slot
    case Fire => s.phase.Idle? && s.v.deadline <= s.now
    case Finish => s.phase.Polling?
  }

  function BeginPoll(s: Loop, rung: bool): Loop {
    s.(phase := Polling, began := s.now, rung := rung, unserved := [])
  }

  function Make(s: Loop, m: Move): Loop
    requires Can(s, m)
  {
    match m
    case Pass(to) => s.(now := to)
    case Notify => s.(slot := true, unserved := if s.unserved == [] then [s.now] else s.unserved)
    case TakeDoorbell =>
      if LeadingEdge(s.cfg, s.v, s.now) then BeginPoll(s.(slot := false), true)
      else s.(slot := false, v := Postpone(s.cfg, s.v, s.now))
    case Fire => BeginPoll(s, false)
    case Finish => s.(phase := Idle, v := AfterPoll(s.cfg, s.now), polls := s.polls + [Poll(s.began, s.now)])
  }

  /** The loop right after Run's first poll. */
  predicate Started(s: Loop) {
    && s.cfg.baseline > 0 && s.cfg.floor > 0
    && s.phase.Idle? && !s.slot && s.unserved == [] && s.v == AfterPoll(s.cfg, s.now)
    && |s.polls| == 1 && s.polls[0].start <= s.polls[0].end == s.now
  }

  ghost predicate Moves(s: Loop, s': Loop) {
    exists m | Can(s, m) :: s' == Make(s, m)
  }

  ghost predicate Behaviour(t: seq<Loop>) {
    && |t| > 0 && Started(t[0])
    && forall i: nat | i + 1 < |t| :: MovesAt(t, i)
  }

  ghost predicate MovesAt(t: seq<Loop>, i: nat)
    requires i + 1 < |t|
  {
    Moves(t[i], t[i + 1])
  }

  function MaxOf(a: int, b: int): int {
    if a < b then b else a
  }

  function MinOf(a: int, b: int): int {
    if a < b then a else b
  }

  ghost predicate LoopOk(s: Loop) {
    && s.cfg.baseline > 0 && s.cfg.floor > 0
    && s.v.lastPoll <= s.now
    && (s.phase.Polling? ==> s.v.lastPoll <= s.began <= s.now)
    // the timer
    && s.v.lastPoll + MinOf(s.cfg.baseline, s.cfg.floor) <= s.v.deadline <= s.v.lastPoll + MaxOf(s.cfg.baseline, s.cfg.floor)
    && (s.v.doorbellPending ==> s.v.deadline == s.v.lastPoll + s.cfg.floor)
    && (s.phase.Idle? ==> s.now <= s.v.deadline)
    // wake-ups
    && |s.unserved| <= 1
    && (s.unserved != [] ==>
          && s.unserved[0] <= s.now
          && (s.slot || (s.phase.Idle? && s.v.doorbellPending))
          && (s.phase.Idle? && s.slot && !s.v.doorbellPending ==> s.now <= MaxOf(s.unserved[0], s.v.lastPoll)))
    // spacing
    && |s.polls| > 0 && s.polls[|s.polls| - 1].end == s.v.lastPoll
    && (s.phase.Polling? ==> s.v.lastPoll + MinOf(s.cfg.baseline, s.cfg.floor) <= s.began)
    && (forall i | 0 <= i < |s.polls| :: s.polls[i].start <= s.polls[i].end)
    && (forall i | 0 < i < |s.polls| :: s.polls[i - 1].end + MinOf(s.cfg.baseline, s.cfg.floor) <= s.polls[i].start)
  }

  lemma MoveKeepsLoopOk(s: Loop, m: Move)
    requires LoopOk(s) && Can(s, m)
    ensures LoopOk(Make(s, m)) && Make(s, m).cfg == s.cfg && s.now <= Make(s, m).now
  {
  }

  lemma MovesKeepLoopOk(s: Loop, s': Loop)
    requires LoopOk(s) && Moves(s, s')
    ensures LoopOk(s') && s'.cfg == s.cfg && s.now <= s'.now
  {
    var m :| Can(s, m) && s' == Make(s, m);
    MoveKeepsLoopOk(s, m);
  }

  lemma {:induction false} LoopOkAlong(t: seq<Loop>, j: nat)
    requires Behaviour(t) && j < |t|
    ensures LoopOk(t[j]) && t[j].cfg == t[0].cfg
  {
    if j > 0 {
      LoopOkAlong(t, j - 1);
      assert MovesAt(t, j - 1);
      MovesKeepLoopOk(t[j - 1], t[j]);
    }
  }

  /** The schedule, under any sequence of doorbells. The timer is always armed for at most
      max(baseline, floor) after the last poll, so doorbells cannot starve polling. A notification at
      time u not yet followed by the start of a poll is never lost in the one-slot channel, whenever
      it came, also during a poll; and while the loop is idle the time is at most
      max(u, lastPoll + floor). Polls are at least min(baseline, floor) apart, which is the debounce
      floor whenever it is no longer than the baseline. */
  lemma ScheduleHolds(t: seq<Loop>, j: nat)
    requires Behaviour(t) && j < |t|
    ensures var s := t[j];
            && s.v.deadline <= s.v.lastPoll + MaxOf(s.cfg.baseline, s.cfg.floor)
            && (s.phase.Idle? ==> s.now <= s.v.deadline)
            && (s.unserved != [] ==> s.slot || s.v.doorbellPending)
            && (s.unserved != [] && s.phase.Idle? ==> s.now <= MaxOf(s.unserved[0], s.v.lastPoll + s.cfg.floor))
            && (forall i | 0 < i < |s.polls| ::
                  s.polls[i - 1].end + MinOf(s.cfg.baseline, s.cfg.floor) <= s.polls[i].start)
  {
    LoopOkAlong(t, j);
  }

  /******* The loop is what Run computes *******/

  lemma {:induction false} RunOverAppend(cfg: Config, p: Progress, inputs: seq<Input>, last: Input)
    requires RunOver(cfg, p, inputs).exit.Running?
    ensures RunOver(cfg, p, inputs + [last]) == React(cfg, RunOver(cfg, p, inputs), last)
    decreases |inputs|
  {
    var longer := inputs + [last];
    if inputs == [] {
      assert longer == [last];
      assert RunOver(cfg, React(cfg, p, last), []) == React(cfg, p, last);
    } else {
      assert longer[0] == inputs[0] && longer[1..] == inputs[1..] + [last];
      RunOverAppend(cfg, React(cfg, p, inputs[0]), inputs[1..], last);
    }
  }

  /** The select branch a move completes, if it completes one. */
  function Completed(s: Loop, m: Move): seq<Input>
    requires Can(s, m)
  {
    match m
    case TakeDoorbell => if LeadingEdge(s.cfg, s.v, s.now) then [] else [Doorbell(s.now, s.now, false)]
    case Finish => if s.rung then [Doorbell(s.began, s.now, false)] else [TimerFired(s.began, s.now, false)]
    case _ => []
  }

  /** Run, started at `started` and given these select results, has just these local variables. */
  ghost predicate Computed(s: Loop, started: Time, inputs: seq<Input>) {
    var p := RunOutcome(s.cfg, started, false, inputs);
    && p.exit.Running? && p.v == s.v && p.polls == |s.polls| - 1
    && (s.phase.Polling? && s.rung ==> LeadingEdge(s.cfg, s.v, s.began))
  }

  lemma MoveIsComputed(s: Loop, m: Move, started: Time, inputs: seq<Input>)
    requires Can(s, m) && Computed(s, started, inputs)
    ensures Computed(Make(s, m), started, inputs + Completed(s, m))
  {
    if Completed(s, m) == [] {
      assert inputs + [] == inputs;
    } else {
      RunOverAppend(s.cfg, Progress(AfterPoll(s.cfg, started), Running, 0, 0, 0), inputs, Completed(s, m)[0]);
      assert Completed(s, m) == [Completed(s, m)[0]];
    }
  }

  /** In every state of every behaviour, lastPoll, doorbellPending and the timer are what the method
      Run computes from the select branches completed so far: what holds of the loop holds of Run. */
  lemma {:induction false} LoopIsComputedByRun(t: seq<Loop>, j: nat) returns (inputs: seq<Input>)
    requires Behaviour(t) && j < |t|
    ensures t[j].cfg == t[0].cfg && Computed(t[j], t[0].now, inputs)
  {
    if j == 0 {
      inputs := [];
    } else {
      var before := LoopIsComputedByRun(t, j - 1);
      assert MovesAt(t, j - 1);
      inputs := StepIsComputed(t[j - 1], t[j], t[0].now, before);
    }
  }

  lemma StepIsComputed(s: Loop, s': Loop, started: Time, before: seq<Input>) returns (inputs: seq<Input>)
    requires Moves(s, s') && Computed(s, started, before)
    ensures s'.cfg == s.cfg && Computed(s', started, inputs)
  {
    var m :| Can(s, m) && s' == Make(s, m);
    MoveIsComputed(s, m, started, before);
    inputs := before + Completed(s, m);
  }

  /** A notification sent at `u` is waiting, or a poll that began at `u` or later is done or under way. */
  ghost predicate WaitingOrServed(s: Loop, u: Time) {
    || (s.unserved != [] && s.unserved[0] <= u)
    || (exists i | 0 <= i < |s.polls| :: u <= s.polls[i].start)
    || (s.phase.Polling? && u <= s.began)
  }

  lemma MoveKeepsServed(s: Loop, s': Loop, u: Time)
    requires LoopOk(s) && Moves(s, s') && u <= s.now && WaitingOrServed(s, u)
    ensures WaitingOrServed(s', u)
  {
    var m :| Can(s, m) && s' == Make(s, m);
    if m.Finish? {
      assert s'.polls[|s.polls|] == Poll(s.began, s.now);
    }
    assert forall i | 0 <= i < |s.polls| :: s'.polls[i] == s.polls[i];
  }

  lemma BehaviourStep(t: seq<Loop>, j: nat)
    requires Behaviour(t) && j + 1 < |t|
    ensures LoopOk(t[j]) && Moves(t[j], t[j + 1])
  {
    LoopOkAlong(t, j);
    assert MovesAt(t, j);
  }

  lemma ServedStep(s: Loop, s': Loop, u: Time)
    requires LoopOk(s) && Moves(s, s') && u <= s.now && WaitingOrServed(s, u)
    ensures u <= s'.now && WaitingOrServed(s', u)
  {
    MovesKeepLoopOk(s, s');
    MoveKeepsServed(s, s', u);
  }

  lemma WaitingAtOnce(s: Loop)
    requires LoopOk(s)
    ensures WaitingOrServed(Make(s, Notify), s.now) && Make(s, Notify).now == s.now
  {
  }

  lemma {:induction false} ServedAlong(t: seq<Loop>, i: nat, j: nat, u: Time)
    requires Behaviour(t) && i <= j < |t| && u <= t[i].now && WaitingOrServed(t[i], u)
    ensures u <= t[j].now && WaitingOrServed(t[j], u)
    decreases j
  {
    if i < j {
      ServedAlong(t, i, j - 1, u);
      BehaviourStep(t, j - 1);
      ServedStep(t[j - 1], t[j], u);
    }
  }

  /** No wake-up is lost: from the moment it is sent, a notification is waiting until a poll begins,
      and that poll begins no earlier than the notification. */
  lemma NotificationIsServed(t: seq<Loop>, i: nat, j: nat)
    requires Behaviour(t) && i < j < |t| && t[i + 1] == Make(t[i], Notify)
    ensures t[i].now <= t[j].now && WaitingOrServed(t[j], t[i].now)
  {
    BehaviourStep(t, i);
    WaitingAtOnce(t[i]);
    ServedAlong(t, i + 1, j, t[i].now);
  }
}
