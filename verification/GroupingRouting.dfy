/**
 * Who hears a recovery: whoever heard the down it ends - for any interleaving of
 * the monitors' signals with flushes, folds, requeues and configuration changes.
 */
module GroupingRouting {
  import opened Wrappers
  import opened Grouping
  import opened GroupingHistory
  import opened Signals

  // ---------------------------------------------------------------- who heard a down

  /**
   * Since the monitor's last recovery a down of its went to its own channels, an outage found open at
   * startup counting as one.
   */
  function UsualHeard(inherited: bool, log: seq<Entry>, id: string): bool {
    if log == [] then inherited
    else
      var before := UsualHeard(inherited, log[..|log| - 1], id);
      match log[|log| - 1]
      case Released(alert, _, _) => alert.id == id || before
      case Drained(alert, _) => alert.id == id || before
      case Resumed(other, confirmed, _) => (other == id && confirmed) || before
      case Recovered(other, _, _, _) => other != id && before
      case _ => before
  }

  /** Since the monitor's last recovery, a down of its was announced as local-only. */
  function QuietHeard(log: seq<Entry>, id: string): bool {
    if log == [] then false
    else
      var before := QuietHeard(log[..|log| - 1], id);
      match log[|log| - 1]
      case LocalOnly(alert, _) => alert.id == id || before
      case Resumed(other, _, _) => other == id || before
      case Recovered(other, _, _, _) => other != id && before
      case _ => before
  }

  lemma HeardAppend(inherited: bool, log: seq<Entry>, e: Entry, id: string)
    ensures UsualHeard(inherited, log + [e], id) ==
      match e
      case Released(alert, _, _) => alert.id == id || UsualHeard(inherited, log, id)
      case Drained(alert, _) => alert.id == id || UsualHeard(inherited, log, id)
      case Resumed(other, confirmed, _) => (other == id && confirmed) || UsualHeard(inherited, log, id)
      case Recovered(other, _, _, _) => other != id && UsualHeard(inherited, log, id)
      case _ => UsualHeard(inherited, log, id)
    ensures QuietHeard(log + [e], id) ==
      match e
      case LocalOnly(alert, _) => alert.id == id || QuietHeard(log, id)
      case Resumed(other, _, _) => other == id || QuietHeard(log, id)
      case Recovered(other, _, _, _) => other != id && QuietHeard(log, id)
      case _ => QuietHeard(log, id)
  {
    assert (log + [e])[..|log|] == log;
  }

  /** A down that goes out is the first of its block to go where it goes, and one resumed is the first of its block. */
  ghost predicate IsFirst(inherited: bool, log: seq<Entry>, e: Entry, id: string) {
    && ((e.Released? || e.Drained?) && e.alert.id == id ==> !UsualHeard(inherited, log, id))
    && (e.LocalOnly? && e.alert.id == id ==> !QuietHeard(log, id))
    && (e.Resumed? && e.id == id ==> !UsualHeard(inherited, log, id) && !QuietHeard(log, id))
  }

  ghost predicate Firsts(inherited: bool, log: seq<Entry>, entries: seq<Entry>, id: string) {
    forall k :: 0 <= k < |entries| ==> IsFirst(inherited, log + entries[..k], entries[k], id)
  }

  lemma FirstsCons(inherited: bool, log: seq<Entry>, e: Entry, rest: seq<Entry>, id: string)
    requires IsFirst(inherited, log, e, id) && Firsts(inherited, log + [e], rest, id)
    ensures Firsts(inherited, log, [e] + rest, id)
  {
    hide IsFirst;
    var entries := [e] + rest;
    forall k | 0 <= k < |entries| ensures IsFirst(inherited, log + entries[..k], entries[k], id) {
      if k == 0 {
        assert log + entries[..0] == log;
      } else {
        assert log + entries[..k] == (log + [e]) + rest[..k - 1];
        assert IsFirst(inherited, (log + [e]) + rest[..k - 1], rest[k - 1], id);
      }
    }
  }

  lemma FirstsOne(inherited: bool, log: seq<Entry>, e: Entry, id: string)
    requires IsFirst(inherited, log, e, id)
    ensures Firsts(inherited, log, [e], id)
  {
    assert [e] + [] == [e];
    FirstsCons(inherited, log, e, [], id);
  }

  // ---------------------------------------------------------------- the language of the inputs

  /** What an input says about a monitor. */
  function SignalOf(input: Input, id: string): seq<Signal> {
    match input
    case Down(alert, _) => if alert.id != id then [] else if alert.localOnly then [LocalDown] else [RealDown]
    case Recovery(other, _) => if other == id then [Signal.Recovery] else []
    case Resume(other, confirmed) => if other == id then [ResumedQuiet(confirmed)] else []
    case _ => []
  }

  /** Everything the inputs say about a monitor, in order. */
  function Projection(events: seq<Event>, id: string): seq<Signal> {
    if events == [] then []
    else Projection(events[..|events| - 1], id) + SignalOf(events[|events| - 1].input, id)
  }

  /** A monitor whose outage was found open at startup starts inside a block. */
  function StartPhase(inherited: set<string>, id: string): Phase {
    if id in inherited then Open(false, true) else Idle
  }

  function PhaseOf(inherited: set<string>, events: seq<Event>, id: string): Option<Phase> {
    PhaseAfter(StartPhase(inherited, id), Projection(events, id))
  }

  /** A monitor stays configured while it is down. */
  ghost predicate StayConfigured(inherited: set<string>, events: seq<Event>) {
    forall i, id :: 0 <= i < |events| && events[i].input.Retain? && PhaseOf(inherited, events[..i], id) != Some(Idle)
      ==> id in events[i].input.known
  }

  /** Each monitor speaks its language, and stays configured while it is down. */
  ghost predicate Spoken(inherited: set<string>, events: seq<Event>) {
    (forall id :: PhaseOf(inherited, events, id).Some?) && StayConfigured(inherited, events)
  }

  lemma PhaseStep(inherited: set<string>, events: seq<Event>, id: string)
    requires events != []
    ensures var before := PhaseOf(inherited, events[..|events| - 1], id);
            var signal := SignalOf(events[|events| - 1].input, id);
            PhaseOf(inherited, events, id) ==
              if before.None? then None else if signal == [] then before else Advance(before.value, signal[0])
  {
    var front := Projection(events[..|events| - 1], id);
    var signal := SignalOf(events[|events| - 1].input, id);
    if signal == [] {
      assert front + signal == front;
    } else {
      assert (front + signal)[..|front + signal| - 1] == front;
    }
  }

  // ---------------------------------------------------------------- the invariant

  predicate Waits(pending: seq<Pending>, id: string) {
    exists i :: 0 <= i < |pending| && pending[i].alert.id == id
  }

  ghost predicate OneEach(pending: seq<Pending>) {
    forall i, j :: 0 <= i < j < |pending| ==> pending[i].alert.id != pending[j].alert.id
  }

  /** What the collections hold about a monitor, given its phase and what was heard. */
  ghost predicate RoutedAt(s: State, usualHeard: bool, quietHeard: bool, id: string, phase: Phase) {
    var open, full := phase.Open?, phase.Open? && phase.full;
    && (id in s.quiet <==> open && phase.quiet)
    && (id in s.quiet ==> s.quiet[id] == full)
    && (quietHeard <==> open && phase.quiet)
    && (open ==> phase.quiet || phase.full)
    && (if !full then !Waits(s.pending, id) && id !in s.suppressed && !usualHeard
        else if Waits(s.pending, id) then id !in s.suppressed && !usualHeard
        else usualHeard <==> id !in s.suppressed)
  }

  ghost predicate Routed(inherited: bool, s: State, log: seq<Entry>, id: string, phase: Phase) {
    RoutedAt(s, UsualHeard(inherited, log, id), QuietHeard(log, id), id, phase)
  }

  lemma WaitsTakeOff(pending: seq<Pending>, i: nat)
    requires i < |pending| && OneEach(pending)
    ensures OneEach(SwapRemove(pending, i))
    ensures forall id :: Waits(SwapRemove(pending, i), id) <==> Waits(pending, id) && id != pending[i].alert.id
  {
    var rest, last := SwapRemove(pending, i), |pending| - 1;
    forall id ensures Waits(rest, id) <==> Waits(pending, id) && id != pending[i].alert.id {
      if Waits(pending, id) && id != pending[i].alert.id {
        var j :| 0 <= j < |pending| && pending[j].alert.id == id;
        assert rest[if j == last then i else j].alert.id == id;
      }
    }
  }

  lemma WaitsPush(pending: seq<Pending>, p: Pending)
    requires OneEach(pending) && !Waits(pending, p.alert.id)
    ensures OneEach(pending + [p])
    ensures forall id :: Waits(pending + [p], id) <==> Waits(pending, id) || id == p.alert.id
  {
    var more := pending + [p];
    assert more[|pending|] == p;
    forall id | Waits(pending, id) ensures Waits(more, id) {
      var j :| 0 <= j < |pending| && pending[j].alert.id == id;
      assert more[j].alert.id == id;
    }
  }

  lemma RoutedSettleOne(inherited: bool, s: State, i: nat, log: seq<Entry>, now: int, id: string, phase: Phase)
    requires i < |s.pending| && OneEach(s.pending) && Routed(inherited, s, log, id, phase)
    ensures var one := SettleOne(TakeOff(s, i), s.pending[i], now);
            && OneEach(one.state.pending) && Routed(inherited, one.state, log + one.entries, id, phase)
            && one.entries == [one.entries[0]] && IsFirst(inherited, log, one.entries[0], id)
  {
    hide Waits, OneEach, CoveredUpstream, SwapRemove, UsualHeard, QuietHeard;
    var p, rest := s.pending[i], TakeOff(s, i);
    var one := SettleOne(rest, p, now);
    WaitsTakeOff(s.pending, i);
    WaitsHere(s.pending, i);
    assert one.entries == [one.entries[0]];
    HeardAppend(inherited, log, one.entries[0], id);
    if one.entries[0].Requeued? {
      WaitsPush(rest.pending, one.state.pending[|rest.pending|]);
    }
  }

  lemma WaitsHere(pending: seq<Pending>, i: nat)
    requires i < |pending|
    ensures Waits(pending, pending[i].alert.id)
  {
  }

  lemma {:induction false} RoutedSettle(inherited: bool, s: State, log: seq<Entry>, now: int, id: string, phase: Phase)
    requires OneEach(s.pending) && Routed(inherited, s, log, id, phase)
    ensures OneEach(Settle(s, now).state.pending)
    ensures Routed(inherited, Settle(s, now).state, log + Settle(s, now).entries, id, phase)
    ensures Firsts(inherited, log, Settle(s, now).entries, id)
    decreases Work(s.pending)
  {
    hide Routed, OneEach, SettleOne, Work, IsFirst;
    var next := NextExpired(s.pending, now);
    if next.None? {
      assert log + [] == log;
    } else {
      var i := next.value;
      SettlingProgresses(s, i, now);
      RoutedSettleOne(inherited, s, i, log, now, id, phase);
      var one := SettleOne(TakeOff(s, i), s.pending[i], now);
      RoutedSettle(inherited, one.state, log + one.entries, now, id, phase);
      assert log + Settle(s, now).entries == (log + one.entries) + Settle(one.state, now).entries;
      FirstsCons(inherited, log, one.entries[0], Settle(one.state, now).entries, id);
    }
  }

  lemma WaitsTail(queue: seq<Pending>)
    requires queue != [] && OneEach(queue)
    ensures OneEach(queue[1..])
    ensures forall id :: Waits(queue[1..], id) <==> Waits(queue, id) && id != queue[0].alert.id
  {
    forall id ensures Waits(queue[1..], id) <==> Waits(queue, id) && id != queue[0].alert.id {
      if Waits(queue, id) && id != queue[0].alert.id {
        var j :| 0 <= j < |queue| && queue[j].alert.id == id;
        assert queue[1..][j - 1].alert.id == id;
      }
    }
  }

  /** Draining: an alert not looked at yet still counts as queued. */
  lemma {:induction false} RoutedDrain(inherited: bool, s: State, queue: seq<Pending>, log: seq<Entry>, now: int,
                                       id: string, phase: Phase)
    requires OneEach(queue) && Routed(inherited, s.(pending := queue), log, id, phase) && s.pending == []
    ensures Routed(inherited, DrainAll(s, queue, now).state, log + DrainAll(s, queue, now).entries, id, phase)
    ensures DrainAll(s, queue, now).state.pending == []
    ensures Firsts(inherited, log, DrainAll(s, queue, now).entries, id)
    decreases |queue|
  {
    hide Waits, OneEach, CoveredUpstream, UsualHeard, QuietHeard;
    if queue == [] {
      assert log + [] == log;
    } else {
      var one := DrainOne(s, queue[0].alert, now);
      WaitsTail(queue);
      WaitsHere(queue, 0);
      assert one.entries == [one.entries[0]];
      HeardAppend(inherited, log, one.entries[0], id);
      RoutedDrain(inherited, one.state, queue[1..], log + one.entries, now, id, phase);
      assert log + DrainAll(s, queue, now).entries
        == (log + one.entries) + DrainAll(one.state, queue[1..], now).entries;
      FirstsCons(inherited, log, one.entries[0], DrainAll(one.state, queue[1..], now).entries, id);
    }
  }

  lemma RoutedDown(inherited: bool, s: State, log: seq<Entry>, alert: DownAlert, now: int, window: nat, id: string,
                   phase: Phase, phase': Phase)
    requires OneEach(s.pending) && Routed(inherited, s, log, id, phase)
    requires if alert.id != id then phase' == phase
             else Advance(phase, if alert.localOnly then LocalDown else RealDown) == Some(phase')
    requires !alert.localOnly ==> !Waits(s.pending, alert.id)
    ensures OneEach(OnDown(s, alert, now, window).state.pending)
    ensures Routed(inherited, OnDown(s, alert, now, window).state, log + OnDown(s, alert, now, window).entries, id,
      phase')
    ensures Firsts(inherited, log, OnDown(s, alert, now, window).entries, id)
  {
    hide Waits, OneEach, CoveredUpstream, UsualHeard, QuietHeard;
    var r := OnDown(s, alert, now, window);
    assert r.entries == [r.entries[0]];
    HeardAppend(inherited, log, r.entries[0], id);
    FirstsOne(inherited, log, r.entries[0], id);
    if r.entries[0].Queued? {
      WaitsPush(s.pending, r.state.pending[|s.pending|]);
    }
  }

  lemma PositionWaits(pending: seq<Pending>, id: string)
    ensures Position(pending, id).Some? <==> Waits(pending, id)
  {
    if Waits(pending, id) {
      var i :| 0 <= i < |pending| && pending[i].alert.id == id;
      assert pending[i] in pending;
    }
  }

  lemma RoutedRecovery(inherited: bool, s: State, log: seq<Entry>, other: string, now: int, id: string, phase: Phase)
    requires OneEach(s.pending) && Routed(inherited, s, log, id, phase) && (other == id ==> phase.Open?)
    ensures var r := OnRecovered(s, other, now);
      && OneEach(r.state.pending)
      && Routed(inherited, r.state, log + r.entries, id, if other == id then Idle else phase)
      && (other == id ==> r.entries[0].recipients == RecipientsOf(UsualHeard(inherited, log, id), QuietHeard(log, id)))
      && Firsts(inherited, log, r.entries, id)
  {
    hide Waits, OneEach, UsualHeard, QuietHeard, SwapRemove;
    var r := OnRecovered(s, other, now);
    assert r.entries == [r.entries[0]];
    HeardAppend(inherited, log, r.entries[0], id);
    PositionWaits(s.pending, other);
    var position := Position(s.pending, other);
    if position.Some? {
      WaitsTakeOff(s.pending, position.value);
    }
  }

  lemma RoutedResume(inherited: bool, s: State, log: seq<Entry>, other: string, confirmed: bool, now: int,
                     id: string, phase: Phase, phase': Phase)
    requires OneEach(s.pending) && Routed(inherited, s, log, id, phase)
    requires if other == id then Advance(phase, ResumedQuiet(confirmed)) == Some(phase') else phase' == phase
    ensures var r := ResumeLocalOnly(s, other, confirmed, now);
      && OneEach(r.state.pending)
      && Routed(inherited, r.state, log + r.entries, id, phase')
      && Firsts(inherited, log, r.entries, id)
  {
    hide OneEach, Waits, UsualHeard, QuietHeard;
    HeardAppend(inherited, log, Resumed(other, confirmed, now), id);
    FirstsOne(inherited, log, Resumed(other, confirmed, now), id);
  }

  /** One event, seen from one monitor. */
  lemma RoutedApply(inherited: bool, s: State, log: seq<Entry>, e: Event, id: string, phase: Phase, phase': Phase)
    requires OneEach(s.pending) && Routed(inherited, s, log, id, phase)
    requires if SignalOf(e.input, id) == [] then phase' == phase
      else Advance(phase, SignalOf(e.input, id)[0]) == Some(phase')
    requires e.input.Down? && !e.input.alert.localOnly ==> !Waits(s.pending, e.input.alert.id)
    requires e.input.Retain? && phase.Open? ==> id in e.input.known
    ensures OneEach(Apply(s, e).state.pending)
    ensures Routed(inherited, Apply(s, e).state, log + Apply(s, e).entries, id, phase')
    ensures Firsts(inherited, log, Apply(s, e).entries, id)
    ensures e.input.Recovery? && e.input.id == id ==>
      Apply(s, e).entries[0].recipients == RecipientsOf(UsualHeard(inherited, log, id), QuietHeard(log, id))
  {
    hide OneEach, Waits, UsualHeard, QuietHeard, OnDown, OnRecovered, Settle, DrainAll, ResumeLocalOnly;
    match e.input {
      case Down(alert, window) => RoutedDown(inherited, s, log, alert, e.now, window, id, phase, phase');
      case Recovery(other, _) => RoutedRecovery(inherited, s, log, other, e.now, id, phase);
      case Resume(other, confirmed) => RoutedResume(inherited, s, log, other, confirmed, e.now, id, phase, phase');
      case Retain(known) => HeardAppend(inherited, log, Retained(known, e.now), id);
      case FlushDue => RoutedSettle(inherited, Prune(s, e.now), log, e.now, id, phase);
      case Shutdown =>
        RoutedDrain(inherited, Prune(s, e.now).(pending := []), s.pending, log, e.now, id, phase);
        NobodyWaits();
    }
  }

  lemma NobodyWaits()
    ensures OneEach([])
  {
  }

  lemma {:induction false} PlayIsRouted(inherited: set<string>, events: seq<Event>)
    requires Spoken(inherited, events)
    ensures OneEach(Play(events).state.pending)
    ensures forall id ::
      Routed(id in inherited, Play(events).state, Play(events).entries, id, PhaseOf(inherited, events, id).value)
  {
    hide Routed, OneEach, Apply;
    if events == [] {
      NobodyWaits();
      forall id ensures Routed(id in inherited, EMPTY, [], id, PhaseOf(inherited, [], id).value) {
        RoutedStart(inherited, id);
      }
    } else {
      SpokenPrefix(inherited, events);
      PlayIsRouted(inherited, events[..|events| - 1]);
      forall id ensures
        && Routed(id in inherited, Play(events).state, Play(events).entries, id, PhaseOf(inherited, events, id).value)
        && OneEach(Play(events).state.pending)
      {
        RoutedLast(inherited, events, id);
      }
      RoutedLast(inherited, events, "");
    }
  }

  lemma RoutedStart(inherited: set<string>, id: string)
    ensures Routed(id in inherited, EMPTY, [], id, PhaseOf(inherited, [], id).value)
  {
  }

  lemma SpokenPrefix(inherited: set<string>, events: seq<Event>)
    requires Spoken(inherited, events) && events != []
    ensures Spoken(inherited, events[..|events| - 1])
  {
    hide PhaseOf;
    var front := events[..|events| - 1];
    forall id ensures PhaseOf(inherited, front, id).Some? {
      assert PhaseOf(inherited, events, id).Some?;
      PhaseStep(inherited, events, id);
    }
    forall i, id | 0 <= i < |front| && front[i].input.Retain? && PhaseOf(inherited, front[..i], id) != Some(Idle)
      ensures id in front[i].input.known
    {
      assert front[..i] == events[..i] && front[i] == events[i];
    }
  }

  /** The state an event finds, when everything before it was spoken. */
  ghost predicate RoutedBefore(inherited: set<string>, events: seq<Event>)
    requires events != []
  {
    var before, front := Play(events[..|events| - 1]), events[..|events| - 1];
    && OneEach(before.state.pending)
    && forall id ::
      PhaseOf(inherited, front, id).Some?
        && Routed(id in inherited, before.state, before.entries, id, PhaseOf(inherited, front, id).value)
  }

  lemma RoutedLast(inherited: set<string>, events: seq<Event>, id: string)
    requires Spoken(inherited, events) && events != [] && RoutedBefore(inherited, events)
    ensures OneEach(Play(events).state.pending)
    ensures Routed(id in inherited, Play(events).state, Play(events).entries, id, PhaseOf(inherited, events, id).value)
    ensures var before := Play(events[..|events| - 1]);
            Firsts(id in inherited, before.entries, Apply(before.state, events[|events| - 1]).entries, id)
    ensures var before := Play(events[..|events| - 1]);
            var last := events[|events| - 1];
            last.input.Recovery? && last.input.id == id ==>
              Apply(before.state, last).entries[0].recipients ==
                RecipientsOf(UsualHeard(id in inherited, before.entries, id), QuietHeard(before.entries, id))
  {
    hide PhaseOf, Apply, Routed, UsualHeard, QuietHeard;
    var n := |events| - 1;
    var front, e := events[..n], events[n];
    var before := Play(front);
    assert PhaseOf(inherited, events, id).Some?;
    PhaseStep(inherited, events, id);
    if e.input.Down? && !e.input.alert.localOnly {
      FreeToQueue(inherited, events, e.input.alert.id);
    }
    assert e.input.Retain? && PhaseOf(inherited, front, id) != Some(Idle) ==> id in e.input.known by {
      assert events[..n] == front;
    }
    RoutedApply(id in inherited, before.state, before.entries, e, id, PhaseOf(inherited, front, id).value,
      PhaseOf(inherited, events, id).value);
  }

  /** A real down arriving in its place finds none of its monitor's downs queued. */
  lemma FreeToQueue(inherited: set<string>, events: seq<Event>, id: string)
    requires Spoken(inherited, events) && events != [] && RoutedBefore(inherited, events)
    requires SignalOf(events[|events| - 1].input, id) == [RealDown]
    ensures !Waits(Play(events[..|events| - 1]).state.pending, id)
  {
    hide PhaseOf, Apply, Waits, UsualHeard, QuietHeard, Play, OneEach;
    assert PhaseOf(inherited, events, id).Some?;
    PhaseStep(inherited, events, id);
    var front := events[..|events| - 1];
    assert Routed(id in inherited, Play(front).state, Play(front).entries, id, PhaseOf(inherited, front, id).value);
  }

  /**
   * Each recovery goes to whoever heard the down it ends: the monitor's own
   * channels exactly when its real down was sent, the quiet ones exactly when
   * it was announced as local-only - over any spoken run, at any moment of it.
   */
  lemma RecoveryGoesToWhoeverHeard(inherited: set<string>, events: seq<Event>, i: nat, id: string)
    requires Spoken(inherited, events) && i < |events| && events[i].input.Recovery? && events[i].input.id == id
    ensures var before := Play(events[..i]);
            var step := Apply(before.state, events[i]).entries;
            && |step| == 1 && step[0].Recovered?
            && step[0].recipients
              == RecipientsOf(UsualHeard(id in inherited, before.entries, id), QuietHeard(before.entries, id))
    decreases |events|
  {
    hide Routed, Apply;
    if i < |events| - 1 {
      SpokenPrefix(inherited, events);
      var front := events[..|events| - 1];
      RecoveryGoesToWhoeverHeard(inherited, front, i, id);
      assert front[..i] == events[..i];
    } else {
      SpokenPrefix(inherited, events);
      PlayIsRouted(inherited, events[..i]);
      RoutedLast(inherited, events, id);
      OneRecoveryEntry(Play(events[..i]).state, events[i]);
    }
  }

  lemma OneRecoveryEntry(s: State, e: Event)
    requires e.input.Recovery?
    ensures |Apply(s, e).entries| == 1 && Apply(s, e).entries[0].Recovered?
  {
  }

  // ---------------------------------------------------------------- silenced recoveries

  /** The monitor's last verdict was a fold, and neither its recovery nor its removal came since. */
  predicate Silenced(log: seq<Entry>, id: string) {
    log != [] && SilencedStep(Silenced(log[..|log| - 1], id), log[|log| - 1], id)
  }

  predicate SilencedStep(before: bool, e: Entry, id: string) {
    match e
    case Released(alert, _, _) => alert.id != id && before
    case Drained(alert, _) => alert.id != id && before
    case Folded(alert, _) => alert.id == id || before
    case Recovered(other, _, dropped, _) => (other != id || dropped != []) && before
    case Retained(known, _) => id in known && before
    case _ => before
  }

  lemma SilencedAppend(log: seq<Entry>, e: Entry, id: string)
    ensures Silenced(log + [e], id) == SilencedStep(Silenced(log, id), e, id)
  {
    assert (log + [e])[..|log|] == log;
  }

  lemma SilencedSettleOne(s: State, i: nat, log: seq<Entry>, now: int, id: string)
    requires i < |s.pending| && (id in s.suppressed <==> Silenced(log, id))
    ensures var one := SettleOne(TakeOff(s, i), s.pending[i], now);
      && one.entries == [one.entries[0]]
      && (id in one.state.suppressed <==> Silenced(log + one.entries, id))
  {
    hide CoveredUpstream, Silenced, SwapRemove;
    var one := SettleOne(TakeOff(s, i), s.pending[i], now);
    assert one.entries == [one.entries[0]];
    SilencedAppend(log, one.entries[0], id);
  }

  lemma {:induction false} SilencedSettle(s: State, log: seq<Entry>, now: int, id: string)
    requires id in s.suppressed <==> Silenced(log, id)
    ensures id in Settle(s, now).state.suppressed <==> Silenced(log + Settle(s, now).entries, id)
    decreases Work(s.pending)
  {
    hide Silenced, SettleOne, Work;
    var next := NextExpired(s.pending, now);
    if next.None? {
      assert log + [] == log;
    } else {
      var i := next.value;
      SettlingProgresses(s, i, now);
      SilencedSettleOne(s, i, log, now, id);
      var one := SettleOne(TakeOff(s, i), s.pending[i], now);
      SilencedSettle(one.state, log + one.entries, now, id);
      assert log + Settle(s, now).entries == (log + one.entries) + Settle(one.state, now).entries;
    }
  }

  lemma {:induction false} SilencedDrain(s: State, queue: seq<Pending>, log: seq<Entry>, now: int, id: string)
    requires id in s.suppressed <==> Silenced(log, id)
    ensures id in DrainAll(s, queue, now).state.suppressed <==> Silenced(log + DrainAll(s, queue, now).entries, id)
    decreases |queue|
  {
    hide CoveredUpstream, Silenced;
    if queue == [] {
      assert log + [] == log;
    } else {
      var one := DrainOne(s, queue[0].alert, now);
      assert one.entries == [one.entries[0]];
      SilencedAppend(log, one.entries[0], id);
      SilencedDrain(one.state, queue[1..], log + one.entries, now, id);
      assert log + DrainAll(s, queue, now).entries
        == (log + one.entries) + DrainAll(one.state, queue[1..], now).entries;
    }
  }

  lemma SilencedApply(s: State, log: seq<Entry>, e: Event, id: string)
    requires id in s.suppressed <==> Silenced(log, id)
    ensures id in Apply(s, e).state.suppressed <==> Silenced(log + Apply(s, e).entries, id)
  {
    hide CoveredUpstream, SwapRemove, Silenced, Settle, DrainAll;
    match e.input {
      case FlushDue => SilencedSettle(Prune(s, e.now), log, e.now, id);
      case Shutdown => SilencedDrain(Prune(s, e.now).(pending := []), s.pending, log, e.now, id);
      case _ =>
        var entries := Apply(s, e).entries;
        assert entries == [entries[0]];
        SilencedAppend(log, entries[0], id);
    }
  }

  /** Over any run, the recoveries to be kept quiet are those of the monitors whose down was folded last. */
  lemma {:induction false} SuppressionIsTold(events: seq<Event>, id: string)
    ensures id in Play(events).state.suppressed <==> Silenced(Play(events).entries, id)
  {
    hide Apply;
    if events != [] {
      var n := |events| - 1;
      SuppressionIsTold(events[..n], id);
      SilencedApply(Play(events[..n]).state, Play(events[..n]).entries, events[n], id);
    }
  }

  // ---------------------------------------------------------------- monitors that are no longer configured

  /** The coalescer remembers nothing of a monitor that changes who hears its next recovery. */
  ghost predicate Forgotten(s: State, id: string) {
    id !in s.suppressed && id !in s.quiet && !Waits(s.pending, id)
  }

  lemma ForgottenSettleOne(s: State, i: nat, now: int, id: string)
    requires i < |s.pending| && Forgotten(s, id)
    ensures Forgotten(SettleOne(TakeOff(s, i), s.pending[i], now).state, id)
  {
    hide CoveredUpstream;
    WaitsHere(s.pending, i);
    SwapRemoveSubset(s.pending, i);
  }

  lemma {:induction false} ForgottenSettle(s: State, now: int, id: string)
    requires Forgotten(s, id)
    ensures Forgotten(Settle(s, now).state, id)
    decreases Work(s.pending)
  {
    hide Forgotten, SettleOne, Work;
    var next := NextExpired(s.pending, now);
    if next.Some? {
      SettlingProgresses(s, next.value, now);
      ForgottenSettleOne(s, next.value, now, id);
      ForgottenSettle(SettleOne(TakeOff(s, next.value), s.pending[next.value], now).state, now, id);
    }
  }

  lemma {:induction false} ForgottenDrain(s: State, queue: seq<Pending>, now: int, id: string)
    requires Forgotten(s, id) && !Waits(queue, id)
    ensures Forgotten(DrainAll(s, queue, now).state, id)
    decreases |queue|
  {
    hide CoveredUpstream;
    if queue != [] {
      WaitsHere(queue, 0);
      assert forall i :: 0 <= i < |queue| - 1 ==> queue[1..][i] == queue[i + 1];
      ForgottenDrain(DrainOne(s, queue[0].alert, now).state, queue[1..], now, id);
    }
  }

  lemma ForgottenApply(s: State, e: Event, id: string)
    requires Forgotten(s, id) && SignalOf(e.input, id) == []
    ensures Forgotten(Apply(s, e).state, id)
  {
    hide Settle, DrainAll, CoveredUpstream, SwapRemove;
    match e.input {
      case FlushDue => ForgottenSettle(Prune(s, e.now), e.now, id);
      case Shutdown => ForgottenDrain(Prune(s, e.now).(pending := []), s.pending, e.now, id);
      case Recovery(other, _) =>
        var position := Position(s.pending, other);
        if position.Some? {
          SwapRemoveSubset(s.pending, position.value);
          WaitsInSuperset(SwapRemove(s.pending, position.value), s.pending, id);
        }
      case _ =>
    }
  }

  lemma WaitsInSuperset(fewer: seq<Pending>, pending: seq<Pending>, id: string)
    requires forall p :: p in fewer ==> p in pending
    ensures Waits(fewer, id) ==> Waits(pending, id)
  {
    if Waits(fewer, id) {
      var i :| 0 <= i < |fewer| && fewer[i].alert.id == id;
      assert fewer[i] in pending;
    }
  }

  lemma {:induction false} ForgottenOn(events: seq<Event>, i: nat, j: nat, id: string)
    requires i < j <= |events| && events[i].input.Retain? && id !in events[i].input.known
    requires !Waits(Play(events[..i]).state.pending, id)
    requires forall k :: i < k < j ==> SignalOf(events[k].input, id) == []
    ensures Forgotten(Play(events[..j]).state, id)
  {
    hide Apply, Waits;
    assert events[..j][..j - 1] == events[..j - 1];
    if i + 1 < j {
      ForgottenOn(events, i, j - 1, id);
      ForgottenApply(Play(events[..j - 1]).state, events[j - 1], id);
    } else {
      RetainDrops(Play(events[..i]).state, events[i]);
    }
  }

  lemma RetainDrops(s: State, e: Event)
    requires e.input.Retain?
    ensures var s' := Apply(s, e).state;
      && s'.pending == s.pending
      && s'.suppressed <= e.input.known && s'.quiet.Keys <= e.input.known
  {
  }

  /**
   * A monitor no longer configured is forgotten: when it comes back and nothing was said of it since,
   * its recovery goes to its own channels, whatever was folded or kept quiet before.
   */
  lemma RemovalForgets(events: seq<Event>, i: nat, j: nat, id: string)
    requires i < j < |events| && events[i].input.Retain? && id !in events[i].input.known
    requires !Waits(Play(events[..i]).state.pending, id)
    requires forall k :: i < k < j ==> SignalOf(events[k].input, id) == []
    requires events[j].input.Recovery? && events[j].input.id == id
    ensures Apply(Play(events[..j]).state, events[j]).entries == [Recovered(id, Usual, [], events[j].now)]
  {
    hide Play, Waits;
    ForgottenOn(events, i, j, id);
    PositionWaits(Play(events[..j]).state.pending, id);
  }
}
