/** A queued down waits for a queued upstream once: no place in the queue is used for two requeues. */
module GroupingRequeues {
  import opened Grouping
  import opened GroupingHistory
  import opened GroupingRouting

  /** The alert's last place in the queue has not been used for a requeue. */
  predicate Unused(log: seq<Entry>, alert: DownAlert) {
    if log == [] then false
    else
      var before := Unused(log[..|log| - 1], alert);
      match log[|log| - 1]
      case Queued(other, _, _) => other == alert || before
      case Requeued(other, _, _) => other != alert && before
      case _ => before
  }

  lemma UnusedAppend(log: seq<Entry>, e: Entry, alert: DownAlert)
    ensures Unused(log + [e], alert) ==
      match e
      case Queued(other, _, _) => other == alert || Unused(log, alert)
      case Requeued(other, _, _) => other != alert && Unused(log, alert)
      case _ => Unused(log, alert)
  {
    assert (log + [e])[..|log|] == log;
  }

  /** Whoever was not requeued yet has an unused place, and every requeue so far used one. */
  ghost predicate Frugal(pending: seq<Pending>, log: seq<Entry>) {
    && OneEach(pending)
    && (forall p :: p in pending && !p.requeued ==> Unused(log, p.alert))
    && (forall j :: 0 <= j < |log| && log[j].Requeued? ==> Unused(log[..j], log[j].alert))
  }

  lemma EntryAppend(log: seq<Entry>, e: Entry)
    requires forall j :: 0 <= j < |log| && log[j].Requeued? ==> Unused(log[..j], log[j].alert)
    requires e.Requeued? ==> Unused(log, e.alert)
    ensures var log' := log + [e];
      forall j :: 0 <= j < |log'| && log'[j].Requeued? ==> Unused(log'[..j], log'[j].alert)
  {
    hide Unused;
    var log' := log + [e];
    forall j | 0 <= j < |log'| && log'[j].Requeued? ensures Unused(log'[..j], log'[j].alert) {
      if j < |log| {
        assert log'[..j] == log[..j];
      } else {
        assert log'[..j] == log;
      }
    }
  }

  /** An entry that is no requeue, with a queue that lost elements at most, or gained the one just queued. */
  lemma FrugalAppend(pending: seq<Pending>, log: seq<Entry>, e: Entry, pending': seq<Pending>)
    requires Frugal(pending, log) && !e.Requeued? && OneEach(pending')
    requires forall p :: p in pending' ==> p in pending || (e.Queued? && p.alert == e.alert)
    ensures Frugal(pending', log + [e])
  {
    hide Unused, OneEach;
    EntryAppend(log, e);
    forall p | p in pending' && !p.requeued ensures Unused(log + [e], p.alert) {
      UnusedAppend(log, e, p.alert);
    }
  }

  lemma OthersDiffer(pending: seq<Pending>, i: nat)
    requires i < |pending| && OneEach(pending)
    ensures forall p :: p in SwapRemove(pending, i) ==> p in pending && p.alert != pending[i].alert
  {
  }

  lemma FrugalSettleOne(s: State, i: nat, log: seq<Entry>, now: int)
    requires i < |s.pending| && Frugal(s.pending, log)
    ensures var one := SettleOne(TakeOff(s, i), s.pending[i], now);
      Frugal(one.state.pending, log + one.entries)
  {
    hide OneEach, Waits, CoveredUpstream, SwapRemove, Unused;
    var p, rest := s.pending[i], TakeOff(s, i);
    var one := SettleOne(rest, p, now);
    WaitsTakeOff(s.pending, i);
    OthersDiffer(s.pending, i);
    assert one.entries == [one.entries[0]] && p in s.pending;
    if one.entries[0].Requeued? {
      var again := one.state.pending[|rest.pending|];
      WaitsPush(rest.pending, again);
      EntryAppend(log, one.entries[0]);
      forall q | q in one.state.pending && !q.requeued ensures Unused(log + one.entries, q.alert) {
        UnusedAppend(log, one.entries[0], q.alert);
      }
    } else {
      FrugalAppend(s.pending, log, one.entries[0], one.state.pending);
    }
  }

  lemma {:induction false} FrugalSettle(s: State, log: seq<Entry>, now: int)
    requires Frugal(s.pending, log)
    ensures Frugal(Settle(s, now).state.pending, log + Settle(s, now).entries)
    decreases Work(s.pending)
  {
    hide Frugal, SettleOne, Work;
    var next := NextExpired(s.pending, now);
    if next.None? {
      assert log + [] == log;
    } else {
      var i := next.value;
      SettlingProgresses(s, i, now);
      FrugalSettleOne(s, i, log, now);
      var one := SettleOne(TakeOff(s, i), s.pending[i], now);
      FrugalSettle(one.state, log + one.entries, now);
      assert log + Settle(s, now).entries == (log + one.entries) + Settle(one.state, now).entries;
    }
  }

  lemma {:induction false} FrugalDrain(s: State, queue: seq<Pending>, log: seq<Entry>, now: int)
    requires Frugal([], log) && s.pending == []
    ensures Frugal(DrainAll(s, queue, now).state.pending, log + DrainAll(s, queue, now).entries)
    decreases |queue|
  {
    hide Frugal, CoveredUpstream, OneEach;
    if queue == [] {
      assert log + [] == log;
    } else {
      var one := DrainOne(s, queue[0].alert, now);
      assert one.entries == [one.entries[0]];
      NobodyWaits();
      FrugalAppend([], log, one.entries[0], []);
      FrugalDrain(one.state, queue[1..], log + one.entries, now);
      assert log + DrainAll(s, queue, now).entries
        == (log + one.entries) + DrainAll(one.state, queue[1..], now).entries;
    }
  }

  lemma FrugalApply(s: State, log: seq<Entry>, e: Event)
    requires Frugal(s.pending, log)
    requires e.input.Down? && !e.input.alert.localOnly ==> !Waits(s.pending, e.input.alert.id)
    ensures Frugal(Apply(s, e).state.pending, log + Apply(s, e).entries)
  {
    hide OneEach, Waits, CoveredUpstream, SwapRemove, Unused, Settle, DrainAll;
    var r := Apply(s, e);
    match e.input {
      case FlushDue => FrugalSettle(Prune(s, e.now), log, e.now);
      case Shutdown =>
        NobodyWaits();
        assert Frugal([], log);
        FrugalDrain(Prune(s, e.now).(pending := []), s.pending, log, e.now);
      case Down(alert, window) =>
        assert r.entries == [r.entries[0]];
        if r.entries[0].Queued? {
          WaitsPush(s.pending, r.state.pending[|s.pending|]);
        }
        FrugalAppend(s.pending, log, r.entries[0], r.state.pending);
      case Recovery(id, _) =>
        assert r.entries == [r.entries[0]];
        var position := Position(s.pending, id);
        if position.Some? {
          WaitsTakeOff(s.pending, position.value);
          SwapRemoveSubset(s.pending, position.value);
        }
        FrugalAppend(s.pending, log, r.entries[0], r.state.pending);
      case _ =>
        assert r.entries == [r.entries[0]];
        FrugalAppend(s.pending, log, r.entries[0], r.state.pending);
    }
  }

  lemma {:induction false} PlayIsFrugal(inherited: set<string>, events: seq<Event>)
    requires Spoken(inherited, events)
    ensures Frugal(Play(events).state.pending, Play(events).entries)
  {
    hide Apply, OneEach, Unused, PhaseOf, Routed, Waits;
    if events == [] {
      NobodyWaits();
    } else {
      var n := |events| - 1;
      SpokenPrefix(inherited, events);
      PlayIsFrugal(inherited, events[..n]);
      PlayIsRouted(inherited, events[..n]);
      if events[n].input.Down? && !events[n].input.alert.localOnly {
        FreeToQueue(inherited, events, events[n].input.alert.id);
      }
      FrugalApply(Play(events[..n]).state, Play(events[..n]).entries, events[n]);
    }
  }

  /** An alert with an unused place after a requeue was queued again in between. */
  lemma {:induction false} UsedThenQueued(log: seq<Entry>, i: nat, alert: DownAlert)
    requires i < |log| && log[i].Requeued? && log[i].alert == alert && Unused(log, alert)
    ensures exists k :: i < k < |log| && log[k].Queued? && log[k].alert == alert
    decreases |log|
  {
    var n := |log| - 1;
    if i < n && !(log[n].Queued? && log[n].alert == alert) {
      UsedThenQueued(log[..n], i, alert);
    }
  }

  /**
   * Once in its life: over any spoken run, between two requeues of one alert it was queued
   * anew, so no stay in the queue is ever prolonged twice.
   */
  lemma RequeuedOncePerStay(inherited: set<string>, events: seq<Event>, i: nat, j: nat)
    requires Spoken(inherited, events) && i < j < |Play(events).entries|
    requires var log := Play(events).entries; log[i].Requeued? && log[j].Requeued? && log[i].alert == log[j].alert
    ensures var log := Play(events).entries;
      exists k :: i < k < j && log[k].Queued? && log[k].alert == log[i].alert
  {
    hide Play, Unused, OneEach;
    var log := Play(events).entries;
    PlayIsFrugal(inherited, events);
    UsedThenQueued(log[..j], i, log[i].alert);
  }
}
