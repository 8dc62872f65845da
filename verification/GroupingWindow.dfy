/** A grouped alert waits out its window: nothing leaves the queue by itself before its deadline. */
module GroupingWindow {
  import opened Wrappers
  import opened Grouping
  import opened GroupingHistory

  /** By then, some event had handed this down over at least its grouping window before. */
  ghost predicate WaitedOut(events: seq<Event>, alert: DownAlert, due: int) {
    exists j :: 0 <= j < |events| && HandsOver(events[j], alert, due)
  }

  ghost predicate HandsOver(e: Event, alert: DownAlert, due: int) {
    && e.input.Down? && e.input.alert == alert && !alert.localOnly
    && alert.upstreams != [] && e.input.window > 0 && due >= SaturatingAdd(e.now, e.input.window)
  }

  /** Everything queued is due after its window, and everything released from the queue was. */
  ghost predicate Patient(events: seq<Event>, pending: seq<Pending>, entries: seq<Entry>) {
    && (forall p :: p in pending ==> WaitedOut(events, p.alert, p.deadline))
    && (forall e :: e in entries && e.Released? && e.grouped ==> WaitedOut(events, e.alert, e.at))
  }

  lemma StillWaited(events: seq<Event>, events': seq<Event>, alert: DownAlert, due: int, later: int)
    requires events <= events' && due <= later && WaitedOut(events, alert, due)
    ensures WaitedOut(events', alert, later)
  {
    var j :| 0 <= j < |events| && HandsOver(events[j], alert, due);
    assert events'[j] == events[j] && HandsOver(events'[j], alert, later);
  }

  lemma PatientSettleOne(events: seq<Event>, s: State, i: nat, now: int)
    requires i < |s.pending| && s.pending[i].deadline <= now && Patient(events, s.pending, [])
    requires now <= I64_MAX
    ensures var one := SettleOne(TakeOff(s, i), s.pending[i], now); Patient(events, one.state.pending, one.entries)
  {
    hide WaitedOut, CoveredUpstream, SwapRemove;
    var p := s.pending[i];
    SwapRemoveSubset(s.pending, i);
    var one := SettleOne(TakeOff(s, i), p, now);
    assert one.entries == [one.entries[0]] && p in s.pending;
    StillWaited(events, events, p.alert, p.deadline, now);
    if one.entries[0].Requeued? {
      StillWaited(events, events, p.alert, p.deadline, one.state.pending[|s.pending| - 1].deadline);
    }
  }

  lemma {:induction false} PatientSettle(events: seq<Event>, s: State, now: int)
    requires Patient(events, s.pending, []) && now <= I64_MAX
    ensures Patient(events, Settle(s, now).state.pending, Settle(s, now).entries)
    decreases Work(s.pending)
  {
    hide WaitedOut, SettleOne, Work;
    var next := NextExpired(s.pending, now);
    if next.Some? {
      SettlingProgresses(s, next.value, now);
      PatientSettleOne(events, s, next.value, now);
      PatientSettle(events, SettleOne(TakeOff(s, next.value), s.pending[next.value], now).state, now);
    }
  }

  lemma {:induction false} DrainReleasesNothing(s: State, queue: seq<Pending>, now: int)
    ensures DrainAll(s, queue, now).state.pending == s.pending
    ensures forall e :: e in DrainAll(s, queue, now).entries ==> !e.Released?
    decreases |queue|
  {
    if queue != [] {
      DrainReleasesNothing(DrainOne(s, queue[0].alert, now).state, queue[1..], now);
    }
  }

  lemma PatientApply(events: seq<Event>, s: State)
    requires events != [] && Patient(events, s.pending, []) && events[|events| - 1].now <= I64_MAX
    ensures var r := Apply(s, events[|events| - 1]); Patient(events, r.state.pending, r.entries)
  {
    hide CoveredUpstream, SwapRemove, Settle, DrainAll;
    var e := events[|events| - 1];
    match e.input {
      case Down(alert, window) =>
        if alert.upstreams != [] && window > 0 && !alert.localOnly {
          assert HandsOver(e, alert, SaturatingAdd(e.now, window));
        }
      case Recovery(id, _) =>
        var position := Position(s.pending, id);
        if position.Some? {
          SwapRemoveSubset(s.pending, position.value);
        }
      case FlushDue => PatientSettle(events, Prune(s, e.now), e.now);
      case Shutdown => DrainReleasesNothing(Prune(s, e.now).(pending := []), s.pending, e.now);
      case _ =>
    }
  }

  lemma {:induction false} PlayIsPatient(events: seq<Event>)
    requires forall k :: 0 <= k < |events| ==> events[k].now <= I64_MAX
    ensures Patient(events, Play(events).state.pending, Play(events).entries)
  {
    hide Apply, WaitedOut;
    if events != [] {
      var front := events[..|events| - 1];
      PlayIsPatient(front);
      var before := Play(front);
      forall p | p in before.state.pending ensures WaitedOut(events, p.alert, p.deadline) {
        StillWaited(front, events, p.alert, p.deadline, p.deadline);
      }
      forall e | e in before.entries && e.Released? && e.grouped ensures WaitedOut(events, e.alert, e.at) {
        StillWaited(front, events, e.alert, e.at, e.at);
      }
      PatientApply(events, before.state);
    }
  }

  /**
   * A dependent's down released by a flush was handed over at least its whole grouping window before,
   * requeued or not.
   */
  lemma GroupedAlertsWaitOutTheWindow(events: seq<Event>, i: nat)
    requires forall k :: 0 <= k < |events| ==> events[k].now <= I64_MAX
    requires i < |Play(events).entries|
    ensures var e := Play(events).entries[i];
      e.Released? && e.grouped ==> WaitedOut(events, e.alert, e.at)
  {
    PlayIsPatient(events);
    assert Play(events).entries[i] in Play(events).entries;
  }
}
