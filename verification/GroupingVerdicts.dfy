/**
 * What becomes of a down, told from the log before it: on arrival, and each time a flush
 * looks at it.
 */
module GroupingVerdicts {
  import opened Wrappers
  import opened Grouping
  import opened GroupingHistory
  import opened GroupingRouting
  import opened GroupingRequeues
  import opened GroupingDeference

  // ---------------------------------------------------------------- on arrival

  /** What a down is met with: announced as local-only, sent at once, folded into a cause, or made to wait. */
  ghost function Met(log: seq<Entry>, alert: DownAlert, now: int, window: nat): Entry {
    if alert.localOnly then LocalOnly(alert, now)
    else if alert.upstreams == [] || window == 0 then Released(alert, now, false)
    else if HasCause(log, alert, now) then Folded(alert, now)
    else Queued(alert, now, SaturatingAdd(now, window))
  }

  /**
   * Over any run: a down adds one entry. A local-only one is announced; a root's, or any
   * without a grouping window, goes out at once; any other is folded exactly when the log
   * holds a cause of it, and waits otherwise.
   */
  lemma DownIsMet(events: seq<Event>, k: nat)
    requires Timed(events) && k < |events| && events[k].input.Down?
    ensures var before := Play(events[..k]).entries;
      Play(events[..k + 1]).entries
        == before + [Met(before, events[k].input.alert, events[k].now, events[k].input.window)]
  {
    hide Faithful, AllDecided, Pruned, HasCause, CoveredUpstream;
    var e, before := events[k], Play(events[..k]);
    var pruned := Prune(before.state, e.now);
    assert events[..k + 1][..k] == events[..k];
    PrefixIsGood(events, k);
    CoveredIffCause(pruned, before.entries, e.input.alert, e.now);
    CoveredSame(pruned, e.input.alert);
  }

  lemma PrefixIsGood(events: seq<Event>, k: nat)
    requires Timed(events) && k < |events|
    ensures var s := Prune(Play(events[..k]).state, events[k].now);
      Good(s, Play(events[..k]).entries, events[k].now) && Pruned(s.covered, events[k].now)
  {
    if k == 0 {
      assert events[..0] == [];
    } else {
      PlayIsGood(events[..k]);
      assert events[..k][k - 1] == events[k - 1];
      GoodPrune(Play(events[..k]).state, Play(events[..k]).entries, events[k - 1].now, events[k].now);
    }
  }

  // ---------------------------------------------------------------- when a flush looks at it

  /** The down's last move was to be requeued. */
  predicate Deferred(log: seq<Entry>, alert: DownAlert) {
    if log == [] then false
    else if Moves(log[|log| - 1], alert) then log[|log| - 1].Requeued?
    else Deferred(log[..|log| - 1], alert)
  }

  lemma DeferredAppend(log: seq<Entry>, e: Entry, alert: DownAlert)
    ensures Deferred(log + [e], alert) == if Moves(e, alert) then e.Requeued? else Deferred(log, alert)
  {
    assert (log + [e])[..|log|] == log;
  }

  /** When the monitor's queued down is due. */
  function Due(log: seq<Entry>, id: string): int {
    if log == [] then 0 else DueStep(Due(log[..|log| - 1], id), log[|log| - 1], id)
  }

  function DueStep(before: int, e: Entry, id: string): int {
    match e
    case Queued(alert, _, due) => if alert.id == id then due else before
    case Requeued(alert, _, due) => if alert.id == id then due else before
    case _ => before
  }

  lemma DueAppend(log: seq<Entry>, e: Entry, id: string)
    ensures Due(log + [e], id) == DueStep(Due(log, id), e, id)
  {
    assert (log + [e])[..|log|] == log;
  }

  /** A down of one of its upstreams is queued. */
  ghost predicate UpstreamQueued(log: seq<Entry>, alert: DownAlert) {
    exists upstream :: upstream in alert.upstreams && upstream != alert.id && Queuing(log, upstream)
  }

  /** A second after the last of its queued upstreams is due, and after now. */
  ghost predicate Behind(log: seq<Entry>, alert: DownAlert, now: int, due: int) {
    exists upstream ::
      && upstream in alert.upstreams && upstream != alert.id && Queuing(log, upstream)
      && due == SaturatingAdd(Max(Due(log, upstream), now), 1)
      && IsLatest(log, alert, Due(log, upstream))
  }

  ghost predicate IsLatest(log: seq<Entry>, alert: DownAlert, due: int) {
    forall other :: other in alert.upstreams && other != alert.id && Queuing(log, other) ==> Due(log, other) <= due
  }

  /** A flush requeues a down exactly for a queued upstream, and not twice in a row. */
  ghost predicate Judged(log: seq<Entry>, e: Entry) {
    match e
    case Requeued(alert, now, due) => Behind(log, alert, now, due) && !Deferred(log, alert)
    case Released(alert, _, grouped) => grouped ==> !UpstreamQueued(log, alert) || Deferred(log, alert)
    case _ => true
  }

  ghost predicate AllJudged(log: seq<Entry>) {
    forall j :: 0 <= j < |log| ==> Judged(log[..j], log[j])
  }

  lemma JudgedAppend(log: seq<Entry>, e: Entry)
    requires AllJudged(log) && Judged(log, e)
    ensures AllJudged(log + [e])
  {
    hide Judged;
    var log' := log + [e];
    forall j | 0 <= j < |log'| ensures Judged(log'[..j], log'[j]) {
      assert log'[..j] == if j < |log| then log[..j] else log;
    }
  }

  /** The queue is what the log says: who is in it, when each is due, and who was requeued. */
  ghost predicate Mirrored(pending: seq<Pending>, log: seq<Entry>) {
    && OneEach(pending)
    && (forall id :: Waits(pending, id) <==> Queuing(log, id))
    && (forall p :: p in pending ==> (p.requeued <==> Deferred(log, p.alert)) && p.deadline == Due(log, p.alert.id))
  }

  ghost predicate Ruled(pending: seq<Pending>, log: seq<Entry>) {
    Mirrored(pending, log) && AllJudged(log)
  }

  predicate Placed(e: Entry, p: Pending) {
    (e.Queued? || e.Requeued?) && p == Pending(e.due, e.Requeued?, e.alert)
  }

  predicate Untouched(e: Entry, alert: DownAlert) {
    !Moves(e, alert) && (e.Queued? || e.Requeued? ==> e.alert.id != alert.id)
  }

  /** One more entry, about the down that leaves the queue, or enters it, with it. */
  lemma MirroredAppend(pending: seq<Pending>, log: seq<Entry>, e: Entry, pending': seq<Pending>)
    requires Mirrored(pending, log) && OneEach(pending')
    requires forall id :: Waits(pending', id) <==> QueuingStep(Waits(pending, id), e, id)
    requires forall p :: p in pending' ==> Placed(e, p) || (p in pending && Untouched(e, p.alert))
    ensures Mirrored(pending', log + [e])
  {
    hide Queuing, Deferred, Due, Waits, OneEach;
    forall id ensures Waits(pending', id) <==> Queuing(log + [e], id) {
      QueuingAppend(log, e, id);
    }
    forall p | p in pending'
      ensures (p.requeued <==> Deferred(log + [e], p.alert)) && p.deadline == Due(log + [e], p.alert.id)
    {
      DeferredAppend(log, e, p.alert);
      DueAppend(log, e, p.alert.id);
    }
  }

  lemma UpstreamQueuedIff(pending: seq<Pending>, i: nat, log: seq<Entry>)
    requires Mirrored(pending, log) && i < |pending|
    ensures QueuedUpstream(SwapRemove(pending, i), pending[i].alert).Some? <==> UpstreamQueued(log, pending[i].alert)
  {
    hide Queuing, Deferred, OneEach, SwapRemove, QueuedUpstream;
    var rest, alert := SwapRemove(pending, i), pending[i].alert;
    WaitsTakeOff(pending, i);
    if QueuedUpstream(rest, alert).Some? {
      var q :| q in rest && q.alert.id in alert.upstreams;
      WaitsIn(rest, q);
      assert Queuing(log, q.alert.id);
    }
    if UpstreamQueued(log, alert) {
      var u :| u in alert.upstreams && u != alert.id && Queuing(log, u);
      assert Waits(rest, u);
      var j :| 0 <= j < |rest| && rest[j].alert.id == u;
      assert rest[j] in rest;
    }
  }

  /** The deadline of a requeued alert, told from the log. */
  lemma RequeuedBehind(s: State, i: nat, log: seq<Entry>, now: int)
    requires i < |s.pending| && Mirrored(s.pending, log)
    ensures var e := SettleOne(TakeOff(s, i), s.pending[i], now).entries[0];
      e.Requeued? ==> Behind(log, e.alert, now, e.due)
  {
    hide Queuing, Deferred, Due, OneEach, SwapRemove, CoveredUpstream, Waits;
    var rest, alert := SwapRemove(s.pending, i), s.pending[i].alert;
    var upstream := QueuedUpstream(rest, alert);
    if upstream.Some? {
      WaitsTakeOff(s.pending, i);
      SwapRemoveSubset(s.pending, i);
      var q :| q in rest && q.alert.id in alert.upstreams && q.deadline == upstream.value;
      WaitsIn(rest, q);
      forall other | other in alert.upstreams && other != alert.id && Queuing(log, other)
        ensures Due(log, other) <= upstream.value
      {
        var r := WaitingOne(rest, other);
      }
      assert IsLatest(log, alert, Due(log, q.alert.id));
    }
  }

  lemma WaitingOne(pending: seq<Pending>, id: string) returns (p: Pending)
    requires Waits(pending, id)
    ensures p in pending && p.alert.id == id
  {
    var i :| 0 <= i < |pending| && pending[i].alert.id == id;
    p := pending[i];
  }

  lemma RuledSettleOne(s: State, i: nat, log: seq<Entry>, now: int)
    requires i < |s.pending| && Ruled(s.pending, log)
    ensures var one := SettleOne(TakeOff(s, i), s.pending[i], now); Ruled(one.state.pending, log + one.entries)
  {
    hide Queuing, Deferred, Due, Waits, OneEach, SwapRemove, CoveredUpstream, AllJudged;
    hide UpstreamQueued, QueuedUpstream, Behind;
    var p, rest := s.pending[i], TakeOff(s, i);
    var one := SettleOne(rest, p, now);
    assert one.entries == [one.entries[0]] && p in s.pending;
    UpstreamQueuedIff(s.pending, i, log);
    RequeuedBehind(s, i, log, now);
    WaitsTakeOff(s.pending, i);
    WaitsIn(s.pending, p);
    OthersHaveOtherIds(s.pending, i);
    if one.entries[0].Requeued? {
      WaitsPush(rest.pending, one.state.pending[|rest.pending|]);
    }
    MirroredAppend(s.pending, log, one.entries[0], one.state.pending);
    JudgedAppend(log, one.entries[0]);
  }

  /** The next down to be settled: it is due, and none that is queued was due before. */
  ghost predicate InTurn(log: seq<Entry>, id: string, now: int) {
    && Queuing(log, id) && Due(log, id) <= now
    && forall other :: Queuing(log, other) ==> Due(log, id) <= Due(log, other)
  }

  /**
   * What a flush logs: the fold, the requeue or the release of the down whose turn it is; and what
   * a shutdown does: the fold or the release of a queued down.
   */
  ghost predicate Settles(log: seq<Entry>, e: Entry, now: int, closing: bool) {
    && e.at == now
    && if closing then (e.Folded? || e.Drained?) && Queuing(log, e.alert.id)
       else (e.Folded? || e.Requeued? || (e.Released? && e.grouped)) && InTurn(log, e.alert.id, now)
  }

  ghost predicate AllSettle(log: seq<Entry>, entries: seq<Entry>, now: int, closing: bool) {
    forall j :: 0 <= j < |entries| ==> Settles(log + entries[..j], entries[j], now, closing)
  }

  lemma NextIsInTurn(s: State, i: nat, log: seq<Entry>, now: int)
    requires IsNextExpired(s.pending, now, i) && Mirrored(s.pending, log)
    ensures var one := SettleOne(TakeOff(s, i), s.pending[i], now);
      one.entries == [one.entries[0]] && Settles(log, one.entries[0], now, false)
  {
    hide Queuing, Deferred, Due, Waits, OneEach, SwapRemove, CoveredUpstream, QueuedUpstream;
    var p := s.pending[i];
    assert p in s.pending;
    WaitsIn(s.pending, p);
    forall other | Queuing(log, other) ensures Due(log, p.alert.id) <= Due(log, other) {
      var q := WaitingOne(s.pending, other);
    }
  }

  lemma SettlesCons(log: seq<Entry>, e: Entry, rest: seq<Entry>, now: int, closing: bool)
    requires Settles(log, e, now, closing) && AllSettle(log + [e], rest, now, closing)
    ensures AllSettle(log, [e] + rest, now, closing)
  {
    hide Settles;
    var entries := [e] + rest;
    forall j | 0 <= j < |entries| ensures Settles(log + entries[..j], entries[j], now, closing) {
      if j == 0 {
        assert log + entries[..0] == log;
      } else {
        assert log + entries[..j] == (log + [e]) + rest[..j - 1];
        assert Settles((log + [e]) + rest[..j - 1], rest[j - 1], now, closing);
      }
    }
  }

  lemma {:induction false} RuledSettle(s: State, log: seq<Entry>, now: int)
    requires Ruled(s.pending, log)
    ensures Ruled(Settle(s, now).state.pending, log + Settle(s, now).entries)
    ensures AllSettle(log, Settle(s, now).entries, now, false)
    decreases Work(s.pending)
  {
    hide Mirrored, AllJudged, Settles, SettleOne, Work;
    var next := NextExpired(s.pending, now);
    if next.None? {
      assert log + [] == log;
    } else {
      var i := next.value;
      SettlingProgresses(s, i, now);
      RuledSettleOne(s, i, log, now);
      NextIsInTurn(s, i, log, now);
      var one := SettleOne(TakeOff(s, i), s.pending[i], now);
      RuledSettle(one.state, log + one.entries, now);
      assert log + Settle(s, now).entries == (log + one.entries) + Settle(one.state, now).entries;
      SettlesCons(log, one.entries[0], Settle(one.state, now).entries, now, false);
    }
  }

  lemma {:induction false} RuledDrain(s: State, queue: seq<Pending>, log: seq<Entry>, now: int)
    requires Ruled(queue, log) && s.pending == []
    ensures Ruled(DrainAll(s, queue, now).state.pending, log + DrainAll(s, queue, now).entries)
    ensures DrainAll(s, queue, now).state.pending == []
    ensures AllSettle(log, DrainAll(s, queue, now).entries, now, true)
    decreases |queue|
  {
    hide Queuing, Deferred, Waits, OneEach, CoveredUpstream, AllJudged, UpstreamQueued, Due;
    if queue == [] {
      assert log + [] == log;
    } else {
      var one := DrainOne(s, queue[0].alert, now);
      assert one.entries == [one.entries[0]];
      WaitsTail(queue);
      WaitsIn(queue, queue[0]);
      TailDiffers(queue);
      MirroredAppend(queue, log, one.entries[0], queue[1..]);
      JudgedAppend(log, one.entries[0]);
      RuledDrain(one.state, queue[1..], log + one.entries, now);
      assert log + DrainAll(s, queue, now).entries
        == (log + one.entries) + DrainAll(one.state, queue[1..], now).entries;
      SettlesCons(log, one.entries[0], DrainAll(one.state, queue[1..], now).entries, now, true);
    }
  }

  lemma TailDiffers(queue: seq<Pending>)
    requires queue != [] && OneEach(queue)
    ensures forall p :: p in queue[1..] ==> p in queue && p.alert.id != queue[0].alert.id
  {
  }

  lemma RuledApply(s: State, log: seq<Entry>, e: Event)
    requires Ruled(s.pending, log)
    requires e.input.Down? && !e.input.alert.localOnly ==> !Waits(s.pending, e.input.alert.id)
    ensures Ruled(Apply(s, e).state.pending, log + Apply(s, e).entries)
  {
    hide Mirrored, AllJudged, Waits, OnDown, OnRecovered, Settle, DrainAll;
    var r := Apply(s, e);
    match e.input {
      case FlushDue => RuledSettle(Prune(s, e.now), log, e.now);
      case Shutdown => RuledDrain(Prune(s, e.now).(pending := []), s.pending, log, e.now);
      case Down(alert, window) => RuledDown(s, log, alert, e.now, window);
      case Recovery(id, _) => RuledRecovery(s, log, id, e.now);
      case Resume(id, confirmed) => RuledAside(s.pending, log, Resumed(id, confirmed, e.now));
      case Retain(known) => RuledAside(s.pending, log, Retained(known, e.now));
    }
  }

  lemma RuledAside(pending: seq<Pending>, log: seq<Entry>, e: Entry)
    requires Ruled(pending, log) && (e.Resumed? || e.Retained?)
    ensures Ruled(pending, log + [e])
  {
    hide Queuing, Deferred, Due, Waits, OneEach, AllJudged;
    MirroredAppend(pending, log, e, pending);
    JudgedAppend(log, e);
  }

  lemma RuledDown(s: State, log: seq<Entry>, alert: DownAlert, now: int, window: nat)
    requires Ruled(s.pending, log) && (!alert.localOnly ==> !Waits(s.pending, alert.id))
    ensures Ruled(OnDown(s, alert, now, window).state.pending, log + OnDown(s, alert, now, window).entries)
  {
    hide Queuing, Deferred, Due, Waits, OneEach, CoveredUpstream, AllJudged;
    var r := OnDown(s, alert, now, window);
    assert r.entries == [r.entries[0]];
    if r.entries[0].Queued? {
      WaitsPush(s.pending, r.state.pending[|s.pending|]);
    }
    NoneWaiting(s.pending, alert.id);
    MirroredAppend(s.pending, log, r.entries[0], r.state.pending);
    JudgedAppend(log, r.entries[0]);
  }

  lemma RuledRecovery(s: State, log: seq<Entry>, id: string, now: int)
    requires Ruled(s.pending, log)
    ensures Ruled(OnRecovered(s, id, now).state.pending, log + OnRecovered(s, id, now).entries)
  {
    hide Queuing, Deferred, Due, Waits, OneEach, SwapRemove, AllJudged;
    var r := OnRecovered(s, id, now);
    assert r.entries == [r.entries[0]];
    RecoveryTakesOff(s, id, now);
    MirroredAppend(s.pending, log, r.entries[0], r.state.pending);
    JudgedAppend(log, r.entries[0]);
  }

  lemma NoneWaiting(pending: seq<Pending>, id: string)
    ensures !Waits(pending, id) ==> forall p :: p in pending ==> p.alert.id != id
  {
  }

  lemma RecoveryTakesOff(s: State, id: string, now: int)
    requires OneEach(s.pending)
    ensures var after := OnRecovered(s, id, now).state.pending;
      && OneEach(after)
      && (forall other :: Waits(after, other) <==> Waits(s.pending, other) && other != id)
      && (forall p :: p in after ==> p in s.pending && p.alert.id != id)
  {
    hide OneEach, Waits, SwapRemove;
    PositionWaits(s.pending, id);
    var position := Position(s.pending, id);
    if position.Some? {
      WaitsTakeOff(s.pending, position.value);
      OthersHaveOtherIds(s.pending, position.value);
    }
  }

  lemma OthersHaveOtherIds(pending: seq<Pending>, i: nat)
    requires i < |pending| && OneEach(pending)
    ensures forall p :: p in SwapRemove(pending, i) ==> p in pending && p.alert.id != pending[i].alert.id
  {
  }

  lemma {:induction false} PlayIsRuled(inherited: set<string>, events: seq<Event>)
    requires Spoken(inherited, events)
    ensures Ruled(Play(events).state.pending, Play(events).entries)
  {
    hide Apply, OneEach, PhaseOf, Routed, Waits;
    if events == [] {
      NobodyWaits();
      NothingQueued();
    } else {
      hide Ruled;
      var n := |events| - 1;
      SpokenPrefix(inherited, events);
      PlayIsRuled(inherited, events[..n]);
      PlayIsRouted(inherited, events[..n]);
      if events[n].input.Down? && !events[n].input.alert.localOnly {
        FreeToQueue(inherited, events, events[n].input.alert.id);
      }
      RuledApply(Play(events[..n]).state, Play(events[..n]).entries, events[n]);
    }
  }

  lemma NothingQueued()
    ensures Ruled([], [])
  {
  }

  /** All that a flush may do with a down whose turn it is, told from the log before it. */
  ghost predicate IsFlushVerdict(log: seq<Entry>, e: Entry, now: int) {
    && Settles(log, e, now, false)
    && (e.Folded? <==> HasCause(log, e.alert, now))
    && (e.Requeued? <==> !HasCause(log, e.alert, now) && UpstreamQueued(log, e.alert) && !Deferred(log, e.alert))
    && (e.Requeued? ==> Behind(log, e.alert, now, e.due))
  }

  /**
   * Over any spoken run, a flush takes the downs that are due, the earliest first: one with a
   * cause is folded; one with a queued upstream is requeued, unless that was its last move,
   * to a second after the last of them is due; any other is sent. It stops when none is due.
   */
  lemma FlushIsExact(inherited: set<string>, events: seq<Event>)
    requires Spoken(inherited, events) && Timed(events) && events != [] && events[|events| - 1].input.FlushDue?
    ensures var now := events[|events| - 1].now;
      var before, after := Play(events[..|events| - 1]).entries, Play(events).entries;
      && before <= after
      && (forall j :: |before| <= j < |after| ==> IsFlushVerdict(after[..j], after[j], now))
      && (forall id :: Queuing(after, id) ==> Due(after, id) > now)
  {
    hide Settle, Queuing, Deferred, Due, Settles, OneEach, UpstreamQueued, Behind, Waits;
    var n := |events| - 1;
    var now, before, after := events[n].now, Play(events[..n]), Play(events);
    SpokenPrefix(inherited, events);
    PlayIsRuled(inherited, events[..n]);
    PlayIsRuled(inherited, events);
    RuledSettle(Prune(before.state, now), before.entries, now);
    forall j | |before.entries| <= j < |after.entries|
      ensures IsFlushVerdict(after.entries[..j], after.entries[j], now)
    {
      GroupingIsExact(events, j);
      FlushedEntry(before.entries, Settle(Prune(before.state, now), now).entries, j, now);
    }
    forall id | Queuing(after.entries, id) ensures Due(after.entries, id) > now {
      var p := WaitingOne(after.state.pending, id);
    }
  }

  lemma FlushedEntry(before: seq<Entry>, entries: seq<Entry>, j: nat, now: int)
    requires AllSettle(before, entries, now, false) && |before| <= j < |before + entries|
    requires AllJudged(before + entries) && Decided(before + entries, j)
    ensures IsFlushVerdict((before + entries)[..j], (before + entries)[j], now)
  {
    hide HasCause, InTurn, Deferred, Queuing, Due, IsLatest;
    var log := before + entries;
    assert log[..j] == before + entries[..j - |before|] && log[j] == entries[j - |before|];
    assert Judged(log[..j], log[j]);
    assert Settles(log[..j], log[j], now, false);
  }

  // ---------------------------------------------------------------- at a shutdown, and at a recovery

  /** Over any spoken run, a shutdown folds each queued down that has a cause, sends every other, and keeps none. */
  lemma ShutdownIsExact(inherited: set<string>, events: seq<Event>)
    requires Spoken(inherited, events) && Timed(events) && events != [] && events[|events| - 1].input.Shutdown?
    ensures var now := events[|events| - 1].now;
      var before, after := Play(events[..|events| - 1]).entries, Play(events).entries;
      && before <= after
      && (forall j :: |before| <= j < |after| ==>
            && Settles(after[..j], after[j], now, true)
            && (after[j].Folded? <==> HasCause(after[..j], after[j].alert, now)))
      && (forall id :: !Queuing(after, id))
  {
    hide DrainAll, Queuing, Deferred, Due, OneEach, AllJudged, HasCause;
    var n := |events| - 1;
    var now, before := events[n].now, Play(events[..n]);
    SpokenPrefix(inherited, events);
    PlayIsRuled(inherited, events[..n]);
    PlayIsRuled(inherited, events);
    var entries := DrainAll(Prune(before.state, now).(pending := []), before.state.pending, now).entries;
    RuledDrain(Prune(before.state, now).(pending := []), before.state.pending, before.entries, now);
    forall j | |before.entries| <= j < |before.entries + entries|
      ensures var log := before.entries + entries;
        Settles(log[..j], log[j], now, true) && (log[j].Folded? <==> HasCause(log[..j], log[j].alert, now))
    {
      var log := before.entries + entries;
      GroupingIsExact(events, j);
      assert log[..j] == before.entries + entries[..j - |before.entries|] && log[j] == entries[j - |before.entries|];
      assert Settles(log[..j], log[j], now, true);
    }
  }

  /**
   * Over any spoken run, a recovery names those who heard its block's downs, and drops the down still
   * queued, if one is.
   */
  lemma RecoveryIsExact(inherited: set<string>, events: seq<Event>, id: string) returns (dropped: seq<DownAlert>)
    requires Spoken(inherited, events) && events != []
    requires events[|events| - 1].input.Recovery? && events[|events| - 1].input.id == id
    ensures var before := Play(events[..|events| - 1]).entries;
      && Play(events).entries == before + [Recovered(
           id, RecipientsOf(UsualHeard(id in inherited, before, id), QuietHeard(before, id)), dropped,
           events[|events| - 1].now)]
      && (if Queuing(before, id) then |dropped| == 1 && dropped[0].id == id else dropped == [])
  {
    hide Queuing, Deferred, Due, Waits, OneEach, AllJudged, UsualHeard, QuietHeard, SwapRemove;
    var n := |events| - 1;
    var before := Play(events[..n]);
    SpokenPrefix(inherited, events);
    PlayIsRuled(inherited, events[..n]);
    RecoveryGoesToWhoeverHeard(inherited, events, n, id);
    PositionWaits(before.state.pending, id);
    dropped := OnRecovered(before.state, id, events[n].now).entries[0].dropped;
  }

  // ---------------------------------------------------------------- the wait for a queued upstream

  lemma {:induction false} DeferredSince(log: seq<Entry>, alert: DownAlert) returns (i: nat)
    requires Deferred(log, alert)
    ensures i < |log| && log[i].Requeued? && log[i].alert == alert && !MovedSince(log, i, alert)
  {
    hide Moves;
    var n := |log| - 1;
    if Moves(log[n], alert) {
      RequeueMoves(log[n], alert);
      i := n;
    } else {
      i := DeferredSince(log[..n], alert);
    }
  }

  lemma RequeueMoves(e: Entry, alert: DownAlert)
    requires e.Requeued? && Moves(e, alert)
    ensures e.alert == alert
  {
  }

  /** So whoever goes out from the queue beside a queued upstream has waited for it, or for another, once more. */
  lemma ReleasedAfterDeferring(inherited: set<string>, events: seq<Event>, j: nat, upstream: string)
    requires Spoken(inherited, events) && j < |Play(events).entries|
    requires var e := Play(events).entries[j];
      && e.Released? && e.grouped && upstream in e.alert.upstreams && upstream != e.alert.id
      && Queuing(Play(events).entries[..j], upstream)
    ensures var log := Play(events).entries;
      exists i ::
        0 <= i < j && log[i].Requeued? && log[i].alert == log[j].alert && !MovedSince(log[..j], i, log[j].alert)
  {
    hide Play, Queuing, Deferred, MovedSince;
    PlayIsRuled(inherited, events);
    var log := Play(events).entries;
    var i := DeferredSince(log[..j], log[j].alert);
    assert log[..j][i] == log[i];
  }
}
