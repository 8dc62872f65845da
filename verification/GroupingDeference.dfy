/**
 * What the one requeue buys: a down that waited once more for a queued upstream goes out
 * beside it only if that upstream is no cause any more, or waits once more itself.
 */
module GroupingDeference {
  import opened Wrappers
  import opened Grouping
  import opened GroupingHistory
  import opened GroupingRouting
  import opened GroupingRequeues

  // ---------------------------------------------------------------- read off the log

  /** The monitor's last entry put a down of its in the queue. */
  predicate Queuing(log: seq<Entry>, id: string) {
    if log == [] then false else QueuingStep(Queuing(log[..|log| - 1], id), log[|log| - 1], id)
  }

  predicate QueuingStep(before: bool, e: Entry, id: string) {
    match e
    case Queued(alert, _, _) => alert.id == id || before
    case Requeued(alert, _, _) => alert.id == id || before
    case Released(alert, _, _) => alert.id != id && before
    case Folded(alert, _) => alert.id != id && before
    case Drained(alert, _) => alert.id != id && before
    case Recovered(other, _, _, _) => other != id && before
    case _ => before
  }

  lemma QueuingAppend(log: seq<Entry>, e: Entry, id: string)
    ensures Queuing(log + [e], id) == QueuingStep(Queuing(log, id), e, id)
  {
    assert (log + [e])[..|log|] == log;
  }

  /** The entry moves this down in the queue, into it or out of it. */
  predicate Moves(e: Entry, alert: DownAlert) {
    match e
    case Queued(other, _, _) => other == alert
    case Requeued(other, _, _) => other == alert
    case Released(other, _, _) => other == alert
    case Folded(other, _) => other == alert
    case Drained(other, _) => other == alert
    case Recovered(id, _, _, _) => id == alert.id
    case _ => false
  }

  /** The upstream has had its own verdict: sent, folded, recovered or requeued. */
  predicate Frees(e: Entry, upstream: string) {
    match e
    case Requeued(other, _, _) => other.id == upstream
    case Released(other, _, _) => other.id == upstream
    case Folded(other, _) => other.id == upstream
    case Recovered(id, _, _, _) => id == upstream
    case _ => false
  }

  ghost predicate MovedSince(log: seq<Entry>, i: nat, alert: DownAlert) {
    exists k :: i < k < |log| && Moves(log[k], alert)
  }

  ghost predicate FreedSince(log: seq<Entry>, i: nat, upstream: string) {
    exists k :: i < k < |log| && Frees(log[k], upstream)
  }

  /** Entry `i` requeues a down whose upstream is queued then. */
  ghost predicate DefersTo(log: seq<Entry>, i: nat, upstream: string) {
    && i < |log| && log[i].Requeued?
    && upstream in log[i].alert.upstreams && upstream != log[i].alert.id && Queuing(log[..i], upstream)
  }

  lemma DefersToPrefix(log: seq<Entry>, e: Entry, i: nat, upstream: string)
    ensures i < |log| ==> (DefersTo(log + [e], i, upstream) <==> DefersTo(log, i, upstream))
    ensures (log + [e])[..|log|] == log && (log + [e])[|log|] == e
  {
    if i < |log| {
      assert (log + [e])[..i] == log[..i] && (log + [e])[i] == log[i];
    }
  }

  lemma SinceAppend(log: seq<Entry>, e: Entry, i: nat, alert: DownAlert, upstream: string)
    requires i < |log|
    ensures MovedSince(log + [e], i, alert) <==> MovedSince(log, i, alert) || Moves(e, alert)
    ensures FreedSince(log + [e], i, upstream) <==> FreedSince(log, i, upstream) || Frees(e, upstream)
  {
    hide Moves, Frees;
    var log' := log + [e];
    assert log'[|log|] == e;
    if MovedSince(log, i, alert) {
      var k :| i < k < |log| && Moves(log[k], alert);
      assert log'[k] == log[k];
    }
    if FreedSince(log, i, upstream) {
      var k :| i < k < |log| && Frees(log[k], upstream);
      assert log'[k] == log[k];
    }
  }

  // ---------------------------------------------------------------- the invariant

  /** No flush takes the first of two deadlines while the second is queued. */
  predicate ComesAfter(due: int, upstreamDue: int) {
    upstreamDue < due || due >= I64_MAX
  }

  /** The down and its upstream are both queued, and it comes after. */
  ghost predicate BothWait(pending: seq<Pending>, alert: DownAlert, upstream: string) {
    exists p, q :: p in pending && q in pending && p.alert == alert && q.alert.id == upstream
      && ComesAfter(p.deadline, q.deadline)
  }

  ghost predicate Deferring(pending: seq<Pending>, log: seq<Entry>, i: nat, upstream: string)
    requires i < |log| && log[i].Requeued?
  {
    MovedSince(log, i, log[i].alert) || FreedSince(log, i, upstream) || BothWait(pending, log[i].alert, upstream)
  }

  /** A release from the queue, and what became of an upstream its alert deferred to on its way. */
  ghost predicate Honours(log: seq<Entry>, j: nat, i: nat, upstream: string)
    requires j < |log|
  {
    log[j].Released? && log[j].grouped && DefersTo(log[..j], i, upstream) && log[i].alert == log[j].alert ==>
      MovedSince(log[..j], i, log[j].alert) || FreedSince(log[..j], i, upstream)
  }

  ghost predicate AllHonour(log: seq<Entry>) {
    forall j, i, upstream :: 0 <= j < |log| && 0 <= i < j ==> Honours(log, j, i, upstream)
  }

  ghost predicate Tracked(pending: seq<Pending>, log: seq<Entry>) {
    forall id :: Queuing(log, id) ==> Waits(pending, id)
  }

  ghost predicate AllDefer(pending: seq<Pending>, log: seq<Entry>) {
    forall i, upstream :: DefersTo(log, i, upstream) ==> Deferring(pending, log, i, upstream)
  }

  ghost predicate Orderly(pending: seq<Pending>, log: seq<Entry>) {
    Tracked(pending, log) && AllDefer(pending, log) && AllHonour(log)
  }

  /** An entry keeps together what waits together, unless it moves the one or frees the other. */
  ghost predicate KeepsTogether(pending: seq<Pending>, e: Entry, pending': seq<Pending>) {
    forall alert, upstream :: BothWait(pending, alert, upstream) ==>
      Moves(e, alert) || Frees(e, upstream) || BothWait(pending', alert, upstream)
  }

  /** A down is requeued behind its queued upstreams. */
  ghost predicate RequeuesBehind(log: seq<Entry>, e: Entry, pending': seq<Pending>) {
    forall upstream ::
      e.Requeued? && upstream in e.alert.upstreams && upstream != e.alert.id && Queuing(log, upstream) ==>
        BothWait(pending', e.alert, upstream)
  }

  /** A down released from the queue has no upstream before it there. */
  ghost predicate ReleasesFirst(pending: seq<Pending>, e: Entry) {
    e.Released? && e.grouped ==> forall upstream :: !BothWait(pending, e.alert, upstream)
  }

  lemma HonoursAppend(pending: seq<Pending>, log: seq<Entry>, e: Entry)
    requires AllDefer(pending, log) && AllHonour(log) && ReleasesFirst(pending, e)
    ensures AllHonour(log + [e])
  {
    hide BothWait, MovedSince, FreedSince, Queuing;
    var log' := log + [e];
    forall j, i, upstream | 0 <= j < |log'| && 0 <= i < j ensures Honours(log', j, i, upstream) {
      assert log'[i] == log[i];
      if j < |log| {
        assert log'[..j] == log[..j] && log'[j] == log[j];
        assert Honours(log, j, i, upstream);
      } else {
        assert log'[..j] == log;
        assert DefersTo(log, i, upstream) ==> Deferring(pending, log, i, upstream);
      }
    }
  }

  /** One more entry, whatever operation wrote it. */
  lemma OrderlyAppend(pending: seq<Pending>, log: seq<Entry>, e: Entry, pending': seq<Pending>)
    requires Orderly(pending, log) && Tracked(pending', log + [e])
    requires KeepsTogether(pending, e, pending') && RequeuesBehind(log, e, pending') && ReleasesFirst(pending, e)
    ensures Orderly(pending', log + [e])
  {
    hide BothWait, MovedSince, FreedSince, Tracked, AllHonour, Queuing, Moves, Frees;
    HonoursAppend(pending, log, e);
    var log' := log + [e];
    forall i: nat, upstream | DefersTo(log', i, upstream) ensures Deferring(pending', log', i, upstream) {
      DefersToPrefix(log, e, i, upstream);
      if i < |log| {
        SinceAppend(log, e, i, log[i].alert, upstream);
        assert Deferring(pending, log, i, upstream);
      }
    }
  }

  /** Entries that move nobody, or whom they free, with a queue that gains at most one. */
  lemma OrderlyPlain(pending: seq<Pending>, log: seq<Entry>, e: Entry, pending': seq<Pending>)
    requires Orderly(pending, log) && !e.Requeued? && !(e.Released? && e.grouped)
    requires forall p :: p in pending ==> p in pending' || (e.Recovered? && e.id == p.alert.id)
    requires e.Queued? ==> Waits(pending', e.alert.id)
    ensures Orderly(pending', log + [e])
  {
    hide AllDefer, AllHonour, Queuing, ComesAfter;
    forall id | Queuing(log + [e], id) ensures Waits(pending', id) {
      QueuingAppend(log, e, id);
      if Queuing(log, id) {
        assert Waits(pending, id);
        var i :| 0 <= i < |pending| && pending[i].alert.id == id;
        assert pending[i] in pending;
        WaitsIn(pending', pending[i]);
      }
    }
    OrderlyAppend(pending, log, e, pending');
  }

  lemma WaitsIn(pending: seq<Pending>, p: Pending)
    ensures p in pending ==> Waits(pending, p.alert.id)
  {
  }

  lemma SwapRemoveKeeps<T>(s: seq<T>, i: nat, x: T)
    requires i < |s| && x in s && x != s[i]
    ensures x in SwapRemove(s, i)
  {
    var last := |s| - 1;
    var j :| 0 <= j < |s| && s[j] == x;
    assert SwapRemove(s, i)[if j == last then i else j] == x;
  }

  lemma OnePlace(pending: seq<Pending>, p: Pending, q: Pending)
    requires OneEach(pending) && p in pending && q in pending
    ensures p.alert.id == q.alert.id ==> p == q
  {
  }

  // ---------------------------------------------------------------- one turn of the flush

  /** The alert the flush takes has no upstream before it in the queue. */
  lemma NextComesFirst(pending: seq<Pending>, now: int, i: nat)
    requires IsNextExpired(pending, now, i) && OneEach(pending) && now < I64_MAX
    ensures forall alert, upstream :: BothWait(pending, alert, upstream) ==> alert != pending[i].alert
  {
    forall alert, upstream | BothWait(pending, alert, upstream) ensures alert != pending[i].alert {
      var p, q :| p in pending && q in pending && p.alert == alert && q.alert.id == upstream
        && ComesAfter(p.deadline, q.deadline);
      assert pending[i] in pending;
      OnePlace(pending, p, pending[i]);
    }
  }

  lemma TogetherAfterTakingOff(pending: seq<Pending>, i: nat, alert: DownAlert, upstream: string,
                               pending': seq<Pending>)
    requires i < |pending| && BothWait(pending, alert, upstream)
    requires alert != pending[i].alert && upstream != pending[i].alert.id
    requires forall x :: x in SwapRemove(pending, i) ==> x in pending'
    ensures BothWait(pending', alert, upstream)
  {
    hide SwapRemove, ComesAfter;
    var p, q :| p in pending && q in pending && p.alert == alert && q.alert.id == upstream
      && ComesAfter(p.deadline, q.deadline);
    SwapRemoveKeeps(pending, i, p);
    SwapRemoveKeeps(pending, i, q);
    assert p in pending' && q in pending';
  }

  /** A requeued alert is due after every queued upstream. */
  lemma RequeueComesAfter(s: State, i: nat, now: int, upstream: string)
    requires i < |s.pending| && Waits(s.pending, upstream)
    requires upstream in s.pending[i].alert.upstreams && upstream != s.pending[i].alert.id
    ensures var one := SettleOne(TakeOff(s, i), s.pending[i], now);
      one.entries[0].Requeued? ==> BothWait(one.state.pending, s.pending[i].alert, upstream)
  {
    hide SwapRemove, CoveredUpstream;
    var p, rest := s.pending[i], TakeOff(s, i).pending;
    var one := SettleOne(TakeOff(s, i), p, now);
    if one.entries[0].Requeued? {
      var j :| 0 <= j < |s.pending| && s.pending[j].alert.id == upstream;
      var q := s.pending[j];
      SwapRemoveKeeps(s.pending, i, q);
      var again := one.state.pending[|rest|];
      assert q.deadline <= QueuedUpstream(rest, p.alert).value;
      assert q in one.state.pending && again in one.state.pending;
      assert ComesAfter(again.deadline, q.deadline);
    }
  }

  lemma TrackedSettleOne(s: State, i: nat, log: seq<Entry>, now: int)
    requires i < |s.pending| && OneEach(s.pending) && Tracked(s.pending, log)
    ensures var one := SettleOne(TakeOff(s, i), s.pending[i], now);
      OneEach(one.state.pending) && Tracked(one.state.pending, log + one.entries)
  {
    hide Waits, OneEach, SwapRemove, CoveredUpstream, Queuing;
    var rest := TakeOff(s, i);
    var one := SettleOne(rest, s.pending[i], now);
    WaitsTakeOff(s.pending, i);
    assert one.entries == [one.entries[0]];
    if one.entries[0].Requeued? {
      WaitsPush(rest.pending, one.state.pending[|rest.pending|]);
    }
    forall id | Queuing(log + one.entries, id) ensures Waits(one.state.pending, id) {
      QueuingAppend(log, one.entries[0], id);
    }
  }

  lemma OrderlySettleOne(s: State, i: nat, log: seq<Entry>, now: int)
    requires IsNextExpired(s.pending, now, i) && OneEach(s.pending) && now < I64_MAX && Orderly(s.pending, log)
    ensures var one := SettleOne(TakeOff(s, i), s.pending[i], now);
      OneEach(one.state.pending) && Orderly(one.state.pending, log + one.entries)
  {
    hide OneEach, SwapRemove, CoveredUpstream, Queuing, BothWait, AllDefer, AllHonour, Waits;
    var p, rest := s.pending[i], TakeOff(s, i);
    var one := SettleOne(rest, p, now);
    assert one.entries == [one.entries[0]];
    NextComesFirst(s.pending, now, i);
    TrackedSettleOne(s, i, log, now);
    forall alert, upstream | BothWait(s.pending, alert, upstream)
      ensures Moves(one.entries[0], alert) || Frees(one.entries[0], upstream)
        || BothWait(one.state.pending, alert, upstream)
    {
      if upstream != p.alert.id {
        TogetherAfterTakingOff(s.pending, i, alert, upstream, one.state.pending);
      }
    }
    forall upstream | one.entries[0].Requeued? && upstream in p.alert.upstreams && upstream != p.alert.id
      && Queuing(log, upstream)
      ensures BothWait(one.state.pending, p.alert, upstream)
    {
      RequeueComesAfter(s, i, now, upstream);
    }
    OrderlyAppend(s.pending, log, one.entries[0], one.state.pending);
  }

  lemma {:induction false} OrderlySettle(s: State, log: seq<Entry>, now: int)
    requires OneEach(s.pending) && now < I64_MAX && Orderly(s.pending, log)
    ensures Orderly(Settle(s, now).state.pending, log + Settle(s, now).entries)
    decreases Work(s.pending)
  {
    hide Orderly, OneEach, SettleOne, Work;
    var next := NextExpired(s.pending, now);
    if next.None? {
      assert log + [] == log;
    } else {
      var i := next.value;
      SettlingProgresses(s, i, now);
      OrderlySettleOne(s, i, log, now);
      var one := SettleOne(TakeOff(s, i), s.pending[i], now);
      OrderlySettle(one.state, log + one.entries, now);
      assert log + Settle(s, now).entries == (log + one.entries) + Settle(one.state, now).entries;
    }
  }

  // ---------------------------------------------------------------- whole runs

  /** At shutdown whoever is queued is moved, and nothing is requeued or released. */
  ghost predicate Draining(queue: seq<Pending>, log: seq<Entry>) {
    && Tracked(queue, log) && AllHonour(log)
    && forall i, upstream :: DefersTo(log, i, upstream) ==> Leaving(queue, log, i, upstream)
  }

  ghost predicate Leaving(queue: seq<Pending>, log: seq<Entry>, i: nat, upstream: string)
    requires i < |log| && log[i].Requeued?
  {
    || MovedSince(log, i, log[i].alert) || FreedSince(log, i, upstream)
    || exists p :: p in queue && p.alert == log[i].alert
  }

  lemma DrainingNext(queue: seq<Pending>, log: seq<Entry>, e: Entry)
    requires queue != [] && Draining(queue, log)
    requires (e.Folded? || e.Drained?) && e.alert == queue[0].alert
    ensures Draining(queue[1..], log + [e])
  {
    hide MovedSince, FreedSince, DefersTo, Queuing;
    assert queue == [queue[0]] + queue[1..];
    var log' := log + [e];
    forall id | Queuing(log', id) ensures Waits(queue[1..], id) {
      QueuingAppend(log, e, id);
      assert Waits(queue, id);
      var j :| 0 <= j < |queue| && queue[j].alert.id == id;
      assert queue[1..][j - 1].alert.id == id;
    }
    forall i: nat, upstream | DefersTo(log', i, upstream)
      ensures i < |log'| && log'[i].Requeued? && Leaving(queue[1..], log', i, upstream)
    {
      DeferringIsRequeued(log', i, upstream);
      DefersToPrefix(log, e, i, upstream);
      SinceAppend(log, e, i, log[i].alert, upstream);
      assert Leaving(queue, log, i, upstream);
    }
    forall j, i, upstream | 0 <= j < |log'| && 0 <= i < j ensures Honours(log', j, i, upstream) {
      if j < |log| {
        assert log'[..j] == log[..j] && log'[j] == log[j] && log'[i] == log[i];
        assert Honours(log, j, i, upstream);
      }
    }
  }

  lemma DeferringIsRequeued(log: seq<Entry>, i: nat, upstream: string)
    requires DefersTo(log, i, upstream)
    ensures i < |log| && log[i].Requeued?
  {
  }

  lemma {:induction false} OrderlyDrain(s: State, queue: seq<Pending>, log: seq<Entry>, now: int)
    requires s.pending == [] && Draining(queue, log)
    ensures Orderly([], log + DrainAll(s, queue, now).entries) && DrainAll(s, queue, now).state.pending == []
    decreases |queue|
  {
    hide CoveredUpstream, MovedSince, FreedSince, Queuing, AllHonour, DefersTo;
    if queue == [] {
      assert log + [] == log;
      forall i: nat, upstream | DefersTo(log, i, upstream)
        ensures i < |log| && log[i].Requeued? && Deferring([], log, i, upstream)
      {
        DeferringIsRequeued(log, i, upstream);
        assert Leaving(queue, log, i, upstream);
      }
    } else {
      var one := DrainOne(s, queue[0].alert, now);
      assert one.entries == [one.entries[0]];
      DrainingNext(queue, log, one.entries[0]);
      OrderlyDrain(one.state, queue[1..], log + one.entries, now);
      assert log + DrainAll(s, queue, now).entries
        == (log + one.entries) + DrainAll(one.state, queue[1..], now).entries;
    }
  }

  lemma StartsDraining(pending: seq<Pending>, log: seq<Entry>)
    requires Orderly(pending, log)
    ensures Draining(pending, log)
  {
    hide MovedSince, FreedSince, DefersTo, AllHonour, Tracked, ComesAfter;
    forall i: nat, upstream | DefersTo(log, i, upstream)
      ensures i < |log| && log[i].Requeued? && Leaving(pending, log, i, upstream)
    {
      DeferringIsRequeued(log, i, upstream);
      assert Deferring(pending, log, i, upstream);
    }
  }

  lemma OrderlyApply(s: State, log: seq<Entry>, e: Event)
    requires OneEach(s.pending) && Orderly(s.pending, log) && e.now < I64_MAX
    ensures Orderly(Apply(s, e).state.pending, log + Apply(s, e).entries)
  {
    hide OneEach, Orderly, CoveredUpstream, SwapRemove, Settle, DrainAll, Draining, Waits;
    var r := Apply(s, e);
    match e.input {
      case FlushDue => OrderlySettle(Prune(s, e.now), log, e.now);
      case Shutdown =>
        StartsDraining(s.pending, log);
        OrderlyDrain(Prune(s, e.now).(pending := []), s.pending, log, e.now);
      case Down(alert, window) =>
        assert r.entries == [r.entries[0]];
        if r.entries[0].Queued? {
          WaitsIn(r.state.pending, r.state.pending[|s.pending|]);
        }
        OrderlyPlain(s.pending, log, r.entries[0], r.state.pending);
      case Recovery(id, _) =>
        assert r.entries == [r.entries[0]];
        var position := Position(s.pending, id);
        if position.Some? {
          forall p | p in s.pending && p.alert.id != id ensures p in r.state.pending {
            SwapRemoveKeeps(s.pending, position.value, p);
          }
        }
        OrderlyPlain(s.pending, log, r.entries[0], r.state.pending);
      case _ =>
        assert r.entries == [r.entries[0]];
        OrderlyPlain(s.pending, log, r.entries[0], r.state.pending);
    }
  }

  lemma {:induction false} PlayIsOrderly(inherited: set<string>, events: seq<Event>)
    requires Spoken(inherited, events) && forall k :: 0 <= k < |events| ==> events[k].now < I64_MAX
    ensures Orderly(Play(events).state.pending, Play(events).entries)
  {
    hide Apply, OneEach, PhaseOf, Unused;
    if events != [] {
      hide Orderly;
      var n := |events| - 1;
      SpokenPrefix(inherited, events);
      PlayIsOrderly(inherited, events[..n]);
      PlayIsFrugal(inherited, events[..n]);
      OrderlyApply(Play(events[..n]).state, Play(events[..n]).entries, events[n]);
    }
  }

  // ---------------------------------------------------------------- the log is in order

  lemma {:induction false} SettleIsNow(s: State, now: int)
    ensures forall e :: e in Settle(s, now).entries ==> e.at == now
    decreases Work(s.pending)
  {
    hide Work, CoveredUpstream, SwapRemove;
    var next := NextExpired(s.pending, now);
    if next.Some? {
      SettlingProgresses(s, next.value, now);
      SettleIsNow(SettleOne(TakeOff(s, next.value), s.pending[next.value], now).state, now);
    }
  }

  lemma {:induction false} DrainIsNow(s: State, queue: seq<Pending>, now: int)
    ensures forall e :: e in DrainAll(s, queue, now).entries ==> e.at == now
    decreases |queue|
  {
    if queue != [] {
      DrainIsNow(DrainOne(s, queue[0].alert, now).state, queue[1..], now);
    }
  }

  lemma ApplyIsNow(s: State, e: Event)
    ensures forall entry :: entry in Apply(s, e).entries ==> entry.at == e.now
  {
    hide Settle, DrainAll;
    SettleIsNow(Prune(s, e.now), e.now);
    DrainIsNow(Prune(s, e.now).(pending := []), s.pending, e.now);
  }

  lemma {:induction false} LogIsInOrder(events: seq<Event>)
    requires Timed(events)
    ensures var log := Play(events).entries;
      && (forall k, j :: 0 <= k < j < |log| ==> log[k].at <= log[j].at)
      && forall e :: e in log ==> events != [] && e.at <= events[|events| - 1].now
  {
    hide Apply;
    if events != [] {
      var n := |events| - 1;
      LogIsInOrder(events[..n]);
      ApplyIsNow(Play(events[..n]).state, events[n]);
      assert n > 0 ==> events[..n][n - 1].now <= events[n].now;
      var before, more := Play(events[..n]).entries, Apply(Play(events[..n]).state, events[n]).entries;
      var log: seq<Entry> := before + more;
      forall k, j | 0 <= k < j < |log| ensures log[k].at <= log[j].at {
        assert j < |before| || log[j] in more;
        assert k < |before| ==> log[k] in before;
        assert k >= |before| ==> log[k] in more;
      }
    }
  }

  // ---------------------------------------------------------------- the theorem

  /** What lets a down go out beside an upstream it had deferred to. */
  predicate Yields(e: Entry, upstream: string, at: int) {
    match e
    case Recovered(id, _, _, _) => id == upstream
    case Requeued(alert, _, _) => alert.id == upstream
    case Released(alert, sent, _) => alert.id == upstream && at - sent >= CAUSE_MEMORY_SECS
    case Folded(alert, folded) => alert.id == upstream && at - folded >= CAUSE_MEMORY_SECS
    case _ => false
  }

  /** A verdict on an upstream is a cause of the folds to come, until it lapses or is recovered from. */
  lemma FreedYields(log: seq<Entry>, j: nat, k: nat, upstream: string) returns (m: nat)
    requires k < j < |log| && Frees(log[k], upstream) && log[k].at <= log[j].at
    requires log[j].Released? && log[j].grouped && upstream in log[j].alert.upstreams && Decided(log, j)
    ensures k <= m < j && Yields(log[m], upstream, log[j].at)
  {
    m := k;
    if !Yields(log[k], upstream, log[j].at) {
      var past := log[..j];
      assert past[k] == log[k] && !IsCause(past, k, log[j].alert, log[j].at);
      m :| k < m < |past| && past[m].Recovered? && past[m].id == upstream;
      assert past[m] == log[m];
    }
  }

  /**
   * What the requeue is for: when a down has waited once more for an upstream then in the
   * queue and is released after all, that upstream has since recovered, was itself requeued, or
   * went out or was folded so long before that it is no cause any more.
   */
  lemma ReleasedOnlyWithoutItsUpstream(inherited: set<string>, events: seq<Event>, i: nat, j: nat, upstream: string)
    requires Spoken(inherited, events) && Timed(events)
    requires forall k :: 0 <= k < |events| ==> events[k].now < I64_MAX
    requires i < j < |Play(events).entries| && DefersTo(Play(events).entries, i, upstream)
    requires var log := Play(events).entries;
      log[j].Released? && log[j].grouped && log[j].alert == log[i].alert && !MovedSince(log[..j], i, log[i].alert)
    ensures var log := Play(events).entries; exists k :: i < k < j && Yields(log[k], upstream, log[j].at)
  {
    hide Play, Queuing, MovedSince, Spoken, Timed, Frees, Yields;
    var log := Play(events).entries;
    PlayIsOrderly(inherited, events);
    GroupingIsExact(events, j);
    LogIsInOrder(events);
    assert log[..j][i] == log[i] && log[..j][..i] == log[..i];
    assert DefersTo(log[..j], i, upstream) && Honours(log, j, i, upstream);
    var k :| i < k < |log[..j]| && Frees(log[..j][k], upstream);
    assert log[..j][k] == log[k];
    var m := FreedYields(log, j, k, upstream);
  }
}
