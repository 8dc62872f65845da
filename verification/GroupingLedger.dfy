/**
 * The books of the coalescer: every real down it accepts is sent, folded, dropped
 * by its own recovery, or still queued - once - and none is made to wait twice over.
 */
module GroupingLedger {
  import opened Wrappers
  import opened Grouping
  import opened GroupingHistory

  /** The columns of the books. */
  datatype Column =
    | Settled  // sent, folded, drained, or dropped by a recovery
    | Queueing // put in the queue
    | Requeuing // put back in the queue

  function Share(e: Entry, column: Column, down: DownAlert): nat {
    match column
    case Settled =>
      (match e
       case Released(alert, _, _) => if alert == down then 1 else 0
       case Folded(alert, _) => if alert == down then 1 else 0
       case Drained(alert, _) => if alert == down then 1 else 0
       case Recovered(_, _, dropped, _) => multiset(dropped)[down]
       case _ => 0)
    case Queueing => if e.Queued? && e.alert == down then 1 else 0
    case Requeuing => if e.Requeued? && e.alert == down then 1 else 0
  }

  /** How often a down appears in a column. */
  ghost function Ledger(log: seq<Entry>, column: Column, down: DownAlert): nat {
    if log == [] then 0
    else Ledger(log[..|log| - 1], column, down) + Share(log[|log| - 1], column, down)
  }

  lemma {:induction false} LedgerConcat(a: seq<Entry>, b: seq<Entry>, column: Column, down: DownAlert)
    ensures Ledger(a + b, column, down) == Ledger(a, column, down) + Ledger(b, column, down)
  {
    hide Share;
    if b == [] {
      assert a + b == a;
    } else {
      LedgerConcat(a, b[..|b| - 1], column, down);
      assert (a + b)[..|a + b| - 1] == a + b[..|b| - 1];
    }
  }

  lemma LedgerOne(e: Entry, down: DownAlert)
    ensures forall column :: Ledger([e], column, down) == Share(e, column, down)
  {
    assert [e][..0] == [];
  }

  /** How often a down sits in a queue, and how often in a place not used up by requeuing. */
  ghost function Copies(down: DownAlert): Pending -> nat {
    (p: Pending) => if p.alert == down then 1 else 0
  }

  ghost function FreshCopies(down: DownAlert): Pending -> nat {
    (p: Pending) => if p.alert == down && !p.requeued then 1 else 0
  }

  ghost function Waiting(pending: seq<Pending>, down: DownAlert): nat {
    Sum(pending, Copies(down))
  }

  ghost function WaitingFresh(pending: seq<Pending>, down: DownAlert): nat {
    Sum(pending, FreshCopies(down))
  }

  /** Whether an event hands this down over, as a real one. */
  function Accepts(e: Event, down: DownAlert): nat {
    if e.input.Down? && e.input.alert == down && !down.localOnly then 1 else 0
  }

  ghost function Accepted(events: seq<Event>, down: DownAlert): nat {
    if events == [] then 0
    else Accepted(events[..|events| - 1], down) + Accepts(events[|events| - 1], down)
  }

  /** What comes in either stays queued or is settled, and a requeue uses up a fresh place in the queue. */
  ghost predicate Balanced(down: DownAlert, before: seq<Pending>, accepted: nat, after: seq<Pending>,
                           entries: seq<Entry>) {
    && Waiting(before, down) + accepted == Waiting(after, down) + Ledger(entries, Settled, down)
    && WaitingFresh(after, down) + Ledger(entries, Requeuing, down)
      <= WaitingFresh(before, down) + Ledger(entries, Queueing, down)
  }

  lemma BalancedThen(down: DownAlert, a: seq<Pending>, inAB: nat, b: seq<Pending>, ab: seq<Entry>,
                     inBC: nat, c: seq<Pending>, bc: seq<Entry>)
    requires Balanced(down, a, inAB, b, ab) && Balanced(down, b, inBC, c, bc)
    ensures Balanced(down, a, inAB + inBC, c, ab + bc)
  {
    hide Ledger;
    LedgerConcat(ab, bc, Settled, down);
    LedgerConcat(ab, bc, Requeuing, down);
    LedgerConcat(ab, bc, Queueing, down);
  }

  lemma BalancedIdle(down: DownAlert, pending: seq<Pending>)
    ensures Balanced(down, pending, 0, pending, [])
  {
  }

  lemma BalancedSettleOne(down: DownAlert, s: State, i: nat, now: int)
    requires i < |s.pending|
    ensures var one := SettleOne(TakeOff(s, i), s.pending[i], now);
            Balanced(down, s.pending, 0, one.state.pending, one.entries)
  {
    hide Sum, Ledger, CoveredUpstream, SwapRemove;
    var rest := TakeOff(s, i);
    var one := SettleOne(rest, s.pending[i], now);
    SumSwapRemove(s.pending, i, Copies(down));
    SumSwapRemove(s.pending, i, FreshCopies(down));
    assert one.entries == [one.entries[0]];
    LedgerOne(one.entries[0], down);
    if one.entries[0].Requeued? {
      var again := one.state.pending[|rest.pending|];
      SumPush(rest.pending, again, Copies(down));
      SumPush(rest.pending, again, FreshCopies(down));
    }
  }

  lemma {:induction false} BalancedSettle(down: DownAlert, s: State, now: int)
    ensures Balanced(down, s.pending, 0, Settle(s, now).state.pending, Settle(s, now).entries)
    decreases Work(s.pending)
  {
    hide Balanced, SettleOne, Work;
    var next := NextExpired(s.pending, now);
    if next.None? {
      BalancedIdle(down, s.pending);
    } else {
      var i := next.value;
      SettlingProgresses(s, i, now);
      BalancedSettleOne(down, s, i, now);
      var one := SettleOne(TakeOff(s, i), s.pending[i], now);
      BalancedSettle(down, one.state, now);
      var rest := Settle(one.state, now);
      BalancedThen(down, s.pending, 0, one.state.pending, one.entries, 0, rest.state.pending, rest.entries);
    }
  }

  /** A drained queue is settled whole. */
  lemma {:induction false} DrainSettles(down: DownAlert, s: State, queue: seq<Pending>, now: int)
    ensures var r := DrainAll(s, queue, now);
      && r.state.pending == s.pending
      && Ledger(r.entries, Settled, down) == Waiting(queue, down)
      && Ledger(r.entries, Requeuing, down) == 0
    decreases |queue|
  {
    hide CoveredUpstream;
    if queue != [] {
      var one := DrainOne(s, queue[0].alert, now);
      var rest := DrainAll(one.state, queue[1..], now);
      DrainSettles(down, one.state, queue[1..], now);
      assert one.entries == [one.entries[0]];
      LedgerOne(one.entries[0], down);
      LedgerConcat(one.entries, rest.entries, Settled, down);
      LedgerConcat(one.entries, rest.entries, Requeuing, down);
      assert queue == [queue[0]] + queue[1..] && [] + [queue[0]] == [queue[0]];
      SumConcat([queue[0]], queue[1..], Copies(down));
      SumPush([], queue[0], Copies(down));
    }
  }

  lemma BalancedDown(down: DownAlert, s: State, alert: DownAlert, now: int, window: nat)
    ensures var r := OnDown(s, alert, now, window);
            Balanced(down, s.pending, if alert == down && !alert.localOnly then 1 else 0, r.state.pending, r.entries)
  {
    hide Sum, Ledger, CoveredUpstream;
    var r := OnDown(s, alert, now, window);
    assert r.entries == [r.entries[0]];
    LedgerOne(r.entries[0], down);
    if r.entries[0].Queued? {
      var p := r.state.pending[|s.pending|];
      SumPush(s.pending, p, Copies(down));
      SumPush(s.pending, p, FreshCopies(down));
    }
  }

  lemma BalancedRecovery(down: DownAlert, s: State, id: string, now: int)
    ensures var r := OnRecovered(s, id, now);
            Balanced(down, s.pending, 0, r.state.pending, r.entries)
  {
    hide Sum, Ledger, SwapRemove;
    var r := OnRecovered(s, id, now);
    assert r.entries == [r.entries[0]];
    LedgerOne(r.entries[0], down);
    var position := Position(s.pending, id);
    if position.Some? {
      SumSwapRemove(s.pending, position.value, Copies(down));
      SumSwapRemove(s.pending, position.value, FreshCopies(down));
    }
  }

  lemma BalancedApply(down: DownAlert, s: State, e: Event)
    ensures Balanced(down, s.pending, Accepts(e, down), Apply(s, e).state.pending, Apply(s, e).entries)
  {
    hide OnDown, OnRecovered, Settle, DrainAll;
    match e.input {
      case Down(alert, window) => BalancedDown(down, s, alert, e.now, window);
      case Recovery(id, _) => BalancedRecovery(down, s, id, e.now);
      case FlushDue => BalancedSettle(down, Prune(s, e.now), e.now);
      case Shutdown => DrainSettles(down, Prune(s, e.now).(pending := []), s.pending, e.now);
      case Resume(_, _) => LedgerOne(Apply(s, e).entries[0], down);
      case Retain(_) => LedgerOne(Apply(s, e).entries[0], down);
    }
  }

  lemma {:induction false} PlayIsBalanced(events: seq<Event>, down: DownAlert)
    ensures Balanced(down, [], Accepted(events, down), Play(events).state.pending, Play(events).entries)
  {
    hide Apply, Balanced;
    if events == [] {
      BalancedIdle(down, []);
    } else {
      var n := |events| - 1;
      PlayIsBalanced(events[..n], down);
      var before := Play(events[..n]);
      BalancedApply(down, before.state, events[n]);
      var step := Apply(before.state, events[n]);
      BalancedThen(down, [], Accepted(events[..n], down), before.state.pending, before.entries,
                   Accepts(events[n], down), step.state.pending, step.entries);
    }
  }

  /**
   * Nothing lost, nothing doubled: however often a real down was accepted, it was
   * as often sent, folded, drained or dropped by its own recovery, or is still queued.
   */
  lemma EveryDownIsAccountedFor(events: seq<Event>, down: DownAlert)
    ensures Accepted(events, down)
      == Ledger(Play(events).entries, Settled, down) + Waiting(Play(events).state.pending, down)
  {
    hide Play;
    PlayIsBalanced(events, down);
  }

  /** A down waits for a queued upstream at most once each time it is queued. */
  lemma RequeuedAtMostOnce(events: seq<Event>, down: DownAlert)
    ensures Ledger(Play(events).entries, Requeuing, down) <= Ledger(Play(events).entries, Queueing, down)
  {
    hide Play;
    PlayIsBalanced(events, down);
  }

  /** After a flush nothing expired is left, and after a shutdown nothing at all. */
  lemma QueueIsServed(events: seq<Event>)
    requires events != []
    ensures var last := events[|events| - 1];
      && (last.input.FlushDue? ==> forall p :: p in Play(events).state.pending ==> p.deadline > last.now)
      && (last.input.Shutdown? ==> Play(events).state.pending == [])
  {
    var last := events[|events| - 1];
    if last.input.Shutdown? {
      var s := Play(events[..|events| - 1]).state;
      DrainSettles(DownAlert("", [], false, None, ""), Prune(s, last.now).(pending := []), s.pending, last.now);
    }
  }
}
