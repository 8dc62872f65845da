/** The coalescer every down and recovery goes through, in place. */
module Coalesce {
  import opened Wrappers
  import opened Grouping

  class Coalescer {
    var pending: seq<Pending>
    var covered: map<string, int>
    var suppressed: set<string>
    var quiet: map<string, bool>
    ghost var log: seq<Entry>

    ghost function View(): State
      reads this
    {
      State(pending, covered, suppressed, quiet)
    }

    /** The operation did exactly that, and nothing else. */
    twostate predicate Did(outcome: Outcome)
      reads this
    {
      View() == outcome.state && log == old(log) + outcome.entries
    }

    constructor ()
      ensures View() == EMPTY && log == []
    {
      pending, covered, suppressed, quiet, log := [], map[], {}, map[], [];
    }

    /** `on_down`: the alert to send now, if any. */
    method OnDown(alert: DownAlert, now: int, window: nat) returns (send: Option<DownAlert>)
      modifies this
      ensures Did(Grouping.OnDown(old(View()), alert, now, window))
      ensures Sent(Grouping.OnDown(old(View()), alert, now, window).entries) == if send.Some? then [send.value] else []
    {
      DoPrune(now);
      if alert.localOnly {
        quiet := quiet[alert.id := false];
        SentOne(LocalOnly(alert, now));
        log := log + [LocalOnly(alert, now)];
        return Some(alert);
      }
      if alert.id in quiet {
        quiet := quiet[alert.id := true];
      }
      if alert.upstreams == [] || window == 0 {
        DoMarkSent(alert.id, now);
        SentOne(Released(alert, now, false));
        log := log + [Released(alert, now, false)];
        return Some(alert);
      }
      var isCovered := AnyCovered(alert);
      if isCovered {
        DoFold(alert.id, now);
        SentOne(Folded(alert, now));
        log := log + [Folded(alert, now)];
        return None;
      }
      var due := SaturatingAdd(now, window);
      pending := pending + [Pending(due, false, alert)];
      SentOne(Queued(alert, now, due));
      log := log + [Queued(alert, now, due)];
      return None;
    }

    /** `covered_upstream` */
    method AnyCovered(alert: DownAlert) returns (found: bool)
      ensures found == CoveredUpstream(View(), alert)
    {
      for i := 0 to |alert.upstreams|
        invariant forall j :: 0 <= j < i ==> alert.upstreams[j] !in covered
      {
        if alert.upstreams[i] in covered {
          return true;
        }
      }
      return false;
    }

    /** `on_recovered` */
    method OnRecovered(id: string, now: int) returns (recipients: Recipients)
      modifies this
      ensures Did(Grouping.OnRecovered(old(View()), id, now))
      ensures log != [] && log[|log| - 1].Recovered? && recipients == log[|log| - 1].recipients
    {
      DoPrune(now);
      covered := covered - {id};
      var wasQuiet := id in quiet;
      var confirmed := wasQuiet && quiet[id];
      quiet := quiet - {id};
      var usual := false;
      var dropped: seq<DownAlert> := [];
      var position := Position(pending, id);
      if position.Some? {
        dropped := [pending[position.value].alert];
        pending := SwapRemove(pending, position.value);
      } else {
        usual := id !in suppressed && (!wasQuiet || confirmed);
        suppressed := suppressed - {id};
      }
      recipients := RecipientsOf(usual, wasQuiet);
      log := log + [Recovered(id, recipients, dropped, now)];
    }

    /** `flush`: settle what is due, one alert at a time, until nothing due is queued. */
    method Flush(now: int) returns (out: seq<DownAlert>)
      modifies this
      ensures Did(Grouping.Flush(old(View()), now))
      ensures out == Sent(Grouping.Flush(old(View()), now).entries)
    {
      hide SettleOne, Work, NextExpired, Sent, Settle;
      DoPrune(now);
      ghost var goal := Settle(View(), now);
      ghost var done: seq<Entry> := [];
      out := [];
      var next := EarliestExpired(now);
      SentNothing();
      while next.Some?
        invariant next == NextExpired(pending, now)
        invariant log == old(log) + done
        invariant Settle(View(), now).state == goal.state && done + Settle(View(), now).entries == goal.entries
        invariant out == Sent(done)
        decreases Work(pending)
      {
        SettlingProgresses(View(), next.value, now);
        SettleTurn(View(), now);
        ghost var one := SettleOne(TakeOff(View(), next.value), pending[next.value], now);
        SentConcat(done, one.entries);
        ghost var rest := Settle(one.state, now);
        assert done + (one.entries + rest.entries) == (done + one.entries) + rest.entries;
        var sent := SettleNext(next.value, now);
        out := out + sent;
        done := done + one.entries;
        next := EarliestExpired(now);
      }
      SettleTurn(View(), now);
      assert done + [] == done;
    }

    /** One round of `flush`. */
    method SettleNext(i: nat, now: int) returns (sent: seq<DownAlert>)
      requires i < |pending|
      modifies this
      ensures Did(SettleOne(TakeOff(old(View()), i), old(pending[i]), now))
      ensures sent == Sent(SettleOne(TakeOff(old(View()), i), old(pending[i]), now).entries)
    {
      var p := pending[i];
      pending := SwapRemove(pending, i);
      var upstream := QueuedUpstream(pending, p.alert);
      var isCovered := AnyCovered(p.alert);
      if isCovered {
        DoFold(p.alert.id, now);
        SentOne(Folded(p.alert, now));
        log := log + [Folded(p.alert, now)];
        return [];
      } else if upstream.Some? && !p.requeued {
        var due := SaturatingAdd(Max(upstream.value, now), 1);
        pending := pending + [Pending(due, true, p.alert)];
        SentOne(Requeued(p.alert, now, due));
        log := log + [Requeued(p.alert, now, due)];
        return [];
      } else {
        DoMarkSent(p.alert.id, now);
        SentOne(Released(p.alert, now, true));
        log := log + [Released(p.alert, now, true)];
        return [p.alert];
      }
    }

    /** The first queued alert with the earliest expired deadline. */
    method EarliestExpired(now: int) returns (next: Option<nat>)
      ensures next == NextExpired(pending, now)
    {
      next := None;
      for i := 0 to |pending|
        invariant next == NextExpired(pending[..i], now)
      {
        assert pending[..i + 1][..i] == pending[..i];
        if pending[i].deadline <= now && (next.None? || pending[i].deadline < pending[next.value].deadline) {
          next := Some(i);
        }
      }
      assert pending[..|pending|] == pending;
    }

    /** `drain`: empty the queue on shutdown. */
    method Drain(now: int) returns (out: seq<DownAlert>)
      modifies this
      ensures Did(Grouping.Drain(old(View()), now))
      ensures out == Sent(Grouping.Drain(old(View()), now).entries)
    {
      hide DrainOne, Sent, DrainAll;
      DoPrune(now);
      var queue := pending;
      pending := [];
      ghost var goal := DrainAll(View(), queue, now);
      ghost var done: seq<Entry> := [];
      out := [];
      SentNothing();
      assert queue[0..] == queue;
      for i := 0 to |queue|
        invariant log == old(log) + done
        invariant DrainAll(View(), queue[i..], now).state == goal.state
          && done + DrainAll(View(), queue[i..], now).entries == goal.entries
        invariant out == Sent(done)
      {
        DrainTurn(View(), queue[i..], now);
        ghost var one := DrainOne(View(), queue[i].alert, now);
        ghost var rest := DrainAll(one.state, queue[i + 1..], now);
        assert queue[i..][1..] == queue[i + 1..];
        SentConcat(done, one.entries);
        assert done + (one.entries + rest.entries) == (done + one.entries) + rest.entries;
        var sent := DrainNext(queue[i].alert, now);
        out := out + sent;
        done := done + one.entries;
      }
      DrainTurn(View(), queue[|queue|..], now);
      assert done + [] == done;
    }

    /** One round of `drain`. */
    method DrainNext(alert: DownAlert, now: int) returns (sent: seq<DownAlert>)
      modifies this
      ensures Did(DrainOne(old(View()), alert, now))
      ensures sent == Sent(DrainOne(old(View()), alert, now).entries)
    {
      var isCovered := AnyCovered(alert);
      if isCovered {
        DoFold(alert.id, now);
        SentOne(Folded(alert, now));
        log := log + [Folded(alert, now)];
        return [];
      } else {
        suppressed := suppressed - {alert.id};
        SentOne(Drained(alert, now));
        log := log + [Drained(alert, now)];
        return [alert];
      }
    }

    lemma SentNothing()
      ensures Sent([]) == []
    {
    }

    method DoMarkSent(id: string, now: int)
      modifies this`covered, this`suppressed
      ensures View() == MarkSent(old(View()), id, now)
    {
      covered := covered[id := now];
      suppressed := suppressed - {id};
    }

    method DoFold(id: string, now: int)
      modifies this`covered, this`suppressed
      ensures View() == Fold(old(View()), id, now)
    {
      covered := covered[id := now];
      suppressed := suppressed + {id};
    }

    method DoPrune(now: int)
      modifies this`covered
      ensures View() == Prune(old(View()), now)
    {
      covered := map id | id in covered && now - covered[id] < CAUSE_MEMORY_SECS :: covered[id];
    }

    /** `resume_local_only` */
    method ResumeLocalOnly(id: string, confirmed: bool, ghost now: int)
      modifies this
      ensures Did(Grouping.ResumeLocalOnly(old(View()), id, confirmed, now))
    {
      quiet := quiet[id := confirmed];
      log := log + [Resumed(id, confirmed, now)];
    }

    /** `retain_monitors` */
    method RetainMonitors(known: set<string>, ghost now: int)
      modifies this
      ensures Did(Grouping.RetainMonitors(old(View()), known, now))
    {
      suppressed := suppressed * known;
      quiet := map id | id in quiet && id in known :: quiet[id];
      log := log + [Retained(known, now)];
    }
  }
}
