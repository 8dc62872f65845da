/**
 * Where what the coalescer says comes from: nothing is sent, folded or queued that was
 * not handed over, and a fold's chain of causes follows the dependency graph.
 */
module GroupingOrigins {
  import opened Grouping
  import opened GroupingHistory
  import Topology

  /** An event handed this alert over. */
  ghost predicate Handed(events: seq<Event>, alert: DownAlert) {
    exists k :: 0 <= k < |events| && events[k].input.Down? && events[k].input.alert == alert
  }

  ghost predicate Ended(events: seq<Event>, id: string) {
    exists k :: 0 <= k < |events| && events[k].input.Recovery? && events[k].input.id == id
  }

  ghost predicate Restored(events: seq<Event>, id: string) {
    exists k :: 0 <= k < |events| && events[k].input.Resume? && events[k].input.id == id
  }

  /** What the entry is about came in with some event. */
  ghost predicate Originates(events: seq<Event>, e: Entry) {
    match e
    case Recovered(id, _, _, _) => Ended(events, id)
    case Resumed(id, _, _) => Restored(events, id)
    case Retained(_, _) => true
    case _ => Handed(events, e.alert) && (e.LocalOnly? <==> e.alert.localOnly)
  }

  ghost predicate AllOriginate(events: seq<Event>, pending: seq<Pending>, entries: seq<Entry>) {
    && (forall p :: p in pending ==> Handed(events, p.alert) && !p.alert.localOnly)
    && (forall e :: e in entries ==> Originates(events, e))
  }

  lemma OriginatesLater(front: seq<Event>, events: seq<Event>, e: Entry)
    requires front <= events && Originates(front, e)
    ensures Originates(events, e)
  {
    forall k | 0 <= k < |front| ensures front[k] == events[k] {
    }
    match e {
      case Recovered(id, _, _, _) => var k :| 0 <= k < |front| && front[k].input.Recovery? && front[k].input.id == id;
      case Resumed(id, _, _) => var k :| 0 <= k < |front| && front[k].input.Resume? && front[k].input.id == id;
      case Retained(_, _) =>
      case _ => HandedLater(front, events, e.alert);
    }
  }

  lemma HandedLater(front: seq<Event>, events: seq<Event>, alert: DownAlert)
    requires front <= events && Handed(front, alert)
    ensures Handed(events, alert)
  {
    var k :| 0 <= k < |front| && front[k].input.Down? && front[k].input.alert == alert;
    assert events[k] == front[k];
  }

  lemma SettleOneOriginates(events: seq<Event>, s: State, i: nat, now: int)
    requires i < |s.pending| && AllOriginate(events, s.pending, [])
    ensures var one := SettleOne(TakeOff(s, i), s.pending[i], now);
      AllOriginate(events, one.state.pending, one.entries)
  {
    hide Handed, CoveredUpstream, SwapRemove;
    SwapRemoveSubset(s.pending, i);
    assert s.pending[i] in s.pending;
  }

  lemma {:induction false} SettleOriginates(events: seq<Event>, s: State, now: int)
    requires AllOriginate(events, s.pending, [])
    ensures AllOriginate(events, Settle(s, now).state.pending, Settle(s, now).entries)
    decreases Work(s.pending)
  {
    hide Handed, Originates, SettleOne, Work;
    var next := NextExpired(s.pending, now);
    if next.Some? {
      var i := next.value;
      SettlingProgresses(s, i, now);
      SettleOneOriginates(events, s, i, now);
      SettleOriginates(events, SettleOne(TakeOff(s, i), s.pending[i], now).state, now);
    }
  }

  lemma {:induction false} DrainOriginates(events: seq<Event>, s: State, queue: seq<Pending>, now: int)
    requires AllOriginate(events, queue, []) && s.pending == []
    ensures AllOriginate(events, DrainAll(s, queue, now).state.pending, DrainAll(s, queue, now).entries)
    decreases |queue|
  {
    hide Handed, CoveredUpstream;
    if queue != [] {
      assert queue[0] in queue;
      DrainOriginates(events, DrainOne(s, queue[0].alert, now).state, queue[1..], now);
    }
  }

  lemma ApplyOriginates(events: seq<Event>, s: State)
    requires events != [] && AllOriginate(events, s.pending, [])
    ensures var r := Apply(s, events[|events| - 1]); AllOriginate(events, r.state.pending, r.entries)
  {
    hide OnDown, OnRecovered, Settle, DrainAll, Handed, Restored, Originates;
    var e := events[|events| - 1];
    match e.input {
      case Down(_, _) => DownOriginates(events, s);
      case Recovery(_, _) => RecoveryOriginates(events, s);
      case Resume(id, confirmed) =>
        RestoredLast(events);
        ResumeOriginates(events, Resumed(id, confirmed, e.now));
      case Retain(known) => ResumeOriginates(events, Retained(known, e.now));
      case FlushDue => SettleOriginates(events, Prune(s, e.now), e.now);
      case Shutdown => DrainOriginates(events, Prune(s, e.now).(pending := []), s.pending, e.now);
    }
  }

  lemma DownOriginates(events: seq<Event>, s: State)
    requires events != [] && AllOriginate(events, s.pending, []) && events[|events| - 1].input.Down?
    ensures var r := Apply(s, events[|events| - 1]); AllOriginate(events, r.state.pending, r.entries)
  {
    hide CoveredUpstream, Handed;
    HandedLast(events);
  }

  lemma RecoveryOriginates(events: seq<Event>, s: State)
    requires events != [] && AllOriginate(events, s.pending, []) && events[|events| - 1].input.Recovery?
    ensures var r := Apply(s, events[|events| - 1]); AllOriginate(events, r.state.pending, r.entries)
  {
    hide SwapRemove, Handed, Ended;
    EndedLast(events);
    var position := Position(s.pending, events[|events| - 1].input.id);
    if position.Some? {
      SwapRemoveSubset(s.pending, position.value);
    }
  }

  lemma ResumeOriginates(events: seq<Event>, e: Entry)
    requires e.Retained? || (e.Resumed? && Restored(events, e.id))
    ensures Originates(events, e)
  {
  }

  lemma HandedLast(events: seq<Event>)
    requires events != [] && events[|events| - 1].input.Down?
    ensures Handed(events, events[|events| - 1].input.alert)
  {
  }

  lemma EndedLast(events: seq<Event>)
    requires events != [] && events[|events| - 1].input.Recovery?
    ensures Ended(events, events[|events| - 1].input.id)
  {
  }

  lemma RestoredLast(events: seq<Event>)
    requires events != [] && events[|events| - 1].input.Resume?
    ensures Restored(events, events[|events| - 1].input.id)
  {
  }

  /** In any run, everything queued or logged came in with some event. */
  lemma {:induction false} NothingIsInvented(events: seq<Event>)
    ensures AllOriginate(events, Play(events).state.pending, Play(events).entries)
  {
    hide Apply, Handed, Originates;
    if events != [] {
      var front := events[..|events| - 1];
      NothingIsInvented(front);
      forall p | p in Play(front).state.pending ensures Handed(events, p.alert) && !p.alert.localOnly {
        HandedLater(front, events, p.alert);
      }
      forall e | e in Play(front).entries ensures Originates(events, e) {
        OriginatesLater(front, events, e);
      }
      ApplyOriginates(events, Play(front).state);
    }
  }

  // ---------------------------------------------------------------- chains along the graph

  /** Every down lists its monitor's transitive upstreams on one and the same graph. */
  ghost predicate Surveyed(events: seq<Event>, monitors: seq<Topology.Monitor>) {
    forall k :: 0 <= k < |events| && events[k].input.Down? ==> Lists(events[k].input.alert, monitors)
  }

  ghost predicate Lists(alert: DownAlert, monitors: seq<Topology.Monitor>) {
    Topology.NearestFirst(Topology.DependsOn(monitors), alert.id, alert.upstreams)
  }

  /** Each cause of the chain is an upstream of everything folded before it. */
  lemma {:induction false} ChainClimbs(log: seq<Entry>, chain: seq<nat>, monitors: seq<Topology.Monitor>)
    requires Explains(log, chain) && Topology.Acyclic(Topology.DependsOn(monitors))
    requires forall k :: 0 <= k < |chain| ==> Lists(log[chain[k]].alert, monitors)
    ensures log[chain[|chain| - 1]].alert.id in log[chain[0]].alert.upstreams
    decreases |chain|
  {
    hide Lists;
    assert IsCause(log[..chain[0]], chain[1], log[chain[0]].alert, log[chain[0]].at);
    assert log[..chain[0]][chain[1]] == log[chain[1]];
    if |chain| > 2 {
      var rest := chain[1..];
      assert Explains(log, rest) by {
        forall k | 0 <= k < |rest| - 1
          ensures log[rest[k]].Folded? && IsCause(log[..rest[k]], rest[k + 1], log[rest[k]].alert, log[rest[k]].at)
        {
          assert rest[k] == chain[k + 1] && rest[k + 1] == chain[k + 2];
        }
      }
      ChainClimbs(log, rest, monitors);
      assert rest[|rest| - 1] == chain[|chain| - 1];
      Transitive(log[chain[0]].alert, log[chain[1]].alert, log[chain[|chain| - 1]].alert.id, monitors);
    }
  }

  lemma Transitive(a: DownAlert, b: DownAlert, root: string, monitors: seq<Topology.Monitor>)
    requires Topology.Acyclic(Topology.DependsOn(monitors)) && Lists(a, monitors) && Lists(b, monitors)
    requires b.id in a.upstreams && root in b.upstreams
    ensures root in a.upstreams
  {
    Topology.ValidatedUpstreamsAreStrict(monitors, a.id, b.id, a.upstreams, b.upstreams);
  }

  /**
   * On a validated graph, each fold's chain ends in a released down of a monitor that is
   * itself a strict upstream of the folded one: the incident the fold points to is above it.
   */
  lemma FoldsClimbToARoot(events: seq<Event>, monitors: seq<Topology.Monitor>, i: nat) returns (root: nat)
    requires Timed(events) && Surveyed(events, monitors) && Topology.Acyclic(Topology.DependsOn(monitors))
    requires i < |Play(events).entries| && Play(events).entries[i].Folded?
    ensures root < i && Play(events).entries[root].Released?
    ensures var log := Play(events).entries;
      && log[root].alert.id in log[i].alert.upstreams
      && log[root].alert.id != log[i].alert.id && log[i].alert.id !in log[root].alert.upstreams
  {
    hide Play, Lists;
    var log := Play(events).entries;
    FoldsAreExplained(events, i);
    var chain :| Explains(log, chain) && chain[0] == i;
    NothingIsInvented(events);
    forall k | 0 <= k < |chain| ensures Lists(log[chain[k]].alert, monitors) {
      assert log[chain[k]] in log && Originates(events, log[chain[k]]);
      assert Handed(events, log[chain[k]].alert);
    }
    ChainClimbs(log, chain, monitors);
    ChainDescends(log, chain);
    root := chain[|chain| - 1];
    Strict(log[i].alert, log[root].alert, monitors);
  }

  lemma Strict(a: DownAlert, b: DownAlert, monitors: seq<Topology.Monitor>)
    requires Topology.Acyclic(Topology.DependsOn(monitors)) && Lists(a, monitors) && Lists(b, monitors)
    requires b.id in a.upstreams
    ensures b.id != a.id && a.id !in b.upstreams
  {
    Topology.ValidatedUpstreamsAreStrict(monitors, a.id, b.id, a.upstreams, b.upstreams);
  }

  /** Causes come earlier in the log. */
  lemma {:induction false} ChainDescends(log: seq<Entry>, chain: seq<nat>)
    requires Explains(log, chain)
    ensures chain[|chain| - 1] < chain[0]
    decreases |chain|
  {
    assert IsCause(log[..chain[0]], chain[1], log[chain[0]].alert, log[chain[0]].at);
    if |chain| > 2 {
      var rest := chain[1..];
      assert forall k :: 0 <= k < |rest| ==> rest[k] == chain[k + 1];
      ChainDescends(log, rest);
    }
  }
}
