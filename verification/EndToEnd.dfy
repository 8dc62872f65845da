/**
 * The alerting pipeline as a whole: monitor tasks, restarted and aborted at will,
 * feeding one coalescer whose announcements go out to the channels.
 */
module EndToEnd {
  import opened Signals
  import opened GroupingHistory
  import Alerts
  import Routing = GroupingRouting
  import opened Announcements

  /** A configured monitor: the outage found open when it was first started, and all that happened to its tasks. */
  datatype Monitor = Monitor(prior: Alerts.Prior, steps: seq<Alerts.Step>)

  function Sent(monitors: map<string, Monitor>, id: string): seq<Signal> {
    if id in monitors then Alerts.Run(monitors[id].prior, monitors[id].steps).sent else []
  }

  function FoundOpen(monitors: map<string, Monitor>): set<string> {
    set id | id in monitors && monitors[id].prior.OpenIncident?
  }

  /** The channel to the coalescer keeps each monitor's order and invents nothing; it may lag. */
  ghost predicate Delivers(monitors: map<string, Monitor>, events: seq<Event>) {
    forall id :: Routing.Projection(events, id) <= Sent(monitors, id)
  }

  ghost predicate DegradedAlertsOff(monitors: map<string, Monitor>) {
    forall id :: id in monitors ==> Alerts.DegradedAlertsOff(monitors[id].steps)
  }

  /**
   * Of the outages found open, no more was sent than the database says: an incident is opened, and a
   * confirmation recorded, before the message goes to the coalescer.
   */
  ghost predicate SentAtMost(monitors: map<string, Monitor>, past: Past) {
    forall id :: id in monitors ==> AtMostAsFound(monitors[id].prior, past(id))
  }

  ghost predicate AtMostAsFound(prior: Alerts.Prior, h: Hearing) {
    match prior
    case NoIncident => true
    case OpenIncident => h.quiet.None?
    case LocalIncident(still) => h.usual.Some? ==> !still
  }

  /** And no less: nothing was folded, or lost with the process. */
  ghost predicate WereSent(monitors: map<string, Monitor>, past: Past) {
    SentAtMost(monitors, past) && forall id :: id in monitors ==> SentAsFound(monitors[id].prior, past(id))
  }

  ghost predicate SentAsFound(prior: Alerts.Prior, h: Hearing) {
    match prior
    case NoIncident => true
    case OpenIncident => h.usual.Some?
    case LocalIncident(still) => h.quiet.Some? && (!still ==> h.usual.Some?)
  }

  /** What tasks send, however they are interleaved, restarted and delayed, is what the coalescer's promises ask for. */
  lemma TasksSpeak(monitors: map<string, Monitor>, events: seq<Event>)
    requires Delivers(monitors, events) && DegradedAlertsOff(monitors)
    requires Routing.StayConfigured(FoundOpen(monitors), events)
    ensures Routing.Spoken(FoundOpen(monitors), events)
  {
    hide Alerts.Run, PhaseAfter, Routing.Projection;
    forall id ensures Routing.PhaseOf(FoundOpen(monitors), events, id).Some? {
      var heard, sent := Routing.Projection(events, id), Sent(monitors, id);
      assert heard == sent[..|heard|];
      if id in monitors {
        Alerts.SpeaksItsLanguage(monitors[id].prior, monitors[id].steps);
        PrefixClosed(Alerts.StartPhase(monitors[id].prior), sent, |heard|);
      } else {
        NothingSaid();
      }
    }
  }

  lemma NothingSaid()
    ensures PhaseAfter(Idle, []).Some?
  {
  }

  /** A task only resumes the local-only outage that was found, as it was found. */
  lemma {:induction false} ResumesWhatItFound(prior: Alerts.Prior, steps: seq<Alerts.Step>, confirmed: bool)
    requires ResumedQuiet(confirmed) in Alerts.Run(prior, steps).sent
    ensures prior == Alerts.LocalIncident(!confirmed)
  {
    if steps != [] {
      var front := steps[..|steps| - 1];
      if ResumedQuiet(confirmed) in Alerts.Run(prior, front).sent {
        ResumesWhatItFound(prior, front, confirmed);
      }
    }
  }

  lemma {:induction false} ResumeIsHeard(events: seq<Event>, k: nat)
    requires k < |events| && events[k].input.Resume?
    ensures ResumedQuiet(events[k].input.confirmed) in Routing.Projection(events, events[k].input.id)
  {
    if k < |events| - 1 {
      var front := events[..|events| - 1];
      ResumeIsHeard(front, k);
      assert front[k] == events[k];
    }
  }

  /** An outage is resumed as the database holds it. */
  lemma ResumesAsFound(monitors: map<string, Monitor>, events: seq<Event>, k: nat)
    requires Delivers(monitors, events) && k < |events| && events[k].input.Resume?
    ensures var id := events[k].input.id;
      id in monitors && monitors[id].prior == Alerts.LocalIncident(!events[k].input.confirmed)
  {
    hide Alerts.Run, Routing.Projection;
    var id := events[k].input.id;
    ResumeIsHeard(events, k);
    assert Routing.Projection(events, id) <= Sent(monitors, id);
    ResumesWhatItFound(monitors[id].prior, monitors[id].steps, events[k].input.confirmed);
  }

  lemma TasksKnow(monitors: map<string, Monitor>, past: Past, events: seq<Event>)
    requires Delivers(monitors, events) && SentAtMost(monitors, past)
    ensures Knows(past, FoundOpen(monitors), events)
  {
    hide Delivers;
    forall k | 0 <= k < |events| && events[k].input.Resume? ensures KnowsOf(past, events[k]) {
      ResumesAsFound(monitors, events, k);
      assert AtMostAsFound(monitors[events[k].input.id].prior, past(events[k].input.id));
    }
    forall id | id in FoundOpen(monitors) ensures past(id).quiet.None? {
      assert AtMostAsFound(monitors[id].prior, past(id));
    }
  }

  lemma TasksRemember(monitors: map<string, Monitor>, past: Past, events: seq<Event>)
    requires Delivers(monitors, events) && WereSent(monitors, past)
    ensures Remembers(past, FoundOpen(monitors), events)
  {
    hide Delivers;
    TasksKnow(monitors, past, events);
    forall k | 0 <= k < |events| && events[k].input.Resume? ensures RestoredRight(past, events[k]) {
      ResumesAsFound(monitors, events, k);
      assert SentAsFound(monitors[events[k].input.id].prior, past(events[k].input.id));
      assert AtMostAsFound(monitors[events[k].input.id].prior, past(events[k].input.id));
    }
    forall id | id in FoundOpen(monitors) ensures past(id).usual.Some? {
      assert SentAsFound(monitors[id].prior, past(id));
    }
  }

  /**
   * From probe to channel: under any pattern of ticks, mutes, threshold edits, task aborts
   * and restarts, message delays, folds and flushes, degraded alerts off, the channels told
   * of a recovery are those told of a down it ends - if and only if the parts of the outage
   * that count as heard, on the routes in force at the recovery, reach the channels that its
   * downs were told to.
   */
  lemma ChannelsHearWhatTheyWereTold(monitors: map<string, Monitor>, past: Past, events: seq<Event>, i: nat)
    requires Delivers(monitors, events) && DegradedAlertsOff(monitors) && SentAtMost(monitors, past)
    requires Routing.StayConfigured(FoundOpen(monitors), events)
    requires i < |events| && events[i].input.Recovery?
    ensures var id, open := events[i].input.id, FoundOpen(monitors);
      (forall c :: Hears(RecoveryRoutes(events, i), c) <==> WasTold(past, open, events, i, id, c))
      <==> SameReach(Announcements.Before(past, open, events, i, id), Named(open, events, i))
  {
    hide RecoveryRoutes, WasTold, Announcements.Before, SameReach, Named;
    TasksSpeak(monitors, events);
    TasksKnow(monitors, past, events);
    RecoveryHeardIff(past, FoundOpen(monitors), events, i);
  }

  /**
   * When the outages found open had all been sent as the database has it, what counts as heard is what
   * was told, and the condition is one on the routes alone.
   */
  lemma SentOutagesHeardIffRoutesStillReach(monitors: map<string, Monitor>, past: Past, events: seq<Event>, i: nat)
    requires Delivers(monitors, events) && DegradedAlertsOff(monitors) && WereSent(monitors, past)
    requires Routing.StayConfigured(FoundOpen(monitors), events)
    requires i < |events| && events[i].input.Recovery?
    ensures var id, open := events[i].input.id, FoundOpen(monitors);
      (forall c :: Hears(RecoveryRoutes(events, i), c) <==> WasTold(past, open, events, i, id, c))
      <==> StillReach(Announcements.Before(past, open, events, i, id), events[i].input.notify, events[i].quiet)
  {
    hide RecoveryRoutes, WasTold, Announcements.Before, StillReach;
    TasksSpeak(monitors, events);
    TasksRemember(monitors, past, events);
    RecoveryHeardIffRoutesStillReach(past, FoundOpen(monitors), events, i);
  }

  /**
   * So, while the routes are left alone, a channel hears of a recovery exactly when it heard of a down
   * that it ends.
   */
  lemma UneditedRoutesAgree(monitors: map<string, Monitor>, past: Past, events: seq<Event>, i: nat, channel: string)
    requires Delivers(monitors, events) && DegradedAlertsOff(monitors) && WereSent(monitors, past)
    requires Routing.StayConfigured(FoundOpen(monitors), events)
    requires i < |events| && events[i].input.Recovery?
    requires var h := Announcements.Before(past, FoundOpen(monitors), events, i, events[i].input.id);
             h == Rerouted(h, events[i].input.notify, events[i].quiet)
    ensures Hears(RecoveryRoutes(events, i), channel)
       <==> WasTold(past, FoundOpen(monitors), events, i, events[i].input.id, channel)
  {
    hide RecoveryRoutes, WasTold, Announcements.Before, Rerouted;
    TasksSpeak(monitors, events);
    TasksRemember(monitors, past, events);
    UnchangedRoutesAgree(past, FoundOpen(monitors), events, i, channel);
  }
}
