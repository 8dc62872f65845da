/**
 * What a new process makes of an outage the last one announced: it goes by the incident
 * in the database, and an up tick under a mute closes that without a message.
 */
module Restarts {
  import opened Wrappers
  import opened Signals
  import opened Alerts
  import DegradedAlerts

  /** Every tick finds the monitor up, and fast. */
  ghost predicate OnlyUp(steps: seq<Step>) {
    forall i :: 0 <= i < |steps| && steps[i].Observe? ==> steps[i].tick.reading.IsUp?
  }

  /** What a boot says of the outage it resumes. */
  function Resuming(prior: Prior): seq<Signal> {
    if prior.LocalIncident? then [ResumedQuiet(!prior.still)] else []
  }

  /** What is sent of a boot and of the up ticks after it. */
  function SentOf(prior: Prior, commits: seq<Commitment>): seq<Signal> {
    if commits == [] then []
    else Resuming(prior) + if !prior.NoIncident? && UpTick in commits then [Signal.Recovery] else []
  }

  ghost predicate Ends(prior: Prior, w: World, commits: seq<Commitment>) {
    && w.sent == SentOf(prior, commits)
    && (w.cell.None? <==> commits == [])
    && (w.cell.Some? ==>
          w.cell.value.level == if prior.NoIncident? || UpTick in commits then Healthy else AlertLevel.Down)
    && match w.task
       case ReadingRouting(state) => w.cell.None? && !prior.NoIncident? && state.level == AlertLevel.Down
       case Ticking(state) => w.cell == Some(state)
       case Burning(state, tick) => w.cell == Some(state) && tick.reading.IsUp?
       case Confirming(_, _) => false
       case Reasking(_, _) => false
       case Degrading(_, _) => false
       case _ => true
  }

  lemma UpTickEnds(prior: Prior, w: World, commits: seq<Commitment>, state: AlertState)
    requires w.cell.Some? && Ends(prior, w.(task := Gone), commits) && state.level == w.cell.value.level
    ensures Ends(prior, ReactUp(w, state), commits + [UpTick])
  {
    assert UpTick in commits + [UpTick];
    assert w.sent + [] == w.sent;
  }

  lemma NextEnds(prior: Prior, w: World, commits: seq<Commitment>, step: Step)
    requires Ends(prior, w, commits) && (step.Observe? ==> step.tick.reading.IsUp?)
    ensures Ends(prior, Next(prior, w, step), commits + CommitsOf(prior, w, step))
  {
    hide ReactUp;
    var more := CommitsOf(prior, w, step);
    match (step, w.task) {
      case (Observe(tick, burns), Ticking(state)) =>
        if burns {
          assert commits + more == commits;
        } else {
          UpTickEnds(prior, w, commits, state);
        }
      case (Burned(burn), Burning(state, tick)) =>
        var state' := state.(burn := burn);
        assert UpTick in commits + [BurnSet(burn)] <==> UpTick in commits;
        UpTickEnds(prior, w.(cell := Some(state')), commits + [BurnSet(burn)], state');
        assert commits + more == (commits + [BurnSet(burn)]) + [UpTick];
      case _ =>
        if more == [] {
          assert commits + more == commits;
        }
        assert w.sent + [] == w.sent;
    }
  }

  /**
   * While a restarted monitor is only found up, it says what it resumes and then one
   * recovery - and that if and only if the database had an incident open.
   */
  lemma {:induction false} UpTicksEndWhatIsOpen(prior: Prior, steps: seq<Step>)
    requires OnlyUp(steps)
    ensures Run(prior, steps).sent == SentOf(prior, Commits(prior, steps))
    ensures Ends(prior, Run(prior, steps), Commits(prior, steps))
  {
    hide Next, CommitsOf;
    if steps != [] {
      var front := steps[..|steps| - 1];
      UpTicksEndWhatIsOpen(prior, front);
      NextEnds(prior, Run(prior, front), Commits(prior, front), steps[|steps| - 1]);
    }
  }

  /**
   * One input, at every threshold: a down is told, its incident closed by an up tick under a mute, and
   * the daemon restarted; the first up tick after that says nothing.
   */
  lemma ClosedUnderMute(threshold: nat) returns (before: seq<Step>, after: seq<Step>)
    requires 0 < threshold <= U32_MAX
    ensures Run(NoIncident, before).sent == [RealDown] && before[|before| - 1] == Silent
    ensures OnlyUp(after) && UpTick in Commits(NoIncident, after) && Run(NoIncident, after).sent == []
  {
    hide Run, Commits;
    var boot, up := DegradedAlerts.Boot(threshold), Observe(Tick(IsUp, threshold, false, 0), false);
    var s := DegradedAlerts.BootWaits(NoIncident, threshold);
    DegradedAlerts.OutageConfirms(NoIncident, boot, s, [], threshold);
    before := boot + DegradedAlerts.Outage(threshold) + [Silent];
    RunAppend(NoIncident, boot + DegradedAlerts.Outage(threshold), Silent);
    after := boot + [up];
    UpTicksEndWhatIsOpen(NoIncident, after);
    CommitsAppend(NoIncident, boot, up);
  }
}
