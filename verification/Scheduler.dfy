/** The monitor task in place: its stack, and the cell it writes back to and sends from. */
module Scheduler {
  import opened Wrappers
  import opened Alerts
  import opened Signals

  /**
   * What every task of one id is handed: the cell where it leaves its alert state for
   * the next one, and the id's end of the channel to the coalescer.
   */
  class AlertCell {
    var state: Option<AlertState>
    /** What the id's tasks have sent to the coalescer. */
    var sent: seq<Signal>
    /** What the database held when the first task of the id was started. */
    ghost const prior: Prior
    /** Everything that happened to the tasks of the id. */
    ghost var steps: seq<Step>

    constructor (ghost prior: Prior)
      ensures state == None && sent == [] && this.prior == prior && steps == []
    {
      state, sent := None, [];
      this.prior, steps := prior, [];
    }

    method Set(s: AlertState)
      modifies this`state
      ensures state == Some(s)
    {
      state := Some(s);
    }

    method Send(signal: Signal)
      modifies this`sent
      ensures sent == old(sent) + [signal]
    {
      sent := sent + [signal];
    }
  }

  /** Which `.await` a task is suspended at. */
  datatype Stage = AtNothing | AtIncident | AtRouting | AtTicker | AtBurn | AtConfirm | AtReask | AtDegraded

  class MonitorTask {
    const cell: AlertCell
    var stage: Stage
    var state: AlertState
    var tick: Tick

    ghost function Suspended(): Await
      reads this
    {
      match stage
      case AtNothing => Gone
      case AtIncident => Starting
      case AtRouting => ReadingRouting(state)
      case AtTicker => Ticking(state)
      case AtBurn => Burning(state, tick)
      case AtConfirm => Confirming(state, tick)
      case AtReask => Reasking(state, tick)
      case AtDegraded => Degrading(state, tick)
    }

    ghost function View(): World
      reads this, cell
    {
      World(cell.state, Suspended(), cell.sent)
    }

    /** The task and its cell are where the run of the cell's steps leads. */
    ghost predicate Recorded()
      reads this, cell
    {
      View() == Run(cell.prior, cell.steps)
    }

    /** That step of the run was taken, and recorded. */
    twostate predicate Took(step: Step)
      reads this, cell
    {
      && View() == Next(cell.prior, old(View()), step)
      && cell.steps == old(cell.steps) + [step] && Recorded()
    }

    /** `spawn_monitor`: the next task on a cell no task is using. */
    constructor (cell: AlertCell)
      requires World(cell.state, Gone, cell.sent) == Run(cell.prior, cell.steps)
      modifies cell`steps
      ensures this.cell == cell && stage == AtIncident
      ensures View() == Next(cell.prior, old(World(cell.state, Gone, cell.sent)), Spawn)
      ensures cell.steps == old(cell.steps) + [Spawn] && Recorded()
    {
      this.cell := cell;
      stage, state, tick := AtIncident, DEFAULT, Tick(IsUp, 1, false, 0);
      new;
      Record(Spawn, World(cell.state, Gone, cell.sent));
    }

    ghost method Record(step: Step, was: World)
      requires was == Run(cell.prior, cell.steps) && View() == Next(cell.prior, was, step)
      modifies cell`steps
      ensures cell.steps == old(cell.steps) + [step] && Recorded()
    {
      hide Next, Run;
      RunAppend(cell.prior, cell.steps, step);
      cell.steps := cell.steps + [step];
    }

    predicate IsLive()
      reads this
    {
      stage != AtNothing
    }

    /** `abort`, or a panic: the stack is gone. */
    method Abort()
      requires Recorded()
      modifies this`stage, cell`steps
      ensures Took(Step.Abort) && stage == AtNothing
    {
      ghost var was := View();
      stage := AtNothing;
      Record(Step.Abort, was);
    }

    /** `observe_down` */
    method ObserveDown(threshold: nat) returns (confirms: bool)
      modifies this`state
      ensures (state, confirms) == Alerts.ObserveDown(old(state), threshold)
    {
      state := state.(consecutiveDown := SaturatingSucc(state.consecutiveDown), consecutiveDegraded := 0);
      confirms := state.consecutiveDown >= threshold && state.level != Down;
    }

    /** `observe_degraded` */
    method ObserveDegraded(threshold: nat) returns (confirms: bool)
      modifies this`state
      ensures (state, confirms) == Alerts.ObserveDegraded(old(state), threshold)
    {
      state := state.(consecutiveDegraded := SaturatingSucc(state.consecutiveDegraded), consecutiveDown := 0);
      confirms := state.consecutiveDegraded >= threshold && state.level != Degraded;
    }

    /** `observe_up` */
    method ObserveUp() returns (wasAlerted: bool)
      modifies this`state
      ensures (state, wasAlerted) == Alerts.ObserveUp(old(state))
    {
      state := state.(consecutiveDown := 0, consecutiveDegraded := 0, localOnlyAsked := None);
      wasAlerted := state.level != Healthy;
    }

    /** The open incident is known: resume from the cell, from the incident, or from nothing. */
    method FoundIncident(prior: Prior, threshold: nat)
      requires stage == AtIncident && prior == cell.prior && Recorded()
      modifies this, cell
      ensures Took(Step.FoundIncident(threshold))
    {
      ghost var was := View();
      if cell.state.Some? {
        state := cell.state.value;
      } else if prior != NoIncident {
        state := ResumedDown(threshold);
        stage := AtRouting;
        Record(Step.FoundIncident(threshold), was);
        return;
      } else {
        state := DEFAULT;
      }
      WriteBack();
      Record(Step.FoundIncident(threshold), was);
    }

    /** The incident's routing is known: tell the coalescer what the restart made it forget. */
    method FoundRouting(prior: Prior, now: int)
      requires stage == AtRouting && prior == cell.prior && Recorded()
      modifies this, cell
      ensures Took(Step.FoundRouting(now))
    {
      ghost var was := View();
      if prior.LocalIncident? {
        cell.Send(ResumedQuiet(!prior.still));
        if prior.still {
          state := state.(localOnlyAsked := Some(now));
        }
      }
      WriteBack();
      Record(Step.FoundRouting(now), was);
    }

    /** An unmuted tick has an outcome. */
    method Observe(tick: Tick, burns: bool)
      requires stage == AtTicker && Recorded()
      modifies this, cell
      ensures Took(Step.Observe(tick, burns))
    {
      ghost var was := View();
      this.tick := tick;
      if burns {
        stage := AtBurn;
      } else {
        React();
      }
      Record(Step.Observe(tick, burns), was);
    }

    /** The burn-rate evaluation is over. */
    method Burned(burn: BurnAlerts)
      requires stage == AtBurn && Recorded()
      modifies this, cell
      ensures Took(Step.Burned(burn))
    {
      ghost var was := View();
      state := state.(burn := burn);
      cell.Set(state);
      React();
      Record(Step.Burned(burn), was);
    }

    /** The tail of a tick, up to its next `.await`. */
    method React()
      modifies this, cell`state, cell`sent
      ensures View() == Alerts.React(old(View()), old(state), old(tick))
    {
      if tick.reading == IsDown {
        var confirms := ObserveDown(tick.threshold);
        if confirms {
          stage := AtConfirm;
          return;
        }
        if ReaskDue(state, tick.now) {
          stage := AtReask;
          return;
        }
      } else if tick.reading == IsSlow && tick.degradedOn {
        var confirms := ObserveDegraded(tick.threshold);
        if confirms {
          stage := AtDegraded;
          return;
        }
      } else {
        var wasAlerted := ObserveUp();
        if wasAlerted {
          cell.Send(Signal.Recovery);
          state := state.(level := Healthy);
        }
      }
      WriteBack();
    }

    /** The peers answered, about a new down or about one still local-only. */
    method Verdict(localOnly: bool, now: int)
      requires (stage == AtConfirm || stage == AtReask) && Recorded()
      modifies this, cell
      ensures Took(Step.Verdict(localOnly, now))
    {
      ghost var was := View();
      if stage == AtConfirm {
        cell.Send(if localOnly then LocalDown else RealDown);
        state := state.(level := Down);
      } else if !localOnly {
        cell.Send(RealDown);
      }
      state := state.(localOnlyAsked := if localOnly then Some(now) else None);
      WriteBack();
      Record(Step.Verdict(localOnly, now), was);
    }

    /** The degraded notification went out. */
    method DegradedSent()
      requires stage == AtDegraded && Recorded()
      modifies this, cell
      ensures Took(Step.DegradedSent)
    {
      ghost var was := View();
      state := state.(level := Degraded);
      WriteBack();
      Record(Step.DegradedSent, was);
    }

    /** Nothing is awaited between what the tick sent and this. */
    method WriteBack()
      modifies this`stage, cell`state
      ensures cell.state == Some(state) && stage == AtTicker
    {
      cell.Set(state);
      stage := AtTicker;
    }
  }
}
