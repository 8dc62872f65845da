/**
 * The fleet of monitor tasks: at most one live task per alert cell, and a cell for as
 * long as its id is configured - so what happens to an id's tasks is one run.
 */
module Supervisor {
  import opened Wrappers
  import opened Signals
  import opened Alerts
  import opened Scheduler

  datatype Running<T> = Running(spec: T, task: MonitorTask)

  class Fleet<T(==)> {
    var running: map<string, Running<T>>
    var alertStates: map<string, AlertCell>
    /** Every task ever spawned, running or not. */
    ghost var spawned: set<MonitorTask>

    ghost predicate Valid()
      reads this, spawned, alertStates.Values
    {
      && (forall id :: id in running ==> Owns(id))
      && (forall a, b :: a in alertStates && b in alertStates && alertStates[a] == alertStates[b] ==> a == b)
      && (forall t :: t in spawned && t.IsLive() ==> Runs(t))
      && (forall id :: id in alertStates ==> Chronicled(id))
    }

    /** A running task is on its id's cell. */
    ghost predicate Owns(id: string)
      requires id in running
      reads this
    {
      && running[id].task in spawned && id in alertStates && running[id].task.cell == alertStates[id]
    }

    ghost predicate Runs(t: MonitorTask)
      reads this
    {
      exists id :: id in running && running[id].task == t
    }

    /** An id's cell, its task if one is on it, and what it has sent. */
    ghost function WorldOf(id: string): World
      requires id in alertStates
      reads this, alertStates[id], if id in running then {running[id].task} else {}
    {
      World(alertStates[id].state, if id in running then running[id].task.Suspended() else Gone, alertStates[id].sent)
    }

    /** The id's world is where the run of everything that happened to its tasks leads. */
    ghost predicate Chronicled(id: string)
      requires id in alertStates
      reads this, alertStates[id], if id in running then {running[id].task} else {}
    {
      WorldOf(id) == Run(alertStates[id].prior, alertStates[id].steps)
    }

    constructor ()
      ensures Valid() && running == map[] && alertStates == map[] && spawned == {}
    {
      running, alertStates, spawned := map[], map[], {};
    }

    /** No two live tasks ever share a cell, so a cell has one writer. */
    lemma OneWriterPerCell(t: MonitorTask, u: MonitorTask)
      requires Valid() && t in spawned && u in spawned && t.IsLive() && u.IsLive() && t.cell == u.cell
      ensures t == u
    {
      assert Runs(t) && Runs(u);
    }

    /**
     * Whatever the supervisor does, what an id has sent is what one run of its tasks
     * sends: with degraded alerts off, blocks of downs and recoveries.
     */
    lemma FleetSpeaks(id: string)
      requires Valid() && id in alertStates && DegradedAlertsOff(alertStates[id].steps)
      ensures alertStates[id].sent == Run(alertStates[id].prior, alertStates[id].steps).sent
      ensures PhaseAfter(StartPhase(alertStates[id].prior), alertStates[id].sent).Some?
    {
      assert Chronicled(id);
      SpeaksItsLanguage(alertStates[id].prior, alertStates[id].steps);
    }

    /** The state a task steps from is recorded, so it can step. */
    lemma TaskIsRecorded(id: string)
      requires Valid() && id in running
      ensures running[id].task.Recorded()
    {
      assert Owns(id) && Chronicled(id);
    }

    /** A step of a running task, on its own cell, keeps the fleet whole. */
    twostate lemma TaskSteps(id: string)
      requires old(Valid()) && id in old(running) && old(running[id].task.IsLive())
      requires unchanged(this)
      requires running[id].task.Recorded()
      requires forall t :: t in spawned && t != running[id].task ==> old(allocated(t)) && unchanged(t)
      requires forall other :: other in alertStates && other != id ==> unchanged(alertStates[other])
      ensures Valid()
    {
      hide Run;
      assert old(Owns(id));
      forall other | other in running ensures Owns(other) {
        assert old(Owns(other));
      }
      forall other | other in alertStates ensures Chronicled(other) {
        assert old(Chronicled(other));
        if other in running && other != id {
          assert Owns(other);
        }
      }
      forall t | t in spawned && t.IsLive() ensures Runs(t) {
        assert old(Runs(t));
        var other :| other in old(running) && old(running)[other].task == t;
        assert running[other].task == t;
      }
    }

    ghost predicate Keeps(desired: map<string, T>, id: string)
      reads this
    {
      id in running && id in desired && running[id].spec == desired[id]
    }

    /** The task of an id is the one it was, where it was. */
    twostate predicate Untouched(id: string)
      requires id in running
      reads this, running[id].task
    {
      && id in old(running) && running[id] == old(running)[id]
      && old(allocated(running[id].task)) && unchanged(running[id].task)
    }

    /** `retire`: only the tasks still wanted as they are go on, and only the ids still configured keep their cell. */
    method Retire(desired: map<string, T>)
      requires Valid()
      modifies this, spawned, alertStates.Values
      ensures Valid() && spawned == old(spawned)
      ensures forall id :: id in running <==> old(Keeps(desired, id))
      ensures forall id :: id in running ==> Untouched(id)
      ensures alertStates == map id | id in old(alertStates) && id in desired :: old(alertStates)[id]
    {
      StopLeavers(desired);
      label stopped:
      alertStates := map id | id in alertStates && id in desired :: alertStates[id];
      Forgotten@stopped(desired);
    }

    /** Forgetting the cells of ids without a task loses nothing else. */
    twostate lemma Forgotten(desired: map<string, T>)
      requires old(Valid()) && running == old(running) && spawned == old(spawned)
      requires forall id :: id in running ==> id in desired
      requires alertStates == map id | id in old(alertStates) && id in desired :: old(alertStates)[id]
      requires forall t :: t in spawned ==> old(allocated(t)) && unchanged(t)
      requires forall id :: id in alertStates ==> unchanged(alertStates[id])
      ensures Valid()
    {
      hide Run;
      forall id | id in running ensures Owns(id) {
        assert old(Owns(id));
      }
      forall id | id in alertStates ensures Chronicled(id) {
        assert old(Chronicled(id));
        if id in running {
          assert Owns(id);
        }
      }
      forall t | t in spawned && t.IsLive() ensures Runs(t) {
        assert old(Runs(t));
        var other :| other in old(running) && old(running)[other].task == t;
        assert running[other].task == t;
      }
    }

    method StopLeavers(desired: map<string, T>)
      requires Valid()
      modifies this`running, spawned, alertStates.Values
      ensures Valid()
      ensures forall id :: id in running <==> old(Keeps(desired, id))
      ensures forall id :: id in running ==> Untouched(id)
    {
      hide Valid, Runs, Chronicled;
      var left := running.Keys;
      while left != {}
        invariant left <= running.Keys
        invariant forall id :: id in running <==> id in left || old(Keeps(desired, id))
        invariant forall id :: id in running ==> Untouched(id)
        invariant Valid()
        decreases left
      {
        var id :| id in left;
        left := left - {id};
        if !(id in desired && running[id].spec == desired[id]) {
          Stop(id);
        }
      }
    }

    /** Abort a running task. */
    method Stop(id: string)
      requires Valid() && id in running
      modifies this`running, spawned, alertStates.Values
      ensures Valid() && running == old(running) - {id}
      ensures forall other :: other in running ==> Untouched(other)
    {
      var task := running[id].task;
      TaskIsRecorded(id);
      assert Owns(id);
      task.Abort();
      running := running - {id};
      Stopped(id);
    }

    /** With its task aborted, an id is left as it was, the abort recorded. */
    twostate lemma Stopped(id: string)
      requires old(Valid()) && id in old(running) && running == old(running) - {id}
      requires unchanged(this`alertStates) && unchanged(this`spawned)
      requires old(running)[id].task.Recorded() && !old(running)[id].task.IsLive()
      requires forall t :: t in spawned ==> old(allocated(t)) && (t != old(running)[id].task ==> unchanged(t))
      requires forall other :: other in alertStates && other != id ==> unchanged(alertStates[other])
      ensures Valid() && forall other :: other in running ==> Untouched(other)
    {
      hide Run;
      assert old(Owns(id));
      forall other | other in running ensures Owns(other) && Untouched(other) {
        assert old(Owns(other));
        assert old(running)[other].task != old(running)[id].task;
      }
      forall other | other in alertStates ensures Chronicled(other) {
        assert old(Chronicled(other));
        if other in running {
          assert Owns(other);
        }
      }
      forall t | t in spawned && t.IsLive() ensures Runs(t) {
        assert old(Runs(t));
        var other :| other in old(running) && old(running)[other].task == t;
        assert other in running;
      }
    }

    /** `reap_dead`: forget the tasks that finished on their own, so the next reconcile restarts them. */
    method ReapDead() returns (any: bool)
      requires Valid()
      modifies this`running
      ensures Valid()
      ensures forall id :: id in running <==> id in old(running) && old(running)[id].task.IsLive()
      ensures forall id :: id in running ==> running[id] == old(running)[id]
      ensures any <==> running != old(running)
    {
      var dead := set id | id in running && !running[id].task.IsLive();
      running := running - dead;
      any := dead != {};
      if any {
        var id :| id in dead;
        assert id in old(running) && id !in running;
      } else {
        assert running == old(running);
      }
      Reaped();
    }

    /** A finished task is as good as none. */
    twostate lemma Reaped()
      requires old(Valid())
      requires unchanged(this`alertStates) && unchanged(this`spawned)
      requires forall id :: id in running <==> id in old(running) && old(running[id].task.IsLive())
      requires forall id :: id in running ==> running[id] == old(running)[id]
      requires forall t :: t in spawned ==> old(allocated(t)) && unchanged(t)
      requires forall id :: id in alertStates ==> unchanged(alertStates[id])
      ensures Valid()
    {
      hide Run;
      forall id | id in running ensures Owns(id) {
        assert old(Owns(id));
      }
      forall id | id in alertStates ensures Chronicled(id) {
        assert old(Chronicled(id));
        if id in old(running) {
          assert old(Owns(id));
        }
      }
      forall t | t in spawned && t.IsLive() ensures Runs(t) {
        assert old(Runs(t));
        var id :| id in old(running) && old(running)[id].task == t;
        assert id in running;
      }
    }

    /** `reconcile`: afterwards what runs is what is desired, and what need not change has not. */
    method Reconcile(desired: map<string, T>, badProxy: set<string>, ghost priors: string -> Prior)
      requires Valid()
      modifies this, spawned, alertStates.Values
      ensures Valid()
      ensures forall id :: id in running <==> id in desired && (id !in badProxy || old(Keeps(desired, id)))
      ensures forall id :: id in running ==> running[id].spec == desired[id]
      ensures forall id :: id in running && old(Keeps(desired, id)) ==> Untouched(id)
      ensures forall id :: id in running && !old(Keeps(desired, id)) ==>
        running[id].task.IsLive() && running[id].task !in old(spawned)
      ensures forall id :: id in desired && id in old(alertStates) ==>
        id in alertStates && alertStates[id] == old(alertStates)[id]
      ensures forall id :: id in alertStates ==> id in desired
    {
      hide Valid, Runs, Chronicled;
      Retire(desired);
      StartMissing(desired, badProxy, priors);
    }

    method StartMissing(desired: map<string, T>, badProxy: set<string>, ghost priors: string -> Prior)
      requires Valid()
      modifies this, alertStates.Values
      ensures Valid() && old(spawned) <= spawned
      ensures forall id :: id in running <==> id in old(running) || (id in desired && id !in badProxy)
      ensures forall id :: id in old(running) ==> running[id] == old(running)[id]
      ensures forall id :: id in running && id !in old(running) ==>
        id in desired && running[id].spec == desired[id] && running[id].task.IsLive() && fresh(running[id].task)
      ensures forall id :: id in old(alertStates) ==>
        id in alertStates && alertStates[id] == old(alertStates)[id]
      ensures forall id :: id in alertStates ==> id in old(alertStates) || id in desired
    {
      hide Valid, Runs, Chronicled;
      var left := desired.Keys;
      while left != {}
        invariant left <= desired.Keys && Valid() && old(spawned) <= spawned
        invariant forall id :: id in running <==>
          id in old(running) || (id in desired && id !in badProxy && id !in left)
        invariant forall id :: id in old(running) ==> running[id] == old(running)[id]
        invariant forall id :: id in running && id !in old(running) ==>
          id in desired && running[id].spec == desired[id] && running[id].task.IsLive() && fresh(running[id].task)
        invariant forall id :: id in old(alertStates) ==> id in alertStates && alertStates[id] == old(alertStates)[id]
        invariant forall id :: id in alertStates ==> id in old(alertStates) || id in desired
        invariant forall id :: id in alertStates ==>
          alertStates[id] in old(alertStates).Values || fresh(alertStates[id])
        decreases left
      {
        var id :| id in left;
        left := left - {id};
        if id !in running && id !in badProxy {
          Start(id, desired[id], priors(id));
        }
      }
    }

    /** `alert_state`: an id's own cell, a new one the first time. */
    method AlertStateOf(id: string, ghost prior: Prior) returns (cell: AlertCell)
      requires Valid()
      modifies this`alertStates
      ensures Valid()
      ensures id in alertStates && alertStates == old(alertStates)[id := cell]
      ensures if id in old(alertStates) then cell == old(alertStates)[id]
              else fresh(cell) && cell.prior == prior && WorldOf(id) == BORN
    {
      if id in alertStates {
        cell := alertStates[id];
      } else {
        cell := new AlertCell(prior);
        alertStates := alertStates[id := cell];
        Added(id, cell);
      }
    }

    /** A new id starts with an empty cell and nothing sent. */
    twostate lemma Added(id: string, new cell: AlertCell)
      requires old(Valid()) && id !in old(alertStates) && unchanged(this`running) && unchanged(this`spawned)
      requires alertStates == old(alertStates)[id := cell] && fresh(cell)
      requires forall other :: other in old(alertStates) ==> unchanged(old(alertStates)[other])
      requires cell.state == None && cell.steps == [] && cell.sent == []
      requires forall t :: t in spawned ==> old(allocated(t)) && unchanged(t)
      ensures Valid()
    {
      hide Next;
      forall other | other in running ensures Owns(other) {
        assert old(Owns(other));
      }
      forall other | other in alertStates ensures Chronicled(other) {
        if other != id {
          assert old(Chronicled(other));
          if other in running {
            assert Owns(other);
          }
        }
      }
      forall t | t in spawned && t.IsLive() ensures Runs(t) {
        assert old(Runs(t));
        var other :| other in old(running) && old(running)[other].task == t;
        assert running[other].task == t;
      }
    }

    /** `spawn_monitor`, on the id's cell: the next step of the id's run. */
    method Start(id: string, spec: T, ghost prior: Prior)
      requires Valid() && id !in running
      modifies this, alertStates.Values
      ensures Valid()
      ensures id in running && running == old(running)[id := running[id]] && running[id].spec == spec
      ensures fresh(running[id].task) && running[id].task.IsLive() && spawned == old(spawned) + {running[id].task}
      ensures id in alertStates && alertStates == old(alertStates)[id := alertStates[id]]
      ensures id in old(alertStates) ==> alertStates[id] == old(alertStates)[id]
      ensures id !in old(alertStates) ==> fresh(alertStates[id]) && alertStates[id].prior == prior
      ensures WorldOf(id) ==
        Next(alertStates[id].prior, if id in old(alertStates) then old(WorldOf(id)) else BORN, Spawn)
    {
      hide Next;
      var cell := AlertStateOf(id, prior);
      label prepared:
      assert Chronicled(id);
      var task := new MonitorTask(cell);
      running := running[id := Running(spec, task)];
      spawned := spawned + {task};
      Started@prepared(id, task);
    }

    /** A recorded task put on an idle id keeps the fleet whole. */
    twostate lemma Started(id: string, new task: MonitorTask)
      requires old(Valid()) && id !in old(running) && id in old(alertStates)
      requires id in running && running == old(running)[id := running[id]] && running[id].task == task
      requires unchanged(this`alertStates) && spawned == old(spawned) + {task}
      requires task.cell == alertStates[id] && fresh(task) && task.Recorded()
      requires forall t :: t in old(spawned) ==> old(allocated(t)) && unchanged(t)
      requires forall other :: other in alertStates && other != id ==> unchanged(alertStates[other])
      ensures Valid()
    {
      hide Run;
      forall other | other in running ensures Owns(other) {
        if other != id {
          assert old(Owns(other));
        }
      }
      forall other | other in alertStates ensures Chronicled(other) {
        assert old(Chronicled(other));
        if other in running {
          assert Owns(other);
        }
      }
      forall t | t in spawned && t.IsLive() ensures Runs(t) {
        if t == task {
          assert Runs(t);
        } else {
          assert old(Runs(t));
          var other :| other in old(running) && old(running)[other].task == t;
          assert running[other].task == t;
        }
      }
    }
  }
}
