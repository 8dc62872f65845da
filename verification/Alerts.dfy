/**
 * One monitor's anti-flap alert state, and the task that drives it: what happens
 * between two `.await`s is one step, and an abort can take effect at any of them.
 */
module Alerts {
  import opened Wrappers
  import opened Signals

  datatype AlertLevel = Healthy | Degraded | Down | Partition | Isolated

  datatype BurnAlerts = BurnAlerts(fast: bool, slow: bool)

  datatype AlertState = AlertState(level: AlertLevel, consecutiveDown: nat, consecutiveDegraded: nat,
                                   burn: BurnAlerts, localOnlyAsked: Option<int>)

  const DEFAULT := AlertState(Healthy, 0, 0, BurnAlerts(false, false), None)

  /** Seconds between two rounds of questions to the peers while a down stays local. */
  const LOCAL_ONLY_REASK_SECS := 300

  /** Where an outage found open at startup resumes: alerted already, one more failure changing nothing. */
  function ResumedDown(threshold: nat): AlertState {
    DEFAULT.(level := Down, consecutiveDown := threshold)
  }

  /** One more failure in a row; the flag says that it confirms the outage. */
  function ObserveDown(s: AlertState, threshold: nat): (AlertState, bool) {
    var s' := s.(consecutiveDown := SaturatingSucc(s.consecutiveDown), consecutiveDegraded := 0);
    (s', s'.consecutiveDown >= threshold && s'.level != Down)
  }

  /** One more slow answer in a row; the flag says that it confirms the degradation. */
  function ObserveDegraded(s: AlertState, threshold: nat): (AlertState, bool) {
    var s' := s.(consecutiveDegraded := SaturatingSucc(s.consecutiveDegraded), consecutiveDown := 0);
    (s', s'.consecutiveDegraded >= threshold && s'.level != Degraded)
  }

  /** A healthy answer ends both streaks; the flag says that some level was alerted. */
  function ObserveUp(s: AlertState): (AlertState, bool) {
    var s' := s.(consecutiveDown := 0, consecutiveDegraded := 0, localOnlyAsked := None);
    (s', s'.level != Healthy)
  }

  predicate ReaskDue(s: AlertState, now: int) {
    s.level == Down && s.localOnlyAsked.Some? && now - s.localOnlyAsked.value >= LOCAL_ONLY_REASK_SECS
  }

  // ---------------------------------------------------------------- the task

  datatype Reading = IsUp | IsSlow | IsDown

  /** One unmuted tick: what the probe said, and the settings read live with it. */
  datatype Tick = Tick(reading: Reading, threshold: nat, degradedOn: bool, now: int)

  /** Where the task is suspended, with the state it carries on its own stack. */
  datatype Await =
    | Gone
    | Starting
    | ReadingRouting(state: AlertState)
    | Ticking(state: AlertState)
    | Burning(state: AlertState, tick: Tick)
    | Confirming(state: AlertState, tick: Tick)
    | Reasking(state: AlertState, tick: Tick)
    | Degrading(state: AlertState, tick: Tick)

  /**
   * The outage, if any, that the database has open when the first task of the id starts; its down
   * counts as announced.
   */
  datatype Prior = NoIncident | OpenIncident | LocalIncident(still: bool)

  /** The shared cell, the task, and what it has sent to the coalescer so far. */
  datatype World = World(cell: Option<AlertState>, task: Await, sent: seq<Signal>)

  datatype Step =
    | Spawn
    | Abort
    | FoundIncident(threshold: nat)
    | FoundRouting(now: int)
    | Silent // no outcome yet, or muted
    | Observe(tick: Tick, burns: bool)
    | Burned(burn: BurnAlerts)
    | Verdict(localOnly: bool, now: int)
    | DegradedSent

  /** Written back with no `.await` after the side effect. */
  function Commit(w: World, state: AlertState, sent: seq<Signal>): World {
    World(Some(state), Ticking(state), w.sent + sent)
  }

  /** The tail of a tick, up to its next `.await`. */
  function React(w: World, state: AlertState, tick: Tick): World {
    match tick.reading
    case IsDown =>
      var (state', confirms) := ObserveDown(state, tick.threshold);
      if confirms then w.(task := Confirming(state', tick))
      else if ReaskDue(state', tick.now) then w.(task := Reasking(state', tick))
      else Commit(w, state', [])
    case IsSlow =>
      if tick.degradedOn then
        var (state', confirms) := ObserveDegraded(state, tick.threshold);
        if confirms then w.(task := Degrading(state', tick)) else Commit(w, state', [])
      else ReactUp(w, state)
    case IsUp => ReactUp(w, state)
  }

  function ReactUp(w: World, state: AlertState): World {
    var (state', wasAlerted) := ObserveUp(state);
    if wasAlerted then Commit(w, state'.(level := Healthy), [Signal.Recovery])
    else Commit(w, state', [])
  }

  /** One step of a monitor: of its task, or of the supervisor on its task. */
  function Next(prior: Prior, w: World, step: Step): World {
    match (step, w.task)
    case (Spawn, Gone) => w.(task := Starting)
    case (Abort, _) => w.(task := Gone)
    case (FoundIncident(threshold), Starting) =>
      if w.cell.Some? then Commit(w, w.cell.value, [])
      else if prior.NoIncident? then Commit(w, DEFAULT, [])
      else w.(task := ReadingRouting(ResumedDown(threshold)))
    case (FoundRouting(now), ReadingRouting(state)) =>
      if prior.LocalIncident? then
        Commit(w, if prior.still then state.(localOnlyAsked := Some(now)) else state, [ResumedQuiet(!prior.still)])
      else Commit(w, state, [])
    case (Observe(tick, burns), Ticking(state)) =>
      if burns then w.(task := Burning(state, tick)) else React(w, state, tick)
    case (Burned(burn), Burning(state, tick)) =>
      var state' := state.(burn := burn);
      React(w.(cell := Some(state')), state', tick)
    case (Verdict(localOnly, now), Confirming(state, _)) =>
      Commit(w, state.(level := Down, localOnlyAsked := if localOnly then Some(now) else None),
             [if localOnly then LocalDown else RealDown])
    case (Verdict(localOnly, now), Reasking(state, _)) =>
      if localOnly then Commit(w, state.(localOnlyAsked := Some(now)), [])
      else Commit(w, state.(localOnlyAsked := None), [RealDown])
    case (DegradedSent, Degrading(state, _)) => Commit(w, state.(level := Degraded), [])
    case _ => w
  }

  const BORN := World(None, Gone, [])

  function Run(prior: Prior, steps: seq<Step>): World {
    if steps == [] then BORN
    else Next(prior, Run(prior, steps[..|steps| - 1]), steps[|steps| - 1])
  }

  /** An open outage that was not local-only is taken for a block whose real down was sent. */
  function StartPhase(prior: Prior): Phase {
    if prior.OpenIncident? then Open(false, true) else Idle
  }

  ghost predicate DegradedAlertsOff(steps: seq<Step>) {
    forall i :: 0 <= i < |steps| && steps[i].Observe? ==> !steps[i].tick.degradedOn
  }

  // ---------------------------------------------------------------- the language it speaks

  /** The state a cell holds in a phase: alerted exactly inside a block, asking again exactly while it is only local. */
  predicate Matches(s: AlertState, phase: Phase) {
    match phase
    case Idle => s.level == Healthy && s.localOnlyAsked.None?
    case Open(quiet, full) => s.level == Down && (s.localOnlyAsked.Some? <==> !full) && (quiet || full)
  }

  ghost predicate WorldInvariant(prior: Prior, w: World) {
    && PhaseAfter(StartPhase(prior), w.sent).Some?
    && (w.cell.None?
      ==> w.sent == [] && !(w.task.Ticking? || w.task.Burning? || w.task.Confirming? || w.task.Reasking?))
    && (w.cell.Some? ==> Matches(w.cell.value, PhaseAfter(StartPhase(prior), w.sent).value) && !w.task.ReadingRouting?)
    && !w.task.Degrading?
    && match w.task
       case ReadingRouting(state) => !prior.NoIncident? && state.level == Down && state.localOnlyAsked.None?
       case Ticking(state) => w.cell == Some(state)
       case Burning(state, tick) => w.cell == Some(state) && !tick.degradedOn
       case Confirming(state, _) => w.cell.value.level == Healthy
       case Reasking(state, _) => w.cell.value.level == Down && w.cell.value.localOnlyAsked.Some? && state.level == Down
       case _ => true
  }

  lemma PhaseAppend(start: Phase, sent: seq<Signal>, signal: Signal)
    requires PhaseAfter(start, sent).Some?
    ensures PhaseAfter(start, sent + [signal]) == Advance(PhaseAfter(start, sent).value, signal)
  {
    assert (sent + [signal])[..|sent|] == sent;
  }

  lemma CommitQuietly(prior: Prior, w: World, state: AlertState)
    requires PhaseAfter(StartPhase(prior), w.sent).Some?
    requires Matches(state, PhaseAfter(StartPhase(prior), w.sent).value)
    ensures WorldInvariant(prior, Commit(w, state, []))
  {
    assert w.sent + [] == w.sent;
  }

  lemma CommitSignal(prior: Prior, w: World, state: AlertState, signal: Signal)
    requires PhaseAfter(StartPhase(prior), w.sent).Some?
    requires var phase := Advance(PhaseAfter(StartPhase(prior), w.sent).value, signal);
             phase.Some? && Matches(state, phase.value)
    ensures WorldInvariant(prior, Commit(w, state, [signal]))
  {
    PhaseAppend(StartPhase(prior), w.sent, signal);
  }

  lemma ReactKeepsInvariant(prior: Prior, w: World, state: AlertState, tick: Tick)
    requires PhaseAfter(StartPhase(prior), w.sent).Some? && w.cell == Some(state) && !tick.degradedOn
    requires Matches(state, PhaseAfter(StartPhase(prior), w.sent).value)
    ensures WorldInvariant(prior, React(w, state, tick))
  {
    hide PhaseAfter;
    if tick.reading.IsDown? {
      CommitQuietly(prior, w, ObserveDown(state, tick.threshold).0);
    } else {
      var (state', wasAlerted) := ObserveUp(state);
      if wasAlerted {
        CommitSignal(prior, w, state'.(level := Healthy), Signal.Recovery);
      } else {
        CommitQuietly(prior, w, state');
      }
    }
  }

  lemma NextKeepsInvariant(prior: Prior, w: World, step: Step)
    requires WorldInvariant(prior, w) && (step.Observe? ==> !step.tick.degradedOn)
    ensures WorldInvariant(prior, Next(prior, w, step))
  {
    hide PhaseAfter, React, Commit;
    match (step, w.task) {
      case (FoundIncident(threshold), Starting) =>
        if w.cell.Some? {
          CommitQuietly(prior, w, w.cell.value);
        } else if prior.NoIncident? {
          NothingSent(prior, w);
          CommitQuietly(prior, w, DEFAULT);
        }
      case (FoundRouting(now), ReadingRouting(state)) =>
        NothingSent(prior, w);
        if prior.LocalIncident? {
          CommitSignal(prior, w, if prior.still then state.(localOnlyAsked := Some(now)) else state,
                       ResumedQuiet(!prior.still));
        } else {
          CommitQuietly(prior, w, state);
        }
      case (Observe(tick, burns), Ticking(state)) =>
        ReactKeepsInvariant(prior, w, state, tick);
      case (Burned(burn), Burning(state, tick)) =>
        var state' := state.(burn := burn);
        ReactKeepsInvariant(prior, w.(cell := Some(state')), state', tick);
      case (Verdict(localOnly, now), Confirming(state, _)) =>
        CommitSignal(prior, w, state.(level := Down, localOnlyAsked := if localOnly then Some(now) else None),
                     if localOnly then LocalDown else RealDown);
      case (Verdict(localOnly, now), Reasking(state, _)) =>
        if localOnly {
          CommitQuietly(prior, w, state.(localOnlyAsked := Some(now)));
        } else {
          CommitSignal(prior, w, state.(localOnlyAsked := None), RealDown);
        }
      case _ =>
    }
  }

  lemma NothingSent(prior: Prior, w: World)
    requires w.sent == []
    ensures PhaseAfter(StartPhase(prior), w.sent) == Some(StartPhase(prior))
  {
  }

  lemma {:induction false} RunKeepsInvariant(prior: Prior, steps: seq<Step>)
    requires DegradedAlertsOff(steps)
    ensures WorldInvariant(prior, Run(prior, steps))
  {
    if steps != [] {
      RunKeepsInvariant(prior, steps[..|steps| - 1]);
      NextKeepsInvariant(prior, Run(prior, steps[..|steps| - 1]), steps[|steps| - 1]);
    }
  }

  /**
   * Under any pattern of ticks, mutes, threshold edits, spawns and aborts, a
   * monitor never sends a second real down before a recovery nor a recovery
   * without a down.
   */
  lemma SpeaksItsLanguage(prior: Prior, steps: seq<Step>)
    requires DegradedAlertsOff(steps)
    ensures PhaseAfter(StartPhase(prior), Run(prior, steps).sent).Some?
  {
    RunKeepsInvariant(prior, steps);
  }

  // ---------------------------------------------------------------- aborts are invisible

  /** A tick that ran to its end, with the peers' verdict if it asked for one. */
  datatype Commitment =
    | Boot(state: AlertState, announced: seq<Signal>)
    | UpTick
    | SlowTick(threshold: nat)
    | DownTick(threshold: nat, now: int, localOnly: bool, verdictAt: int)
    | BurnSet(burn: BurnAlerts)

  /** The alert state machine as it would run without tasks, awaits or aborts. */
  function Ideal(s: AlertState, c: Commitment): (AlertState, seq<Signal>) {
    match c
    case Boot(state, announced) => (state, announced)
    case BurnSet(burn) => (s.(burn := burn), [])
    case UpTick =>
      var (s', wasAlerted) := ObserveUp(s);
      if wasAlerted then (s'.(level := Healthy), [Signal.Recovery]) else (s', [])
    case SlowTick(threshold) =>
      var (s', confirms) := ObserveDegraded(s, threshold);
      (if confirms then s'.(level := Degraded) else s', [])
    case DownTick(threshold, now, localOnly, verdictAt) =>
      var (s', confirms) := ObserveDown(s, threshold);
      var asked := if localOnly then Some(verdictAt) else None;
      if confirms then (s'.(level := Down, localOnlyAsked := asked), [if localOnly then LocalDown else RealDown])
      else if ReaskDue(s', now) then (s'.(localOnlyAsked := asked), if localOnly then [] else [RealDown])
      else (s', [])
  }

  function IdealRun(commits: seq<Commitment>): (AlertState, seq<Signal>) {
    if commits == [] then (DEFAULT, [])
    else
      var before := IdealRun(commits[..|commits| - 1]);
      var step := Ideal(before.0, commits[|commits| - 1]);
      (step.0, before.1 + step.1)
  }

  /** What the tail of a tick commits before its next `.await`. */
  function ReactCommits(state: AlertState, tick: Tick): seq<Commitment> {
    if tick.reading.IsDown? then
      var (state', confirms) := ObserveDown(state, tick.threshold);
      if confirms || ReaskDue(state', tick.now) then [] else [DownTick(tick.threshold, tick.now, false, 0)]
    else if tick.reading.IsSlow? && tick.degradedOn then
      if ObserveDegraded(state, tick.threshold).1 then [] else [SlowTick(tick.threshold)]
    else [UpTick]
  }

  /** What a step commits; an abort, a spawn or a muted tick commits nothing. */
  function CommitsOf(prior: Prior, w: World, step: Step): seq<Commitment> {
    match (step, w.task)
    case (FoundIncident(threshold), Starting) => if w.cell.None? && prior.NoIncident? then [Boot(DEFAULT, [])] else []
    case (FoundRouting(now), ReadingRouting(state)) =>
      var w' := Next(prior, w, step);
      [Boot(w'.task.state, if prior.LocalIncident? then [ResumedQuiet(!prior.still)] else [])]
    case (Observe(tick, burns), Ticking(state)) => if burns then [] else ReactCommits(state, tick)
    case (Burned(burn), Burning(state, tick)) => [BurnSet(burn)] + ReactCommits(state.(burn := burn), tick)
    case (Verdict(localOnly, now), Confirming(_, tick)) => [DownTick(tick.threshold, tick.now, localOnly, now)]
    case (Verdict(localOnly, now), Reasking(_, tick)) => [DownTick(tick.threshold, tick.now, localOnly, now)]
    case (DegradedSent, Degrading(_, tick)) => [SlowTick(tick.threshold)]
    case _ => []
  }

  function Commits(prior: Prior, steps: seq<Step>): seq<Commitment> {
    if steps == [] then []
    else
      Commits(prior, steps[..|steps| - 1]) +
      CommitsOf(prior, Run(prior, steps[..|steps| - 1]), steps[|steps| - 1])
  }

  /**
   * The cell and what was sent are what the ideal machine makes of the commitments;
   * the stack is at most one observation ahead.
   */
  ghost predicate Tracks(w: World, commits: seq<Commitment>) {
    && w.sent == IdealRun(commits).1
    && (w.cell.Some? ==> w.cell.value == IdealRun(commits).0)
    && match w.task
       case ReadingRouting(_) => w.cell.None?
       case Ticking(state) => w.cell == Some(state)
       case Burning(state, _) => w.cell == Some(state)
       case Confirming(state, tick) => w.cell.Some? && (state, true) == ObserveDown(w.cell.value, tick.threshold)
       case Reasking(state, tick) => w.cell.Some? && (state, false) == ObserveDown(w.cell.value, tick.threshold)
         && ReaskDue(state, tick.now)
       case Degrading(state, tick) => w.cell.Some? && (state, true) == ObserveDegraded(w.cell.value, tick.threshold)
       case _ => true
  }

  lemma IdealAppend(commits: seq<Commitment>, c: Commitment)
    ensures var before := IdealRun(commits); var step := Ideal(before.0, c);
            IdealRun(commits + [c]) == (step.0, before.1 + step.1)
  {
    assert (commits + [c])[..|commits|] == commits;
  }

  lemma ReactTracks(w: World, commits: seq<Commitment>, state: AlertState, tick: Tick)
    requires w.sent == IdealRun(commits).1 && w.cell == Some(state) && state == IdealRun(commits).0
    ensures Tracks(React(w, state, tick), commits + ReactCommits(state, tick))
  {
    hide IdealRun;
    var more := ReactCommits(state, tick);
    if more == [] {
      assert commits + more == commits;
    } else {
      IdealAppend(commits, more[0]);
    }
  }

  lemma NextTracks(prior: Prior, w: World, commits: seq<Commitment>, step: Step)
    requires Tracks(w, commits)
    ensures Tracks(Next(prior, w, step), commits + CommitsOf(prior, w, step))
  {
    hide IdealRun, React, ReactCommits;
    var more := CommitsOf(prior, w, step);
    if more == [] {
      assert commits + more == commits;
    } else if |more| == 1 {
      assert more == [more[0]];
      IdealAppend(commits, more[0]);
    }
    match (step, w.task) {
      case (Observe(tick, burns), Ticking(state)) =>
        if !burns {
          ReactTracks(w, commits, state, tick);
        }
      case (Burned(burn), Burning(state, tick)) =>
        IdealAppend(commits, BurnSet(burn));
        ReactTracks(w.(cell := Some(state.(burn := burn))), commits + [BurnSet(burn)], state.(burn := burn), tick);
        assert commits + more == (commits + [BurnSet(burn)]) + ReactCommits(state.(burn := burn), tick);
      case _ =>
    }
  }

  /**
   * Aborts, crashes and restarts are invisible: the monitor's state and its
   * signals are those of the bare machine fed the ticks that ran to their end.
   */
  lemma {:induction false} AbortsAreInvisible(prior: Prior, steps: seq<Step>)
    ensures Tracks(Run(prior, steps), Commits(prior, steps))
  {
    if steps != [] {
      AbortsAreInvisible(prior, steps[..|steps| - 1]);
      NextTracks(prior, Run(prior, steps[..|steps| - 1]), Commits(prior, steps[..|steps| - 1]), steps[|steps| - 1]);
    }
  }

  // ---------------------------------------------------------------- no transition is lost

  /** What the commitment of a tick tells of it. */
  predicate IsOfTick(c: Commitment, tick: Tick) {
    match tick.reading
    case IsDown => c.DownTick? && c.threshold == tick.threshold && c.now == tick.now
    case IsSlow => if tick.degradedOn then c == SlowTick(tick.threshold) else c.UpTick?
    case IsUp => c.UpTick?
  }

  /** The task waits for an answer that the tick needs. */
  predicate AwaitsFor(task: Await, tick: Tick) {
    match task
    case Confirming(_, t) => t == tick && tick.reading.IsDown?
    case Reasking(_, t) => t == tick && tick.reading.IsDown?
    case Degrading(_, t) => t == tick && tick.reading.IsSlow? && tick.degradedOn
    case _ => false
  }

  /** A task stopped anywhere is followed by one that goes on from the cell, and nothing is sent for it. */
  lemma RestartGoesOn(prior: Prior, w: World, threshold: nat)
    requires w.cell.Some?
    ensures Next(prior, Next(prior, Next(prior, w, Abort), Spawn), FoundIncident(threshold))
         == World(w.cell, Ticking(w.cell.value), w.sent)
  {
    assert w.sent + [] == w.sent;
  }

  /** No tick is lost or told wrong: it commits itself at once, or when the answer it waits for comes. */
  lemma TicksAreCommitted(prior: Prior, w: World, step: Step)
    ensures var task, commits := Next(prior, w, step).task, CommitsOf(prior, w, step);
            match (step, w.task)
            case (Observe(tick, burns), Ticking(_)) =>
              if burns then commits == [] && task.Burning? && task.tick == tick
              else (AwaitsFor(task, tick) && commits == []) || (|commits| == 1 && IsOfTick(commits[0], tick))
            case (Burned(burn), Burning(_, tick)) =>
              && commits != [] && commits[0] == BurnSet(burn)
              && ((AwaitsFor(task, tick) && |commits| == 1) || (|commits| == 2 && IsOfTick(commits[1], tick)))
            case (Verdict(localOnly, now), Confirming(_, tick)) =>
              commits == [DownTick(tick.threshold, tick.now, localOnly, now)]
            case (Verdict(localOnly, now), Reasking(_, tick)) =>
              commits == [DownTick(tick.threshold, tick.now, localOnly, now)]
            case (DegradedSent, Degrading(_, tick)) => commits == [SlowTick(tick.threshold)]
            case (FoundIncident(_), Starting) => true
            case (FoundRouting(_), ReadingRouting(_)) => true
            case _ => commits == []
  {
  }

  /** The down ticks run to their end since the last up one, on top of those a resumed outage starts with. */
  function Streak(commits: seq<Commitment>): nat {
    if commits == [] then 0
    else
      var before := Streak(commits[..|commits| - 1]);
      match commits[|commits| - 1]
      case Boot(state, _) => state.consecutiveDown
      case UpTick => 0
      case SlowTick(_) => 0
      case DownTick(_, _, _, _) => before + 1
      case BurnSet(_) => before
  }

  /** The slow ticks in a row that ran to their end, degraded alerts on. */
  function SlowStreak(commits: seq<Commitment>): nat {
    if commits == [] then 0
    else
      var before := SlowStreak(commits[..|commits| - 1]);
      match commits[|commits| - 1]
      case Boot(_, _) => 0
      case UpTick => 0
      case SlowTick(_) => before + 1
      case DownTick(_, _, _, _) => 0
      case BurnSet(_) => before
  }

  /** What was last alerted of, told from the streaks: the level of the last one to reach its tick's threshold. */
  function LevelTold(commits: seq<Commitment>): AlertLevel {
    if commits == [] then Healthy
    else
      var before := LevelTold(commits[..|commits| - 1]);
      match commits[|commits| - 1]
      case Boot(state, _) => state.level
      case UpTick => Healthy
      case SlowTick(threshold) => if SlowStreak(commits) >= threshold then Degraded else before
      case DownTick(threshold, _, _, _) => if Streak(commits) >= threshold then Down else before
      case BurnSet(_) => before
  }

  function BurnTold(commits: seq<Commitment>): BurnAlerts {
    if commits == [] then BurnAlerts(false, false)
    else
      match commits[|commits| - 1]
      case Boot(state, _) => state.burn
      case BurnSet(burn) => burn
      case _ => BurnTold(commits[..|commits| - 1])
  }

  /** After these ticks, one more down makes an outage that was not announced. */
  predicate Confirms(commits: seq<Commitment>, threshold: nat) {
    LevelTold(commits) != Down && Streak(commits) + 1 >= threshold
  }

  /** In an outage, the peers' last denial is five minutes old. */
  predicate AsksAgain(commits: seq<Commitment>, asked: Option<int>, now: int) {
    LevelTold(commits) == Down && asked.Some? && asked.value + 300 <= now
  }

  /**
   * When the peers were last asked about an outage that is still local-only: when it was announced,
   * asked about again, or resumed.
   */
  function LastAsked(commits: seq<Commitment>): Option<int> {
    if commits == [] then None
    else
      var front := commits[..|commits| - 1];
      var before := LastAsked(front);
      match commits[|commits| - 1]
      case Boot(state, _) => state.localOnlyAsked
      case UpTick => None
      case DownTick(threshold, now, localOnly, verdictAt) =>
        if !Confirms(front, threshold) && !AsksAgain(front, before, now) then before
        else if localOnly then Some(verdictAt)
        else None
      case _ => before
  }

  /** A monitor boots once, first, healthy or in a resumed outage; thresholds are `u32`. */
  predicate FitsAt(c: Commitment, first: bool) {
    match c
    case Boot(state, _) =>
      && first && state.consecutiveDown <= U32_MAX && state.consecutiveDegraded == 0
      && (state.level == Healthy || state.level == Down)
    case SlowTick(threshold) => threshold <= U32_MAX
    case DownTick(threshold, _, _, _) => threshold <= U32_MAX
    case _ => true
  }

  ghost predicate WellBooted(commits: seq<Commitment>) {
    forall i :: 0 <= i < |commits| ==> FitsAt(commits[i], i == 0)
  }

  /**
   * The whole state is told from the ticks alone: the level, both streaks, saturating, the burn flags,
   * and when the peers were last asked.
   */
  lemma {:induction false} StateIsTold(commits: seq<Commitment>)
    requires WellBooted(commits)
    ensures IdealRun(commits).0 == AlertState(
      LevelTold(commits), Min(Streak(commits), U32_MAX), Min(SlowStreak(commits), U32_MAX), BurnTold(commits),
      LastAsked(commits))
  {
    if commits != [] {
      StateIsTold(commits[..|commits| - 1]);
    }
  }

  /** What a tick sends after these. */
  function SentFor(commits: seq<Commitment>, c: Commitment): seq<Signal> {
    match c
    case Boot(_, announced) => announced
    case UpTick => if LevelTold(commits) != Healthy then [Signal.Recovery] else []
    case DownTick(threshold, now, localOnly, _) =>
      if Confirms(commits, threshold) then [if localOnly then LocalDown else RealDown]
      else if AsksAgain(commits, LastAsked(commits), now) && !localOnly then [RealDown]
      else []
    case _ => []
  }

  /**
   * Every transition is announced when it is due and only then: a down is announced
   * exactly when it is at least the threshold-th in a row and not announced yet, a
   * recovery exactly when something was, and the real down after a local-only one
   * exactly when the peers, last asked five minutes ago or more, no longer contradict it.
   */
  lemma AnnouncedWhenDue(commits: seq<Commitment>)
    requires WellBooted(commits) && commits != []
    ensures var front, last := commits[..|commits| - 1], commits[|commits| - 1];
            IdealRun(commits).1 == IdealRun(front).1 + SentFor(front, last)
  {
    hide LevelTold, LastAsked, Streak, SlowStreak, BurnTold;
    var front := commits[..|commits| - 1];
    assert FitsAt(commits[|commits| - 1], |commits| == 1);
    StateIsTold(front);
  }

  lemma FirstSpawn(prior: Prior)
    ensures Run(prior, [Spawn]) == World(None, Starting, []) && Commits(prior, [Spawn]) == []
  {
    assert [Spawn][..0] == [];
  }

  /**
   * A first boot starts healthy, or in the outage found open: alerted, and asking again only if that is
   * still local-only.
   */
  lemma BootsAsFound(prior: Prior, threshold: nat, now: int)
    ensures var steps := [Spawn, FoundIncident(threshold), FoundRouting(now)];
      var boot := if prior.NoIncident? then Boot(DEFAULT, [])
                  else Boot(
                    AlertState(Down, threshold, 0, BurnAlerts(false, false),
                               if prior == LocalIncident(true) then Some(now) else None),
                    if prior.LocalIncident? then [ResumedQuiet(!prior.still)] else []);
      && Commits(prior, steps) == [boot]
      && Run(prior, steps) == World(Some(boot.state), Ticking(boot.state), boot.announced)
  {
    hide Run, Commits;
    var found := [Spawn] + [FoundIncident(threshold)];
    assert [Spawn, FoundIncident(threshold), FoundRouting(now)] == found + [FoundRouting(now)];
    FirstSpawn(prior);
    CommitsAppend(prior, [Spawn], FoundIncident(threshold));
    RunAppend(prior, [Spawn], FoundIncident(threshold));
    CommitsAppend(prior, found, FoundRouting(now));
    RunAppend(prior, found, FoundRouting(now));
  }

  ghost predicate TypedSteps(steps: seq<Step>) {
    forall i :: 0 <= i < |steps| ==>
      && (steps[i].FoundIncident? ==> steps[i].threshold <= U32_MAX)
      && (steps[i].Observe? ==> steps[i].tick.threshold <= U32_MAX)
  }

  ghost predicate TypedWorld(w: World) {
    match w.task
    case ReadingRouting(state) =>
      w.cell.None? && state.level == Down && state.consecutiveDown <= U32_MAX && state.consecutiveDegraded == 0
    case Ticking(_) => w.cell.Some?
    case Burning(_, tick) => w.cell.Some? && tick.threshold <= U32_MAX
    case Confirming(_, tick) => w.cell.Some? && tick.threshold <= U32_MAX
    case Reasking(_, tick) => w.cell.Some? && tick.threshold <= U32_MAX
    case Degrading(_, tick) => w.cell.Some? && tick.threshold <= U32_MAX
    case _ => true
  }

  lemma TypedNext(prior: Prior, w: World, step: Step)
    requires TypedWorld(w) && (step.FoundIncident? ==> step.threshold <= U32_MAX)
      && (step.Observe? ==> step.tick.threshold <= U32_MAX)
    ensures TypedWorld(Next(prior, w, step))
    ensures Next(prior, w, step).cell.None? ==> w.cell.None? && CommitsOf(prior, w, step) == []
    ensures forall i :: 0 <= i < |CommitsOf(prior, w, step)| ==>
      FitsAt(CommitsOf(prior, w, step)[i], w.cell.None? && i == 0)
  {
  }

  /** What a run commits is what the lemmas above ask for: nothing to check but the types. */
  lemma {:induction false} CommitsAreWellBooted(prior: Prior, steps: seq<Step>)
    requires TypedSteps(steps)
    ensures WellBooted(Commits(prior, steps)) && TypedWorld(Run(prior, steps))
    ensures Run(prior, steps).cell.None? ==> Commits(prior, steps) == []
  {
    hide FitsAt, Next, CommitsOf;
    if steps != [] {
      var front := steps[..|steps| - 1];
      CommitsAreWellBooted(prior, front);
      var w, commits := Run(prior, front), Commits(prior, front);
      TypedNext(prior, w, steps[|steps| - 1]);
      var more := CommitsOf(prior, w, steps[|steps| - 1]);
      forall i | 0 <= i < |commits + more| ensures FitsAt((commits + more)[i], i == 0) {
        if i >= |commits| {
          LaterFits(more[i - |commits|], w.cell.None? && i - |commits| == 0, i == 0);
        }
      }
    }
  }

  lemma LaterFits(c: Commitment, first: bool, first': bool)
    requires FitsAt(c, first) && (first ==> first')
    ensures FitsAt(c, first')
  {
  }

  lemma CommitsAppend(prior: Prior, steps: seq<Step>, step: Step)
    ensures Commits(prior, steps + [step]) == Commits(prior, steps) + CommitsOf(prior, Run(prior, steps), step)
  {
    assert (steps + [step])[..|steps|] == steps;
  }

  lemma RunAppend(prior: Prior, steps: seq<Step>, step: Step)
    ensures Run(prior, steps + [step]) == Next(prior, Run(prior, steps), step)
  {
    assert (steps + [step])[..|steps|] == steps;
  }
}
