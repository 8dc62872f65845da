/**
 * What degraded alerts do to the messages of a monitor: with them on, some run
 * leaves the language of blocks, whatever the threshold; with them off, none does.
 */
module DegradedAlerts {
  import opened Wrappers
  import opened Signals
  import opened Alerts

  /** Every tick is judged under the same threshold, with degraded alerts on or off throughout. */
  ghost predicate Uniform(steps: seq<Step>, threshold: nat, degradedOn: bool) {
    forall i :: 0 <= i < |steps| ==>
      && (steps[i].FoundIncident? ==> steps[i].threshold == threshold)
      && (steps[i].Observe? ==> steps[i].tick.threshold == threshold && steps[i].tick.degradedOn == degradedOn)
  }

  ghost predicate Speaks(prior: Prior, steps: seq<Step>) {
    PhaseAfter(StartPhase(prior), Run(prior, steps).sent).Some?
  }

  /** A tick with degraded alerts on, the burn rate not evaluated. */
  function TickOf(reading: Reading, threshold: nat): Step {
    Observe(Tick(reading, threshold, true, 0), false)
  }

  function Ticks(reading: Reading, threshold: nat, count: nat): seq<Step> {
    if count == 0 then [] else Ticks(reading, threshold, count - 1) + [TickOf(reading, threshold)]
  }

  /** The task waits for a tick with this state, having sent this. */
  ghost predicate Waits(prior: Prior, steps: seq<Step>, s: AlertState, sent: seq<Signal>) {
    Run(prior, steps) == World(Some(s), Ticking(s), sent)
  }

  lemma {:induction false} SlowTicksCount(prior: Prior, steps: seq<Step>, s: AlertState, sent: seq<Signal>,
                                          threshold: nat, count: nat)
    requires Waits(prior, steps, s, sent) && s.consecutiveDegraded == 0 && count < threshold <= U32_MAX
    ensures Waits(prior, steps + Ticks(IsSlow, threshold, count),
                  s.(consecutiveDegraded := count, consecutiveDown := if count == 0 then s.consecutiveDown else 0),
                    sent)
  {
    hide Run;
    var ticks := Ticks(IsSlow, threshold, count);
    if count == 0 {
      assert steps + ticks == steps;
    } else {
      var before := steps + Ticks(IsSlow, threshold, count - 1);
      SlowTicksCount(prior, steps, s, sent, threshold, count - 1);
      RunAppend(prior, before, TickOf(IsSlow, threshold));
      assert before + [TickOf(IsSlow, threshold)] == steps + ticks;
      assert sent + [] == sent;
    }
  }

  lemma {:induction false} DownTicksCount(prior: Prior, steps: seq<Step>, s: AlertState, sent: seq<Signal>,
                                          threshold: nat, count: nat)
    requires Waits(prior, steps, s, sent) && s.consecutiveDown == 0 && s.level != Down && count < threshold <= U32_MAX
    ensures Waits(prior, steps + Ticks(IsDown, threshold, count),
                  s.(consecutiveDown := count, consecutiveDegraded := if count == 0 then s.consecutiveDegraded else 0),
                    sent)
  {
    hide Run;
    var ticks := Ticks(IsDown, threshold, count);
    if count == 0 {
      assert steps + ticks == steps;
    } else {
      var before := steps + Ticks(IsDown, threshold, count - 1);
      DownTicksCount(prior, steps, s, sent, threshold, count - 1);
      RunAppend(prior, before, TickOf(IsDown, threshold));
      assert before + [TickOf(IsDown, threshold)] == steps + ticks;
      assert sent + [] == sent;
    }
  }

  /** Enough slow ticks in a row, and their notification. */
  function Slowdown(threshold: nat): seq<Step>
    requires threshold > 0
  {
    Ticks(IsSlow, threshold, threshold - 1) + [TickOf(IsSlow, threshold), DegradedSent]
  }

  /** Enough down ticks in a row, and the peers' verdict. */
  function Outage(threshold: nat): seq<Step>
    requires threshold > 0
  {
    Ticks(IsDown, threshold, threshold - 1) + [TickOf(IsDown, threshold), Step.Verdict(false, 0)]
  }

  lemma SlowdownConfirms(prior: Prior, steps: seq<Step>, s: AlertState, sent: seq<Signal>, threshold: nat)
    requires Waits(prior, steps, s, sent) && s.consecutiveDegraded == 0 && s.level != Degraded
    requires 0 < threshold <= U32_MAX
    ensures Waits(prior, steps + Slowdown(threshold),
                  s.(level := Degraded, consecutiveDegraded := threshold, consecutiveDown := 0), sent)
  {
    hide Run, Ticks;
    var before := steps + Ticks(IsSlow, threshold, threshold - 1);
    SlowTicksCount(prior, steps, s, sent, threshold, threshold - 1);
    RunAppend(prior, before, TickOf(IsSlow, threshold));
    RunAppend(prior, before + [TickOf(IsSlow, threshold)], DegradedSent);
    assert before + [TickOf(IsSlow, threshold)] + [DegradedSent] == steps + Slowdown(threshold);
    assert sent + [] == sent;
  }

  lemma OutageConfirms(prior: Prior, steps: seq<Step>, s: AlertState, sent: seq<Signal>, threshold: nat)
    requires Waits(prior, steps, s, sent) && s.consecutiveDown == 0 && s.level != Down
    requires 0 < threshold <= U32_MAX
    ensures Waits(prior, steps + Outage(threshold),
                  s.(level := Down, consecutiveDown := threshold, consecutiveDegraded := 0, localOnlyAsked := None),
                    sent + [RealDown])
  {
    hide Run, Ticks;
    var before := steps + Ticks(IsDown, threshold, threshold - 1);
    DownTicksCount(prior, steps, s, sent, threshold, threshold - 1);
    RunAppend(prior, before, TickOf(IsDown, threshold));
    RunAppend(prior, before + [TickOf(IsDown, threshold)], Step.Verdict(false, 0));
    assert before + [TickOf(IsDown, threshold)] + [Step.Verdict(false, 0)] == steps + Outage(threshold);
  }

  /** Slow until it is announced, then up: a recovery, whatever came before. */
  function SlowEpisode(threshold: nat): seq<Step>
    requires threshold > 0
  {
    Slowdown(threshold) + [TickOf(IsUp, threshold)]
  }

  lemma SlowEpisodeRecovers(prior: Prior, steps: seq<Step>, s: AlertState, sent: seq<Signal>, threshold: nat)
    requires Waits(prior, steps, s, sent) && s.consecutiveDegraded == 0 && s.level != Degraded
    requires 0 < threshold <= U32_MAX
    ensures Waits(prior, steps + SlowEpisode(threshold), DEFAULT.(burn := s.burn), sent + [Signal.Recovery])
  {
    hide Run, Slowdown;
    SlowdownConfirms(prior, steps, s, sent, threshold);
    RunAppend(prior, steps + Slowdown(threshold), TickOf(IsUp, threshold));
    assert steps + Slowdown(threshold) + [TickOf(IsUp, threshold)] == steps + SlowEpisode(threshold);
  }

  function Boot(threshold: nat): seq<Step> {
    [Spawn, FoundIncident(threshold), FoundRouting(0)]
  }

  lemma BootWaits(prior: Prior, threshold: nat) returns (s: AlertState)
    ensures Waits(prior, Boot(threshold), s, Run(prior, Boot(threshold)).sent)
    ensures s.consecutiveDegraded == 0 && s.level != Degraded
    ensures prior.NoIncident? ==> s == DEFAULT && Run(prior, Boot(threshold)).sent == []
  {
    hide Run;
    FirstSpawn(prior);
    RunAppend(prior, [Spawn], FoundIncident(threshold));
    RunAppend(prior, [Spawn] + [FoundIncident(threshold)], FoundRouting(0));
    assert [Spawn] + [FoundIncident(threshold)] + [FoundRouting(0)] == Boot(threshold);
    s := Run(prior, Boot(threshold)).cell.value;
  }

  lemma {:induction false} TicksAreUniform(reading: Reading, threshold: nat, count: nat)
    ensures Uniform(Ticks(reading, threshold, count), threshold, true)
  {
    if count > 0 {
      TicksAreUniform(reading, threshold, count - 1);
    }
  }

  lemma UniformConcat(a: seq<Step>, b: seq<Step>, threshold: nat, degradedOn: bool)
    requires Uniform(a, threshold, degradedOn) && Uniform(b, threshold, degradedOn)
    ensures Uniform(a + b, threshold, degradedOn)
  {
  }

  lemma SlowdownIsUniform(threshold: nat)
    requires threshold > 0
    ensures Uniform(Slowdown(threshold), threshold, true) && Uniform(SlowEpisode(threshold), threshold, true)
  {
    TicksAreUniform(IsSlow, threshold, threshold - 1);
    assert Uniform([TickOf(IsSlow, threshold), DegradedSent], threshold, true);
    assert Uniform([TickOf(IsUp, threshold)], threshold, true);
    UniformConcat(Ticks(IsSlow, threshold, threshold - 1), [TickOf(IsSlow, threshold), DegradedSent], threshold, true);
    UniformConcat(Slowdown(threshold), [TickOf(IsUp, threshold)], threshold, true);
  }

  /** A recovery between blocks has no place. */
  lemma TwoRecoveriesAreNoBlock(start: Phase, sent: seq<Signal>)
    ensures PhaseAfter(start, sent + [Signal.Recovery] + [Signal.Recovery]).None?
    ensures sent == [] && start == Idle ==> PhaseAfter(start, [Signal.Recovery]).None?
  {
    var once := sent + [Signal.Recovery];
    assert once[..|sent|] == sent && (once + [Signal.Recovery])[..|once|] == once;
  }

  /** Two slow episodes after the boot: whatever was open before, the second recovery ends nothing. */
  lemma SlowEpisodesBreakTheBlocks(prior: Prior, threshold: nat) returns (steps: seq<Step>)
    requires 0 < threshold <= U32_MAX
    ensures Uniform(steps, threshold, true) && !Speaks(prior, steps)
  {
    hide Run, SlowEpisode, PhaseAfter;
    var episode := SlowEpisode(threshold);
    SlowdownIsUniform(threshold);
    var s := BootWaits(prior, threshold);
    var sent := Run(prior, Boot(threshold)).sent;
    SlowEpisodeRecovers(prior, Boot(threshold), s, sent, threshold);
    SlowEpisodeRecovers(prior, Boot(threshold) + episode, DEFAULT.(burn := s.burn), sent + [Signal.Recovery],
      threshold);
    steps := Boot(threshold) + episode + episode;
    UniformConcat(Boot(threshold), episode, threshold, true);
    UniformConcat(Boot(threshold) + episode, episode, threshold, true);
    TwoRecoveriesAreNoBlock(StartPhase(prior), sent);
  }

  /**
   * Exactly when the code keeps the promise: for every threshold, every setting and
   * every outage found at startup, all runs of a monitor speak the language of
   * blocks if and only if degraded alerts are off.
   */
  lemma BlocksHoldIffDegradedAlertsOff(prior: Prior, threshold: nat, degradedOn: bool)
    requires 0 < threshold <= U32_MAX
    ensures (forall steps :: Uniform(steps, threshold, degradedOn) ==> Speaks(prior, steps)) <==> !degradedOn
  {
    if degradedOn {
      var steps := SlowEpisodesBreakTheBlocks(prior, threshold);
    } else {
      forall steps | Uniform(steps, threshold, false) ensures Speaks(prior, steps) {
        SpeaksItsLanguage(prior, steps);
      }
    }
  }

  /** One way it breaks, at every threshold: a healthy monitor that was only slow announces a recovery with no down. */
  lemma RecoveryWithoutDown(threshold: nat) returns (steps: seq<Step>)
    requires 0 < threshold <= U32_MAX
    ensures Uniform(steps, threshold, true)
    ensures Run(NoIncident, steps).sent == [Signal.Recovery] && !Speaks(NoIncident, steps)
  {
    hide Run, SlowEpisode, PhaseAfter;
    SlowdownIsUniform(threshold);
    var s := BootWaits(NoIncident, threshold);
    SlowEpisodeRecovers(NoIncident, Boot(threshold), s, [], threshold);
    steps := Boot(threshold) + SlowEpisode(threshold);
    UniformConcat(Boot(threshold), SlowEpisode(threshold), threshold, true);
    TwoRecoveriesAreNoBlock(Idle, []);
    assert [] + [Signal.Recovery] == [Signal.Recovery];
  }

  /** The other: a down that turns slow and fails again is announced down twice with no recovery between. */
  lemma TwoDownsInARow(threshold: nat) returns (steps: seq<Step>)
    requires 0 < threshold <= U32_MAX
    ensures Uniform(steps, threshold, true)
    ensures Run(NoIncident, steps).sent == [RealDown, RealDown] && !Speaks(NoIncident, steps)
  {
    hide Run, Slowdown, Outage, PhaseAfter;
    var s := BootWaits(NoIncident, threshold);
    OutageConfirms(NoIncident, Boot(threshold), s, [], threshold);
    var down := s.(level := Down, consecutiveDown := threshold, consecutiveDegraded := 0, localOnlyAsked := None);
    var outage := Boot(threshold) + Outage(threshold);
    assert [] + [RealDown] == [RealDown];
    SlowdownConfirms(NoIncident, outage, down, [RealDown], threshold);
    var slow := down.(level := Degraded, consecutiveDegraded := threshold, consecutiveDown := 0);
    OutageConfirms(NoIncident, outage + Slowdown(threshold), slow, [RealDown], threshold);
    steps := outage + Slowdown(threshold) + Outage(threshold);
    assert [RealDown] + [RealDown] == [RealDown, RealDown];
    TwoDownsAreNoBlock();
    OutageIsUniform(threshold);
    SlowdownIsUniform(threshold);
    UniformConcat(Boot(threshold), Outage(threshold), threshold, true);
    UniformConcat(outage, Slowdown(threshold), threshold, true);
    UniformConcat(outage + Slowdown(threshold), Outage(threshold), threshold, true);
  }

  lemma OutageIsUniform(threshold: nat)
    requires threshold > 0
    ensures Uniform(Outage(threshold), threshold, true)
  {
    TicksAreUniform(IsDown, threshold, threshold - 1);
    assert Uniform([TickOf(IsDown, threshold), Step.Verdict(false, 0)], threshold, true);
    UniformConcat(Ticks(IsDown, threshold, threshold - 1), [TickOf(IsDown, threshold), Step.Verdict(false, 0)],
      threshold, true);
  }

  lemma TwoDownsAreNoBlock()
    ensures PhaseAfter(Idle, [RealDown, RealDown]).None?
  {
    assert [RealDown, RealDown][..1] == [RealDown] && [RealDown][..0] == [];
  }
}
