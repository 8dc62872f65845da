/**
 * The dispatcher's watchdog: consecutive delivery failures counted per channel,
 * in a map that outlives the dispatcher, and one alert to the other channels per streak.
 */
module Watchdog {
  import opened Wrappers

  /** How a delivery ended; `Refused` is an HTTP 413: the channel answered. */
  datatype Outcome = Delivered | Refused | Failed

  datatype ChannelHealth = ChannelHealth(failures: nat, firstFailureAt: Option<int>, alerted: bool)

  const UNTRIED := ChannelHealth(0, None, false)

  /** What happens to the map: one delivery counted, or a reload that keeps the configured names. */
  datatype Step =
    | Sent(name: string, outcome: Outcome, threshold: nat, others: bool, at: int)
    | Rebuilt(names: set<string>)

  function HealthOf(entries: map<string, ChannelHealth>, name: string): ChannelHealth {
    if name in entries then entries[name] else UNTRIED
  }

  /** A counted failure. */
  function CountFailure(h: ChannelHealth, at: int): ChannelHealth {
    h.(failures := SaturatingSucc(h.failures),
       firstFailureAt := if h.firstFailureAt.None? then Some(at) else h.firstFailureAt)
  }

  predicate Triggers(h: ChannelHealth, threshold: nat, others: bool) {
    h.failures >= threshold && !h.alerted && others
  }

  function Apply(entries: map<string, ChannelHealth>, step: Step): map<string, ChannelHealth> {
    match step
    case Rebuilt(names) => map name | name in entries && name in names :: entries[name]
    case Sent(name, outcome, threshold, others, at) =>
      match outcome
      case Refused => entries
      case Delivered => entries[name := UNTRIED]
      case Failed =>
        var counted := CountFailure(HealthOf(entries, name), at);
        entries[name := if Triggers(counted, threshold, others) then counted.(alerted := true) else counted]
  }

  /** The step sends a watchdog alert about its channel. */
  predicate Fires(entries: map<string, ChannelHealth>, step: Step) {
    step.Sent? && step.outcome.Failed?
      && Triggers(CountFailure(HealthOf(entries, step.name), step.at), step.threshold, step.others)
  }

  function Replay(history: seq<Step>): map<string, ChannelHealth> {
    if history == [] then map[] else Apply(Replay(history[..|history| - 1]), history[|history| - 1])
  }

  lemma ReplayAppend(history: seq<Step>, step: Step)
    ensures Replay(history + [step]) == Apply(Replay(history), step)
  {
    assert (history + [step])[..|history|] == history;
  }

  // ---------------------------------------------------------------- streaks, told from the history alone

  predicate Fails(step: Step, name: string) {
    step.Sent? && step.name == name && step.outcome.Failed?
  }

  /** A delivery that succeeded, or a reload without the channel, ends its streak; a refused payload does not. */
  predicate Forgives(step: Step, name: string) {
    if step.Sent? then step.name == name && step.outcome.Delivered? else name !in step.names
  }

  /** The failures since the last success or removal. */
  function Streak(history: seq<Step>, name: string): nat {
    if history == [] then 0
    else
      var before, last := Streak(history[..|history| - 1], name), history[|history| - 1];
      if Forgives(last, name) then 0 else if Fails(last, name) then before + 1 else before
  }

  /** The `i`-th step is a failure of the streak still running. */
  ghost predicate InStreak(history: seq<Step>, name: string, i: nat) {
    i < |history| && Fails(history[i], name) && forall k :: i < k < |history| ==> !Forgives(history[k], name)
  }

  /** At the `i`-th step the streak had reached the threshold of the day and another channel was configured. */
  ghost predicate Due(history: seq<Step>, name: string, i: nat) {
    && i < |history| && history[i].Sent?
    && Min(Streak(history[..i + 1], name), U32_MAX) >= history[i].threshold && history[i].others
  }

  ghost predicate FirstOfStreak(history: seq<Step>, name: string, i: nat) {
    InStreak(history, name, i) && forall j: nat :: j < i ==> !InStreak(history, name, j)
  }

  ghost predicate StartedAt(history: seq<Step>, name: string, at: int) {
    exists i: nat :: FirstOfStreak(history, name, i) && history[i].at == at
  }

  ghost predicate DueInStreak(history: seq<Step>, name: string) {
    exists i: nat :: InStreak(history, name, i) && Due(history, name, i)
  }

  /** What the map holds about a channel is what its history says. */
  ghost predicate TellsStreak(history: seq<Step>, name: string) {
    var h := HealthOf(Replay(history), name);
    && h.failures == Min(Streak(history, name), U32_MAX)
    && (h.firstFailureAt.Some? <==> h.failures > 0)
    && (h.firstFailureAt.Some? ==> StartedAt(history, name, h.firstFailureAt.value))
    && (h.firstFailureAt.None? ==> forall i: nat :: !InStreak(history, name, i))
    && (h.alerted <==> DueInStreak(history, name))
  }

  lemma InStreakGrows(history: seq<Step>, name: string, i: nat)
    requires history != []
    ensures var n := |history| - 1;
            InStreak(history, name, i) <==>
              if i == n then Fails(history[n], name) else InStreak(history[..n], name, i) && !Forgives(history[n], name)
  {
    var n := |history| - 1;
    if i < n && InStreak(history, name, i) {
      assert forall k :: i < k < n ==> history[..n][k] == history[k];
    }
    if i < n && InStreak(history[..n], name, i) && !Forgives(history[n], name) {
      forall k | i < k < |history| ensures !Forgives(history[k], name) {
        assert k < n ==> history[..n][k] == history[k];
      }
    }
  }

  lemma DueIsSettled(history: seq<Step>, name: string, i: nat)
    requires history != [] && i < |history| - 1
    ensures Due(history, name, i) <==> Due(history[..|history| - 1], name, i)
  {
    assert history[..|history| - 1][..i + 1] == history[..i + 1];
  }

  /** The streak's due moments, one step further. */
  lemma DueGrows(history: seq<Step>, name: string)
    requires history != []
    ensures var n := |history| - 1;
            DueInStreak(history, name) <==>
              || (Fails(history[n], name) && Due(history, name, n))
              || (!Forgives(history[n], name) && DueInStreak(history[..n], name))
  {
    hide InStreak, Due;
    var n := |history| - 1;
    if i: nat :| InStreak(history, name, i) && Due(history, name, i) {
      InStreakGrows(history, name, i);
      InStreakBounded(history, name, i);
      if i < n {
        DueIsSettled(history, name, i);
      }
    }
    if Fails(history[n], name) && Due(history, name, n) {
      InStreakGrows(history, name, n);
    }
    if DueInStreak(history[..n], name) && !Forgives(history[n], name) {
      var i: nat :| InStreak(history[..n], name, i) && Due(history[..n], name, i);
      InStreakGrows(history, name, i);
      InStreakBounded(history[..n], name, i);
      DueIsSettled(history, name, i);
    }
  }

  lemma InStreakBounded(history: seq<Step>, name: string, i: nat)
    requires InStreak(history, name, i)
    ensures i < |history|
  {
  }

  /** The streak's first failure, one step further. */
  lemma FirstGrows(history: seq<Step>, name: string, at: int)
    requires history != []
    requires !Forgives(history[|history| - 1], name) && StartedAt(history[..|history| - 1], name, at)
    ensures StartedAt(history, name, at)
  {
    var front := history[..|history| - 1];
    var i: nat :| FirstOfStreak(front, name, i) && front[i].at == at;
    hide InStreak;
    assert history[i] == front[i];
    InStreakGrows(history, name, i);
    forall j: nat | j < i ensures !InStreak(history, name, j) {
      InStreakGrows(history, name, j);
    }
  }

  /** The last step is a failure that starts a streak, or ends it, or is about something else. */
  lemma StepTellsStreak(history: seq<Step>, name: string)
    requires history != [] && TellsStreak(history[..|history| - 1], name)
    ensures TellsStreak(history, name)
    ensures var n := |history| - 1;
            Fires(Replay(history[..n]), history[n]) && history[n].name == name <==>
              Fails(history[n], name) && Due(history, name, n) && !DueInStreak(history[..n], name)
  {
    hide InStreak, DueInStreak, StartedAt, Replay;
    var n := |history| - 1;
    var front, last := history[..n], history[n];
    assert history == front + [last];
    ReplayAppend(front, last);
    DueGrows(history, name);
    assert history[..n + 1] == history;
    if Forgives(last, name) {
      forall i: nat ensures !InStreak(history, name, i) {
        InStreakGrows(history, name, i);
      }
    } else if Fails(last, name) && HealthOf(Replay(front), name).firstFailureAt.None? {
      forall i: nat ensures InStreak(history, name, i) <==> i == n {
        InStreakGrows(history, name, i);
      }
      FirstIsLast(history, name);
    } else if HealthOf(Replay(front), name).firstFailureAt.Some? {
      FirstGrows(history, name, HealthOf(Replay(front), name).firstFailureAt.value);
    } else {
      forall i: nat ensures !InStreak(history, name, i) {
        InStreakGrows(history, name, i);
      }
    }
  }

  lemma FirstIsLast(history: seq<Step>, name: string)
    requires history != [] && Fails(history[|history| - 1], name)
    requires forall i: nat :: InStreak(history, name, i) <==> i == |history| - 1
    ensures StartedAt(history, name, history[|history| - 1].at)
  {
    assert FirstOfStreak(history, name, |history| - 1);
  }

  /**
   * Over any sequence of deliveries and reloads, by any dispatchers sharing the
   * map: a channel's counter is its failures since its last success (or removal),
   * saturating, dated from the first of them.
   */
  lemma {:induction false} HistoryIsTold(history: seq<Step>, name: string)
    ensures TellsStreak(history, name)
  {
    if history != [] {
      HistoryIsTold(history[..|history| - 1], name);
      StepTellsStreak(history, name);
    }
  }

  /**
   * The watchdog fires exactly at the first counted failure of a streak that finds
   * the threshold reached and another channel configured - so once per streak.
   */
  lemma FiresOncePerStreak(history: seq<Step>, i: nat)
    requires i < |history| && history[i].Sent?
    ensures var name := history[i].name;
            Fires(Replay(history[..i]), history[i]) <==>
              && Fails(history[i], name) && Due(history, name, i)
              && forall j: nat :: InStreak(history[..i], name, j) ==> !Due(history, name, j)
  {
    hide InStreak, Due, Fires;
    var name, upto := history[i].name, history[..i + 1];
    assert upto[..i] == history[..i];
    HistoryIsTold(history[..i], name);
    StepTellsStreak(upto, name);
    DueUpto(history, i + 1, name, i);
    forall j: nat | InStreak(history[..i], name, j) ensures Due(history, name, j) <==> Due(history[..i], name, j) {
      InStreakBounded(history[..i], name, j);
      DueUpto(history, i, name, j);
    }
  }

  lemma DueUpto(history: seq<Step>, n: nat, name: string, i: nat)
    requires i < n <= |history|
    ensures Due(history[..n], name, i) <==> Due(history, name, i)
  {
    assert history[..n][..i + 1] == history[..i + 1];
  }

  /** Two alerts about a channel have a success, or its removal, between them. */
  lemma AlertsAreApart(history: seq<Step>, i: nat, j: nat)
    requires i < j < |history| && history[i].Sent? && history[j].Sent? && history[i].name == history[j].name
    requires Fires(Replay(history[..i]), history[i]) && Fires(Replay(history[..j]), history[j])
    ensures exists k :: i < k < j && Forgives(history[k], history[i].name)
  {
    hide Due, Fires;
    FiresOncePerStreak(history, i);
    FiresOncePerStreak(history, j);
    assert !InStreak(history[..j], history[i].name, i);
    assert history[..j][i] == history[i];
    var k :| i < k < j && Forgives(history[..j][k], history[i].name);
    assert history[..j][k] == history[k];
  }

  /** A payload refused as too large changes nothing and fires nothing. */
  lemma RefusalChangesNothing(entries: map<string, ChannelHealth>, step: Step)
    ensures step.Sent? && step.outcome.Refused? ==> Apply(entries, step) == entries && !Fires(entries, step)
    ensures step.Sent? ==> forall name :: name != step.name ==>
      HealthOf(Apply(entries, step), name) == HealthOf(entries, name)
  {
  }

  // ---------------------------------------------------------------- the dispatcher

  /** The map behind the lock, shared by every dispatcher built from one another. */
  class HealthMap {
    var entries: map<string, ChannelHealth>
    ghost var history: seq<Step>

    ghost predicate Valid()
      reads this
    {
      entries == Replay(history)
    }

    constructor ()
      ensures Valid() && history == []
    {
      entries, history := map[], [];
    }
  }

  /** A watchdog alert: what it is about, and who gets it. */
  datatype Alert = Alert(about: string, health: ChannelHealth, to: seq<string>)

  predicate AlertedAbout(alerts: seq<Alert>, name: string) {
    exists k :: 0 <= k < |alerts| && alerts[k].about == name
  }

  lemma AlertedGrows(alerts: seq<Alert>, alert: Alert)
    ensures forall name :: AlertedAbout(alerts + [alert], name) <==> AlertedAbout(alerts, name) || alert.about == name
  {
    var alerts' := alerts + [alert];
    assert alerts'[|alerts|] == alert;
    forall name | AlertedAbout(alerts, name) ensures AlertedAbout(alerts', name) {
      var k :| 0 <= k < |alerts| && alerts[k].about == name;
      assert alerts'[k] == alerts[k];
    }
  }

  function Without(names: seq<string>, name: string): (others: seq<string>)
    ensures forall other :: other in others <==> other in names && other != name
  {
    if names == [] then []
    else
      var front, last := names[..|names| - 1], names[|names| - 1];
      assert names == front + [last];
      Without(front, name) + if last == name then [] else [last]
  }

  function Targeted(channels: seq<string>, only: Option<seq<string>>): (targets: seq<string>)
    ensures forall name :: name in targets <==> name in channels && (only.Some? ==> name in only.value)
  {
    if channels == [] then []
    else
      var front, last := channels[..|channels| - 1], channels[|channels| - 1];
      assert channels == front + [last];
      Targeted(front, only) + if only.Some? && last !in only.value then [] else [last]
  }

  class Dispatcher {
    const channels: seq<string>
    const threshold: nat
    const health: HealthMap

    constructor (channels: seq<string>, threshold: nat)
      ensures this.channels == channels && this.threshold == Max(threshold, 1)
      ensures fresh(health) && health.Valid() && health.history == []
    {
      this.channels, this.threshold := channels, Max(threshold, 1);
      health := new HealthMap();
    }

    /** A reload keeps the counters of the channels still configured. */
    constructor WithHealth(channels: seq<string>, threshold: nat, health: HealthMap)
      requires health.Valid()
      modifies health
      ensures this.channels == channels && this.threshold == Max(threshold, 1) && this.health == health
      ensures health.Valid() && health.history == old(health.history) + [Rebuilt(set name | name in channels)]
    {
      this.channels, this.threshold, this.health := channels, Max(threshold, 1), health;
      new;
      ReplayAppend(health.history, Rebuilt(set name | name in channels));
      health.entries := map name | name in health.entries && name in channels :: health.entries[name];
      health.history := health.history + [Rebuilt(set name | name in channels)];
    }

    predicate Others(name: string) {
      exists other :: other in channels && other != name
    }

    ghost function StepFor(name: string, outcome: Outcome, at: int): Step {
      Sent(name, outcome, threshold, Others(name), at)
    }

    ghost function StepsFor(targets: seq<string>, outcomes: map<string, Outcome>, at: int): seq<Step>
      requires forall name :: name in targets ==> name in outcomes
    {
      seq(|targets|, i requires 0 <= i < |targets| => StepFor(targets[i], outcomes[targets[i]], at))
    }

    /** Count one outcome, under the lock. */
    method Count(name: string, outcome: Outcome, at: int) returns (triggered: Option<ChannelHealth>)
      requires health.Valid()
      modifies health
      ensures health.Valid() && health.history == old(health.history) + [StepFor(name, outcome, at)]
      ensures triggered.Some? <==> Fires(old(health.entries), StepFor(name, outcome, at))
      ensures triggered.Some? ==> Others(name) && triggered.value == HealthOf(health.entries, name)
    {
      triggered := None;
      ReplayAppend(health.history, StepFor(name, outcome, at));
      health.history := health.history + [StepFor(name, outcome, at)];
      if outcome.Refused? {
        return;
      }
      var entry := HealthOf(health.entries, name);
      if outcome.Delivered? {
        entry := ChannelHealth(0, None, false);
      } else {
        entry := entry.(failures := SaturatingSucc(entry.failures));
        if entry.firstFailureAt.None? {
          entry := entry.(firstFailureAt := Some(at));
        }
        if entry.failures >= threshold && !entry.alerted && Others(name) {
          entry := entry.(alerted := true);
          triggered := Some(entry);
        }
      }
      health.entries := health.entries[name := entry];
    }

    /** `dispatch`, once every targeted channel has answered; the alerts go out untracked. */
    method Dispatch(only: Option<seq<string>>, outcomes: map<string, Outcome>, at: int)
      returns (failed: seq<string>, alerts: seq<Alert>)
      requires health.Valid() && forall name :: name in channels ==> name in outcomes
      modifies health
      ensures health.Valid()
      ensures health.history == old(health.history) + StepsFor(Targeted(channels, only), outcomes, at)
      ensures forall name :: name in failed <==> name in Targeted(channels, only) && !outcomes[name].Delivered?
      ensures forall name :: AlertedAbout(alerts, name) <==>
        FiredSince(old(|health.history|), health.history, name)
      ensures forall k :: 0 <= k < |alerts| ==> alerts[k].to == Without(channels, alerts[k].about) != []
    {
      hide Replay, Fires, FiredSince, AlertedAbout, Apply;
      NothingFired(health.history);
      var targets := Targeted(channels, only);
      failed, alerts := [], [];
      for i := 0 to |targets|
        invariant health.Valid()
        invariant health.history == old(health.history) + StepsFor(targets[..i], outcomes, at)
        invariant forall name :: name in failed <==> name in targets[..i] && !outcomes[name].Delivered?
        invariant forall name :: AlertedAbout(alerts, name) <==>
          FiredSince(old(|health.history|), health.history, name)
        invariant forall k :: 0 <= k < |alerts| ==> alerts[k].to == Without(channels, alerts[k].about) != []
      {
        var name := targets[i];
        label before:
        var triggered := Count(name, outcomes[name], at);
        FiredGrows(old(|health.history|), old@before(health.history), StepFor(name, outcomes[name], at));
        if triggered.Some? {
          AlertedGrows(alerts, Alert(name, triggered.value, Without(channels, name)));
          alerts := alerts + [Alert(name, triggered.value, Without(channels, name))];
        }
        if !outcomes[name].Delivered? {
          failed := failed + [name];
        }
        assert targets[..i + 1] == targets[..i] + [name];
        assert StepsFor(targets[..i + 1], outcomes, at)
          == StepsFor(targets[..i], outcomes, at) + [StepFor(name, outcomes[name], at)];
      }
      assert targets[..|targets|] == targets;
    }
  }

  /** An alert about the channel went out since the history was this long. */
  ghost predicate FiredSince(n: nat, history: seq<Step>, name: string) {
    exists i ::
      n <= i < |history| && history[i].Sent? && history[i].name == name && Fires(Replay(history[..i]), history[i])
  }

  lemma NothingFired(history: seq<Step>)
    ensures forall name :: !FiredSince(|history|, history, name) && !AlertedAbout([], name)
  {
  }

  lemma FiredGrows(n: nat, history: seq<Step>, step: Step)
    requires n <= |history| && step.Sent?
    ensures forall name :: FiredSince(n, history + [step], name) <==>
      FiredSince(n, history, name) || (name == step.name && Fires(Replay(history), step))
  {
    var history' := history + [step];
    assert history'[..|history|] == history;
    forall i | 0 <= i < |history| ensures history'[..i] == history[..i] {
    }
    forall name
      ensures FiredSince(n, history', name)
        <==> FiredSince(n, history, name) || (name == step.name && Fires(Replay(history), step)) {
      if FiredSince(n, history, name) {
        var i :| n <= i < |history| && history[i].Sent? && history[i].name == name
          && Fires(Replay(history[..i]), history[i]);
        assert history'[i] == history[i] && history'[..i] == history[..i];
      }
      if name == step.name && Fires(Replay(history), step) {
        assert history'[|history|] == step;
      }
    }
  }
}
