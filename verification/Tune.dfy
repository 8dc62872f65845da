/**
 * `hora tune`: replaying a monitor's stored history against alternative
 * thresholds, and recommending one. The replay never runs the alert state
 * machine, so what it predicts has to be proved of that machine.
 */
module Tune {
  import opened Wrappers
  import opened Signals
  import opened Alerts

  // ---------------------------------------------------------------- failure runs

  /** The down checks at the very end of a history: the run still open. */
  function OpenRun(history: seq<Reading>): (open: nat)
    ensures open <= U32_MAX
  {
    if history == [] || !history[|history| - 1].IsDown? then 0
    else SaturatingSucc(OpenRun(history[..|history| - 1]))
  }

  /** The runs already ended by a check that was not down. */
  function ClosedRuns(history: seq<Reading>): seq<nat> {
    if history == [] then []
    else
      var front := history[..|history| - 1];
      if history[|history| - 1].IsDown? || OpenRun(front) == 0 then ClosedRuns(front)
      else ClosedRuns(front) + [OpenRun(front)]
  }

  function WithOpen(closed: seq<nat>, open: nat): seq<nat> {
    if open > 0 then closed + [open] else closed
  }

  function Runs(history: seq<Reading>): seq<nat> {
    WithOpen(ClosedRuns(history), OpenRun(history))
  }

  /** `failure_runs`. */
  method FailureRuns(history: seq<Reading>) returns (runs: seq<nat>)
    ensures runs == Runs(history)
  {
    runs := [];
    var current := 0;
    for i := 0 to |history|
      invariant runs == ClosedRuns(history[..i]) && current == OpenRun(history[..i])
    {
      assert history[..i + 1][..i] == history[..i];
      if history[i].IsDown? {
        current := SaturatingSucc(current);
      } else if current > 0 {
        runs := runs + [current];
        current := 0;
      }
    }
    assert history[..|history|] == history;
    if current > 0 {
      runs := runs + [current];
    }
  }

  /** A stretch of down checks that cannot be extended on either side. */
  ghost predicate IsMaximalRun(history: seq<Reading>, from: nat, to: nat) {
    && from < to <= |history|
    && (forall i :: from <= i < to ==> history[i].IsDown?)
    && (from == 0 || !history[from - 1].IsDown?)
    && (to == |history| || !history[to].IsDown?)
  }

  datatype Span = Span(from: nat, to: nat)

  predicate Within(span: Span, i: int) {
    span.from <= i < span.to
  }

  ghost predicate Covered(spans: seq<Span>, i: int) {
    exists k :: 0 <= k < |spans| && Within(spans[k], i)
  }

  /** The spans are all the maximal runs before the bound, in order, and the runs are their lengths. */
  ghost predicate Measures(history: seq<Reading>, spans: seq<Span>, runs: seq<nat>, bound: nat) {
    && |spans| == |runs|
    && (forall k :: 0 <= k < |spans| ==> IsMaximalRun(history, spans[k].from, spans[k].to) && spans[k].to < bound)
    && (forall k :: 0 <= k < |spans| ==> runs[k] == Min(spans[k].to - spans[k].from, U32_MAX))
    && (forall j, k :: 0 <= j < k < |spans| ==> spans[j].to < spans[k].from)
    && (forall i :: 0 <= i < |history| && i < bound && history[i].IsDown? ==> Covered(spans, i))
  }

  lemma AppendSpan(history: seq<Reading>, spans: seq<Span>, runs: seq<nat>, from: nat, to: nat)
    requires Measures(history, spans, runs, from) && IsMaximalRun(history, from, to)
    ensures Measures(history, spans + [Span(from, to)], runs + [Min(to - from, U32_MAX)], to + 1)
  {
    var spans' := spans + [Span(from, to)];
    forall i | 0 <= i < |history| && i < to + 1 && history[i].IsDown? ensures Covered(spans', i) {
      if i < from {
        var k :| 0 <= k < |spans| && Within(spans[k], i);
        assert spans'[k] == spans[k];
      } else {
        assert Within(spans'[|spans|], i);
      }
    }
  }

  /** Up checks after the bound change nothing. */
  lemma Widen(front: seq<Reading>, history: seq<Reading>, spans: seq<Span>, runs: seq<nat>, bound: nat, bound': nat)
    requires front <= history && Measures(front, spans, runs, bound) && bound <= |front| && bound <= bound'
    requires forall i :: bound <= i < bound' && i < |history| ==> !history[i].IsDown?
    ensures Measures(history, spans, runs, bound')
  {
    forall k | 0 <= k < |spans| ensures IsMaximalRun(history, spans[k].from, spans[k].to) {
      assert IsMaximalRun(front, spans[k].from, spans[k].to);
    }
  }

  lemma {:induction false} OpenRunIsTrailing(history: seq<Reading>) returns (from: nat)
    ensures from <= |history| && OpenRun(history) == Min(|history| - from, U32_MAX)
    ensures forall i :: from <= i < |history| ==> history[i].IsDown?
    ensures from == 0 || !history[from - 1].IsDown?
  {
    if history == [] || !history[|history| - 1].IsDown? {
      from := |history|;
    } else {
      from := OpenRunIsTrailing(history[..|history| - 1]);
    }
  }

  /** The failure runs are the lengths of exactly the maximal runs of down checks, oldest first. */
  lemma RunsAreMaximal(history: seq<Reading>) returns (spans: seq<Span>)
    ensures Measures(history, spans, Runs(history), |history| + 1)
  {
    hide OpenRun, ClosedRuns, Measures;
    var from := OpenRunIsTrailing(history);
    spans := ClosedAreMaximal(history, from);
    if from < |history| {
      AppendSpan(history, spans, ClosedRuns(history), from, |history|);
      spans := spans + [Span(from, |history|)];
    } else {
      Widen(history, history, spans, ClosedRuns(history), from, |history| + 1);
    }
  }

  /** The closed runs are the maximal runs of the part before the trailing one. */
  lemma {:induction false} ClosedAreMaximal(history: seq<Reading>, from: nat) returns (spans: seq<Span>)
    requires from <= |history| && (from == 0 || !history[from - 1].IsDown?)
    requires forall i :: from <= i < |history| ==> history[i].IsDown?
    ensures Measures(history, spans, ClosedRuns(history), from)
    decreases |history|
  {
    hide OpenRun, Measures;
    if history == [] {
      spans := [];
      NothingToMeasure();
    } else {
      var front := history[..|history| - 1];
      if history[|history| - 1].IsDown? {
        spans := ClosedAreMaximal(front, from);
        Widen(front, history, spans, ClosedRuns(front), from, from);
      } else {
        var start := OpenRunIsTrailing(front);
        spans := ClosedAreMaximal(front, start);
        Widen(front, history, spans, ClosedRuns(front), start, start);
        if start < |front| {
          AppendSpan(history, spans, ClosedRuns(front), start, |front|);
          spans := spans + [Span(start, |front|)];
        } else {
          Widen(history, history, spans, ClosedRuns(front), start, |history|);
        }
      }
    }
  }

  lemma NothingToMeasure()
    ensures Measures([], [], [], 0)
  {
  }

  /** How many runs are at least this long. */
  function LongerRuns(runs: seq<nat>, length: nat): nat {
    if runs == [] then 0
    else LongerRuns(runs[..|runs| - 1], length) + if runs[|runs| - 1] >= length then 1 else 0
  }

  /** `alerts_at`. */
  function AlertsAt(runs: seq<nat>, threshold: nat): nat {
    LongerRuns(runs, Max(threshold, 1))
  }

  // ---------------------------------------------------------------- the prediction

  /** A stored check, with the peers' verdict had it confirmed an outage then. */
  datatype Check = Check(reading: Reading, now: int, localOnly: bool, verdictAt: int)

  function Readings(checks: seq<Check>): seq<Reading> {
    seq(|checks|, i requires 0 <= i < |checks| => checks[i].reading)
  }

  /** The tick a check would have been under a threshold, with degraded alerts on or off. */
  function AsTick(check: Check, threshold: nat, degradedOn: bool): Commitment {
    match check.reading
    case IsDown => DownTick(threshold, check.now, check.localOnly, check.verdictAt)
    case IsSlow => if degradedOn then SlowTick(threshold) else UpTick
    case IsUp => UpTick
  }

  function Replay(checks: seq<Check>, threshold: nat, degradedOn: bool): seq<Commitment> {
    seq(|checks|, i requires 0 <= i < |checks| => AsTick(checks[i], threshold, degradedOn))
  }

  function Occurrences(signals: seq<Signal>, signal: Signal): nat {
    if signals == [] then 0
    else Occurrences(signals[..|signals| - 1], signal) + if signals[|signals| - 1] == signal then 1 else 0
  }

  lemma OccurrencesAppend(signals: seq<Signal>, last: Signal, signal: Signal)
    ensures Occurrences(signals + [last], signal) == Occurrences(signals, signal) + if last == signal then 1 else 0
  {
    assert (signals + [last])[..|signals|] == signals;
  }

  ghost predicate NoneLocal(checks: seq<Check>) {
    forall i :: 0 <= i < |checks| ==> !checks[i].localOnly
  }

  /** What the machine, with degraded alerts off, and the replay agree on after every check. */
  ghost predicate Agrees(checks: seq<Check>, threshold: nat) {
    var (s, sent) := IdealRun(Replay(checks, threshold, false));
    var history := Readings(checks);
    var alerts := AlertsAt(Runs(history), threshold);
    && s.consecutiveDown == OpenRun(history)
    && s.level == (if OpenRun(history) >= Max(threshold, 1) then AlertLevel.Down else Healthy)
    && (s.localOnlyAsked.Some? ==> s.level.Down?)
    && Occurrences(sent, Signal.Recovery) + (if s.level.Down? then 1 else 0) == alerts
    && (NoneLocal(checks) ==>
          s.localOnlyAsked.None? && Occurrences(sent, RealDown) == alerts && Occurrences(sent, LocalDown) == 0)
  }

  lemma LongerRunsAppend(runs: seq<nat>, last: nat, length: nat)
    ensures LongerRuns(runs + [last], length) == LongerRuns(runs, length) + if last >= length then 1 else 0
  {
    assert (runs + [last])[..|runs|] == runs;
  }

  /** The open run counts as soon as it is long enough. */
  lemma AlertsOfRuns(history: seq<Reading>, threshold: nat)
    ensures AlertsAt(Runs(history), threshold)
         == LongerRuns(ClosedRuns(history), Max(threshold, 1)) + if OpenRun(history) >= Max(threshold, 1) then 1 else 0
  {
    if OpenRun(history) > 0 {
      LongerRunsAppend(ClosedRuns(history), OpenRun(history), Max(threshold, 1));
    }
  }

  /** One more check moves the alert count exactly when it makes the open run long enough. */
  lemma AlertsGrow(history: seq<Reading>, threshold: nat)
    requires history != []
    ensures var front := history[..|history| - 1];
            AlertsAt(Runs(history), threshold) == AlertsAt(Runs(front), threshold) +
              if OpenRun(history) >= Max(threshold, 1) > OpenRun(front) then 1 else 0
  {
    hide Runs, AlertsAt, LongerRuns;
    var front := history[..|history| - 1];
    AlertsOfRuns(history, threshold);
    AlertsOfRuns(front, threshold);
    if !history[|history| - 1].IsDown? && OpenRun(front) > 0 {
      LongerRunsAppend(ClosedRuns(front), OpenRun(front), Max(threshold, 1));
    }
  }

  lemma AgreementGrows(checks: seq<Check>, threshold: nat)
    requires checks != [] && Agrees(checks[..|checks| - 1], threshold) && threshold <= U32_MAX
    ensures Agrees(checks, threshold)
  {
    hide Runs, ClosedRuns, AlertsAt, Occurrences, IdealRun;
    var n := |checks| - 1;
    var front, check := checks[..n], checks[n];
    var history := Readings(checks);
    assert Readings(front) == history[..n];
    assert Replay(checks, threshold, false) == Replay(front, threshold, false) + [AsTick(check, threshold, false)];
    IdealAppend(Replay(front, threshold, false), AsTick(check, threshold, false));
    AlertsGrow(history, threshold);
    var (s, sent) := IdealRun(Replay(front, threshold, false));
    var (s', more) := Ideal(s, AsTick(check, threshold, false));
    if more == [] {
      assert sent + more == sent;
    } else {
      assert more == [more[0]];
      forall signal
        ensures Occurrences(sent + more, signal) == Occurrences(sent, signal) + if more[0] == signal then 1 else 0 {
        OccurrencesAppend(sent, more[0], signal);
      }
    }
  }

  /**
   * With degraded alerts off, the replay predicts the scheduler: feeding any check history
   * to a fresh alert state confirms exactly `alerts_at(failure_runs(history), threshold)` outages -
   * every one of them announced by a down, and all but the one still open ended by
   * a recovery.
   */
  lemma {:induction false} ReplayPredicts(checks: seq<Check>, threshold: nat)
    requires threshold <= U32_MAX
    ensures Agrees(checks, threshold)
  {
    if checks == [] {
      assert Readings(checks) == [] && Replay(checks, threshold, false) == [];
    } else {
      ReplayPredicts(checks[..|checks| - 1], threshold);
      AgreementGrows(checks, threshold);
    }
  }

  // ---------------------------------------------------------------- with degraded alerts on

  /** As many real downs as `alerts_at` foretells. */
  ghost predicate DownsForetold(checks: seq<Check>, threshold: nat, degradedOn: bool) {
    Occurrences(IdealRun(Replay(checks, threshold, degradedOn)).1, RealDown)
      == AlertsAt(Runs(Readings(checks)), threshold)
  }

  /** The machine one check further on. */
  lemma ReplayGrows(checks: seq<Check>, check: Check, threshold: nat, degradedOn: bool)
    ensures var (s, sent) := IdealRun(Replay(checks, threshold, degradedOn));
            var (s', more) := Ideal(s, AsTick(check, threshold, degradedOn));
            && IdealRun(Replay(checks + [check], threshold, degradedOn)) == (s', sent + more)
            && Occurrences(sent + more, RealDown) == Occurrences(sent, RealDown) + if more == [RealDown] then 1 else 0
    ensures Readings(checks + [check])[..|checks|] == Readings(checks)
  {
    hide Occurrences, IdealRun;
    var tick := AsTick(check, threshold, degradedOn);
    assert Replay(checks + [check], threshold, degradedOn) == Replay(checks, threshold, degradedOn) + [tick];
    IdealAppend(Replay(checks, threshold, degradedOn), tick);
    var (s, sent) := IdealRun(Replay(checks, threshold, degradedOn));
    var more := Ideal(s, tick).1;
    if more == [] {
      assert sent + more == sent;
    } else {
      OccurrencesAppend(sent, more[0], RealDown);
      assert more == [more[0]];
    }
  }

  /** At a threshold of 1 a slow check ends an announced down at once, and the next down is a new one. */
  lemma {:induction false} ForetoldAtOne(checks: seq<Check>, threshold: nat)
    requires threshold <= 1 && NoneLocal(checks)
    ensures DownsForetold(checks, threshold, true)
    ensures var s := IdealRun(Replay(checks, threshold, true)).0;
            s.localOnlyAsked.None? && (s.level == AlertLevel.Down <==> OpenRun(Readings(checks)) > 0)
  {
    hide Runs, ClosedRuns, AlertsAt, Occurrences, IdealRun;
    if checks == [] {
      NothingForetold(threshold, true);
    } else {
      var n := |checks| - 1;
      var front := checks[..n];
      assert checks == front + [checks[n]];
      ForetoldAtOne(front, threshold);
      ReplayGrows(front, checks[n], threshold, true);
      AlertsGrow(Readings(checks), threshold);
    }
  }

  lemma NothingForetold(threshold: nat, degradedOn: bool)
    ensures DownsForetold([], threshold, degradedOn)
    ensures IdealRun(Replay([], threshold, degradedOn)).0 == DEFAULT && Readings([]) == []
  {
    assert Readings([]) == [] && Replay([], threshold, degradedOn) == [];
  }

  const FAILED := Check(IsDown, 0, false, 0)

  function Downs(count: nat): seq<Check> {
    seq(count, i => FAILED)
  }

  /** A down while the level is `Down` already: the run grows, and nothing is announced. */
  lemma OneMoreDown(checks: seq<Check>, threshold: nat)
    requires OpenRun(Readings(checks)) < threshold <= U32_MAX
    requires var s := IdealRun(Replay(checks, threshold, true)).0; s.level == AlertLevel.Down && s.localOnlyAsked.None?
    ensures var (s, sent) := IdealRun(Replay(checks + [FAILED], threshold, true));
      && s.level == AlertLevel.Down && s.localOnlyAsked.None?
      && Occurrences(sent, RealDown) == Occurrences(IdealRun(Replay(checks, threshold, true)).1, RealDown)
    ensures var history := Readings(checks + [FAILED]);
      && OpenRun(history) == OpenRun(Readings(checks)) + 1
      && AlertsAt(Runs(history), threshold)
           == AlertsAt(Runs(Readings(checks)), threshold) + if OpenRun(history) == threshold then 1 else 0
  {
    hide Runs, ClosedRuns, AlertsAt, Occurrences, IdealRun;
    ReplayGrows(checks, FAILED, threshold, true);
    AlertsGrow(Readings(checks + [FAILED]), threshold);
  }

  /** Downs after an announced one that no up check ended: they count as a run, and announce nothing. */
  lemma {:induction false} MoreDowns(checks: seq<Check>, threshold: nat, count: nat)
    requires OpenRun(Readings(checks)) == 0 && count <= threshold <= U32_MAX && threshold > 0
    requires var s := IdealRun(Replay(checks, threshold, true)).0; s.level == AlertLevel.Down && s.localOnlyAsked.None?
    ensures var (s, sent) := IdealRun(Replay(checks + Downs(count), threshold, true));
      && s.level == AlertLevel.Down && s.localOnlyAsked.None?
      && Occurrences(sent, RealDown) == Occurrences(IdealRun(Replay(checks, threshold, true)).1, RealDown)
      && OpenRun(Readings(checks + Downs(count))) == count
      && AlertsAt(Runs(Readings(checks + Downs(count))), threshold)
           == AlertsAt(Runs(Readings(checks)), threshold) + if count == threshold then 1 else 0
  {
    hide Runs, AlertsAt, Occurrences, IdealRun, OpenRun, Readings;
    if count == 0 {
      assert checks + Downs(count) == checks;
    } else {
      var front := checks + Downs(count - 1);
      assert checks + Downs(count) == front + [FAILED];
      MoreDowns(checks, threshold, count - 1);
      OneMoreDown(front, threshold);
    }
  }

  /** As many downs in a row as the threshold: one is announced, as foretold. */
  lemma {:induction false} FirstDowns(threshold: nat, count: nat)
    requires count <= threshold <= U32_MAX && threshold > 0
    ensures DownsForetold(Downs(count), threshold, true)
    ensures var s := IdealRun(Replay(Downs(count), threshold, true)).0;
      && s == DEFAULT.(consecutiveDown := count, level := if count == threshold then AlertLevel.Down else Healthy)
      && OpenRun(Readings(Downs(count))) == count
  {
    hide Runs, ClosedRuns, AlertsAt, Occurrences, IdealRun;
    if count == 0 {
      assert Downs(count) == [];
      NothingForetold(threshold, true);
    } else {
      var front := Downs(count - 1);
      assert Downs(count) == front + [FAILED];
      FirstDowns(threshold, count - 1);
      ReplayGrows(front, FAILED, threshold, true);
      AlertsGrow(Readings(Downs(count)), threshold);
    }
  }

  /** An outage, one slow check, an outage: two are foretold and one is announced, above a threshold of 1. */
  lemma SlowCheckHidesAnOutage(threshold: nat) returns (checks: seq<Check>)
    requires 2 <= threshold <= U32_MAX
    ensures checks == Downs(threshold) + [Check(IsSlow, 0, false, 0)] + Downs(threshold)
    ensures NoneLocal(checks)
    ensures AlertsAt(Runs(Readings(checks)), threshold)
         == Occurrences(IdealRun(Replay(checks, threshold, true)).1, RealDown) + 1
  {
    hide Runs, ClosedRuns, AlertsAt, Occurrences, IdealRun;
    var outage, slow := Downs(threshold), Check(IsSlow, 0, false, 0);
    FirstDowns(threshold, threshold);
    ReplayGrows(outage, slow, threshold, true);
    AlertsGrow(Readings(outage + [slow]), threshold);
    MoreDowns(outage + [slow], threshold, threshold);
    checks := outage + [slow] + Downs(threshold);
  }

  /**
   * Exactly when the replay foretells the downs: at every threshold, of all histories whose
   * outages the peers never contradict, if and only if degraded alerts are off or the
   * threshold is at most 1.
   */
  lemma DownsForetoldIff(threshold: nat, degradedOn: bool)
    requires threshold <= U32_MAX
    ensures (forall checks :: NoneLocal(checks) ==> DownsForetold(checks, threshold, degradedOn))
       <==> !degradedOn || threshold <= 1
  {
    hide IdealRun, Occurrences, AlertsAt;
    if degradedOn && threshold > 1 {
      var checks := SlowCheckHidesAnOutage(threshold);
    } else {
      forall checks | NoneLocal(checks) ensures DownsForetold(checks, threshold, degradedOn) {
        if degradedOn {
          ForetoldAtOne(checks, threshold);
        } else {
          ReplayPredicts(checks, threshold);
        }
      }
    }
  }

  // ---------------------------------------------------------------- the recommendation

  datatype ThresholdAdvice = ThresholdAdvice(
    recommended: Option<nat>, flapMax: Option<nat>, smallestOutage: Option<nat>, longestRun: nat)

  const MAX_RECOMMENDED_THRESHOLD := 6

  ghost predicate Ascending(s: seq<nat>) {
    forall i, j :: 0 <= i < j < |s| ==> s[i] < s[j]
  }

  /** The lengths that occur, each once, shortest first. */
  ghost predicate AreTiers(runs: seq<nat>, tiers: seq<nat>) {
    Ascending(tiers) && forall run :: run in tiers <==> run in runs
  }

  /** Sort and deduplicate. */
  method Tiers(runs: seq<nat>) returns (tiers: seq<nat>)
    ensures AreTiers(runs, tiers)
  {
    tiers := [];
    for i := 0 to |runs|
      invariant AreTiers(runs[..i], tiers)
    {
      var at := 0;
      while at < |tiers| && tiers[at] < runs[i]
        invariant at <= |tiers| && forall j :: 0 <= j < at ==> tiers[j] < runs[i]
      {
        at := at + 1;
      }
      if at == |tiers| || tiers[at] != runs[i] {
        InsertTier(runs[..i], tiers, at, runs[i]);
        tiers := tiers[..at] + [runs[i]] + tiers[at..];
      }
      assert runs[..i + 1] == runs[..i] + [runs[i]];
    }
    assert runs[..|runs|] == runs;
  }

  lemma InsertTier(runs: seq<nat>, tiers: seq<nat>, at: nat, run: nat)
    requires AreTiers(runs, tiers) && at <= |tiers|
    requires (forall j :: 0 <= j < at ==> tiers[j] < run) && (at < |tiers| ==> run < tiers[at])
    ensures AreTiers(runs + [run], tiers[..at] + [run] + tiers[at..])
  {
    assert tiers == tiers[..at] + tiers[at..];
  }

  /**
   * The jump from one tier to the next is wider than another: `b/a > d/c`, exactly, an empty tier
   * below being the widest.
   */
  predicate Wider(a: nat, b: nat, c: nat, d: nat) {
    b * c > d * a
  }

  /** The first of the widest jumps sits above `split`. */
  ghost predicate IsWidest(tiers: seq<nat>, split: nat)
    requires split + 1 < |tiers|
  {
    && (forall i :: 0 <= i < |tiers| - 1 ==> !Wider(tiers[i], tiers[i + 1], tiers[split], tiers[split + 1]))
    && (forall i :: 0 <= i < split ==> Wider(tiers[split], tiers[split + 1], tiers[i], tiers[i + 1]))
  }

  ghost predicate Clear(tiers: seq<nat>, i: nat)
    requires i + 1 < |tiers|
  {
    tiers[i + 1] >= 2 * tiers[i]
  }

  /** `recommend_threshold`, without its floating point. */
  method RecommendThreshold(runs: seq<nat>) returns (advice: ThresholdAdvice)
    ensures Advises(runs, advice)
  {
    var tiers := Tiers(runs);
    var longest := if tiers == [] then 0 else tiers[|tiers| - 1];
    LastIsLongest(runs, tiers);
    advice := ThresholdAdvice(None, None, None, longest);
    if |tiers| < 2 {
      return;
    }
    var split := WidestGap(tiers);
    if tiers[split + 1] < 2 * tiers[split] {
      forall i: nat | i + 1 < |tiers| ensures !Clear(tiers, i) {
        NarrowerIsUnclear(tiers[i], tiers[i + 1], tiers[split], tiers[split + 1]);
      }
      return;
    }
    var recommended := SaturatingSucc(tiers[split]);
    advice := ThresholdAdvice(if recommended <= MAX_RECOMMENDED_THRESHOLD then Some(recommended) else None,
                              Some(tiers[split]), Some(tiers[split + 1]), longest);
  }

  lemma LastIsLongest(runs: seq<nat>, tiers: seq<nat>)
    requires AreTiers(runs, tiers)
    ensures if runs == [] then tiers == [] else tiers != [] && tiers[|tiers| - 1] in runs
    ensures forall run :: run in runs ==> tiers != [] && run <= tiers[|tiers| - 1]
  {
    if runs != [] {
      assert runs[0] in runs;
    }
    if tiers != [] {
      assert tiers[|tiers| - 1] in tiers;
    }
  }

  method WidestGap(tiers: seq<nat>) returns (split: nat)
    requires Ascending(tiers) && |tiers| >= 2
    ensures split + 1 < |tiers| && IsWidest(tiers, split)
  {
    hide Wider;
    split := 0;
    WiderAsymmetric(tiers[0], tiers[1], tiers[0], tiers[1]);
    for i := 1 to |tiers| - 1
      invariant split < i && IsWidest(tiers[..i + 1], split)
    {
      assert tiers[..i + 2][..i + 1] == tiers[..i + 1];
      GapGrows(tiers[..i + 2], split);
      if Wider(tiers[i], tiers[i + 1], tiers[split], tiers[split + 1]) {
        split := i;
      }
    }
    assert tiers[..|tiers|] == tiers;
  }

  /** Looking at one more jump keeps the widest, or makes the new one the widest. */
  lemma GapGrows(tiers: seq<nat>, split: nat)
    requires Ascending(tiers) && split + 2 < |tiers| && IsWidest(tiers[..|tiers| - 1], split)
    ensures var last := |tiers| - 2;
            if Wider(tiers[last], tiers[last + 1], tiers[split], tiers[split + 1]) then IsWidest(tiers, last)
              else IsWidest(tiers, split)
  {
    hide Wider;
    var last, front := |tiers| - 2, tiers[..|tiers| - 1];
    if Wider(tiers[last], tiers[last + 1], tiers[split], tiers[split + 1]) {
      forall i | 0 <= i < last ensures Wider(tiers[last], tiers[last + 1], tiers[i], tiers[i + 1]) {
        assert !Wider(front[i], front[i + 1], front[split], front[split + 1]);
        WiderTransitive(tiers[last], tiers[last + 1], tiers[split], tiers[split + 1], tiers[i], tiers[i + 1]);
      }
      forall i | 0 <= i < last + 1 ensures !Wider(tiers[i], tiers[i + 1], tiers[last], tiers[last + 1]) {
        WiderAsymmetric(tiers[i], tiers[i + 1], tiers[last], tiers[last + 1]);
      }
    } else {
      forall i | 0 <= i < last + 1 ensures !Wider(tiers[i], tiers[i + 1], tiers[split], tiers[split + 1]) {
        assert i < last ==> !Wider(front[i], front[i + 1], front[split], front[split + 1]);
      }
      forall i | 0 <= i < split ensures Wider(tiers[split], tiers[split + 1], tiers[i], tiers[i + 1]) {
        assert Wider(front[split], front[split + 1], front[i], front[i + 1]);
      }
    }
  }

  lemma WiderAsymmetric(a: nat, b: nat, c: nat, d: nat)
    ensures Wider(c, d, a, b) || (a, b) == (c, d) ==> !Wider(a, b, c, d)
  {
  }

  /** Wider than a jump that is at least as wide as a third is wider than the third. */
  lemma WiderTransitive(a: nat, b: nat, c: nat, d: nat, e: nat, f: nat)
    requires Wider(a, b, c, d) && !Wider(e, f, c, d) && a < b && c < d && e < f
    ensures Wider(a, b, e, f)
  {
    // b*c > d*a and f*c <= d*e, so d*(b*e) >= b*(f*c) = f*(b*c) > f*(d*a) = d*(f*a)
    assert f * c <= d * e;
    assert b * (f * c) <= b * (d * e) by { MulMonotone(b, f * c, d * e); }
    assert f * (b * c) > f * (d * a) by { MulStrict(f, d * a, b * c); }
    assert b * (f * c) == f * (b * c);
    assert b * (d * e) == d * (b * e) && f * (d * a) == d * (f * a);
    if b * e <= f * a {
      MulMonotone(d, b * e, f * a);
      assert false;
    }
  }

  lemma MulMonotone(k: nat, x: int, y: int)
    requires x <= y
    ensures k * x <= k * y
  {
  }

  lemma MulStrict(k: nat, x: int, y: int)
    requires x < y && k > 0
    ensures k * x < k * y
  {
  }

  lemma NarrowerIsUnclear(a: nat, b: nat, c: nat, d: nat)
    requires !Wider(a, b, c, d) && d < 2 * c
    ensures b < 2 * a || a == 0 == b
  {
    if b >= 2 * a {
      MulMonotone(c, 2 * a, b);
      assert b * c <= d * a;
      if a > 0 {
        MulStrict(a, d, 2 * c);
        assert false;
      } else if b > 0 {
        MulStrict(c, 0, b);
        assert false;
      }
    }
  }

  /** What the advice says of the runs it was drawn from. */
  ghost predicate Advises(runs: seq<nat>, advice: ThresholdAdvice) {
    && (forall run :: run in runs ==> run <= advice.longestRun)
    && (if runs == [] then advice.longestRun == 0 else advice.longestRun in runs)
    && (advice.flapMax.Some? <==> advice.smallestOutage.Some?)
    && (advice.recommended == if advice.flapMax.Some? && advice.flapMax.value < MAX_RECOMMENDED_THRESHOLD
                              then Some(advice.flapMax.value + 1) else None)
    && exists tiers :: AreTiers(runs, tiers) && SplitsAt(tiers, advice)
  }

  /** The clusters are split at the first of the widest jumps, unless no jump doubles. */
  ghost predicate SplitsAt(tiers: seq<nat>, advice: ThresholdAdvice) {
    match (advice.flapMax, advice.smallestOutage)
    case (Some(flapMax), Some(smallestOutage)) =>
      exists i: nat ::
        i + 1 < |tiers| && Clear(tiers, i) && IsWidest(tiers, i) && flapMax == tiers[i]
          && smallestOutage == tiers[i + 1]
    case _ => forall i: nat :: i + 1 < |tiers| ==> !Clear(tiers, i)
  }

  /** Every run is a flap or an outage, and an outage is at least twice any flap. */
  lemma ClustersAreApart(runs: seq<nat>, advice: ThresholdAdvice)
    requires Advises(runs, advice) && advice.flapMax.Some?
    ensures advice.flapMax.value in runs && advice.smallestOutage.value in runs
    ensures advice.flapMax.value < advice.smallestOutage.value
      && 2 * advice.flapMax.value <= advice.smallestOutage.value
    ensures forall run :: run in runs ==> run <= advice.flapMax.value || run >= advice.smallestOutage.value
  {
    hide IsWidest, AreTiers;
    var tiers :| AreTiers(runs, tiers) && SplitsAt(tiers, advice);
    var i: nat :| i + 1 < |tiers| && Clear(tiers, i) && IsWidest(tiers, i)
      && advice.flapMax.value == tiers[i] && advice.smallestOutage.value == tiers[i + 1];
    TiersSplit(runs, tiers, i);
  }

  /** Adjacent tiers leave no run between them. */
  lemma TiersSplit(runs: seq<nat>, tiers: seq<nat>, i: nat)
    requires AreTiers(runs, tiers) && i + 1 < |tiers|
    ensures tiers[i] in runs && tiers[i + 1] in runs && tiers[i] < tiers[i + 1]
    ensures forall run :: run in runs ==> run <= tiers[i] || run >= tiers[i + 1]
  {
    assert tiers[i] in tiers && tiers[i + 1] in tiers;
    forall run | run in runs ensures run <= tiers[i] || run >= tiers[i + 1] {
      assert run in tiers;
      var k :| 0 <= k < |tiers| && tiers[k] == run;
      assert k <= i || k >= i + 1;
    }
  }

  ghost predicate NoneBetween(runs: seq<nat>, low: nat, high: nat) {
    forall i :: 0 <= i < |runs| ==> !(low <= runs[i] < high)
  }

  /** A higher bar keeps fewer runs, and strictly fewer when a run lies between. */
  lemma {:induction false} LongerRunsShrink(runs: seq<nat>, low: nat, high: nat)
    requires low <= high
    ensures LongerRuns(runs, low) >= LongerRuns(runs, high)
    ensures LongerRuns(runs, low) == LongerRuns(runs, high) <==> NoneBetween(runs, low, high)
  {
    if runs != [] {
      var front, last := runs[..|runs| - 1], runs[|runs| - 1];
      LongerRunsShrink(front, low, high);
      assert forall i :: 0 <= i < |front| ==> front[i] == runs[i];
      assert NoneBetween(runs, low, high) <==> NoneBetween(front, low, high) && !(low <= last < high);
    }
  }

  /**
   * A threshold alerts on every outage of the data and on no flap exactly when it
   * is above the flap cluster and at most the shortest outage; the recommended
   * one is the smallest such threshold, so the one that detects soonest.
   */
  lemma RecommendedIsSmallestExact(runs: seq<nat>, advice: ThresholdAdvice, threshold: nat)
    requires Advises(runs, advice) && advice.recommended.Some?
    ensures AlertsAt(runs, threshold) == LongerRuns(runs, advice.smallestOutage.value)
       <==> advice.recommended.value <= Max(threshold, 1) <= advice.smallestOutage.value
    ensures AlertsAt(runs, advice.recommended.value) == LongerRuns(runs, advice.smallestOutage.value)
  {
    ClustersAreApart(runs, advice);
    hide LongerRuns, Advises;
    var bar, flap, outage := Max(threshold, 1), advice.flapMax.value, advice.smallestOutage.value;
    var i :| 0 <= i < |runs| && runs[i] == flap;
    var j :| 0 <= j < |runs| && runs[j] == outage;
    assert forall k :: 0 <= k < |runs| ==> runs[k] in runs;
    assert NoneBetween(runs, flap + 1, outage);
    LongerRunsShrink(runs, flap + 1, outage);
    if bar <= outage {
      LongerRunsShrink(runs, bar, outage);
    } else {
      LongerRunsShrink(runs, outage, bar);
      assert !NoneBetween(runs, outage, bar);
    }
  }

  /**
   * Together: had the recommended threshold been set and degraded alerts off, the scheduler
   * would have sent one down for each run of the outage cluster and none for the flaps.
   */
  lemma RecommendedThresholdConfirmsOutages(checks: seq<Check>, advice: ThresholdAdvice)
    requires Advises(Runs(Readings(checks)), advice) && advice.recommended.Some? && NoneLocal(checks)
    ensures Occurrences(IdealRun(Replay(checks, advice.recommended.value, false)).1, RealDown)
         == LongerRuns(Runs(Readings(checks)), advice.smallestOutage.value)
  {
    ReplayPredicts(checks, advice.recommended.value);
    RecommendedIsSmallestExact(Runs(Readings(checks)), advice, advice.recommended.value);
  }

  lemma {:induction false} ClosedRunsArePositive(history: seq<Reading>)
    ensures forall run :: run in ClosedRuns(history) ==> run > 0
  {
    if history != [] {
      ClosedRunsArePositive(history[..|history| - 1]);
    }
  }

  /**
   * But a recommended threshold is never 1: with degraded alerts on, the replay at it is wrong about some
   * history.
   */
  lemma RecommendationNeedsDegradedOff(history: seq<Reading>, advice: ThresholdAdvice, degradedOn: bool)
    requires Advises(Runs(history), advice) && advice.recommended.Some?
    ensures (forall checks :: NoneLocal(checks) ==> DownsForetold(checks, advice.recommended.value, degradedOn))
       <==> !degradedOn
  {
    hide DownsForetold, NoneLocal, SplitsAt, AreTiers;
    ClosedRunsArePositive(history);
    ClustersAreApart(Runs(history), advice);
    assert advice.flapMax.value in Runs(history);
    DownsForetoldIff(advice.recommended.value, degradedOn);
  }

  // ---------------------------------------------------------------- latency percentiles

  /**
   * The position, from 1, that the nearest-rank method gives the `p`-th percentile of `n` samples: the
   * first that has `p` percent of them at or before it.
   */
  function NearestRank(p: nat, n: nat): (rank: nat)
    requires n > 0
    ensures 1 <= rank <= n
    ensures 1 <= p <= 100 ==> 100 * (rank - 1) < p * n <= 100 * rank
    ensures p == 0 ==> rank == 1
    ensures p >= 100 ==> rank == n
  {
    PercentBounds(p, n);
    var rank := (p * n + 99) / 100;
    if rank < 1 then 1 else if rank > n then n else rank
  }

  lemma PercentBounds(p: nat, n: nat)
    ensures p >= 1 ==> p * n >= n
    ensures p <= 100 ==> p * n <= 100 * n
    ensures p >= 100 ==> p * n >= 100 * n
    ensures p == 0 ==> p * n == 0
  {
    if p >= 1 {
      MulMonotone(n, 1, p);
    }
    if p <= 100 {
      MulMonotone(n, p, 100);
    } else {
      MulMonotone(n, 100, p);
    }
  }

  /** `percentile` of an ascending slice. */
  function Percentile(sorted: seq<int>, p: nat): int {
    if sorted == [] then 0 else sorted[NearestRank(p, |sorted|) - 1]
  }

  ghost predicate Sorted(s: seq<int>) {
    forall i, j :: 0 <= i <= j < |s| ==> s[i] <= s[j]
  }

  function CountAtMost(s: seq<int>, bound: int): (count: nat) {
    if s == [] then 0 else CountAtMost(s[..|s| - 1], bound) + if s[|s| - 1] <= bound then 1 else 0
  }

  /** As many samples are at most a bound as stand before the first one above it. */
  lemma {:induction false} CountUpto(s: seq<int>, bound: int, k: nat)
    requires Sorted(s) && k <= |s|
    ensures k > 0 && s[k - 1] <= bound ==> CountAtMost(s, bound) >= k
    ensures k < |s| && s[k] > bound ==> CountAtMost(s, bound) <= k
    ensures CountAtMost(s, bound) <= |s|
    decreases |s|
  {
    if s != [] {
      var n := |s| - 1;
      CountUpto(s[..n], bound, if k > n then n else k);
      if k > n && n > 0 {
        assert s[n - 1] <= s[n];
      }
    }
  }

  /** The percentile of sorted samples: at least `p` percent of them are at most it, and fewer are below it. */
  lemma PercentileSplits(sorted: seq<int>, p: nat)
    requires Sorted(sorted) && sorted != [] && 1 <= p <= 100
    ensures var answer := Percentile(sorted, p);
      && answer in sorted
      && 100 * CountAtMost(sorted, answer) >= p * |sorted|
      && 100 * CountAtMost(sorted, answer - 1) < p * |sorted|
  {
    var rank := NearestRank(p, |sorted|);
    CountUpto(sorted, sorted[rank - 1], rank);
    CountUpto(sorted, sorted[rank - 1] - 1, rank - 1);
  }
}
