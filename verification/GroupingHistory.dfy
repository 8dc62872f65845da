/**
 * What the coalescer promises over whole runs: a down is folded exactly when its
 * history holds a fresh cause, every fold traces back to a down that went out,
 * and no down is ever lost or counted twice.
 */
module GroupingHistory {
  import opened Wrappers
  import opened Grouping

  datatype Input =
    | Down(alert: DownAlert, window: nat)
    | Recovery(id: string, notify: Option<seq<string>>) // with the routes of the task that recovered
    | Resume(id: string, confirmed: bool)
    | Retain(known: set<string>)
    | FlushDue
    | Shutdown

  /** An input, when it came, and the channels for local-only alerts configured then. */
  datatype Event = Event(input: Input, now: int, quiet: Option<seq<string>>)

  function Apply(s: State, e: Event): Outcome {
    match e.input
    case Down(alert, window) => OnDown(s, alert, e.now, window)
    case Recovery(id, _) => OnRecovered(s, id, e.now)
    case Resume(id, confirmed) => ResumeLocalOnly(s, id, confirmed, e.now)
    case Retain(known) => RetainMonitors(s, known, e.now)
    case FlushDue => Flush(s, e.now)
    case Shutdown => Drain(s, e.now)
  }

  /** The state and the whole log after a sequence of events, from an empty coalescer. */
  function Play(events: seq<Event>): Outcome {
    if events == [] then Outcome(EMPTY, [])
    else
      var before := Play(events[..|events| - 1]);
      var step := Apply(before.state, events[|events| - 1]);
      Outcome(step.state, before.entries + step.entries)
  }

  /** Time never runs backwards. */
  ghost predicate Timed(events: seq<Event>) {
    forall i, j :: 0 <= i < j < |events| ==> events[i].now <= events[j].now
  }

  // ---------------------------------------------------------------- causes

  /** Alerts that went out, or were folded, absorb those of their dependents; local-only and drained ones do not. */
  predicate Covers(e: Entry) {
    e.Released? || e.Folded?
  }

  ghost predicate RecoveredAfter(log: seq<Entry>, j: nat, id: string) {
    exists k :: j < k < |log| && log[k].Recovered? && log[k].id == id
  }

  /** Entry `j` is an upstream's down, less than the memory old and not recovered since. */
  ghost predicate IsCause(log: seq<Entry>, j: nat, alert: DownAlert, now: int) {
    && j < |log| && Covers(log[j]) && log[j].alert.id in alert.upstreams
    && 0 <= now - log[j].at < CAUSE_MEMORY_SECS
    && !RecoveredAfter(log, j, log[j].alert.id)
  }

  ghost predicate HasCause(log: seq<Entry>, alert: DownAlert, now: int) {
    exists j: nat :: IsCause(log, j, alert, now)
  }

  /** Every verdict is the one its own past calls for: folded with a cause, and only then. */
  ghost predicate Decided(log: seq<Entry>, i: nat)
    requires i < |log|
  {
    match log[i]
    case Folded(alert, at) => HasCause(log[..i], alert, at)
    case Released(alert, at, grouped) => grouped ==> !HasCause(log[..i], alert, at)
    case Queued(alert, at, _) => !HasCause(log[..i], alert, at)
    case Requeued(alert, at, _) => !HasCause(log[..i], alert, at)
    case Drained(alert, at) => !HasCause(log[..i], alert, at)
    case _ => true
  }

  ghost predicate AllDecided(log: seq<Entry>) {
    forall i :: 0 <= i < |log| ==> Decided(log, i)
  }

  /** The entry covers, is younger than the memory and was not recovered from since. */
  ghost predicate StillCovers(log: seq<Entry>, j: nat, now: int)
    requires j < |log|
  {
    Covers(log[j]) && now - log[j].at < CAUSE_MEMORY_SECS && !RecoveredAfter(log, j, log[j].alert.id)
  }

  /** `covered` remembers exactly the unrecovered downs younger than the memory. */
  ghost predicate Faithful(covered: map<string, int>, log: seq<Entry>, now: int) {
    && (forall e :: e in log ==> e.at <= now)
    && (forall id :: id in covered ==> Witnessed(covered, log, id))
    && (forall j :: 0 <= j < |log| && StillCovers(log, j, now) ==>
          log[j].alert.id in covered && covered[log[j].alert.id] >= log[j].at)
  }

  ghost predicate Witnessed(covered: map<string, int>, log: seq<Entry>, id: string)
    requires id in covered
  {
    exists j: nat ::
      j < |log| && Covers(log[j]) && log[j].alert.id == id && log[j].at == covered[id] && !RecoveredAfter(log, j, id)
  }

  ghost predicate Pruned(covered: map<string, int>, now: int) {
    forall id :: id in covered ==> now - covered[id] < CAUSE_MEMORY_SECS
  }

  /** How an entry changes `covered`. */
  function CoverStep(covered: map<string, int>, e: Entry): map<string, int> {
    match e
    case Released(alert, at, _) => covered[alert.id := at]
    case Folded(alert, at) => covered[alert.id := at]
    case Recovered(id, _, _, _) => covered - {id}
    case _ => covered
  }

  lemma FaithfulPrune(s: State, log: seq<Entry>, before: int, now: int)
    requires Faithful(s.covered, log, before) && before <= now
    ensures Faithful(Prune(s, now).covered, log, now) && Pruned(Prune(s, now).covered, now)
  {
    forall id | id in Prune(s, now).covered ensures Witnessed(Prune(s, now).covered, log, id) {
      assert Witnessed(s.covered, log, id);
    }
  }

  lemma RecoveredAfterAppend(log: seq<Entry>, e: Entry, j: nat, id: string)
    ensures RecoveredAfter(log + [e], j, id)
      <==> RecoveredAfter(log, j, id) || (j < |log| && e.Recovered? && e.id == id)
  {
    var log' := log + [e];
    if RecoveredAfter(log, j, id) {
      var k :| j < k < |log| && log[k].Recovered? && log[k].id == id;
      assert log'[k] == log[k];
    }
    if j < |log| && e.Recovered? && e.id == id {
      assert log'[|log|] == e;
    }
  }

  lemma FaithfulAppend(covered: map<string, int>, log: seq<Entry>, e: Entry, now: int)
    requires Faithful(covered, log, now) && e.at == now
    ensures Faithful(CoverStep(covered, e), log + [e], now)
    ensures Pruned(covered, now) ==> Pruned(CoverStep(covered, e), now)
  {
    hide CoverStep, Witnessed, RecoveredAfter;
    var covered', log' := CoverStep(covered, e), log + [e];
    forall id | id in covered' ensures Witnessed(covered', log', id) {
      WitnessAppend(covered, log, e, now, id);
    }
    forall j | 0 <= j < |log'| && Covers(log'[j]) && StillCovers(log', j, now)
      ensures log'[j].alert.id in covered' && covered'[log'[j].alert.id] >= log'[j].at
    {
      CoverAppend(covered, log, e, now, j);
    }
    CoverStepPruned(covered, e, now);
  }

  lemma CoverStepPruned(covered: map<string, int>, e: Entry, now: int)
    requires e.at == now
    ensures Pruned(covered, now) ==> Pruned(CoverStep(covered, e), now)
  {
  }

  lemma WitnessAppend(covered: map<string, int>, log: seq<Entry>, e: Entry, now: int, id: string)
    requires Faithful(covered, log, now) && e.at == now && id in CoverStep(covered, e)
    ensures Witnessed(CoverStep(covered, e), log + [e], id)
  {
    hide RecoveredAfter, StillCovers;
    var log' := log + [e];
    if Covers(e) && e.alert.id == id {
      RecoveredAfterAppend(log, e, |log|, id);
      NothingAfterEnd(log, id);
      assert log'[|log|] == e;
    } else {
      assert Witnessed(covered, log, id);
      var j: nat :| j < |log| && Covers(log[j]) && log[j].alert.id == id && log[j].at == covered[id]
        && !RecoveredAfter(log, j, id);
      RecoveredAfterAppend(log, e, j, id);
      assert log'[j] == log[j];
    }
  }

  lemma CoverAppend(covered: map<string, int>, log: seq<Entry>, e: Entry, now: int, j: nat)
    requires Faithful(covered, log, now) && e.at == now && j <= |log| && StillCovers(log + [e], j, now)
    ensures var id := (log + [e])[j].alert.id;
            id in CoverStep(covered, e) && CoverStep(covered, e)[id] >= (log + [e])[j].at
  {
    hide RecoveredAfter, Witnessed;
    if j < |log| {
      RecoveredAfterAppend(log, e, j, log[j].alert.id);
      assert log[j] in log;
    }
  }

  lemma NothingAfterEnd(log: seq<Entry>, id: string)
    ensures !RecoveredAfter(log, |log|, id)
  {
  }

  /** The map lookup and the history agree. */
  lemma CoveredIffCause(s: State, log: seq<Entry>, alert: DownAlert, now: int)
    requires Faithful(s.covered, log, now) && Pruned(s.covered, now)
    ensures CoveredUpstream(s, alert) <==> HasCause(log, alert, now)
  {
    if CoveredUpstream(s, alert) {
      CoveredHasCause(s, log, alert, now);
    }
    if HasCause(log, alert, now) {
      CauseIsCovered(s, log, alert, now);
    }
  }

  lemma CoveredHasCause(s: State, log: seq<Entry>, alert: DownAlert, now: int)
    requires Faithful(s.covered, log, now) && Pruned(s.covered, now) && CoveredUpstream(s, alert)
    ensures HasCause(log, alert, now)
  {
    hide RecoveredAfter, StillCovers;
    var i :| 0 <= i < |alert.upstreams| && alert.upstreams[i] in s.covered;
    var u := alert.upstreams[i];
    assert Witnessed(s.covered, log, u);
    var j: nat :| j < |log| && Covers(log[j]) && log[j].alert.id == u && log[j].at == s.covered[u]
      && !RecoveredAfter(log, j, u);
    assert log[j] in log;
    assert IsCause(log, j, alert, now);
  }

  lemma CauseIsCovered(s: State, log: seq<Entry>, alert: DownAlert, now: int)
    requires Faithful(s.covered, log, now) && HasCause(log, alert, now)
    ensures CoveredUpstream(s, alert)
  {
    hide RecoveredAfter, Witnessed;
    var j: nat :| IsCause(log, j, alert, now);
    var i :| 0 <= i < |alert.upstreams| && alert.upstreams[i] == log[j].alert.id;
    assert StillCovers(log, j, now);
    assert alert.upstreams[i] in s.covered;
  }

  lemma DecidedAppend(log: seq<Entry>, e: Entry)
    requires AllDecided(log)
    requires Decided(log + [e], |log|)
    ensures AllDecided(log + [e])
  {
    forall i | 0 <= i < |log| ensures Decided(log + [e], i) {
      assert (log + [e])[..i] == log[..i] && (log + [e])[i] == log[i];
      assert Decided(log, i);
    }
  }

  // ---------------------------------------------------------------- the invariant of a run

  ghost predicate Good(s: State, log: seq<Entry>, now: int) {
    && Faithful(s.covered, log, now)
    && AllDecided(log)
    && (forall p :: p in s.pending ==> !p.alert.localOnly)
    && (forall e :: e in log ==> RealEntry(e))
  }

  /** Local-only downs are announced and nothing else. */
  predicate RealEntry(e: Entry) {
    match e
    case Released(alert, _, _) => !alert.localOnly
    case Folded(alert, _) => !alert.localOnly
    case Queued(alert, _, _) => !alert.localOnly
    case Requeued(alert, _, _) => !alert.localOnly
    case Drained(alert, _) => !alert.localOnly
    case _ => true
  }

  /** One entry, whatever operation wrote it. */
  lemma GoodAppend(s: State, log: seq<Entry>, now: int, e: Entry, s': State)
    requires Good(s, log, now) && Pruned(s.covered, now)
    requires e.at == now && RealEntry(e) && s'.covered == CoverStep(s.covered, e)
    requires forall p :: p in s'.pending ==> !p.alert.localOnly
    requires e.Folded? ==> CoveredUpstream(s, e.alert)
    requires (e.Released? && e.grouped) || e.Queued? || e.Requeued? || e.Drained? ==> !CoveredUpstream(s, e.alert)
    ensures Good(s', log + [e], now) && Pruned(s'.covered, now)
  {
    hide RecoveredAfter, HasCause, CoveredUpstream, Faithful;
    assert Faithful(s.covered, log, now);
    FaithfulAppend(s.covered, log, e, now);
    assert (log + [e])[..|log|] == log && (log + [e])[|log|] == e;
    if e.Released? || e.Folded? || e.Queued? || e.Requeued? || e.Drained? {
      CoveredIffCause(s, log, e.alert, now);
    }
    DecidedAppend(log, e);
  }

  lemma SwapRemoveSubset<T>(s: seq<T>, i: nat)
    requires i < |s|
    ensures forall x :: x in SwapRemove(s, i) ==> x in s
  {
  }

  lemma GoodSettleOne(s: State, i: nat, log: seq<Entry>, now: int)
    requires Good(s, log, now) && Pruned(s.covered, now) && i < |s.pending|
    ensures var one := SettleOne(TakeOff(s, i), s.pending[i], now);
            Good(one.state, log + one.entries, now) && Pruned(one.state.covered, now)
  {
    hide Faithful, AllDecided, Pruned, CoveredUpstream, SwapRemove;
    SwapRemoveSubset(s.pending, i);
    var one := SettleOne(TakeOff(s, i), s.pending[i], now);
    assert s.pending[i] in s.pending;
    assert one.entries == [one.entries[0]];
    GoodAppend(TakeOff(s, i), log, now, one.entries[0], one.state);
  }

  lemma {:induction false} GoodSettle(s: State, log: seq<Entry>, now: int)
    requires Good(s, log, now) && Pruned(s.covered, now)
    ensures Good(Settle(s, now).state, log + Settle(s, now).entries, now)
    decreases Work(s.pending)
  {
    hide Good, Pruned, SettleOne, Work;
    var next := NextExpired(s.pending, now);
    if next.None? {
      assert log + [] == log;
    } else {
      var i := next.value;
      SettlingProgresses(s, i, now);
      GoodSettleOne(s, i, log, now);
      var one := SettleOne(TakeOff(s, i), s.pending[i], now);
      GoodSettle(one.state, log + one.entries, now);
      assert log + Settle(s, now).entries == (log + one.entries) + Settle(one.state, now).entries;
    }
  }

  lemma {:induction false} GoodDrain(s: State, queue: seq<Pending>, log: seq<Entry>, now: int)
    requires Good(s, log, now) && Pruned(s.covered, now) && forall p :: p in queue ==> !p.alert.localOnly
    ensures Good(DrainAll(s, queue, now).state, log + DrainAll(s, queue, now).entries, now)
    decreases |queue|
  {
    hide Faithful, AllDecided, Pruned, CoveredUpstream;
    if queue == [] {
      assert log + [] == log;
    } else {
      var one := DrainOne(s, queue[0].alert, now);
      var e := one.entries[0];
      assert queue[0] in queue;
      GoodAppend(s, log, now, e, one.state);
      GoodDrain(one.state, queue[1..], log + [e], now);
      assert one.entries == [e];
      assert log + DrainAll(s, queue, now).entries == (log + [e]) + DrainAll(one.state, queue[1..], now).entries;
    }
  }

  lemma GoodPrune(s: State, log: seq<Entry>, before: int, now: int)
    requires Good(s, log, before) && before <= now
    ensures Good(Prune(s, now), log, now) && Pruned(Prune(s, now).covered, now)
  {
    FaithfulPrune(s, log, before, now);
  }

  lemma GoodDown(s: State, log: seq<Entry>, before: int, alert: DownAlert, now: int, window: nat)
    requires Good(s, log, before) && before <= now
    ensures Good(OnDown(s, alert, now, window).state, log + OnDown(s, alert, now, window).entries, now)
  {
    hide Faithful, AllDecided, Pruned, CoveredUpstream;
    GoodPrune(s, log, before, now);
    var pruned, r := Prune(s, now), OnDown(s, alert, now, window);
    CoveredSame(pruned, alert);
    GoodAppend(pruned, log, now, r.entries[0], r.state);
    assert r.entries == [r.entries[0]];
  }

  lemma GoodRecovery(s: State, log: seq<Entry>, before: int, id: string, now: int)
    requires Good(s, log, before) && before <= now
    ensures Good(OnRecovered(s, id, now).state, log + OnRecovered(s, id, now).entries, now)
  {
    hide Faithful, AllDecided, Pruned, CoveredUpstream, SwapRemove;
    GoodPrune(s, log, before, now);
    var pruned, r := Prune(s, now), OnRecovered(s, id, now);
    var position := Position(s.pending, id);
    if position.Some? {
      SwapRemoveSubset(s.pending, position.value);
    }
    GoodAppend(pruned, log, now, r.entries[0], r.state);
    assert r.entries == [r.entries[0]];
  }

  lemma GoodApply(s: State, log: seq<Entry>, before: int, e: Event)
    requires Good(s, log, before) && before <= e.now
    ensures Good(Apply(s, e).state, log + Apply(s, e).entries, e.now)
  {
    hide OnDown, OnRecovered, Settle, DrainAll, Faithful, AllDecided, Pruned;
    GoodPrune(s, log, before, e.now);
    match e.input {
      case Down(alert, window) => GoodDown(s, log, before, alert, e.now, window);
      case Recovery(id, _) => GoodRecovery(s, log, before, id, e.now);
      case Resume(id, confirmed) => GoodQuiet(s, log, before, e.now, Resumed(id, confirmed, e.now), Apply(s, e).state);
      case Retain(known) => GoodQuiet(s, log, before, e.now, Retained(known, e.now), Apply(s, e).state);
      case FlushDue => GoodSettle(Prune(s, e.now), log, e.now);
      case Shutdown => GoodDrain(Prune(s, e.now).(pending := []), s.pending, log, e.now);
    }
  }

  lemma CoveredSame(s: State, alert: DownAlert)
    ensures forall q :: CoveredUpstream(s.(quiet := q), alert) == CoveredUpstream(s, alert)
  {
  }

  /** Entries that neither cover nor recover anything need no pruning. */
  lemma GoodQuiet(s: State, log: seq<Entry>, before: int, now: int, e: Entry, s': State)
    requires Good(s, log, before) && before <= now && e.at == now && (e.Resumed? || e.Retained?)
    requires s'.covered == s.covered && s'.pending == s.pending
    ensures Good(s', log + [e], now)
  {
    assert Faithful(s.covered, log, now);
    FaithfulAppend(s.covered, log, e, now);
    assert (log + [e])[|log|] == e;
    DecidedAppend(log, e);
  }

  lemma {:induction false} PlayIsGood(events: seq<Event>)
    requires Timed(events)
    ensures Good(Play(events).state, Play(events).entries, if events == [] then 0 else events[|events| - 1].now)
  {
    if events != [] {
      var n := |events| - 1;
      PlayIsGood(events[..n]);
      if n == 0 {
        assert events[..0] == [];
        assert Good(EMPTY, [], events[0].now);
        GoodApply(EMPTY, [], events[0].now, events[0]);
      } else {
        assert events[..n][n - 1] == events[n - 1];
        GoodApply(Play(events[..n]).state, Play(events[..n]).entries, events[n - 1].now, events[n]);
      }
    }
  }

  // ---------------------------------------------------------------- theorems

  /** In any run, a down is folded exactly when its past holds a fresh, unrecovered upstream down. */
  lemma GroupingIsExact(events: seq<Event>, i: nat)
    requires Timed(events) && i < |Play(events).entries|
    ensures Decided(Play(events).entries, i)
  {
    PlayIsGood(events);
  }

  /** A chain of causes from a fold down to a down that really went out. */
  ghost predicate Explains(log: seq<Entry>, chain: seq<nat>) {
    && |chain| >= 2
    && (forall k :: 0 <= k < |chain| ==> chain[k] < |log| && Covers(log[chain[k]]) && !log[chain[k]].alert.localOnly)
    && (forall k :: 0 <= k < |chain| - 1 ==>
      log[chain[k]].Folded? && IsCause(log[..chain[k]], chain[k + 1], log[chain[k]].alert, log[chain[k]].at))
    && log[chain[|chain| - 1]].Released?
  }

  lemma {:induction false} ChainFrom(log: seq<Entry>, i: nat) returns (chain: seq<nat>)
    requires AllDecided(log) && (forall e :: e in log ==> RealEntry(e)) && i < |log| && log[i].Folded?
    ensures Explains(log, chain) && chain[0] == i
    decreases i
  {
    assert Decided(log, i);
    var j: nat :| IsCause(log[..i], j, log[i].alert, log[i].at);
    assert log[..i][j] == log[j];
    assert log[i] in log && log[j] in log;
    if log[j].Released? {
      chain := [i, j];
    } else {
      var rest := ChainFrom(log, j);
      chain := [i] + rest;
    }
  }

  /**
   * Nothing is swallowed: each folded down is explained by a finite chain of
   * upstreams, each one sent or folded less than the memory before the next and
   * not recovered by then, ending in a down that was released; local-only downs
   * never appear in it.
   */
  lemma FoldsAreExplained(events: seq<Event>, i: nat)
    requires Timed(events) && i < |Play(events).entries| && Play(events).entries[i].Folded?
    ensures exists chain :: Explains(Play(events).entries, chain) && chain[0] == i
  {
    PlayIsGood(events);
    var chain := ChainFrom(Play(events).entries, i);
  }
}
