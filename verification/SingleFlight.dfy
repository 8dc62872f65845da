/**
 * The web cache's memo: reads without a lock, one build at a time. Callers are
 * interleaved freely; what one does between two `.await`s is one step.
 */
module SingleFlight {
  import opened Wrappers

  /** What was built, when, and from which config snapshot (known by its identity). */
  datatype Cached<V> = Cached(at: int, config: nat, value: V)

  predicate Fresh<V>(cached: Cached<V>, config: nat, ttl: nat, now: int) {
    cached.config == config && now - cached.at < ttl
  }

  function Lookup<K, V>(entries: map<K, Cached<V>>, key: K, config: nat, ttl: nat, now: int): Option<V> {
    if key in entries && Fresh(entries[key], config, ttl, now) then Some(entries[key].value) else None
  }

  /** The fresh entries, plus the new one. */
  function Inserted<K, V>(entries: map<K, Cached<V>>, key: K, config: nat, value: V, ttl: nat,
                          now: int): map<K, Cached<V>> {
    (map k | k in entries && Fresh(entries[k], config, ttl, now) :: entries[k])[key := Cached(now, config, value)]
  }

  /** Where a call of `get_or_build` is; a builder remembers when it saw the entry missing. */
  datatype Phase<V> = Waiting | Building(since: int) | Done(value: V) | Failed | Cancelled

  datatype Caller<K, V> = Caller(key: K, config: nat, phase: Phase<V>)

  /** A build that succeeded. */
  datatype Build<K, V> = Build(key: K, config: nat, value: V, since: int, at: int)

  datatype State<K, V> = State(entries: map<K, Cached<V>>, lock: Option<nat>,
                               callers: map<nat, Caller<K, V>>, builds: seq<Build<K, V>>)

  datatype Action<K, V> =
    | Call(key: K, config: nat)
    | Acquire
    | Finish(result: Option<V>)
    | Cancel

  datatype Step<K, V> = Step(caller: nat, action: Action<K, V>, now: int)

  function AtPhase<K, V>(s: State<K, V>, c: nat, phase: Phase<V>): State<K, V>
    requires c in s.callers
  {
    s.(callers := s.callers[c := s.callers[c].(phase := phase)])
  }

  /** One step of one caller; a step its caller cannot take changes nothing. */
  function Next<K, V>(s: State<K, V>, ttl: nat, step: Step<K, V>): State<K, V> {
    var c, now := step.caller, step.now;
    if step.action.Call? then
      var (key, config) := (step.action.key, step.action.config);
      if c in s.callers then s
      else
        var hit := Lookup(s.entries, key, config, ttl, now);
        s.(callers := s.callers[c := Caller(key, config, if hit.Some? then Done(hit.value) else Waiting)])
    else if c !in s.callers then s
    else
      var caller := s.callers[c];
      match (step.action, caller.phase)
      case (Acquire, Waiting) =>
        if s.lock.Some? then s
        else
          var hit := Lookup(s.entries, caller.key, caller.config, ttl, now);
          if hit.Some? then AtPhase(s, c, Done(hit.value)) else AtPhase(s, c, Building(now)).(lock := Some(c))
      case (Finish(result), Building(since)) =>
        if result.None? then AtPhase(s, c, Failed).(lock := None)
        else AtPhase(s, c, Done(result.value)).(
               lock := None,
               entries := Inserted(s.entries, caller.key, caller.config, result.value, ttl, now),
               builds := s.builds + [Build(caller.key, caller.config, result.value, since, now)])
      case (Cancel, Waiting) => AtPhase(s, c, Cancelled)
      case (Cancel, Building(_)) => AtPhase(s, c, Cancelled).(lock := None)
      case _ => s
  }

  function Run<K(!new), V(!new)>(ttl: nat, steps: seq<Step<K, V>>): State<K, V> {
    if steps == [] then State(map[], None, map[], [])
    else Next(Run(ttl, steps[..|steps| - 1]), ttl, steps[|steps| - 1])
  }

  ghost predicate Timed<K(!new), V(!new)>(steps: seq<Step<K, V>>) {
    forall i, j :: 0 <= i < j < |steps| ==> steps[i].now <= steps[j].now
  }

  // ---------------------------------------------------------------- what every step keeps

  /** The lock is held by exactly the one caller that is building. */
  ghost predicate OneBuilder<K(!new), V(!new)>(s: State<K, V>) {
    forall c :: c in s.callers && s.callers[c].phase.Building? <==> s.lock == Some(c)
  }

  ghost predicate WasBuilt<K(!new), V(!new)>(builds: seq<Build<K, V>>, key: K, config: nat, value: V) {
    exists i :: 0 <= i < |builds| && builds[i].key == key && builds[i].config == config && builds[i].value == value
  }

  /** Whatever is served or kept was built for that key, under that snapshot. */
  ghost predicate Honest<K(!new), V(!new)>(s: State<K, V>) {
    && (forall key :: key in s.entries ==> WasBuilt(s.builds, key, s.entries[key].config, s.entries[key].value))
    && (forall c :: c in s.callers && s.callers[c].phase.Done? ==>
          WasBuilt(s.builds, s.callers[c].key, s.callers[c].config, s.callers[c].phase.value))
  }

  /** No build after the `i`-th ran under another snapshot. */
  ghost predicate SameSnapshotSince<K(!new), V(!new)>(builds: seq<Build<K, V>>, i: nat)
    requires i < |builds|
  {
    forall k :: i < k < |builds| ==> builds[k].config == builds[i].config
  }

  /** A build made under the current snapshot is still served, or has expired. */
  ghost predicate Remembered<K(!new), V(!new)>(s: State<K, V>, ttl: nat, now: int, i: nat)
    requires i < |s.builds|
  {
    var b := s.builds[i];
    SameSnapshotSince(s.builds, i) ==>
      || now - b.at >= ttl
      || (b.key in s.entries && s.entries[b.key].config == b.config && s.entries[b.key].at >= b.at)
  }

  /** Whoever builds under the current snapshot saw every earlier build of its key expired. */
  ghost predicate Justified<K(!new), V(!new)>(builds: seq<Build<K, V>>, ttl: nat, key: K, config: nat, since: int) {
    forall i ::
      0 <= i < |builds| && builds[i].key == key && builds[i].config == config && SameSnapshotSince(builds, i) ==>
      since - builds[i].at >= ttl
  }

  ghost predicate Invariant<K(!new), V(!new)>(s: State<K, V>, ttl: nat, now: int) {
    && OneBuilder(s) && Honest(s)
    && (forall i :: 0 <= i < |s.builds| ==> Remembered(s, ttl, now, i))
    && (forall c :: c in s.callers && s.callers[c].phase.Building? ==>
          Justified(s.builds, ttl, s.callers[c].key, s.callers[c].config, s.callers[c].phase.since))
    && (forall j :: 0 <= j < |s.builds| ==>
          Justified(s.builds[..j], ttl, s.builds[j].key, s.builds[j].config, s.builds[j].since))
    && (forall key :: key in s.entries ==> s.entries[key].at <= now)
  }

  lemma StillBuilt<K(!new), V(!new)>(builds: seq<Build<K, V>>, b: Build<K, V>, key: K, config: nat, value: V)
    requires WasBuilt(builds, key, config, value) || (key, config, value) == (b.key, b.config, b.value)
    ensures WasBuilt(builds + [b], key, config, value)
  {
    if WasBuilt(builds, key, config, value) {
      var i :| 0 <= i < |builds| && builds[i].key == key && builds[i].config == config && builds[i].value == value;
      assert (builds + [b])[i] == builds[i];
    } else {
      assert (builds + [b])[|builds|] == b;
    }
  }

  lemma LookupIsHonest<K(!new), V(!new)>(s: State<K, V>, key: K, config: nat, ttl: nat, now: int)
    requires Honest(s)
    ensures var hit := Lookup(s.entries, key, config, ttl, now);
            hit.Some? ==> WasBuilt(s.builds, key, config, hit.value)
  {
  }

  /** A miss under the current snapshot means that every build of the key expired. */
  lemma MissIsJustified<K(!new), V(!new)>(s: State<K, V>, key: K, config: nat, ttl: nat, now: int)
    requires forall i :: 0 <= i < |s.builds| ==> Remembered(s, ttl, now, i)
    requires Lookup(s.entries, key, config, ttl, now).None?
    ensures Justified(s.builds, ttl, key, config, now)
  {
    forall i | 0 <= i < |s.builds| && s.builds[i].key == key && s.builds[i].config == config
      && SameSnapshotSince(s.builds, i)
      ensures now - s.builds[i].at >= ttl
    {
      assert Remembered(s, ttl, now, i);
    }
  }

  lemma FinishKeepsMemory<K(!new), V(!new)>(s: State<K, V>, ttl: nat, step: Step<K, V>, since: int, i: nat)
    requires step.caller in s.callers && step.action.Finish? && step.action.result.Some?
    requires s.callers[step.caller].phase == Building(since)
    requires forall k :: 0 <= k < |s.builds| ==> Remembered(s, ttl, step.now, k)
    requires i < |Next(s, ttl, step).builds|
    requires forall key :: key in s.entries ==> s.entries[key].at <= step.now
    ensures Remembered(Next(s, ttl, step), ttl, step.now, i)
  {
    var s' := Next(s, ttl, step);
    if i < |s.builds| && SameSnapshotSince(s'.builds, i) {
      assert s'.builds[i] == s.builds[i];
      assert SameSnapshotSince(s.builds, i) by {
        forall k | i < k < |s.builds| ensures s.builds[k].config == s.builds[i].config {
          assert s'.builds[k] == s.builds[k];
        }
      }
      assert s'.builds[|s.builds|].config == s.builds[i].config;
      assert Remembered(s, ttl, step.now, i);
    }
  }

  lemma TimePasses<K(!new), V(!new)>(s: State<K, V>, ttl: nat, before: int, now: int)
    requires Invariant(s, ttl, before) && before <= now
    ensures Invariant(s, ttl, now)
  {
    forall i | 0 <= i < |s.builds| ensures Remembered(s, ttl, now, i) {
      assert Remembered(s, ttl, before, i);
    }
  }

  lemma FinishKeepsInvariant<K(!new), V(!new)>(s: State<K, V>, ttl: nat, step: Step<K, V>, since: int)
    requires Invariant(s, ttl, step.now)
    requires step.caller in s.callers && step.action.Finish? && step.action.result.Some?
    requires s.callers[step.caller].phase == Building(since)
    ensures Invariant(Next(s, ttl, step), ttl, step.now)
  {
    hide OneBuilder, Remembered, Justified, WasBuilt;
    NextKeepsOneBuilder(s, ttl, step);
    var c := step.caller;
    var s', b := Next(s, ttl, step),
      Build(s.callers[c].key, s.callers[c].config, step.action.result.value, since, step.now);
    forall key | key in s'.entries ensures WasBuilt(s'.builds, key, s'.entries[key].config, s'.entries[key].value) {
      StillBuilt(s.builds, b, key, s'.entries[key].config, s'.entries[key].value);
    }
    forall d | d in s'.callers && s'.callers[d].phase.Done?
      ensures WasBuilt(s'.builds, s'.callers[d].key, s'.callers[d].config, s'.callers[d].phase.value)
    {
      StillBuilt(s.builds, b, s'.callers[d].key, s'.callers[d].config, s'.callers[d].phase.value);
    }
    forall i | 0 <= i < |s'.builds| ensures Remembered(s', ttl, step.now, i) {
      FinishKeepsMemory(s, ttl, step, since, i);
    }
    forall j | 0 <= j < |s'.builds|
      ensures Justified(s'.builds[..j], ttl, s'.builds[j].key, s'.builds[j].config, s'.builds[j].since) {
      if j < |s.builds| {
        assert s'.builds[..j] == s.builds[..j] && s'.builds[j] == s.builds[j];
      } else {
        assert s'.builds[..j] == s.builds;
      }
    }
  }

  lemma NextKeepsOneBuilder<K(!new), V(!new)>(s: State<K, V>, ttl: nat, step: Step<K, V>)
    requires OneBuilder(s)
    ensures OneBuilder(Next(s, ttl, step))
  {
    var c := step.caller;
    if c in s.callers && s.lock == Some(c) {
      assert s.callers[c].phase.Building?;
    }
  }

  lemma NextKeepsInvariant<K(!new), V(!new)>(s: State<K, V>, ttl: nat, step: Step<K, V>)
    requires Invariant(s, ttl, step.now)
    ensures Invariant(Next(s, ttl, step), ttl, step.now)
  {
    hide OneBuilder, WasBuilt, Justified, Remembered, Lookup;
    NextKeepsOneBuilder(s, ttl, step);
    var c, s' := step.caller, Next(s, ttl, step);
    if step.action.Call? {
      if c !in s.callers {
        LookupIsHonest(s, step.action.key, step.action.config, ttl, step.now);
        QuietStep(s, s', ttl, step.now);
      }
    } else if c in s.callers {
      var caller := s.callers[c];
      if step.action.Finish? && step.action.result.Some? && caller.phase.Building? {
        FinishKeepsInvariant(s, ttl, step, caller.phase.since);
      } else {
        LookupIsHonest(s, caller.key, caller.config, ttl, step.now);
        if Lookup(s.entries, caller.key, caller.config, ttl, step.now).None? {
          MissIsJustified(s, caller.key, caller.config, ttl, step.now);
        }
        QuietStep(s, s', ttl, step.now);
      }
    }
  }

  /** A step that leaves the entries and the builds alone. */
  lemma QuietStep<K(!new), V(!new)>(s: State<K, V>, s': State<K, V>, ttl: nat, now: int)
    requires Invariant(s, ttl, now) && s'.entries == s.entries && s'.builds == s.builds
    requires OneBuilder(s')
    requires forall c :: c in s'.callers && s'.callers[c].phase.Done? ==>
      WasBuilt(s.builds, s'.callers[c].key, s'.callers[c].config, s'.callers[c].phase.value)
    requires forall c :: c in s'.callers && s'.callers[c].phase.Building? ==>
      Justified(s.builds, ttl, s'.callers[c].key, s'.callers[c].config, s'.callers[c].phase.since)
    ensures Invariant(s', ttl, now)
  {
    forall i | 0 <= i < |s.builds| ensures Remembered(s', ttl, now, i) {
      assert Remembered(s, ttl, now, i);
    }
  }

  lemma {:induction false} RunKeepsInvariant<K(!new), V(!new)>(ttl: nat, steps: seq<Step<K, V>>, now: int)
    requires Timed(steps) && (steps != [] ==> steps[|steps| - 1].now <= now)
    ensures Invariant(Run(ttl, steps), ttl, now)
  {
    hide Next, Invariant;
    if steps == [] {
      StartsClean<K, V>(ttl, now);
    } else {
      var last := steps[|steps| - 1];
      RunKeepsInvariant(ttl, steps[..|steps| - 1], last.now);
      NextKeepsInvariant(Run(ttl, steps[..|steps| - 1]), ttl, last);
      TimePasses(Run(ttl, steps), ttl, last.now, now);
    }
  }

  lemma StartsClean<K(!new), V(!new)>(ttl: nat, now: int)
    ensures Invariant<K, V>(State(map[], None, map[], []), ttl, now)
  {
  }

  // ---------------------------------------------------------------- what callers are promised

  /** However callers are interleaved, one build runs at a time, and it holds the lock. */
  lemma OneBuildAtATime<K(!new), V(!new)>(ttl: nat, steps: seq<Step<K, V>>, c: nat, d: nat)
    requires Timed(steps)
    ensures var s := Run(ttl, steps);
      c in s.callers && d in s.callers && s.callers[c].phase.Building? && s.callers[d].phase.Building? ==> c == d
  {
    if steps != [] {
      RunKeepsInvariant(ttl, steps, steps[|steps| - 1].now);
    }
  }

  /** Every answer was built for the key that was asked, under the asker's own snapshot; so is every entry kept. */
  lemma AnswersAreOwn<K(!new), V(!new)>(ttl: nat, steps: seq<Step<K, V>>)
    requires Timed(steps)
    ensures Honest(Run(ttl, steps))
  {
    if steps != [] {
      RunKeepsInvariant(ttl, steps, steps[|steps| - 1].now);
    }
  }

  /** That build stands behind an entry. */
  ghost predicate Backed<K(!new), V(!new)>(builds: seq<Build<K, V>>, key: K, cached: Cached<V>) {
    exists i :: 0 <= i < |builds| && Backs(builds[i], key, cached)
  }

  predicate Backs<K(==), V(==)>(b: Build<K, V>, key: K, cached: Cached<V>) {
    b.key == key && b.config == cached.config && b.value == cached.value && b.at == cached.at
  }

  /** Every entry is dated by the build that made it. */
  ghost predicate Dated<K(!new), V(!new)>(s: State<K, V>) {
    forall key :: key in s.entries ==> Backed(s.builds, key, s.entries[key])
  }

  lemma NextKeepsDates<K(!new), V(!new)>(s: State<K, V>, ttl: nat, step: Step<K, V>)
    requires Dated(s)
    ensures Dated(Next(s, ttl, step))
  {
    var s' := Next(s, ttl, step);
    forall key | key in s'.entries ensures Backed(s'.builds, key, s'.entries[key]) {
      if s'.builds != s.builds && s'.entries[key].at == step.now && key == s.callers[step.caller].key {
        assert Backs(s'.builds[|s.builds|], key, s'.entries[key]);
      } else {
        var i :| 0 <= i < |s.builds| && Backs(s.builds[i], key, s.entries[key]);
        assert Backs(s'.builds[i], key, s'.entries[key]);
      }
    }
  }

  lemma {:induction false} RunKeepsDates<K(!new), V(!new)>(ttl: nat, steps: seq<Step<K, V>>)
    ensures Dated(Run(ttl, steps))
  {
    hide Next;
    if steps != [] {
      RunKeepsDates(ttl, steps[..|steps| - 1]);
      NextKeepsDates(Run(ttl, steps[..|steps| - 1]), ttl, steps[|steps| - 1]);
    }
  }

  /** The caller has its answer now, and had none before. */
  ghost predicate AnsweredBy<K(!new), V(!new)>(s: State<K, V>, s': State<K, V>, c: nat) {
    c in s'.callers && s'.callers[c].phase.Done? && (c in s.callers ==> !s.callers[c].phase.Done?)
  }

  /**
   * No answer is stale: when a caller gets one it is younger than the time to live, or the caller's own,
   * just built.
   */
  lemma AnswersAreFresh<K(!new), V(!new)>(ttl: nat, steps: seq<Step<K, V>>, c: nat) returns (at: int)
    requires steps != [] && AnsweredBy(Run(ttl, steps[..|steps| - 1]), Run(ttl, steps), c)
    ensures var step, s' := steps[|steps| - 1], Run(ttl, steps);
      && Backed(s'.builds, s'.callers[c].key, Cached(at, s'.callers[c].config, s'.callers[c].phase.value))
      && (step.now - at < ttl || (at == step.now && step.action.Finish? && step.caller == c))
  {
    hide Backed;
    var step, s, s' := steps[|steps| - 1], Run(ttl, steps[..|steps| - 1]), Run(ttl, steps);
    RunKeepsDates(ttl, steps[..|steps| - 1]);
    RunKeepsDates(ttl, steps);
    at := s'.entries[s'.callers[c].key].at;
  }

  /**
   * A key is built again under the same snapshot only once the earlier value has
   * expired, or another snapshot's build came between. So while one snapshot is
   * current and nothing expires, each key is built successfully at most once.
   */
  lemma BuiltOnce<K(!new), V(!new)>(ttl: nat, steps: seq<Step<K, V>>, i: nat, j: nat)
    requires Timed(steps) && i < j < |Run(ttl, steps).builds|
    ensures var builds := Run(ttl, steps).builds;
      builds[i].key == builds[j].key && builds[i].config == builds[j].config ==>
        || builds[j].since - builds[i].at >= ttl
        || exists k :: i < k < j && builds[k].config != builds[i].config
  {
    assert steps != [];
    RunKeepsInvariant(ttl, steps, steps[|steps| - 1].now);
    var builds := Run(ttl, steps).builds;
    assert Justified(builds[..j], ttl, builds[j].key, builds[j].config, builds[j].since);
    assert builds[..j][i] == builds[i];
    if !SameSnapshotSince(builds[..j], i) {
      var k :| i < k < |builds[..j]| && builds[..j][k].config != builds[..j][i].config;
      assert builds[k].config != builds[i].config;
    }
  }

  /** While a build of the current snapshot is younger than the time to live, its key is answered at once. */
  lemma ServedWhileFresh<K(!new), V(!new)>(ttl: nat, steps: seq<Step<K, V>>, i: nat, step: Step<K, V>)
    requires Timed(steps + [step]) && i < |Run(ttl, steps).builds|
    requires var b := Run(ttl, steps).builds[i];
      && SameSnapshotSince(Run(ttl, steps).builds, i) && step.now - b.at < ttl
      && Asks(Run(ttl, steps), step, b.key, b.config)
    ensures Next(Run(ttl, steps), ttl, step).callers[step.caller].phase.Done?
    ensures Next(Run(ttl, steps), ttl, step).lock == Run(ttl, steps).lock
  {
    hide Run;
    assert steps != [] ==> (steps + [step])[|steps| - 1] == steps[|steps| - 1];
    assert (steps + [step])[|steps|] == step;
    assert Timed(steps) by {
      forall k, j | 0 <= k < j < |steps| ensures steps[k].now <= steps[j].now {
        assert (steps + [step])[k] == steps[k] && (steps + [step])[j] == steps[j];
      }
    }
    RunKeepsInvariant(ttl, steps, step.now);
    assert Remembered(Run(ttl, steps), ttl, step.now, i);
  }

  /** A new call, or one that waits and is granted the lock. */
  predicate Asks<K(!new, ==), V(!new)>(s: State<K, V>, step: Step<K, V>, key: K, config: nat) {
    match step.action
    case Call(k, c) => step.caller !in s.callers && k == key && c == config
    case Acquire => step.caller in s.callers && s.callers[step.caller] == Caller(key, config, Waiting) && s.lock.None?
    case _ => false
  }

  /**
   * Nobody is stuck: a new call is answered or waits; one that waits is answered or builds as
   * soon as the lock is free; and a lock that is not free is held by a builder, whom any end
   * of the build makes release it.
   */
  lemma NobodyIsStuck<K(!new), V(!new)>(ttl: nat, steps: seq<Step<K, V>>, step: Step<K, V>)
    requires Timed(steps)
    ensures var s, c := Run(ttl, steps), step.caller;
      var s' := Next(s, ttl, step);
      && (step.action.Call? && c !in s.callers ==>
            && c in s'.callers && s'.callers[c].key == step.action.key && s'.callers[c].config == step.action.config
            && (s'.callers[c].phase.Done? || s'.callers[c].phase.Waiting?))
      && (step.action.Acquire? && c in s.callers && s.callers[c].phase.Waiting? && s.lock.None? ==>
            s'.callers[c].phase.Done? || (s'.callers[c].phase == Building(step.now) && s'.lock == Some(c)))
      && (s.lock.Some? ==>
            && s.lock.value in s.callers && s.callers[s.lock.value].phase.Building?
            && (c == s.lock.value && (step.action.Finish? || step.action.Cancel?) ==>
                  s'.lock.None? && !s'.callers[c].phase.Building?))
  {
    if steps != [] {
      RunKeepsInvariant(ttl, steps, steps[|steps| - 1].now);
    }
    hide Lookup, Inserted;
  }

  /** Only a successful build touches the entries, and it leaves none but fresh ones: the map holds live keys only. */
  lemma OnlyBuildsTouchEntries<K(!new), V(!new)>(s: State<K, V>, ttl: nat, step: Step<K, V>)
    requires ttl > 0 && Next(s, ttl, step).entries != s.entries
    ensures var s' := Next(s, ttl, step);
      && |s'.builds| == |s.builds| + 1
      && step.caller in s.callers && s.callers[step.caller].phase.Building? && s'.callers[step.caller].phase.Done?
      && Lookup(s'.entries, s.callers[step.caller].key, s.callers[step.caller].config, ttl, step.now)
        == Some(s'.callers[step.caller].phase.value)
      && forall key :: key in s'.entries ==> Fresh(s'.entries[key], s.callers[step.caller].config, ttl, step.now)
  {
  }

  // ---------------------------------------------------------------- the memo itself

  class Memo<K(==, !new), V(!new)> {
    const ttl: nat
    var entries: map<K, Cached<V>>
    var lock: Option<nat>
    /** The calls in flight or answered, and the builds that succeeded. */
    ghost var callers: map<nat, Caller<K, V>>
    ghost var builds: seq<Build<K, V>>

    ghost function View(): State<K, V>
      reads this
    {
      State(entries, lock, callers, builds)
    }

    constructor (ttl: nat)
      ensures this.ttl == ttl && View() == Run(ttl, [])
    {
      this.ttl := ttl;
      entries, lock, callers, builds := map[], None, map[], [];
    }

    /** `get` */
    method Get(key: K, config: nat, now: int) returns (hit: Option<V>)
      ensures hit == Lookup(entries, key, config, ttl, now)
    {
      if key !in entries {
        return None;
      }
      var cached := entries[key];
      hit := if Fresh(cached, config, ttl, now) then Some(cached.value) else None;
    }

    /** `insert` */
    method Insert(key: K, config: nat, value: V, now: int)
      modifies this`entries
      ensures entries == Inserted(old(entries), key, config, value, ttl, now)
    {
      var entry := Cached(now, config, value);
      var next := map k | k in entries && Fresh(entries[k], config, ttl, now) :: entries[k];
      entries := next[key := entry];
    }

    /** `get_or_build`, up to the lock. */
    method Call(c: nat, key: K, config: nat, now: int) returns (hit: Option<V>)
      requires c !in callers
      modifies this
      ensures View() == Next(old(View()), ttl, Step(c, Action.Call(key, config), now))
      ensures callers[c].phase == if hit.Some? then Done(hit.value) else Waiting
    {
      hit := Get(key, config, now);
      callers := callers[c := Caller(key, config, if hit.Some? then Done(hit.value) else Waiting)];
    }

    /** The lock is granted: look again, and keep it only to build. */
    method Acquire(c: nat, key: K, config: nat, now: int) returns (hit: Option<V>)
      requires c in callers && callers[c] == Caller(key, config, Waiting) && lock.None?
      modifies this
      ensures View() == Next(old(View()), ttl, Step(c, Action.Acquire, now))
      ensures callers[c].phase == if hit.Some? then Done(hit.value) else Building(now)
    {
      hit := Get(key, config, now);
      if hit.None? {
        lock := Some(c);
      }
      callers := callers[c := Caller(key, config, if hit.Some? then Done(hit.value) else Building(now))];
    }

    /** The build ended: keep what it made, if it made something, and release the lock. */
    method Finish(c: nat, key: K, config: nat, result: Option<V>, now: int)
      requires c in callers && callers[c].key == key && callers[c].config == config && callers[c].phase.Building?
      modifies this
      ensures View() == Next(old(View()), ttl, Step(c, Action.Finish(result), now))
    {
      lock := None;
      if result.None? {
        callers := callers[c := callers[c].(phase := Failed)];
      } else {
        Insert(key, config, result.value, now);
        builds := builds + [Build(key, config, result.value, callers[c].phase.since, now)];
        callers := callers[c := callers[c].(phase := Done(result.value))];
      }
    }

    /** The request is dropped while it waits or builds. */
    method Cancel(c: nat, building: bool)
      requires c in callers && (if building then callers[c].phase.Building? else callers[c].phase.Waiting?)
      modifies this
      ensures forall now :: View() == Next(old(View()), ttl, Step(c, Action.Cancel, now))
    {
      if building {
        lock := None;
      }
      callers := callers[c := callers[c].(phase := Cancelled)];
    }
  }
}
