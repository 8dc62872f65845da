/**
 * Judging heartbeats: when a schedule wants the next one, and the verdict on those
 * received by a moment. A schedule is its run times; the library computes those below a horizon.
 */
module Heartbeat {
  import opened Wrappers

  datatype Cron = Cron(runs: nat -> int, horizon: nat)

  ghost predicate Increasing(cron: Cron) {
    forall i, j :: 0 <= i < j ==> cron.runs(i) < cron.runs(j)
  }

  /** `find_next_occurrence`, exclusive: the first run after a time, by its index. */
  function NextFrom(cron: Cron, t: int, i: nat): (next: Option<nat>)
    ensures next.Some? ==> i <= next.value < cron.horizon
    decreases cron.horizon - i
  {
    if i >= cron.horizon then None
    else if cron.runs(i) > t then Some(i)
    else NextFrom(cron, t, i + 1)
  }

  /** A number of seconds read as an `i64`. */
  function Secs(secs: nat): nat { Min(secs, I64_MAX) }

  /** `cron_due` */
  function CronDue(cron: Cron, last: int, earlySecs: Option<nat>): Option<int> {
    match NextFrom(cron, last, 0)
    case None => None
    case Some(i) =>
      var next := cron.runs(i);
      match (earlySecs, NextFrom(cron, next, 0))
      case (Some(secs), Some(j)) =>
        var after := cron.runs(j);
        var early := Min(Secs(secs), (after - next) / 2);
        Some(if next - last <= early then after else next)
      case _ => Some(next)
  }

  /** `cron_missed` */
  function CronMissed(cron: Cron, last: int, grace: nat, earlySecs: Option<nat>, now: int): Option<int> {
    match CronDue(cron, last, earlySecs)
    case None => None
    case Some(due) => if now > SaturatingAdd(due, Secs(grace)) then Some(due) else None
  }

  datatype Cadence = Every(intervalSecs: nat) | Scheduled(cron: Cron, grace: nat)

  datatype CheckStatus = Up | Degraded | Down

  datatype Beat = Beat(time: int, status: CheckStatus)

  datatype FailureKind = MissingHeartbeat | MissedSchedule(due: int) | NoHeartbeatYet

  datatype Verdict = Unknown | Overdue(kind: FailureKind) | OnTime(status: CheckStatus)

  /** `overdue` */
  function OverdueKind(cadence: Cadence, since: int, seen: bool, now: int): Option<FailureKind> {
    match cadence
    case Every(interval) => if now - since > Secs(interval) then Some(MissingHeartbeat) else None
    case Scheduled(cron, grace) =>
      match CronMissed(cron, since, grace, if seen then Some(grace) else None, now)
      case None => None
      case Some(due) => Some(MissedSchedule(due))
  }

  /** `judge_heartbeat` */
  function Judge(cadence: Cadence, last: Option<Beat>, expectedSince: int, now: int): Verdict {
    var since := if last.Some? then last.value.time else expectedSince;
    match OverdueKind(cadence, since, last.Some?, now)
    case Some(kind) => Overdue(if last.Some? then kind else NoHeartbeatYet)
    case None => if last.None? then Unknown else OnTime(last.value.status)
  }

  // ---------------------------------------------------------------- which run a ping answers

  /** The run is the first one after the time. */
  ghost predicate FirstAfter(cron: Cron, t: int, i: nat) {
    cron.runs(i) > t && (i == 0 || cron.runs(i - 1) <= t)
  }

  lemma {:induction false} NextIsFirst(cron: Cron, t: int, from: nat, i: nat)
    requires Increasing(cron) && FirstAfter(cron, t, i) && from <= i
    ensures NextFrom(cron, t, from) == if i < cron.horizon then Some(i) else None
    decreases i - from
  {
    if from < i {
      assert from < i - 1 ==> cron.runs(from) < cron.runs(i - 1);
      NextIsFirst(cron, t, from + 1, i);
    }
  }

  lemma NextRun(cron: Cron, i: nat)
    requires Increasing(cron)
    ensures FirstAfter(cron, cron.runs(i), i + 1)
  {
  }

  /** How much before the `i`-th run a ping still counts for it: the grace, at most half the gap to the next. */
  function Early(cron: Cron, grace: nat, i: nat): int {
    Min(Secs(grace), (cron.runs(i + 1) - cron.runs(i)) / 2)
  }

  /**
   * A ping since the previous run counts for the `i`-th exactly when it comes no
   * earlier than allowed: then the run after it is the one due, and otherwise the
   * `i`-th itself still is.
   */
  lemma CountsForItsRunIff(cron: Cron, grace: nat, i: nat, ping: int)
    requires Increasing(cron) && i + 1 < cron.horizon
    requires FirstAfter(cron, ping, i)
    ensures CronDue(cron, ping, Some(grace)) ==
      Some(cron.runs(if ping >= cron.runs(i) - Early(cron, grace, i) then i + 1 else i))
  {
    NextIsFirst(cron, ping, 0, i);
    NextRun(cron, i);
    NextIsFirst(cron, cron.runs(i), 0, i + 1);
  }

  // ---------------------------------------------------------------- a punctual job

  /** A ping answers the `i`-th run: not before the previous run, not too early, at most the grace late. */
  ghost predicate Answers(cron: Cron, grace: nat, i: nat, ping: int) {
    && (i > 0 ==> cron.runs(i - 1) <= ping)
    && cron.runs(i) - Early(cron, grace, i) <= ping <= cron.runs(i) + Secs(grace)
  }

  /** One ping per run, in order, from the `base`-th run on; the watch began since the run before. */
  ghost predicate Punctual(cron: Cron, grace: nat, base: nat, since: int, beats: seq<Beat>) {
    && FirstAfter(cron, since, base)
    && (forall k :: 0 <= k < |beats| ==> Answers(cron, grace, base + k, beats[k].time))
    && (forall j, k :: 0 <= j < k < |beats| ==> beats[j].time <= beats[k].time)
  }

  /** The latest heartbeat stored at a moment. */
  function Latest(beats: seq<Beat>, now: int): Option<Beat> {
    if beats == [] then None
    else if beats[|beats| - 1].time <= now then Some(beats[|beats| - 1])
    else Latest(beats[..|beats| - 1], now)
  }

  lemma {:induction false} LatestIsLatest(beats: seq<Beat>, now: int) returns (n: nat)
    ensures n <= |beats| && Latest(beats, now) == if n == 0 then None else Some(beats[n - 1])
    ensures n < |beats| ==> beats[n].time > now
  {
    n := |beats|;
    if beats != [] && beats[|beats| - 1].time > now {
      n := LatestIsLatest(beats[..|beats| - 1], now);
    }
  }

  /** After a ping that answers the `i`-th run, nothing is missed until the grace of the next one has passed. */
  lemma AnsweredRunIsNotMissed(cron: Cron, grace: nat, i: nat, ping: int, now: int)
    requires Increasing(cron) && i + 1 < cron.horizon && Answers(cron, grace, i, ping)
    requires now <= cron.runs(i + 1) + Secs(grace) && now <= I64_MAX
    ensures CronMissed(cron, ping, grace, Some(grace), now) == None
  {
    if ping < cron.runs(i) {
      CountsForItsRunIff(cron, grace, i, ping);
    } else {
      DueIsAfterward(cron, grace, i, ping);
    }
  }

  lemma DueIsAfterward(cron: Cron, grace: nat, i: nat, ping: int)
    requires Increasing(cron) && cron.runs(i) <= ping
    ensures CronDue(cron, ping, Some(grace)).Some? ==> CronDue(cron, ping, Some(grace)).value >= cron.runs(i + 1)
  {
    NextIsAfter(cron, ping, 0);
    var next := NextFrom(cron, ping, 0);
    if next.Some? {
      InOrder(cron, i, next.value);
      InOrder(cron, i + 1, next.value);
      NextIsAfter(cron, cron.runs(next.value), 0);
    }
  }

  lemma InOrder(cron: Cron, i: nat, j: nat)
    requires Increasing(cron)
    ensures i < j <==> cron.runs(i) < cron.runs(j)
  {
    assert j < i ==> cron.runs(j) < cron.runs(i);
  }

  lemma {:induction false} NextIsAfter(cron: Cron, t: int, from: nat)
    ensures NextFrom(cron, t, from).Some? ==> cron.runs(NextFrom(cron, t, from).value) > t
    decreases cron.horizon - from
  {
    if from < cron.horizon {
      NextIsAfter(cron, t, from + 1);
    }
  }

  /**
   * For every schedule: a job that pings once per run, in order, no earlier than
   * the previous run nor than the allowance, and at most the grace late, is never
   * reported missed - from the moment the watch begins until its next ping is
   * itself overdue.
   */
  lemma PunctualJobIsNeverMissed(cron: Cron, grace: nat, base: nat, since: int, beats: seq<Beat>, now: int)
    requires Increasing(cron) && Punctual(cron, grace, base, since, beats) && base + |beats| < cron.horizon
    requires now <= cron.runs(base + |beats|) + Secs(grace) && now <= I64_MAX
    ensures var last := Latest(beats, now);
            Judge(Scheduled(cron, grace), last, since, now) == if last.None? then Unknown else OnTime(last.value.status)
  {
    hide Increasing, NextFrom, Latest, Early;
    var n := LatestIsLatest(beats, now);
    assert now <= cron.runs(base + n) + Secs(grace) by {
      assert n < |beats| ==> Answers(cron, grace, base + n, beats[n].time);
    }
    if n == 0 {
      NextIsFirst(cron, since, 0, base);
    } else {
      assert Answers(cron, grace, base + (n - 1), beats[n - 1].time);
      AnsweredRunIsNotMissed(cron, grace, base + (n - 1), beats[n - 1].time, now);
    }
  }

  // ---------------------------------------------------------------- a job that stops

  /** The run that a ping leaves due: the first after it, or the next one when it counts for that already. */
  function DueAfter(cron: Cron, grace: nat, i: nat, ping: int): nat {
    if i + 1 < cron.horizon && ping >= cron.runs(i) - Early(cron, grace, i) then i + 1 else i
  }

  /**
   * A job that stops is reported exactly once the run its last ping leaves due has had its
   * grace: the second after the ping when the ping counts for the first, else the first.
   */
  lemma StoppedJobIsReported(cron: Cron, grace: nat, i: nat, last: Beat, expectedSince: int, now: int)
    requires Increasing(cron) && FirstAfter(cron, last.time, i) && i < cron.horizon && now <= I64_MAX
    ensures var due := cron.runs(DueAfter(cron, grace, i, last.time));
      Judge(Scheduled(cron, grace), Some(last), expectedSince, now)
        == if now > due + Secs(grace) then Overdue(MissedSchedule(due)) else OnTime(last.status)
  {
    hide CronDue, Increasing, FirstAfter, Early;
    StoppedIsDue(cron, grace, i, last.time);
  }

  lemma StoppedIsDue(cron: Cron, grace: nat, i: nat, ping: int)
    requires Increasing(cron) && FirstAfter(cron, ping, i) && i < cron.horizon
    ensures CronDue(cron, ping, Some(grace)) == Some(cron.runs(DueAfter(cron, grace, i, ping)))
  {
    if i + 1 < cron.horizon {
      CountsForItsRunIff(cron, grace, i, ping);
    } else {
      NextIsFirst(cron, ping, 0, i);
      NextRun(cron, i);
      NextIsFirst(cron, cron.runs(i), 0, i + 1);
    }
  }

  /**
   * A job that never pinged is reported exactly once the first run since the watch began is overdue:
   * no early allowance.
   */
  lemma NeverPingedIsReportedIff(cron: Cron, grace: nat, i: nat, expectedSince: int, now: int)
    requires Increasing(cron) && FirstAfter(cron, expectedSince, i) && i < cron.horizon && now <= I64_MAX
    ensures Judge(Scheduled(cron, grace), None, expectedSince, now)
         == if now > cron.runs(i) + Secs(grace) then Overdue(NoHeartbeatYet) else Unknown
  {
    NextIsFirst(cron, expectedSince, 0, i);
  }

  /** A schedule with no run left to compute never alerts. */
  lemma NoNextRunNeverAlerts(cron: Cron, grace: nat, i: nat, last: Option<Beat>, expectedSince: int, now: int)
    requires Increasing(cron) && cron.horizon <= i
    requires FirstAfter(cron, if last.Some? then last.value.time else expectedSince, i)
    ensures !Judge(Scheduled(cron, grace), last, expectedSince, now).Overdue?
  {
    NextIsFirst(cron, if last.Some? then last.value.time else expectedSince, 0, i);
  }

  // ---------------------------------------------------------------- a fixed interval

  /** The heartbeats stored in order. */
  ghost predicate InOrderOfTime(beats: seq<Beat>) {
    forall j, k :: 0 <= j <= k < |beats| ==> beats[j].time <= beats[k].time
  }

  /** Some heartbeat, or the start of the watch when none has come, is at most the interval old. */
  ghost predicate AliveWithin(beats: seq<Beat>, since: int, interval: nat, now: int) {
    || (exists k :: 0 <= k < |beats| && now - interval <= beats[k].time <= now)
    || ((forall k :: 0 <= k < |beats| ==> beats[k].time > now) && now - interval <= since)
  }

  /** A monitor with a fixed interval is overdue exactly while nothing was heard for longer than it. */
  lemma OverdueIffSilent(interval: nat, since: int, beats: seq<Beat>, now: int)
    requires InOrderOfTime(beats) && interval <= I64_MAX
    ensures var alive := AliveWithin(beats, since, interval, now);
      Judge(Every(interval), Latest(beats, now), since, now)
        == match Latest(beats, now)
           case None => if alive then Unknown else Overdue(NoHeartbeatYet)
           case Some(beat) => if alive then OnTime(beat.status) else Overdue(MissingHeartbeat)
  {
    hide Latest;
    var n := LatestIsLatest(beats, now);
    LatestHasPassed(beats, now);
    if n > 0 && now - beats[n - 1].time <= interval {
      assert AliveWithin(beats, since, interval, now);
    }
    forall k | 0 <= k < |beats| && beats[k].time <= now ensures k < n {
    }
  }

  lemma {:induction false} LatestHasPassed(beats: seq<Beat>, now: int)
    ensures Latest(beats, now).Some? ==> Latest(beats, now).value.time <= now
  {
    if beats != [] {
      LatestHasPassed(beats[..|beats| - 1], now);
    }
  }

  // ---------------------------------------------------------------- recorded misses

  /** What is stored about a monitor: real heartbeats, and the misses recorded at each evaluation. */
  datatype Record = Pinged(beat: Beat) | Miss(at: int)

  /** The last real heartbeat, under whatever misses were recorded on top of it. */
  function LastBeat(records: seq<Record>): Option<Beat> {
    if records == [] then None
    else
      match records[|records| - 1]
      case Pinged(beat) => Some(beat)
      case Miss(_) => LastBeat(records[..|records| - 1])
  }

  /** It is there exactly when a ping is, and it is the last: only misses come after it. */
  lemma {:induction false} LastBeatIsLast(records: seq<Record>) returns (n: nat)
    ensures n <= |records|
    ensures n == 0 ==> LastBeat(records).None?
    ensures n > 0 ==> records[n - 1].Pinged? && LastBeat(records) == Some(records[n - 1].beat)
    ensures forall k :: n <= k < |records| ==> records[k].Miss?
  {
    n := |records|;
    if records != [] && records[|records| - 1].Miss? {
      n := LastBeatIsLast(records[..|records| - 1]);
    }
  }

  class Store {
    var records: seq<Record>

    constructor ()
      ensures records == []
    {
      records := [];
    }

    /** `last_heartbeat` */
    method LastHeartbeat() returns (last: Option<Beat>)
      ensures last == LastBeat(records)
    {
      var i: nat := |records|;
      assert records[..i] == records;
      while i > 0
        invariant i <= |records| && LastBeat(records) == LastBeat(records[..i])
      {
        match records[i - 1] {
          case Pinged(beat) =>
            assert records[..i][|records[..i]| - 1] == records[i - 1];
            return Some(beat);
          case Miss(_) =>
            assert records[..i][..i - 1] == records[..i - 1];
            i := i - 1;
        }
      }
      last := None;
    }

    /** `heartbeat_outcome_for`: a status to react to, if any; an overdue heartbeat is recorded as a miss. */
    method Evaluate(cadence: Cadence, expectedSince: int, now: int) returns (outcome: Option<CheckStatus>)
      modifies this
      ensures var verdict := Judge(cadence, LastBeat(old(records)), expectedSince, now);
        && outcome
          == (match verdict case Unknown => None case OnTime(status) => Some(status) case Overdue(_) => Some(Down))
        && records == old(records) + if verdict.Overdue? then [Miss(now)] else []
    {
      var last := LastHeartbeat();
      match Judge(cadence, last, expectedSince, now) {
        case Unknown => outcome := None;
        case OnTime(status) => outcome := Some(status);
        case Overdue(_) =>
          records := records + [Miss(now)];
          outcome := Some(Down);
      }
    }
  }

  /** The records after evaluations at the given times, with no ping in between. */
  function Evaluated(cadence: Cadence, records: seq<Record>, expectedSince: int, times: seq<int>): seq<Record> {
    if times == [] then records
    else
      var before := Evaluated(cadence, records, expectedSince, times[..|times| - 1]);
      var now := times[|times| - 1];
      if Judge(cadence, LastBeat(before), expectedSince, now).Overdue? then before + [Miss(now)] else before
  }

  lemma {:induction false} MissesAreNoBeats(cadence: Cadence, records: seq<Record>, expectedSince: int, times: seq<int>)
    ensures LastBeat(Evaluated(cadence, records, expectedSince, times)) == LastBeat(records)
  {
    if times != [] {
      MissesAreNoBeats(cadence, records, expectedSince, times[..|times| - 1]);
      var before := Evaluated(cadence, records, expectedSince, times[..|times| - 1]);
      assert (before + [Miss(times[|times| - 1])])[..|before|] == before;
    }
  }

  /** Once overdue, always overdue until a real ping: the recorded misses never reset the clock. */
  lemma OverdueStays(cadence: Cadence, records: seq<Record>, expectedSince: int, times: seq<int>, first: int, now: int)
    requires first <= now && Judge(cadence, LastBeat(records), expectedSince, first).Overdue?
    ensures Judge(cadence, LastBeat(Evaluated(cadence, records, expectedSince, times)), expectedSince, now)
         == Judge(cadence, LastBeat(records), expectedSince, first)
  {
    MissesAreNoBeats(cadence, records, expectedSince, times);
  }
}
