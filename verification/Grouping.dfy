/**
 * Root-cause alert grouping, specified: what each operation of the coalescer does
 * to its four collections, and what it logs.
 */
module Grouping {
  import opened Wrappers

  /** Seconds during which a down that was sent or folded absorbs those of its dependents. */
  const CAUSE_MEMORY_SECS := 600

  /** A confirmed down; `content` stands for the annotations the coalescer only carries. */
  datatype DownAlert = DownAlert(id: string, upstreams: seq<string>, localOnly: bool, notify: Option<seq<string>>,
                                 content: string)

  /** Who receives a recovery. */
  datatype Recipients = Nobody | Usual | Quiet | Both

  datatype Pending = Pending(deadline: int, requeued: bool, alert: DownAlert)

  /** `quiet` holds the monitors inside a local-only outage, and whether it was confirmed since. */
  datatype State = State(pending: seq<Pending>, covered: map<string, int>, suppressed: set<string>,
                         quiet: map<string, bool>)

  const EMPTY := State([], map[], {}, map[])

  /** What happened, in order. */
  datatype Entry =
    | LocalOnly(alert: DownAlert, at: int)          // announced to the quiet channels
    | Released(alert: DownAlert, at: int, grouped: bool) // sent, at once or after the grouping wait
    | Folded(alert: DownAlert, at: int)             // absorbed by an upstream's notification
    | Queued(alert: DownAlert, at: int, due: int)   // waiting out the grouping window
    | Requeued(alert: DownAlert, at: int, due: int) // waiting once more, for a queued upstream
    | Drained(alert: DownAlert, at: int)            // sent on shutdown
    | Recovered(id: string, recipients: Recipients, dropped: seq<DownAlert>, at: int)
    | Resumed(id: string, confirmed: bool, at: int) // a local-only down from before a restart
    | Retained(known: set<string>, at: int)         // the monitors still configured

  datatype Outcome = Outcome(state: State, entries: seq<Entry>)

  // ---------------------------------------------------------------- queue helpers

  /** `Vec::swap_remove`: the last element takes the removed one's place. */
  function SwapRemove<T>(s: seq<T>, i: nat): (r: seq<T>)
    requires i < |s|
    ensures |r| == |s| - 1
  {
    var last := |s| - 1;
    if i == last then s[..last] else s[..last][i := s[last]]
  }

  /** The total of a measure over a queue. */
  ghost function Sum(pending: seq<Pending>, measure: Pending -> nat): nat {
    if pending == [] then 0
    else Sum(pending[..|pending| - 1], measure) + measure(pending[|pending| - 1])
  }

  lemma {:induction false} SumConcat(a: seq<Pending>, b: seq<Pending>, measure: Pending -> nat)
    ensures Sum(a + b, measure) == Sum(a, measure) + Sum(b, measure)
  {
    if b == [] {
      assert a + b == a;
    } else {
      SumConcat(a, b[..|b| - 1], measure);
      assert (a + b)[..|a + b| - 1] == a + b[..|b| - 1];
    }
  }

  lemma SumPush(pending: seq<Pending>, p: Pending, measure: Pending -> nat)
    ensures Sum(pending + [p], measure) == Sum(pending, measure) + measure(p)
  {
    assert (pending + [p])[..|pending|] == pending;
  }

  lemma SwapRemoveShape<T>(s: seq<T>, i: nat)
    requires i < |s| - 1
    ensures var last := |s| - 1;
            && s == (s[..i] + [s[i]]) + (s[i + 1..last] + [s[last]])
            && SwapRemove(s, i) == (s[..i] + [s[last]]) + s[i + 1..last]
  {
  }

  lemma SumSwapRemove(pending: seq<Pending>, i: nat, measure: Pending -> nat)
    requires i < |pending|
    ensures Sum(pending, measure) == Sum(SwapRemove(pending, i), measure) + measure(pending[i])
  {
    hide Sum, SwapRemove;
    var last := |pending| - 1;
    if i == last {
      SwapRemoveLast(pending);
      SumPush(pending[..last], pending[i], measure);
    } else {
      var front, back := pending[..i], pending[i + 1..last];
      SwapRemoveShape(pending, i);
      SumConcat(front + [pending[i]], back + [pending[last]], measure);
      SumConcat(front + [pending[last]], back, measure);
      SumPush(front, pending[i], measure);
      SumPush(front, pending[last], measure);
      SumPush(back, pending[last], measure);
    }
  }

  lemma SwapRemoveLast<T>(s: seq<T>)
    requires s != []
    ensures s == s[..|s| - 1] + [s[|s| - 1]] && SwapRemove(s, |s| - 1) == s[..|s| - 1]
  {
  }

  /** What is left for `flush` to do: two units per queued alert, one once it was requeued. */
  ghost function Effort(): Pending -> nat {
    (p: Pending) => if p.requeued then 1 else 2
  }

  ghost function Work(pending: seq<Pending>): nat {
    Sum(pending, Effort())
  }

  /** `i` is the first queued alert with the earliest deadline among the expired ones. */
  predicate IsNextExpired(pending: seq<Pending>, now: int, i: nat) {
    && i < |pending| && pending[i].deadline <= now
    && (forall j :: 0 <= j < |pending| ==> pending[i].deadline <= pending[j].deadline)
    && (forall j :: 0 <= j < i ==> pending[i].deadline < pending[j].deadline)
  }

  function NextExpired(pending: seq<Pending>, now: int): (r: Option<nat>)
    ensures r.None? ==> forall j :: 0 <= j < |pending| ==> pending[j].deadline > now
    ensures r.Some? ==> IsNextExpired(pending, now, r.value)
  {
    if pending == [] then None
    else
      var last := |pending| - 1;
      match NextExpired(pending[..last], now)
      case Some(i) => if pending[last].deadline < pending[i].deadline then Some(last) else Some(i)
      case None => if pending[last].deadline <= now then Some(last) else None
  }

  /** The latest deadline among the queued upstreams of an alert. */
  function QueuedUpstream(pending: seq<Pending>, alert: DownAlert): (r: Option<int>)
    ensures r.Some? <==> exists p :: p in pending && p.alert.id in alert.upstreams
    ensures r.Some? ==> forall p :: p in pending && p.alert.id in alert.upstreams ==> p.deadline <= r.value
    ensures r.Some? ==> exists p :: p in pending && p.alert.id in alert.upstreams && p.deadline == r.value
  {
    if pending == [] then None
    else
      var last := pending[|pending| - 1];
      assert pending == pending[..|pending| - 1] + [last];
      var front := QueuedUpstream(pending[..|pending| - 1], alert);
      if last.alert.id !in alert.upstreams then front
      else Some(if front.Some? then Max(front.value, last.deadline) else last.deadline)
  }

  /** Where the first queued alert of a monitor sits. */
  function Position(pending: seq<Pending>, id: string): (r: Option<nat>)
    ensures r.None? <==> forall p :: p in pending ==> p.alert.id != id
    ensures r.Some? ==>
      && r.value < |pending| && pending[r.value].alert.id == id
      && forall j :: 0 <= j < r.value ==> pending[j].alert.id != id
  {
    if pending == [] then None
    else
      assert pending == pending[..|pending| - 1] + [pending[|pending| - 1]];
      match Position(pending[..|pending| - 1], id)
      case Some(i) => Some(i)
      case None => if pending[|pending| - 1].alert.id == id then Some(|pending| - 1) else None
  }

  // ---------------------------------------------------------------- what each operation does

  function Prune(s: State, now: int): State {
    s.(covered := map id | id in s.covered && now - s.covered[id] < CAUSE_MEMORY_SECS :: s.covered[id])
  }

  predicate CoveredUpstream(s: State, alert: DownAlert) {
    exists i :: 0 <= i < |alert.upstreams| && alert.upstreams[i] in s.covered
  }

  function MarkSent(s: State, id: string, now: int): State {
    s.(covered := s.covered[id := now], suppressed := s.suppressed - {id})
  }

  function Fold(s: State, id: string, now: int): State {
    s.(covered := s.covered[id := now], suppressed := s.suppressed + {id})
  }

  function OnDown(s0: State, alert: DownAlert, now: int, window: nat): Outcome {
    var s1 := Prune(s0, now);
    if alert.localOnly then
      Outcome(s1.(quiet := s1.quiet[alert.id := false]), [LocalOnly(alert, now)])
    else
      var s := if alert.id in s1.quiet then s1.(quiet := s1.quiet[alert.id := true]) else s1;
      if alert.upstreams == [] || window == 0 then
        Outcome(MarkSent(s, alert.id, now), [Released(alert, now, false)])
      else if CoveredUpstream(s, alert) then
        Outcome(Fold(s, alert.id, now), [Folded(alert, now)])
      else
        var due := SaturatingAdd(now, window);
        Outcome(s.(pending := s.pending + [Pending(due, false, alert)]), [Queued(alert, now, due)])
  }

  function RecipientsOf(usual: bool, quiet: bool): Recipients {
    if usual && quiet then Both else if usual then Usual else if quiet then Quiet else Nobody
  }

  function OnRecovered(s0: State, id: string, now: int): Outcome {
    var s1 := Prune(s0, now);
    var s := s1.(covered := s1.covered - {id}, quiet := s1.quiet - {id});
    match Position(s.pending, id)
    case Some(i) =>
      var dropped := s.pending[i].alert;
      Outcome(s.(pending := SwapRemove(s.pending, i)),
              [Recovered(id, RecipientsOf(false, id in s1.quiet), [dropped], now)])
    case None =>
      var usual := id !in s.suppressed && (id in s1.quiet ==> s1.quiet[id]);
      Outcome(s.(suppressed := s.suppressed - {id}),
              [Recovered(id, RecipientsOf(usual, id in s1.quiet), [], now)])
  }

  /** The verdict on one expired alert, already taken off the queue. */
  function SettleOne(s: State, p: Pending, now: int): Outcome {
    var upstream := QueuedUpstream(s.pending, p.alert);
    if CoveredUpstream(s, p.alert) then
      Outcome(Fold(s, p.alert.id, now), [Folded(p.alert, now)])
    else if upstream.Some? && !p.requeued then
      var due := SaturatingAdd(Max(upstream.value, now), 1);
      Outcome(s.(pending := s.pending + [Pending(due, true, p.alert)]), [Requeued(p.alert, now, due)])
    else
      Outcome(MarkSent(s, p.alert.id, now), [Released(p.alert, now, true)])
  }

  function TakeOff(s: State, i: nat): State
    requires i < |s.pending|
  {
    s.(pending := SwapRemove(s.pending, i))
  }

  lemma SettlingProgresses(s: State, i: nat, now: int)
    requires i < |s.pending|
    ensures Work(SettleOne(TakeOff(s, i), s.pending[i], now).state.pending) < Work(s.pending)
  {
    hide Sum;
    SumSwapRemove(s.pending, i, Effort());
    var rest := TakeOff(s, i);
    var after := SettleOne(rest, s.pending[i], now).state.pending;
    if after != rest.pending {
      SumPush(rest.pending, after[|rest.pending|], Effort());
    }
  }

  function Settle(s: State, now: int): (r: Outcome)
    ensures forall p :: p in r.state.pending ==> p.deadline > now
    decreases Work(s.pending)
  {
    match NextExpired(s.pending, now)
    case None => Outcome(s, [])
    case Some(i) =>
      SettlingProgresses(s, i, now);
      var one := SettleOne(TakeOff(s, i), s.pending[i], now);
      var rest := Settle(one.state, now);
      Outcome(rest.state, one.entries + rest.entries)
  }

  /** One turn of the loop, and what is left of it. */
  lemma SettleTurn(s: State, now: int)
    ensures var next := NextExpired(s.pending, now);
      if next.None? then Settle(s, now) == Outcome(s, [])
      else
        var one := SettleOne(TakeOff(s, next.value), s.pending[next.value], now);
        Settle(s, now) == Outcome(Settle(one.state, now).state, one.entries + Settle(one.state, now).entries)
  {
    hide SettleOne, NextExpired;
  }

  function Flush(s: State, now: int): (r: Outcome)
    ensures forall p :: p in r.state.pending ==> p.deadline > now
  {
    Settle(Prune(s, now), now)
  }

  /** The verdict on one alert still queued at shutdown. */
  function DrainOne(s: State, alert: DownAlert, now: int): Outcome {
    if CoveredUpstream(s, alert) then Outcome(Fold(s, alert.id, now), [Folded(alert, now)])
    else Outcome(s.(suppressed := s.suppressed - {alert.id}), [Drained(alert, now)])
  }

  function DrainAll(s: State, queue: seq<Pending>, now: int): Outcome
    decreases |queue|
  {
    if queue == [] then Outcome(s, [])
    else
      var one := DrainOne(s, queue[0].alert, now);
      var rest := DrainAll(one.state, queue[1..], now);
      Outcome(rest.state, one.entries + rest.entries)
  }

  /** One turn of the loop, and what is left of it. */
  lemma DrainTurn(s: State, queue: seq<Pending>, now: int)
    ensures if queue == [] then DrainAll(s, queue, now) == Outcome(s, [])
            else
              var one := DrainOne(s, queue[0].alert, now);
              var rest := DrainAll(one.state, queue[1..], now);
              DrainAll(s, queue, now) == Outcome(rest.state, one.entries + rest.entries)
  {
    hide DrainOne;
  }

  function Drain(s: State, now: int): Outcome {
    DrainAll(Prune(s, now).(pending := []), s.pending, now)
  }

  function ResumeLocalOnly(s: State, id: string, confirmed: bool, now: int): Outcome {
    Outcome(s.(quiet := s.quiet[id := confirmed]), [Resumed(id, confirmed, now)])
  }

  function RetainMonitors(s: State, known: set<string>, now: int): Outcome {
    Outcome(s.(suppressed := s.suppressed * known, quiet := map id | id in s.quiet && id in known :: s.quiet[id]),
      [Retained(known, now)])
  }

  /** The downs an operation sends now. */
  function Sent(entries: seq<Entry>): (sent: seq<DownAlert>) {
    if entries == [] then []
    else
      Sent(entries[..|entries| - 1]) +
      match entries[|entries| - 1]
      case LocalOnly(alert, _) => [alert]
      case Released(alert, _, _) => [alert]
      case Drained(alert, _) => [alert]
      case _ => []
  }

  lemma SentOne(entry: Entry)
    ensures Sent([entry]) == match entry
                             case LocalOnly(alert, _) => [alert]
                             case Released(alert, _, _) => [alert]
                             case Drained(alert, _) => [alert]
                             case _ => []
  {
    assert [entry][..0] == [];
  }

  lemma {:induction false} SentConcat(a: seq<Entry>, b: seq<Entry>)
    ensures Sent(a + b) == Sent(a) + Sent(b)
  {
    if b == [] {
      assert a + b == a;
    } else {
      SentConcat(a, b[..|b| - 1]);
      assert (a + b)[..|a + b| - 1] == a + b[..|b| - 1];
    }
  }
}
