/**
 * What the channels are actually told: every down with the routes it went out on, every
 * recovery with its own - which a reload or a restart may have changed in between.
 */
module Announcements {
  import opened Wrappers
  import opened Signals
  import opened Grouping
  import opened GroupingHistory
  import opened GroupingOrigins
  import opened GroupingRouting

  // ---------------------------------------------------------------- routes

  /** Where a notification goes: nowhere, to every channel, or to the listed ones. */
  datatype Routes = Nowhere | Everywhere | Only(names: seq<string>)

  predicate Hears(routes: Routes, channel: string) {
    routes.Everywhere? || (routes.Only? && channel in routes.names)
  }

  function RoutesOf(notify: Option<seq<string>>): Routes {
    match notify
    case None => Everywhere
    case Some(names) => Only(names)
  }

  function QuietRoutes(quiet: Option<seq<string>>): Routes {
    match quiet
    case None => Nowhere
    case Some(names) => Only(names)
  }

  /** The names of `more` not listed yet, appended in order. */
  function Merge(routes: seq<string>, more: seq<string>): seq<string>
    decreases |more|
  {
    if more == [] then routes
    else Merge(if more[0] in routes then routes else routes + [more[0]], more[1..])
  }

  /** `send_recovered` */
  function RecoveredRoutes(recipients: Recipients, notify: Option<seq<string>>, quiet: Option<seq<string>>): Routes {
    match recipients
    case Nobody => Nowhere
    case Usual => RoutesOf(notify)
    case Quiet => QuietRoutes(quiet)
    case Both =>
      match notify
      case None => Everywhere
      case Some(names) => Only(Merge(names, if quiet.Some? then quiet.value else []))
  }

  lemma {:induction false} MergeMembers(routes: seq<string>, more: seq<string>)
    ensures forall c :: c in Merge(routes, more) <==> c in routes || c in more
    decreases |more|
  {
    if more != [] {
      MergeMembers(if more[0] in routes then routes else routes + [more[0]], more[1..]);
      assert more == [more[0]] + more[1..];
    }
  }

  // ---------------------------------------------------------------- what is told

  /** A message to the channels; an outage carried over a restart goes on without one. */
  datatype Telling =
    | DownTold(id: string, local: bool, routes: Routes)
    | UpTold(id: string, routes: Routes)
    | CarriedOver(id: string)

  /**
   * What an entry logged at an event has the channels told: `send_down` for the downs that go out,
   * local-only or not.
   */
  function Tells(e: Event, entry: Entry): seq<Telling> {
    match entry
    case LocalOnly(alert, _) => [DownTold(alert.id, true, QuietRoutes(e.quiet))]
    case Released(alert, _, _) => [DownTold(alert.id, false, RoutesOf(alert.notify))]
    case Drained(alert, _) => [DownTold(alert.id, false, RoutesOf(alert.notify))]
    case Recovered(id, recipients, _, _) =>
      [UpTold(id, RecoveredRoutes(recipients, if e.input.Recovery? then e.input.notify else None, e.quiet))]
    case Resumed(id, _, _) => [CarriedOver(id)]
    case _ => []
  }

  function TellsAll(e: Event, entries: seq<Entry>): seq<Telling> {
    if entries == [] then []
    else TellsAll(e, entries[..|entries| - 1]) + Tells(e, entries[|entries| - 1])
  }

  /** Everything the channels are told in a run. */
  function Told(events: seq<Event>): seq<Telling> {
    if events == [] then []
    else
      var front, last := events[..|events| - 1], events[|events| - 1];
      Told(front) + TellsAll(last, Apply(Play(front).state, last).entries)
  }

  /** The routes on which the real down, and the local-only one, of an outage were told. */
  datatype Hearing = Hearing(usual: Option<Routes>, quiet: Option<Routes>)

  const UNHEARD := Hearing(None, None)

  predicate HeardBy(h: Hearing, channel: string) {
    (h.usual.Some? && Hears(h.usual.value, channel)) || (h.quiet.Some? && Hears(h.quiet.value, channel))
  }

  /** What was told, before this process started, of the outages still open. */
  type Past = string -> Hearing

  /**
   * Where a monitor starts: inside an outage found open, or with nothing to hear of - also when an
   * outage was told whose incident has been closed under a mute since (`Restarts.ClosedUnderMute`).
   */
  function Start(past: Past, inherited: set<string>, id: string): Hearing {
    if id in inherited then past(id) else UNHEARD
  }

  function HearingStep(before: Hearing, carried: Hearing, t: Telling, id: string): Hearing {
    match t
    case DownTold(other, local, routes) =>
      if other != id then before else if local then before.(quiet := Some(routes)) else before.(usual := Some(routes))
    case UpTold(other, _) => if other == id then UNHEARD else before
    case CarriedOver(other) => if other == id then carried else before
  }

  /** How the monitor's current outage was told. */
  function HearingOf(start: Hearing, carried: Hearing, tellings: seq<Telling>, id: string): Hearing {
    if tellings == [] then start
    else HearingStep(HearingOf(start, carried, tellings[..|tellings| - 1], id), carried, tellings[|tellings| - 1], id)
  }

  predicate ToldStep(before: bool, carried: Hearing, t: Telling, id: string, channel: string) {
    match t
    case DownTold(other, _, routes) => (other == id && Hears(routes, channel)) || before
    case UpTold(other, _) => other != id && before
    case CarriedOver(other) => if other == id then HeardBy(carried, channel) else before
  }

  /** Since the monitor's last recovery, the channel was told of a down of its. */
  predicate ToldDown(start: Hearing, carried: Hearing, tellings: seq<Telling>, id: string, channel: string) {
    if tellings == [] then HeardBy(start, channel)
    else
      ToldStep(ToldDown(start, carried, tellings[..|tellings| - 1], id, channel), carried, tellings[|tellings| - 1],
               id, channel)
  }

  lemma TellingAppend(start: Hearing, carried: Hearing, tellings: seq<Telling>, t: Telling, id: string)
    ensures HearingOf(start, carried, tellings + [t], id)
         == HearingStep(HearingOf(start, carried, tellings, id), carried, t, id)
    ensures forall c :: ToldDown(start, carried, tellings + [t], id, c)
                   <==> ToldStep(ToldDown(start, carried, tellings, id, c), carried, t, id, c)
  {
    assert (tellings + [t])[..|tellings|] == tellings;
  }

  // ---------------------------------------------------------------- the log and the tellings agree

  /**
   * The coalescer counts as heard all that was told - exactly that, if asked - and no down of
   * an outage is told twice the same way.
   */
  ghost predicate Accords(exactly: bool, start: Hearing, carried: Hearing, tellings: seq<Telling>, inherited: bool,
                          log: seq<Entry>, id: string) {
    var h := HearingOf(start, carried, tellings, id);
    && (h.usual.Some? ==> UsualHeard(inherited, log, id))
    && (h.quiet.Some? ==> QuietHeard(log, id))
    && (exactly && UsualHeard(inherited, log, id) ==> h.usual.Some?)
    && (exactly && QuietHeard(log, id) ==> h.quiet.Some?)
    && (forall c :: ToldDown(start, carried, tellings, id, c) <==> HeardBy(h, c))
  }

  /** What was told of an outage carried over is what its entry says, or less unless that is asked. */
  ghost predicate CarriedRight(exactly: bool, carried: Hearing, entry: Entry, id: string) {
    entry.Resumed? && entry.id == id ==>
      && (carried.usual.Some? ==> entry.confirmed)
      && (exactly ==> carried.quiet.Some? && (entry.confirmed ==> carried.usual.Some?))
  }

  lemma EntryAccords(exactly: bool, start: Hearing, carried: Hearing, tellings: seq<Telling>, inherited: bool,
                     log: seq<Entry>, e: Event, entry: Entry, id: string)
    requires Accords(exactly, start, carried, tellings, inherited, log, id)
    requires IsFirst(inherited, log, entry, id) && CarriedRight(exactly, carried, entry, id)
    ensures Accords(exactly, start, carried, tellings + Tells(e, entry), inherited, log + [entry], id)
  {
    hide UsualHeard, QuietHeard, HearingOf, ToldDown, Hears, RecoveredRoutes;
    HeardAppend(inherited, log, entry, id);
    var more := Tells(e, entry);
    if more == [] {
      assert tellings + more == tellings;
    } else {
      assert more == [more[0]];
      TellingAppend(start, carried, tellings, more[0], id);
    }
  }

  lemma {:induction false} EntriesAccord(exactly: bool, start: Hearing, carried: Hearing, tellings: seq<Telling>,
                                         inherited: bool, log: seq<Entry>, e: Event, entries: seq<Entry>, id: string)
    requires Accords(exactly, start, carried, tellings, inherited, log, id)
    requires Firsts(inherited, log, entries, id)
    requires forall k :: 0 <= k < |entries| ==> CarriedRight(exactly, carried, entries[k], id)
    ensures Accords(exactly, start, carried, tellings + TellsAll(e, entries), inherited, log + entries, id)
  {
    hide Accords, IsFirst, CarriedRight;
    if entries == [] {
      assert tellings + TellsAll(e, entries) == tellings && log + entries == log;
    } else {
      var n := |entries| - 1;
      var front := entries[..n];
      forall k | 0 <= k < n ensures IsFirst(inherited, log + front[..k], front[k], id) {
        assert front[..k] == entries[..k];
        assert IsFirst(inherited, log + entries[..k], entries[k], id);
      }
      EntriesAccord(exactly, start, carried, tellings, inherited, log, e, front, id);
      assert IsFirst(inherited, log + entries[..n], entries[n], id);
      EntryAccords(exactly, start, carried, tellings + TellsAll(e, front), inherited, log + front, e, entries[n], id);
      assert (tellings + TellsAll(e, front)) + Tells(e, entries[n]) == tellings + TellsAll(e, entries);
      assert (log + front) + [entries[n]] == log + entries;
    }
  }

  /**
   * The database knows of everything that was told of the outages found open at startup, as
   * the program sees to by writing first: no local-only down of one it takes for a real
   * outage, and no real down of one it takes for a local-only outage never confirmed. What
   * it knows of may never have been told.
   */
  ghost predicate Knows(past: Past, inherited: set<string>, events: seq<Event>) {
    && (forall id :: id in inherited ==> past(id).quiet.None?)
    && (forall k :: 0 <= k < |events| && events[k].input.Resume? ==> KnowsOf(past, events[k]))
  }

  ghost predicate KnowsOf(past: Past, e: Event)
    requires e.input.Resume?
  {
    past(e.input.id).usual.Some? ==> e.input.confirmed
  }

  /** And everything it knows of was told. */
  ghost predicate Remembers(past: Past, inherited: set<string>, events: seq<Event>) {
    && Knows(past, inherited, events)
    && (forall id :: id in inherited ==> past(id).usual.Some?)
    && (forall k :: 0 <= k < |events| && events[k].input.Resume? ==> RestoredRight(past, events[k]))
  }

  ghost predicate RestoredRight(past: Past, e: Event)
    requires e.input.Resume?
  {
    past(e.input.id).quiet.Some? && (past(e.input.id).usual.Some? <==> e.input.confirmed)
  }

  lemma {:induction false} TellingsAccord(exactly: bool, past: Past, inherited: set<string>, events: seq<Event>,
                                          id: string)
    requires Spoken(inherited, events) && Knows(past, inherited, events)
    requires exactly ==> Remembers(past, inherited, events)
    ensures Accords(exactly, Start(past, inherited, id), past(id), Told(events), id in inherited,
                    Play(events).entries, id)
  {
    hide Accords, Apply, Routed, OneEach, PhaseOf, Firsts;
    if events == [] {
      StartAccords(exactly, past, inherited, id);
    } else {
      var n := |events| - 1;
      var front := events[..n];
      SpokenPrefix(inherited, events);
      TellingsAccord(exactly, past, inherited, front, id);
      PlayIsRouted(inherited, front);
      RoutedLast(inherited, events, id);
      var entries := Apply(Play(front).state, events[n]).entries;
      forall k | 0 <= k < |entries| ensures CarriedRight(exactly, past(id), entries[k], id) {
        if entries[k].Resumed? {
          ResumedAsGiven(Play(front).state, events[n], k);
          assert KnowsOf(past, events[n]);
          assert exactly ==> RestoredRight(past, events[n]);
        }
      }
      EntriesAccord(exactly, Start(past, inherited, id), past(id), Told(front), id in inherited, Play(front).entries,
                    events[n], entries, id);
    }
  }

  lemma StartAccords(exactly: bool, past: Past, inherited: set<string>, id: string)
    requires id in inherited ==> past(id).quiet.None? && (exactly ==> past(id).usual.Some?)
    ensures Accords(exactly, Start(past, inherited, id), past(id), [], id in inherited, [], id)
  {
  }

  /** Only a resume logs one. */
  lemma ResumedAsGiven(s: State, e: Event, k: nat)
    requires k < |Apply(s, e).entries| && Apply(s, e).entries[k].Resumed?
    ensures e.input == Resume(Apply(s, e).entries[k].id, Apply(s, e).entries[k].confirmed)
  {
    hide Settle, DrainAll;
    SettleResumesNothing(Prune(s, e.now), e.now);
    DrainResumesNothing(Prune(s, e.now).(pending := []), s.pending, e.now);
  }

  lemma {:induction false} SettleResumesNothing(s: State, now: int)
    ensures forall entry :: entry in Settle(s, now).entries ==> !entry.Resumed?
    decreases Work(s.pending)
  {
    hide Work, CoveredUpstream, SwapRemove;
    var next := NextExpired(s.pending, now);
    if next.Some? {
      SettlingProgresses(s, next.value, now);
      SettleResumesNothing(SettleOne(TakeOff(s, next.value), s.pending[next.value], now).state, now);
    }
  }

  lemma {:induction false} DrainResumesNothing(s: State, queue: seq<Pending>, now: int)
    ensures forall entry :: entry in DrainAll(s, queue, now).entries ==> !entry.Resumed?
    decreases |queue|
  {
    if queue != [] {
      DrainResumesNothing(DrainOne(s, queue[0].alert, now).state, queue[1..], now);
    }
  }

  // ---------------------------------------------------------------- who hears a recovery

  /** The same parts of an outage, on the routes of another moment. */
  function Rerouted(h: Hearing, notify: Option<seq<string>>, quiet: Option<seq<string>>): Hearing {
    Hearing(if h.usual.Some? then Some(RoutesOf(notify)) else None,
            if h.quiet.Some? then Some(QuietRoutes(quiet)) else None)
  }

  ghost predicate SameReach(a: Hearing, b: Hearing) {
    forall c :: HeardBy(a, c) <==> HeardBy(b, c)
  }

  /** The routes in force now reach the channels that those of the downs reached, and no other. */
  ghost predicate StillReach(h: Hearing, notify: Option<seq<string>>, quiet: Option<seq<string>>) {
    SameReach(h, Rerouted(h, notify, quiet))
  }

  /** A recovery named for the parts of an outage that were told reaches their present routes. */
  lemma RecoveryReaches(h: Hearing, notify: Option<seq<string>>, quiet: Option<seq<string>>, channel: string)
    ensures Hears(RecoveredRoutes(RecipientsOf(h.usual.Some?, h.quiet.Some?), notify, quiet), channel)
       <==> HeardBy(Rerouted(h, notify, quiet), channel)
  {
    if notify.Some? {
      MergeMembers(notify.value, if quiet.Some? then quiet.value else []);
    }
  }

  /** The routes a recovery goes out on. */
  function RecoveryRoutes(events: seq<Event>, i: nat): Routes
    requires i < |events| && events[i].input.Recovery?
  {
    RecoveredRoutes(OnRecovered(Play(events[..i]).state, events[i].input.id, events[i].now).entries[0].recipients,
                    events[i].input.notify, events[i].quiet)
  }

  /** Which is what the recovery has the channels told, and all of it. */
  lemma RecoveryIsTold(events: seq<Event>, i: nat)
    requires i < |events| && events[i].input.Recovery?
    ensures Told(events[..i + 1]) == Told(events[..i]) + [UpTold(events[i].input.id, RecoveryRoutes(events, i))]
  {
    var entries := OnRecovered(Play(events[..i]).state, events[i].input.id, events[i].now).entries;
    assert events[..i + 1][..i] == events[..i];
    assert entries == [entries[0]] && entries[..0] == [];
    assert TellsAll(events[i], entries) == [] + Tells(events[i], entries[0]);
  }

  /** How the outage that the `i`-th event ends was told. */
  function Before(past: Past, inherited: set<string>, events: seq<Event>, i: nat, id: string): Hearing
    requires i <= |events|
  {
    HearingOf(Start(past, inherited, id), past(id), Told(events[..i]), id)
  }

  ghost predicate WasTold(past: Past, inherited: set<string>, events: seq<Event>, i: nat, id: string, channel: string)
    requires i <= |events|
  {
    ToldDown(Start(past, inherited, id), past(id), Told(events[..i]), id, channel)
  }

  lemma {:induction false} SpokenUpto(inherited: set<string>, events: seq<Event>, i: nat)
    requires Spoken(inherited, events) && i <= |events|
    ensures Spoken(inherited, events[..i])
    decreases |events|
  {
    hide PhaseOf;
    if i < |events| {
      var front := events[..|events| - 1];
      SpokenPrefix(inherited, events);
      SpokenUpto(inherited, front, i);
      assert front[..i] == events[..i];
    } else {
      assert events[..i] == events;
    }
  }

  /** The parts of an outage that the coalescer counts as heard, on the routes of the event that ends it. */
  function Named(inherited: set<string>, events: seq<Event>, i: nat): Hearing
    requires i < |events| && events[i].input.Recovery?
  {
    var id, log := events[i].input.id, Play(events[..i]).entries;
    Hearing(if UsualHeard(id in inherited, log, id) then Some(RoutesOf(events[i].input.notify)) else None,
            if QuietHeard(log, id) then Some(QuietRoutes(events[i].quiet)) else None)
  }

  /** A recovery goes, on its own routes, to the parts of the outage that count as heard. */
  lemma RecoveryRoutesReach(past: Past, inherited: set<string>, events: seq<Event>, i: nat, channel: string)
    requires Spoken(inherited, events) && Knows(past, inherited, events)
    requires i < |events| && events[i].input.Recovery?
    ensures var id := events[i].input.id;
      && (Hears(RecoveryRoutes(events, i), channel) <==> HeardBy(Named(inherited, events, i), channel))
      && (WasTold(past, inherited, events, i, id, channel) <==>
            HeardBy(Before(past, inherited, events, i, id), channel))
  {
    hide RecoveredRoutes, Spoken, HeardBy, HearingOf, ToldDown, Told, Play, UsualHeard, QuietHeard, OnRecovered;
    var id, named := events[i].input.id, Named(inherited, events, i);
    SpokenUpto(inherited, events, i);
    TellingsAccord(false, past, inherited, events[..i], id);
    RecoveryGoesToWhoeverHeard(inherited, events, i, id);
    RecoveryReaches(named, events[i].input.notify, events[i].quiet, channel);
    assert Rerouted(named, events[i].input.notify, events[i].quiet) == named;
  }

  /**
   * Who hears a recovery, exactly: over any spoken run, restarts included, the channels told
   * of it are those told of a down it ends if and only if the routes in force at the recovery,
   * of the parts that count as heard, reach the channels that those parts were told on.
   */
  lemma RecoveryHeardIff(past: Past, inherited: set<string>, events: seq<Event>, i: nat)
    requires Spoken(inherited, events) && Knows(past, inherited, events)
    requires i < |events| && events[i].input.Recovery?
    ensures var id := events[i].input.id;
      (forall c :: Hears(RecoveryRoutes(events, i), c) <==> WasTold(past, inherited, events, i, id, c))
      <==> SameReach(Before(past, inherited, events, i, id), Named(inherited, events, i))
  {
    hide RecoveryRoutes, WasTold, Before, Named, HeardBy, Spoken, Knows;
    forall c ensures
      && (Hears(RecoveryRoutes(events, i), c) <==> HeardBy(Named(inherited, events, i), c))
      && (WasTold(past, inherited, events, i, events[i].input.id, c) <==>
            HeardBy(Before(past, inherited, events, i, events[i].input.id), c))
    {
      RecoveryRoutesReach(past, inherited, events, i, c);
    }
  }

  /** When all that the database knows of was told, what counts as heard is what was told. */
  lemma NamedAsTold(past: Past, inherited: set<string>, events: seq<Event>, i: nat)
    requires Spoken(inherited, events) && Remembers(past, inherited, events)
    requires i < |events| && events[i].input.Recovery?
    ensures Named(inherited, events, i)
         == Rerouted(Before(past, inherited, events, i, events[i].input.id), events[i].input.notify, events[i].quiet)
  {
    hide Spoken, HeardBy, HearingOf, ToldDown, Told, Play, UsualHeard, QuietHeard;
    SpokenUpto(inherited, events, i);
    TellingsAccord(true, past, inherited, events[..i], events[i].input.id);
  }

  /**
   * Then the condition is one on the routes alone: those in force at the recovery still reach
   * the channels that those of the downs reached.
   */
  lemma RecoveryHeardIffRoutesStillReach(past: Past, inherited: set<string>, events: seq<Event>, i: nat)
    requires Spoken(inherited, events) && Remembers(past, inherited, events)
    requires i < |events| && events[i].input.Recovery?
    ensures var id := events[i].input.id;
      (forall c :: Hears(RecoveryRoutes(events, i), c) <==> WasTold(past, inherited, events, i, id, c))
      <==> StillReach(Before(past, inherited, events, i, id), events[i].input.notify, events[i].quiet)
  {
    hide RecoveryRoutes, WasTold, Before, Named, HeardBy, Rerouted, Spoken, Knows;
    RecoveryHeardIff(past, inherited, events, i);
    NamedAsTold(past, inherited, events, i);
  }

  /**
   * In particular, while the routes are left alone, a channel is told of a recovery exactly when it
   * was told of a down that it ends.
   */
  lemma UnchangedRoutesAgree(past: Past, inherited: set<string>, events: seq<Event>, i: nat, channel: string)
    requires Spoken(inherited, events) && Remembers(past, inherited, events)
    requires i < |events| && events[i].input.Recovery?
    requires var h := Before(past, inherited, events, i, events[i].input.id);
             h == Rerouted(h, events[i].input.notify, events[i].quiet)
    ensures Hears(RecoveryRoutes(events, i), channel)
      <==> WasTold(past, inherited, events, i, events[i].input.id, channel)
  {
    hide RecoveryRoutes, WasTold, Before, Named, HeardBy, Rerouted, Spoken, Knows;
    RecoveryRoutesReach(past, inherited, events, i, channel);
    NamedAsTold(past, inherited, events, i);
  }

  // ---------------------------------------------------------------- where a down is told

  /** The down was handed over by this event, and is told where the event asks for it. */
  ghost predicate ToldAsAsked(e: Event, t: Telling)
    requires t.DownTold?
  {
    && e.input.Down? && e.input.alert.id == t.id && e.input.alert.localOnly == t.local
    && forall c :: Hears(t.routes, c) <==>
         if t.local then e.quiet.Some? && c in e.quiet.value
         else e.input.alert.notify.None? || c in e.input.alert.notify.value
  }

  ghost predicate AskedFor(events: seq<Event>, t: Telling)
    requires t.DownTold?
  {
    exists k :: 0 <= k < |events| && ToldAsAsked(events[k], t)
  }

  lemma AskedBefore(events: seq<Event>, t: Telling)
    requires t.DownTold? && events != [] && AskedFor(events[..|events| - 1], t)
    ensures AskedFor(events, t)
  {
    var k :| 0 <= k < |events| - 1 && ToldAsAsked(events[..|events| - 1][k], t);
    assert ToldAsAsked(events[k], t);
  }

  /** Only the event that hands a local-only down over announces it. */
  lemma LocalOnlyAsGiven(s: State, e: Event, k: nat)
    requires k < |Apply(s, e).entries| && Apply(s, e).entries[k].LocalOnly?
    ensures e.input.Down? && e.input.alert == Apply(s, e).entries[k].alert
  {
    hide Settle, DrainAll;
    SettleAnnouncesNothing(Prune(s, e.now), e.now);
    DrainAnnouncesNothing(Prune(s, e.now).(pending := []), s.pending, e.now);
  }

  lemma {:induction false} SettleAnnouncesNothing(s: State, now: int)
    ensures forall entry :: entry in Settle(s, now).entries ==> !entry.LocalOnly?
    decreases Work(s.pending)
  {
    hide Work, CoveredUpstream, SwapRemove;
    var next := NextExpired(s.pending, now);
    if next.Some? {
      SettlingProgresses(s, next.value, now);
      SettleAnnouncesNothing(SettleOne(TakeOff(s, next.value), s.pending[next.value], now).state, now);
    }
  }

  lemma {:induction false} DrainAnnouncesNothing(s: State, queue: seq<Pending>, now: int)
    ensures forall entry :: entry in DrainAll(s, queue, now).entries ==> !entry.LocalOnly?
    decreases |queue|
  {
    if queue != [] {
      DrainAnnouncesNothing(DrainOne(s, queue[0].alert, now).state, queue[1..], now);
    }
  }

  lemma EntryTellsAsAsked(events: seq<Event>, k: nat, t: Telling)
    requires events != []
    requires var step := Apply(Play(events[..|events| - 1]).state, events[|events| - 1]).entries;
      k < |step| && Originates(events, step[k]) && t in Tells(events[|events| - 1], step[k]) && t.DownTold?
    ensures AskedFor(events, t)
  {
    hide Apply, Play;
    var n := |events| - 1;
    var s := Play(events[..n]).state;
    var entry := Apply(s, events[n]).entries[k];
    if entry.LocalOnly? {
      LocalOnlyAsGiven(s, events[n], k);
      assert ToldAsAsked(events[n], t);
    } else {
      var j :| 0 <= j < |events| && events[j].input.Down? && events[j].input.alert == entry.alert;
      assert ToldAsAsked(events[j], t);
    }
  }

  lemma {:induction false} TellsOne(e: Event, entries: seq<Entry>, t: Telling) returns (k: nat)
    requires t in TellsAll(e, entries)
    ensures k < |entries| && t in Tells(e, entries[k])
  {
    var n := |entries| - 1;
    if t in Tells(e, entries[n]) {
      k := n;
    } else {
      k := TellsOne(e, entries[..n], t);
    }
  }

  /**
   * Over any run, a down is told where it was asked to be: a local-only one to the quiet channels
   * configured when it came, if any, a real one to its own routes, however long it waited.
   */
  lemma {:induction false} DownsGoWhereAsked(events: seq<Event>)
    ensures forall t :: t in Told(events) && t.DownTold? ==> AskedFor(events, t)
  {
    hide Apply, AskedFor, Tells;
    if events != [] {
      var n := |events| - 1;
      var front := events[..n];
      var before, step := Play(front), Apply(Play(front).state, events[n]).entries;
      DownsGoWhereAsked(front);
      NothingIsInvented(events);
      forall t | t in Told(events) && t.DownTold? ensures AskedFor(events, t) {
        if t in Told(front) {
          AskedBefore(events, t);
        } else {
          var k := TellsOne(events[n], step, t);
          assert step[k] in before.entries + step && Play(events).entries == before.entries + step;
          EntryTellsAsAsked(events, k, t);
        }
      }
    }
  }

  /** And a local-only one is told to them then and there. */
  lemma LocalDownIsTold(events: seq<Event>) returns (t: Telling)
    requires events != [] && events[|events| - 1].input.Down? && events[|events| - 1].input.alert.localOnly
    ensures var n := |events| - 1;
      Told(events) == Told(events[..n]) + [t] && t.DownTold? && t.local && ToldAsAsked(events[n], t)
  {
    hide Hears;
    var n := |events| - 1;
    var entry := LocalOnly(events[n].input.alert, events[n].now);
    t := DownTold(entry.alert.id, true, QuietRoutes(events[n].quiet));
    assert Apply(Play(events[..n]).state, events[n]).entries == [entry] && [entry][..0] == [];
    assert TellsAll(events[n], [entry]) == [] + Tells(events[n], entry) == [t];
    QuietAsAsked(events[n], t);
  }

  lemma QuietAsAsked(e: Event, t: Telling)
    requires e.input.Down? && t == DownTold(e.input.alert.id, true, QuietRoutes(e.quiet)) && e.input.alert.localOnly
    ensures ToldAsAsked(e, t)
  {
  }

  /** One outage of a root monitor: its down goes out on the routes it came with, its recovery on its own. */
  lemma RootOutage(past: Past, alert: DownAlert, notify: Option<seq<string>>, channel: string)
    returns (events: seq<Event>)
    requires alert.upstreams == [] && !alert.localOnly
    ensures events == [Event(Down(alert, 0), 0, None), Event(Input.Recovery(alert.id, notify), 1, None)]
    ensures Spoken({}, events) && Remembers(past, {}, events)
    ensures WasTold(past, {}, events, 1, alert.id, channel) <==> Hears(RoutesOf(alert.notify), channel)
    ensures Hears(RecoveryRoutes(events, 1), channel) <==> Hears(RoutesOf(notify), channel)
  {
    hide Hears, Spoken, Play, Told, ToldDown, OnRecovered, RecoveredRoutes;
    var down, up := Event(Down(alert, 0), 0, None), Event(Input.Recovery(alert.id, notify), 1, None);
    events := [down, up];
    SpokenPair(down, up);
    assert events[..1] == [down];
    SentAtOnce(down);
    FirstTold(past, DownTold(alert.id, false, RoutesOf(alert.notify)), channel);
    EndsUsually(alert.id);
    UsualRoutes(notify);
  }

  lemma EndsUsually(id: string)
    ensures OnRecovered(State([], map[id := 0], {}, map[]), id, 1).entries[0].recipients == Usual
  {
  }

  lemma UsualRoutes(notify: Option<seq<string>>)
    ensures RecoveredRoutes(Usual, notify, None) == RoutesOf(notify)
  {
  }

  lemma SentAtOnce(down: Event)
    requires down.input.Down? && down.input.alert.upstreams == [] && !down.input.alert.localOnly
    ensures Play([down]).state == State([], map[down.input.alert.id := down.now], {}, map[])
    ensures Told([down]) == [DownTold(down.input.alert.id, false, RoutesOf(down.input.alert.notify))]
  {
    var entry := Released(down.input.alert, down.now, false);
    assert [down][..0] == [] && [entry][..0] == [];
    assert Play([]) == Outcome(EMPTY, []);
    assert Apply(EMPTY, down).entries == [entry];
    assert TellsAll(down, [entry]) == [] + Tells(down, entry);
  }

  lemma FirstTold(past: Past, t: Telling, channel: string)
    requires t.DownTold?
    ensures ToldDown(Start(past, {}, t.id), past(t.id), [t], t.id, channel) <==> Hears(t.routes, channel)
  {
    assert [t][..0] == [];
  }

  /**
   * Without it: a monitor whose `notify` is edited while it is down tells the new channel of a
   * recovery, and not the old one.
   */
  lemma RouteEditMisleads(past: Past) returns (events: seq<Event>)
    ensures |events| == 2 && events[1].input.Recovery? && events[1].input.id == "m"
    ensures Spoken({}, events) && Remembers(past, {}, events)
    ensures WasTold(past, {}, events, 1, "m", "a") && !Hears(RecoveryRoutes(events, 1), "a")
    ensures !WasTold(past, {}, events, 1, "m", "b") && Hears(RecoveryRoutes(events, 1), "b")
  {
    hide WasTold, RecoveryRoutes, Spoken, Remembers;
    var alert := DownAlert("m", [], false, Some(["a"]), "");
    events := RootOutage(past, alert, Some(["b"]), "a");
    var _ := RootOutage(past, alert, Some(["b"]), "b");
  }

  lemma SpokenPair(down: Event, up: Event)
    requires down.input.Down? && !down.input.alert.localOnly
    requires up.input.Recovery? && up.input.id == down.input.alert.id
    ensures Spoken({}, [down, up])
  {
    var events := [down, up];
    assert events[..1] == [down] && events[..0] == [];
    forall id ensures PhaseOf({}, events, id).Some? {
      PhaseStep({}, events, id);
      PhaseStep({}, [down], id);
      assert [down][..0] == [];
    }
  }

  // ---------------------------------------------------------------- an outage the previous process folded

  /** An entry about this monitor. */
  predicate About(e: Entry, id: string) {
    match e
    case Recovered(other, _, _, _) => other == id
    case Resumed(other, _, _) => other == id
    case Retained(_, _) => false
    case _ => e.alert.id == id
  }

  /** While nothing is said of a monitor, nothing is logged about it. */
  lemma SilenceLogsNothing(events: seq<Event>, id: string)
    requires Projection(events, id) == []
    ensures forall e :: e in Play(events).entries ==> !About(e, id)
  {
    hide Play, Projection;
    NothingIsInvented(events);
    SilentEvents(events, id);
    forall e | e in Play(events).entries ensures !About(e, id) {
      assert Originates(events, e);
    }
  }

  lemma {:induction false} SilentEvents(events: seq<Event>, id: string)
    requires Projection(events, id) == []
    ensures forall k :: 0 <= k < |events| ==> SignalOf(events[k].input, id) == []
  {
    hide SignalOf;
    if events != [] {
      var front, signal := events[..|events| - 1], SignalOf(events[|events| - 1].input, id);
      assert |Projection(front, id) + signal| == 0;
      SilentEvents(front, id);
    }
  }

  lemma {:induction false} NothingHeard(inherited: bool, log: seq<Entry>, id: string)
    requires forall e :: e in log ==> !About(e, id)
    ensures UsualHeard(inherited, log, id) == inherited && !QuietHeard(log, id)
  {
    if log != [] {
      var front := log[..|log| - 1];
      assert log == front + [log[|log| - 1]];
      NothingHeard(inherited, front, id);
      assert !About(log[|log| - 1], id);
    }
  }

  lemma {:induction false} TellsOthers(e: Event, entries: seq<Entry>, id: string)
    requires forall entry :: entry in entries ==> !About(entry, id)
    ensures forall t :: t in TellsAll(e, entries) ==> t.id != id
  {
    if entries != [] {
      var front := entries[..|entries| - 1];
      assert entries == front + [entries[|entries| - 1]];
      TellsOthers(e, front, id);
      assert !About(entries[|entries| - 1], id);
    }
  }

  lemma {:induction false} SilenceTellsNothing(events: seq<Event>, id: string)
    requires Projection(events, id) == []
    ensures forall t :: t in Told(events) ==> t.id != id
  {
    hide Apply;
    if events != [] {
      var front := events[..|events| - 1];
      SilenceTellsNothing(front, id);
      SilenceLogsNothing(events, id);
      TellsOthers(events[|events| - 1], Apply(Play(front).state, events[|events| - 1]).entries, id);
    }
  }

  lemma {:induction false} NothingToldOf(start: Hearing, carried: Hearing, tellings: seq<Telling>, id: string,
                                         channel: string)
    requires forall t :: t in tellings ==> t.id != id
    ensures ToldDown(start, carried, tellings, id, channel) <==> HeardBy(start, channel)
  {
    if tellings != [] {
      var front := tellings[..|tellings| - 1];
      assert tellings == front + [tellings[|tellings| - 1]];
      NothingToldOf(start, carried, front, id, channel);
    }
  }

  /** Nothing told about a monitor leaves its hearing where it started. */
  lemma {:induction false} HearingUntouched(start: Hearing, carried: Hearing, tellings: seq<Telling>, id: string)
    requires forall t :: t in tellings ==> t.id != id
    ensures HearingOf(start, carried, tellings, id) == start
  {
    if tellings != [] {
      var front := tellings[..|tellings| - 1];
      assert tellings == front + [tellings[|tellings| - 1]];
      HearingUntouched(start, carried, front, id);
    }
  }

  /**
   * An outage found open is taken for announced, whether it was or not: the recovery that
   * ends it is told to the monitor's channels, whatever was told of it before.
   */
  lemma InheritedOutageRecoversAloud(past: Past, inherited: set<string>, events: seq<Event>, i: nat, channel: string)
    requires Spoken(inherited, events) && i < |events| && events[i].input.Recovery?
    requires events[i].input.id in inherited && Projection(events[..i], events[i].input.id) == []
    ensures Hears(RecoveryRoutes(events, i), channel) <==> Hears(RoutesOf(events[i].input.notify), channel)
    ensures WasTold(past, inherited, events, i, events[i].input.id, channel)
       <==> HeardBy(past(events[i].input.id), channel)
  {
    hide Play, Told, Spoken, Projection, UsualHeard, QuietHeard, OnRecovered;
    var id := events[i].input.id;
    RecoveryGoesToWhoeverHeard(inherited, events, i, id);
    SilenceLogsNothing(events[..i], id);
    NothingHeard(true, Play(events[..i]).entries, id);
    SilenceTellsNothing(events[..i], id);
    NothingToldOf(Start(past, inherited, id), past(id), Told(events[..i]), id, channel);
  }

  /** So its end is told to those told of it if and only if they are who the monitor notifies now. */
  lemma InheritedOutageHeardIff(past: Past, inherited: set<string>, events: seq<Event>, i: nat)
    requires Spoken(inherited, events) && i < |events| && events[i].input.Recovery?
    requires events[i].input.id in inherited && Projection(events[..i], events[i].input.id) == []
    ensures var id := events[i].input.id;
      (forall c :: Hears(RecoveryRoutes(events, i), c) <==> WasTold(past, inherited, events, i, id, c))
      <==> forall c :: Hears(RoutesOf(events[i].input.notify), c) <==> HeardBy(past(id), c)
  {
    hide RecoveryRoutes, WasTold, Spoken, Projection, HeardBy, Hears;
    forall c ensures
      && (Hears(RecoveryRoutes(events, i), c) <==> Hears(RoutesOf(events[i].input.notify), c))
      && (WasTold(past, inherited, events, i, events[i].input.id, c) <==> HeardBy(past(events[i].input.id), c))
    {
      InheritedOutageRecoversAloud(past, inherited, events, i, c);
    }
  }

  /** A run of one monitor that only ends what was open, or resumes it first. */
  lemma SpokenEnd(inherited: set<string>, events: seq<Event>, id: string)
    requires events != [] && events[|events| - 1].input.Recovery? && events[|events| - 1].input.id == id
    requires |events| == 1 ==> inherited == {id}
    requires |events| > 1 ==> |events| == 2 && inherited == {} && events[0].input.Resume? && events[0].input.id == id
    ensures Spoken(inherited, events)
  {
    hide PhaseOf;
    var n := |events| - 1;
    assert events[..0] == [] && (n == 1 ==> events[..1] == [events[0]] && events[..1][..0] == []);
    forall other ensures PhaseOf(inherited, events, other).Some? {
      SilentPhase(inherited, other);
      if n == 1 {
        PhaseStep(inherited, events[..1], other);
      }
      PhaseStep(inherited, events, other);
    }
  }

  lemma SilentPhase(inherited: set<string>, id: string)
    ensures PhaseOf(inherited, [], id) == Some(StartPhase(inherited, id))
  {
  }

  /** One input: the process before folded a down, or stopped before sending it; its end is news to "a". */
  lemma FoldedBeforeRestart(past: Past) returns (events: seq<Event>)
    requires past("m") == UNHEARD
    ensures |events| == 1 && events[0].input.Recovery? && events[0].input.id == "m"
    ensures Spoken({"m"}, events) && Knows(past, {"m"}, events[..0])
    ensures Hears(RecoveryRoutes(events, 0), "a") && !WasTold(past, {"m"}, events, 0, "m", "a")
  {
    hide RecoveryRoutes, WasTold, Spoken;
    events := [Event(Input.Recovery("m", Some(["a"])), 0, None)];
    SpokenEnd({"m"}, events, "m");
    assert events[..0] == [];
    InheritedOutageRecoversAloud(past, {"m"}, events, 0, "a");
    assert Hears(RoutesOf(Some(["a"])), "a");
  }

  // ---------------------------------------------------------------- an outage resumed as local-only

  /** What happens to a monitor after its outage was resumed, and before anything else is said of it. */
  ghost predicate ResumedOnly(past: Past, events: seq<Event>, id: string, confirmed: bool) {
    && UsualHeard(false, Play(events).entries, id) == confirmed
    && QuietHeard(Play(events).entries, id)
    && HearingOf(UNHEARD, past(id), Told(events), id) == past(id)
  }

  lemma {:induction false} OthersLeaveHeard(inherited: bool, log: seq<Entry>, entries: seq<Entry>, id: string)
    requires forall e :: e in entries ==> !About(e, id)
    ensures UsualHeard(inherited, log + entries, id) == UsualHeard(inherited, log, id)
    ensures QuietHeard(log + entries, id) == QuietHeard(log, id)
    decreases |entries|
  {
    hide UsualHeard, QuietHeard;
    if entries == [] {
      assert log + entries == log;
    } else {
      var front, last := entries[..|entries| - 1], entries[|entries| - 1];
      assert entries == front + [last] && !About(last, id);
      OthersLeaveHeard(inherited, log, front, id);
      HeardAppend(inherited, log + front, last, id);
      assert (log + front) + [last] == log + entries;
    }
  }

  lemma {:induction false} OthersLeaveHearing(start: Hearing, carried: Hearing, tellings: seq<Telling>,
                                              more: seq<Telling>, id: string)
    requires forall t :: t in more ==> t.id != id
    ensures HearingOf(start, carried, tellings + more, id) == HearingOf(start, carried, tellings, id)
    decreases |more|
  {
    hide HearingOf;
    if more == [] {
      assert tellings + more == tellings;
    } else {
      var front, last := more[..|more| - 1], more[|more| - 1];
      assert more == front + [last];
      OthersLeaveHearing(start, carried, tellings, front, id);
      TellingAppend(start, carried, tellings + front, last, id);
      assert (tellings + front) + [last] == tellings + more;
    }
  }

  /** After a resume and nothing else, every signal about the monitor is that resume. */
  lemma {:induction false} OnlyTheResume(events: seq<Event>, id: string, confirmed: bool)
    requires Projection(events, id) == [ResumedQuiet(confirmed)]
    ensures forall k :: 0 <= k < |events| ==>
      SignalOf(events[k].input, id) == [] || SignalOf(events[k].input, id) == [ResumedQuiet(confirmed)]
  {
    hide SignalOf;
    var front, signal := events[..|events| - 1], SignalOf(events[|events| - 1].input, id);
    assert |Projection(front, id)| + |signal| == 1;
    assert Projection(events, id)[|Projection(front, id)|..] == signal;
    if signal == [] {
      assert Projection(front, id) == Projection(events, id);
      OnlyTheResume(front, id, confirmed);
    } else {
      SilentEvents(front, id);
    }
  }

  /** An event that says nothing of a monitor which was only resumed logs nothing about it. */
  lemma QuietEventLogsNothing(events: seq<Event>, id: string, confirmed: bool)
    requires events != [] && Projection(events, id) == [ResumedQuiet(confirmed)]
    requires SignalOf(events[|events| - 1].input, id) == []
    ensures forall e :: e in Apply(Play(events[..|events| - 1]).state, events[|events| - 1]).entries ==> !About(e, id)
  {
    hide Apply, Projection;
    var last, before := events[|events| - 1], Play(events[..|events| - 1]);
    OnlyTheResume(events, id, confirmed);
    NothingIsInvented(events);
    var entries := Apply(before.state, last).entries;
    forall k | 0 <= k < |entries| ensures !About(entries[k], id) {
      assert entries[k] in before.entries + entries && Play(events).entries == before.entries + entries;
      assert Originates(events, entries[k]);
      if entries[k].Resumed? {
        ResumedAsGiven(before.state, last, k);
      }
    }
  }

  lemma {:induction false} ResumeStays(past: Past, events: seq<Event>, id: string, confirmed: bool)
    requires Projection(events, id) == [ResumedQuiet(confirmed)]
    ensures ResumedOnly(past, events, id, confirmed)
  {
    hide Apply, UsualHeard, QuietHeard, HearingOf, SignalOf;
    var n := |events| - 1;
    var front, last := events[..n], events[n];
    var before := Play(front);
    var entries, signal := Apply(before.state, last).entries, SignalOf(last.input, id);
    assert |Projection(front, id)| + |signal| == 1;
    assert Projection(events, id)[|Projection(front, id)|..] == signal;
    if signal == [] {
      assert Projection(front, id) == Projection(events, id);
      ResumeStays(past, front, id, confirmed);
      QuietEventLogsNothing(events, id, confirmed);
      OthersLeaveHeard(false, before.entries, entries, id);
      TellsOthers(last, entries, id);
      OthersLeaveHearing(UNHEARD, past(id), Told(front), TellsAll(last, entries), id);
    } else {
      assert Projection(front, id) == [];
      ResumesAt(before.state, last, id, confirmed);
      SilenceLogsNothing(front, id);
      NothingHeard(false, before.entries, id);
      HeardAppend(false, before.entries, entries[0], id);
      SilenceTellsNothing(front, id);
      TellingAppend(UNHEARD, past(id), Told(front), CarriedOver(id), id);
    }
  }

  lemma ResumesAt(s: State, e: Event, id: string, confirmed: bool)
    requires SignalOf(e.input, id) == [ResumedQuiet(confirmed)]
    ensures Apply(s, e).entries == [Resumed(id, confirmed, e.now)]
    ensures TellsAll(e, Apply(s, e).entries) == [CarriedOver(id)]
  {
    var entries := Apply(s, e).entries;
    assert e.input == Resume(id, confirmed) && entries == [Resumed(id, confirmed, e.now)] && entries[..0] == [];
    assert TellsAll(e, entries) == [] + Tells(e, entries[0]);
  }

  /** The parts that the database says were told of a resumed outage, on the routes in force when it ends. */
  function SaidToBeTold(e: Event, confirmed: bool): Hearing
    requires e.input.Recovery?
  {
    Hearing(if confirmed then Some(RoutesOf(e.input.notify)) else None, Some(QuietRoutes(e.quiet)))
  }

  /**
   * A local-only outage resumed after a restart: its end is told to those told of it if and
   * only if what was told of it reached those whom the database's word for it names now.
   */
  lemma ResumedOutageHeardIff(past: Past, inherited: set<string>, events: seq<Event>, i: nat, confirmed: bool)
    requires Spoken(inherited, events) && Knows(past, inherited, events)
    requires i < |events| && events[i].input.Recovery? && events[i].input.id !in inherited
    requires Projection(events[..i], events[i].input.id) == [ResumedQuiet(confirmed)]
    ensures var id := events[i].input.id;
      (forall c :: Hears(RecoveryRoutes(events, i), c) <==> WasTold(past, inherited, events, i, id, c))
      <==> SameReach(past(id), SaidToBeTold(events[i], confirmed))
  {
    hide RecoveryRoutes, WasTold, Spoken, Knows, HeardBy, Projection, HearingOf, UsualHeard, QuietHeard, Play;
    RecoveryHeardIff(past, inherited, events, i);
    ResumeStays(past, events[..i], events[i].input.id, confirmed);
  }

  /**
   * Another input: an outage that the database calls confirmed, its real down folded or never sent; "a"
   * hears of its end only.
   */
  lemma ConfirmedButNeverSent(past: Past) returns (events: seq<Event>)
    requires past("m") == Hearing(None, Some(Only(["q"])))
    ensures |events| == 2 && events[1].input.Recovery? && events[1].input.id == "m"
    ensures Spoken({}, events) && Knows(past, {}, events)
    ensures Hears(RecoveryRoutes(events, 1), "a") && !WasTold(past, {}, events, 1, "m", "a")
  {
    hide RecoveryRoutes, WasTold, Spoken, HearingOf, UsualHeard, QuietHeard, Play;
    var up := Event(Input.Recovery("m", Some(["a"])), 1, Some(["q"]));
    events := [Event(Resume("m", true), 0, Some(["q"])), up];
    SpokenEnd({}, events, "m");
    assert events[..1] == [events[0]] && [events[0]][..0] == [] && Projection([], "m") == [];
    assert Projection(events[..1], "m") == [] + [ResumedQuiet(true)];
    ResumeStays(past, events[..1], "m", true);
    RecoveryRoutesReach(past, {}, events, 1, "a");
    assert HeardBy(SaidToBeTold(up, true), "a");
    assert Named({}, events, 1) == SaidToBeTold(up, true);
  }
}
