# Hora: the alerting pipeline and the algorithms under it, verified

Hora is an uptime monitor. A probe result goes through one state machine per
monitor, through a coalescer that groups a cascade into one alert, and out to the
notification channels. Around that pipeline sit algorithms with sharp
specifications of their own. This project models them and proves what they
promise, over whole runs.

- **The monitor task** (`Signals`, `Alerts`, `DegradedAlerts`, `Restarts`, `Scheduler`,
  `Supervisor`): the anti-flap state machine, the cell that carries its state across
  restarts, and the fleet that starts and aborts tasks. What happens between two
  `.await`s is one step; an abort is a step that can fall between any two of them. The
  fleet keeps, for every id, the whole run of its tasks.
- **The coalescer** (`Grouping`, `Coalesce`, then `GroupingHistory`,
  `GroupingVerdicts`, `GroupingLedger`, `GroupingOrigins`, `GroupingRequeues`,
  `GroupingDeference`, `GroupingWindow`, `GroupingRouting`): its four collections, in place, with a log of
  every decision; then what the log of any run satisfies.
- **What the channels are told** (`Announcements`, `EndToEnd`): every down on the routes
  it came with, every recovery on its own; from ticks and aborts to who hears what.
- **The dependency graph** (`Topology`): Kahn's algorithm and the breadth-first
  searches, against reachability by walks.
- **The latency histogram** (`Leb128`, `Histogram`) and **the tuning advisor**
  (`Tune`): buckets, error bound, canonical form, encoding; the replay that never
  runs the state machine it predicts, and the recommended threshold.
- **Supporting protocols**: the web cache's single-flight memo (`SingleFlight`),
  the per-channel watchdog (`Watchdog`), cutting messages to a channel's limits
  (`Messages`, and `Rendering` for the events they come from), cron heartbeats
  (`Heartbeat`), the certificate-pin ledger (`CertPin`), error budgets (`Slo`).

Code that changes state is a class whose methods are proved to do exactly what a
function on values says (`View()` before and after); the theorems are about those
functions and about sequences of their steps. `Wrappers` holds the option and result
types and the saturating arithmetic.

## What is assumed

- Time is an integer passed in. Where a theorem needs it not to run backwards
  (`GroupingHistory.Timed`, `SingleFlight.Timed`), that is a premise.
- Monitor ids are unique (`Topology.UniqueIds`, for the map of upstreams only).
- Counters declared as `u32` saturate as written; histogram and check counts do not
  overflow their 64 bits (premises `Histogram.Fits` and those of `Slo`).
- Database reads and writes succeed; each stored row a core uses is a field, a
  parameter or an outcome.
- Probes, peers, deliveries and builds are outcomes chosen by the environment.
- A cron is a strictly increasing sequence of runs, computable below a horizon.
- A task abort takes effect at an `.await`, before the replacement reads its cell.
- The channel to the coalescer, shared by all tasks, is seen from each id: what the id's
  tasks have sent is kept with the cell they share.

## What turned out false

Each with an input, and the exact condition under which the promise holds.

- A recovery does not always go to the channels that heard the down. In general they agree
  if and only if the parts of the outage that count as heard, on the routes in force at the
  recovery, reach the channels that its downs were told to
  (`Announcements.RecoveryHeardIff`, for whole runs of the tasks
  `EndToEnd.ChannelsHearWhatTheyWereTold`). It fails in three ways:
  - The routes change: a `notify` or `notify_unconfirmed` edited during an outage tells
    other channels of its end (`Announcements.RouteEditMisleads`). Where all that counts as
    heard was told, told and ended agree if and only if the routes still reach the same
    channels (`Announcements.RecoveryHeardIffRoutesStillReach`).
  - An incident found open at startup is taken for announced. When the process before had
    folded its down, or stopped before sending it, its recovery is told to channels that
    never heard of it (`Announcements.FoldedBeforeRestart`). Such a recovery is heard by
    those told of the down if and only if they are the ones that `notify` names then
    (`Announcements.InheritedOutageHeardIff`).
  - A local-only incident recorded as confirmed is taken for confirmed aloud, also when the
    real down was folded or never sent (`Announcements.ConfirmedButNeverSent`). The
    recovery of a resumed outage is heard by those told of it if and only if what was told
    reached the channels that the record names then (`Announcements.ResumedOutageHeardIff`).
- A down that was told does not always get a recovery. An up tick under a mute closes the
  incident without a message, and after a restart the next up tick says nothing
  (`Restarts.ClosedUnderMute`): a restarted monitor that is found up sends a recovery if
  and only if the database had its incident open (`Restarts.UpTicksEndWhatIsOpen`).
- `hora tune` does not always foretell the real downs. With degraded alerts on, an outage, a
  slow check and an outage are counted as two and announced as one
  (`Tune.SlowCheckHidesAnOutage`). At every threshold the prediction holds of all
  histories, the peers never contradicting, if and only if degraded alerts are off or the
  threshold is at most 1 (`Tune.DownsForetoldIff`), and a recommended threshold never is
  (`Tune.RecommendationNeedsDegradedOff`).
- With degraded alerts on, a monitor that was only slow announces a recovery with no down
  before it, and one that turns slow during an outage announces a second down
  (`DegradedAlerts.RecoveryWithoutDown`, `DegradedAlerts.TwoDownsInARow`). At every
  threshold the language of blocks is kept if and only if they are off
  (`DegradedAlerts.BlocksHoldIffDegradedAlertsOff`).
- A pin edited to the served key and back leaves an old report standing
  (`CertPin.EditedPinForgetsToRearm`); a mismatching check is quiet if and only if the
  report of that key against that pin still stands (`CertPin.QuietIffReportStands`).
- `Message::fit` alone can exceed its body limit, on a message with an empty line
  (`Messages.EmptyLineBreaksTheLimit`): if and only if the pieces fill the limit to the
  last unit and an empty line follows, two after an empty code block
  (`Messages.BodyExceedsIffBrimsOver`). No event renders to such a message at the limits
  of any channel (`Rendering.EveryChannelFits`).

The burn rate has an exact condition too, on counts that saturate a 64-bit product
(`Slo.BurnUnderOneIff`); no database holds as many checks.

## Model

| member | source | states |
|---|---|---|
| Signals.PrefixClosed | crates/hora-core/src/coalesce.rs:37-54 | what has reached the coalescer so far of a well-formed message stream is itself well formed |
| Alerts.NextKeepsInvariant | crates/hora-core/src/scheduler.rs:201-389 | every step of a task, every abort and every spawn keeps cell, stack and sent messages consistent: the cell is in an alerted level exactly inside a block, and asks the peers again exactly while the block is only local |
| Alerts.SpeaksItsLanguage | crates/hora-core/src/scheduler.rs:328-387 | under any ticks, mutes, threshold edits, spawns and aborts, degraded alerts off: never a second real down before a recovery, never a recovery without a down; a local-only down is followed by at most one real one |
| Alerts.AbortsAreInvisible | crates/hora-core/src/scheduler.rs:121-141 | degraded alerts on or off: state and messages are those of the bare machine fed exactly the ticks that ran to their end, however tasks were aborted and restarted |
| Alerts.RestartGoesOn | crates/hora-core/src/scheduler.rs:121-141 | a task aborted at any await is followed by one that goes on from the cell, with nothing sent for it |
| Alerts.StateIsTold | crates/hora-core/src/scheduler.rs:86-118 | the whole alert state is told from the ticks alone: the level from the streaks that reached their tick's threshold, both counters as streaks saturating at `u32::MAX`, the burn flags last set, and when the peers were last asked about an outage still local-only |
| Alerts.AnnouncedWhenDue | crates/hora-core/src/scheduler.rs:328-387 | degraded alerts on or off: a down is announced exactly when its streak reaches that tick's threshold and none is announced yet, a recovery exactly when something was, the real down after a local-only one exactly when the peers were last asked 300 seconds ago or more and no longer contradict it; nothing else is sent |
| Alerts.TicksAreCommitted | crates/hora-core/src/scheduler.rs:328-388 | every unmuted tick that runs to its end is committed once, as what it found, at once or with the answer it waited for; no other step commits one |
| Alerts.BootsAsFound | crates/hora-core/src/scheduler.rs:86-250 | a first boot starts healthy, or alerted when an incident was open, asking the peers again from then on exactly when that is still local-only |
| Alerts.CommitsAreWellBooted | crates/hora-core/src/scheduler.rs:232-250 | every run commits one boot, first - healthy or a resumed outage - and only then ticks: what the two lemmas above ask for |
| DegradedAlerts.BlocksHoldIffDegradedAlertsOff | crates/hora-core/src/scheduler.rs:328-387 | for every threshold, setting and outage found at startup: all runs send only blocks of one down ended by a recovery if and only if degraded alerts are off |
| DegradedAlerts.RecoveryWithoutDown | crates/hora-core/src/scheduler.rs:362-384 | with them on, at every threshold, a healthy monitor that turns slow and then well sends a recovery and nothing else |
| DegradedAlerts.TwoDownsInARow | crates/hora-core/src/scheduler.rs:86-100 | with them on, at every threshold, an outage interrupted by slowness sends two real downs and no recovery |
| Restarts.UpTicksEndWhatIsOpen | crates/hora-core/src/scheduler.rs:229-250 | however a restarted monitor's tasks are aborted and muted, while it is only found up it sends what it resumes and then one recovery, if and only if the database had an incident open |
| Restarts.ClosedUnderMute | crates/hora-core/src/scheduler.rs:299-313 | at every threshold: a down is sent, its incident closed under a mute, the daemon restarted, and the first up tick says nothing |
| Scheduler.AlertCell.Set | crates/hora-core/src/scheduler.rs:138-140 | the shared cell holds what was written last |
| Scheduler.AlertCell.Send | crates/hora-core/src/scheduler.rs:194-198 | a message goes after those the id's tasks sent before, restarts included |
| Scheduler.MonitorTask.constructor | crates/hora-core/src/scheduler.rs:164-171 | spawning is the spawn step of the id's run, from the cell as its last task left it and with everything sent so far kept |
| Scheduler.MonitorTask.Abort | crates/hora-core/src/supervisor.rs:64-71 | an abort is the abort step of the id's run: the stack is lost, the cell and the sent messages stay |
| Scheduler.MonitorTask.ObserveDown | crates/hora-core/src/scheduler.rs:88-92 | the in-place counter step of a down tick is the specified one |
| Scheduler.MonitorTask.ObserveDegraded | crates/hora-core/src/scheduler.rs:96-100 | the in-place counter step of a slow tick is the specified one |
| Scheduler.MonitorTask.ObserveUp | crates/hora-core/src/scheduler.rs:105-110 | the in-place counter step of a healthy tick is the specified one |
| Scheduler.MonitorTask.FoundIncident | crates/hora-core/src/scheduler.rs:232-250 | resume from the cell, from the open incident, or from nothing: one protocol step |
| Scheduler.MonitorTask.FoundRouting | crates/hora-core/src/scheduler.rs:468-496 | tell the coalescer of a local-only down from before the restart, and keep asking while it is still local: one protocol step |
| Scheduler.MonitorTask.Observe | crates/hora-core/src/scheduler.rs:299-326 | an unmuted tick, up to its next await: one protocol step |
| Scheduler.MonitorTask.Burned | crates/hora-core/src/scheduler.rs:321-326 | the burn flags are written to the cell before the rest of the tick: one protocol step |
| Scheduler.MonitorTask.React | crates/hora-core/src/scheduler.rs:328-387 | the branches of a tick after the burn check, up to the next await or the write-back |
| Scheduler.MonitorTask.Verdict | crates/hora-core/src/scheduler.rs:331-361 | the peers' answer to a new or a still local-only down: message, level and write-back in one protocol step |
| Scheduler.MonitorTask.DegradedSent | crates/hora-core/src/scheduler.rs:362-367 | after the degraded notification: one protocol step |
| Scheduler.MonitorTask.WriteBack | crates/hora-core/src/scheduler.rs:385-388 | the cell holds the task's state whenever it waits for a tick |
| Supervisor.Fleet.OneWriterPerCell | crates/hora-core/src/supervisor.rs:43-49 | two live tasks never share an alert cell |
| Supervisor.Fleet.FleetSpeaks | crates/hora-core/src/supervisor.rs:60-103 | whatever the supervisor did, what an id has sent is what one run of its tasks sends; with degraded alerts off, blocks only |
| Supervisor.Fleet.TaskSteps | crates/hora-core/src/scheduler.rs:259-388 | a step of a running task extends its id's run and no other's |
| Supervisor.Fleet.Retire | crates/hora-core/src/supervisor.rs:63-74 | exactly the tasks whose spec is still desired survive, untouched; every other one is stopped; cells are dropped only for ids that left |
| Supervisor.Fleet.StopLeavers | crates/hora-core/src/supervisor.rs:64-71 | the `retain` over running tasks, aborting the others |
| Supervisor.Fleet.Stop | crates/hora-core/src/supervisor.rs:64-71 | aborting one task adds the abort to its id's run and leaves every other task as it was |
| Supervisor.Fleet.ReapDead | crates/hora-core/src/supervisor.rs:84-103 | exactly the finished tasks are forgotten, their cells kept; true exactly when there was one |
| Supervisor.Fleet.AlertStateOf | crates/hora-core/src/supervisor.rs:77-79 | an id's own cell, created empty on first use |
| Supervisor.Fleet.Start | crates/hora-core/src/supervisor.rs:319-339 | a new live task on the id's own cell; the id's world takes the spawn step from where its last task left it, or from nothing |
| Supervisor.Fleet.StartMissing | crates/hora-core/src/supervisor.rs:309-341 | starts every desired monitor not running, but those with a bad proxy, and touches no running one |
| Supervisor.Fleet.Reconcile | crates/hora-core/src/supervisor.rs:292-342 | afterwards exactly the desired monitors run (a bad proxy keeps a new one out), unchanged ones are the same tasks, and every id still configured keeps its cell |
| Grouping.NextExpired | crates/hora-core/src/coalesce.rs:197-205 | the first queued alert of earliest deadline, among the expired ones; none exactly when none is expired |
| Grouping.QueuedUpstream | crates/hora-core/src/coalesce.rs:208-213 | the deadline of a queued upstream that no other queued one exceeds; none exactly when none is queued |
| Grouping.Position | crates/hora-core/src/coalesce.rs:176-176 | where a monitor's first queued alert is, if one is |
| Grouping.SettlingProgresses | crates/hora-core/src/coalesce.rs:196-226 | each turn of the flush loop leaves less to do, a requeue included, so `flush` ends |
| Grouping.Flush | crates/hora-core/src/coalesce.rs:193-228 | a flush leaves nothing expired in the queue |
| Coalesce.Coalescer.OnDown | crates/hora-core/src/coalesce.rs:130-158 | the four collections and the log after a down are the specified ones; it is returned exactly when it is sent at once |
| Coalesce.Coalescer.AnyCovered | crates/hora-core/src/coalesce.rs:162-167 | true exactly when some transitive upstream is covered |
| Coalesce.Coalescer.OnRecovered | crates/hora-core/src/coalesce.rs:172-188 | the collections after a recovery, the recipients named and the queued down dropped are the specified ones |
| Coalesce.Coalescer.Flush | crates/hora-core/src/coalesce.rs:193-228 | the loop over the changing queue does what the specification says, and returns exactly the alerts it logs as sent, in order |
| Coalesce.Coalescer.SettleNext | crates/hora-core/src/coalesce.rs:206-225 | one turn of that loop: folded, requeued once, or sent |
| Coalesce.Coalescer.EarliestExpired | crates/hora-core/src/coalesce.rs:197-205 | the scan finds the next expired alert |
| Coalesce.Coalescer.Drain | crates/hora-core/src/coalesce.rs:232-247 | shutdown empties the queue, folding what is covered and returning the rest in order |
| Coalesce.Coalescer.DrainNext | crates/hora-core/src/coalesce.rs:237-245 | one queued alert at shutdown |
| Coalesce.Coalescer.DoMarkSent | crates/hora-core/src/coalesce.rs:252-255 | covers, and forgets an old suppression |
| Coalesce.Coalescer.DoFold | crates/hora-core/src/coalesce.rs:272-276 | covers, and suppresses the recovery |
| Coalesce.Coalescer.DoPrune | crates/hora-core/src/coalesce.rs:278-280 | forgets covers as old as the memory, and nothing else |
| Coalesce.Coalescer.ResumeLocalOnly | crates/hora-core/src/coalesce.rs:261-263 | restores the quiet routing of a local-only down |
| Coalesce.Coalescer.RetainMonitors | crates/hora-core/src/coalesce.rs:265-268 | forgets suppressions and quiet downs of ids no longer configured |
| GroupingHistory.CoveredIffCause | crates/hora-core/src/coalesce.rs:162-167 | the map lookup finds a covered upstream exactly when the log holds an upstream's down younger than the memory and not recovered since |
| GroupingHistory.GroupingIsExact | crates/hora-core/src/coalesce.rs:130-247 | over any run: a down is folded exactly when such a cause exists, and released after the wait, requeued or drained exactly when none does |
| GroupingHistory.FoldsAreExplained | crates/hora-core/src/coalesce.rs:98-114 | over any run: every fold starts a finite chain of upstreams, each sent or folded within the memory and unrecovered, ending in a down that was really released; local-only downs are never in it |
| GroupingOrigins.NothingIsInvented | crates/hora-core/src/coalesce.rs:130-280 | over any run: everything queued or logged came in with some event |
| GroupingOrigins.FoldsClimbToARoot | crates/hora-core/src/coalesce.rs:4-16 | on a validated graph, the released down that explains a fold is that of a strict upstream of the folded monitor |
| GroupingLedger.EveryDownIsAccountedFor | crates/hora-core/src/coalesce.rs:130-247 | over any run: each accepted down is released, folded, drained, dropped by its own recovery or still queued - as often as it was accepted |
| GroupingLedger.RequeuedAtMostOnce | crates/hora-core/src/coalesce.rs:121-126 | over any run: a down is requeued at most as often as it is queued |
| GroupingRequeues.RequeuedOncePerStay | crates/hora-core/src/coalesce.rs:190-221 | over any run of well-formed streams: between two requeues of one alert it was queued anew, so no stay in the queue is prolonged twice |
| GroupingDeference.ReleasedOnlyWithoutItsUpstream | crates/hora-core/src/coalesce.rs:190-226 | over any run of well-formed streams: a down that waited once more for a queued upstream is released only if, since then, that upstream recovered, was itself requeued, or was sent or folded a whole memory before |
| GroupingDeference.LogIsInOrder | crates/hora-core/src/coalesce.rs:196-226 | over any run: what is logged later is not earlier, and nothing is logged past the last event |
| GroupingLedger.QueueIsServed | crates/hora-core/src/coalesce.rs:190-247 | after a flush nothing expired is left, after a shutdown nothing at all |
| GroupingVerdicts.DownIsMet | crates/hora-core/src/coalesce.rs:130-158 | over any run, told from the log before it: a down is announced if local-only, sent at once if it is a root's or there is no window, folded if and only if the log holds a cause of it, and otherwise queued until the window has passed |
| GroupingVerdicts.FlushIsExact | crates/hora-core/src/coalesce.rs:190-228 | over any run of well-formed streams: a flush takes the queued downs that are due, the earliest first, until none is; each is folded if and only if the log before it holds a cause, else requeued if and only if an upstream's down is queued and a requeue was not its last move, to a second after the last of those is due, else sent |
| GroupingVerdicts.ShutdownIsExact | crates/hora-core/src/coalesce.rs:230-247 | a shutdown folds each queued down that has a cause then, sends every other, and leaves none |
| GroupingVerdicts.RecoveryIsExact | crates/hora-core/src/coalesce.rs:169-188 | a recovery logs its recipients, as the log of what was heard names them, and drops the monitor's queued down if and only if there is one |
| GroupingVerdicts.ReleasedAfterDeferring | crates/hora-core/src/coalesce.rs:206-221 | a down released from the queue beside a queued upstream has been requeued on this stay |
| GroupingWindow.GroupedAlertsWaitOutTheWindow | crates/hora-core/src/coalesce.rs:152-156 | over any run: a down released by a flush was handed over at least its whole grouping window before, requeued or not |
| GroupingRouting.PlayIsRouted | crates/hora-core/src/coalesce.rs:108-119 | for any interleaving of well-formed streams: queue, suppressed and quiet say of each monitor exactly what its phase and the log of what was heard say, and no monitor is queued twice |
| GroupingRouting.RecoveryGoesToWhoeverHeard | crates/hora-core/src/coalesce.rs:169-188 | a recovery names the usual channels exactly when the block's real down went out, or was found open at startup, and the quiet ones exactly when its local-only down did |
| GroupingRouting.SuppressionIsTold | crates/hora-core/src/coalesce.rs:108-119 | over any run, well-formed or not: a monitor's recovery is suppressed exactly when its last verdict was a fold, neither recovered from nor forgotten since |
| GroupingRouting.RemovalForgets | crates/hora-core/src/coalesce.rs:265-268 | a monitor no longer configured is forgotten: the next recovery of one that is not queued, nothing said of it since, goes to the usual channels |
| Announcements.MergeMembers | crates/hora-core/src/coalesce.rs:392-399 | merging routes keeps every name of both lists and adds none |
| Announcements.RecoveryReaches | crates/hora-core/src/coalesce.rs:376-411 | a recovery reaches, on the routes it goes out on, the parts of the outage it is named for, and no other channel |
| Announcements.RecoveryIsTold | crates/hora-core/src/coalesce.rs:317-320 | a recovery has the channels told exactly one thing, on those routes |
| Announcements.DownsGoWhereAsked | crates/hora-core/src/coalesce.rs:340-374 | over any run: a local-only down is heard by exactly the quiet channels configured at an event that handed it over, by nobody if none are, and a real one by exactly those of its own `notify`, by everybody if it has none - at once, after the wait and at shutdown alike |
| Announcements.LocalDownIsTold | crates/hora-core/src/coalesce.rs:347-353 | each local-only down is told at once, once, to the quiet channels of that moment |
| Announcements.TellingsAccord | crates/hora-core/src/coalesce.rs:347-411 | over any run of well-formed streams, the database knowing at least what was told before: the coalescer counts as heard all that the channels were told - exactly that if all the database knows of was told - and no part of an outage is told twice |
| Announcements.RecoveryHeardIff | crates/hora-core/src/coalesce.rs:18-23 | over any run, restarts included: the channels told of a recovery are those told of a down it ends, if and only if the parts that count as heard, on the routes of the recovery, reach the channels that its downs were told to |
| Announcements.NamedAsTold | crates/hora-core/src/coalesce.rs:172-188 | when all that the database knows of was told, the parts that count as heard at a recovery are exactly those that were told |
| Announcements.RecoveryHeardIffRoutesStillReach | crates/hora-core/src/coalesce.rs:18-23 | then the condition is one on the routes: those now in force reach the channels that the routes then reached |
| Announcements.UnchangedRoutesAgree | crates/hora-core/src/coalesce.rs:18-23 | with the routes left alone during the outage, a channel is told of its end exactly when it was told of a down of it |
| Announcements.RouteEditMisleads | crates/hora-core/src/scheduler.rs:374-382 | a concrete outage during which `notify` is edited: the new channel hears of its end only, the old one of its start only |
| Announcements.InheritedOutageRecoversAloud | crates/hora-core/src/scheduler.rs:229-250 | an outage found open recovers on the monitor's channels whatever was told of it before, and was told to exactly those the process before told |
| Announcements.InheritedOutageHeardIff | crates/hora-core/src/scheduler.rs:229-250 | so its end goes to those told of it if and only if they are the channels that the monitor notifies now |
| Announcements.FoldedBeforeRestart | crates/hora-core/src/scheduler.rs:229-250 | a concrete outage, folded or not yet sent before the restart: "a" hears of its end only |
| Announcements.ResumedOutageHeardIff | crates/hora-core/src/scheduler.rs:464-496 | the end of a resumed local-only outage goes to those told of it if and only if what was told reached the channels that the record, with the routes of now, names |
| Announcements.ConfirmedButNeverSent | crates/hora-core/src/scheduler.rs:557-582 | a concrete resumed outage, recorded as confirmed but its real down folded or never sent: "a" hears of its end only |
| EndToEnd.TasksSpeak | crates/hora-core/src/scheduler.rs:194-198 | what aborted, restarted and delayed tasks deliver is what the routing theorem asks of its inputs |
| EndToEnd.TasksKnow | crates/hora-core/src/scheduler.rs:464-496 | a local-only outage is resumed as it was found, so that the coalescer counts as heard at least what the process before told |
| EndToEnd.TasksRemember | crates/hora-core/src/scheduler.rs:464-496 | and exactly that, when the process before sent all that the database says |
| EndToEnd.ChannelsHearWhatTheyWereTold | crates/hora-core/src/coalesce.rs:287-338 | from ticks to channels: under any ticks, threshold edits, aborts, restarts, delays, folds and flushes, whatever the process before had sent of the outages found open: the channels told of a recovery are those told of a down it ends, if and only if the parts that count as heard, on the routes of now, reach the same channels |
| EndToEnd.SentOutagesHeardIffRoutesStillReach | crates/hora-core/src/coalesce.rs:287-338 | from ticks to channels, when the process before had sent what the database says: if and only if the routes still reach the same channels |
| EndToEnd.UneditedRoutesAgree | crates/hora-core/src/coalesce.rs:287-338 | from ticks to channels: with the routes left alone, a channel hears of a recovery exactly when it heard of a down it ends |
| Topology.OrderedIsAcyclic | crates/hora-core/src/topology.rs:46-66 | a dequeue order listing every node after its upstreams leaves no room for a cycle |
| Topology.StuckIsCyclic | crates/hora-core/src/topology.rs:60-63 | a remainder where every node still waits for another of the remainder contains a cycle |
| Topology.ValidateDag | crates/hora-core/src/topology.rs:16-66 | succeeds exactly when every `depends_on` id is known and the graph is acyclic; a cycle is reported exactly when all are known and there is one; otherwise the first unknown id in configuration order |
| Topology.ListMonitor | crates/hora-core/src/topology.rs:22-37 | adjacency lists and in-degrees mirror the edges listed so far, duplicates included |
| Topology.Unblocked | crates/hora-core/src/topology.rs:39-43 | the initial queue holds exactly the ids of in-degree zero, each once |
| Topology.CountOrdered | crates/hora-core/src/topology.rs:39-63 | every id is dequeued exactly when there is no cycle |
| Topology.ReleaseDependents | crates/hora-core/src/topology.rs:48-57 | the in-degrees stay the number of edges from nodes not yet dequeued, so the subtraction never saturates, and a dependent is queued exactly when its last one goes |
| Topology.Bfs | crates/hora-core/src/topology.rs:100-111 | exactly the nodes reachable in one or more steps, each once, none before a strictly nearer one |
| Topology.TransitiveUpstreams | crates/hora-core/src/topology.rs:71-80 | that, along `depends_on` |
| Topology.TransitiveDependents | crates/hora-core/src/topology.rs:85-96 | that, along `depends_on` turned around |
| Topology.UpstreamsMirrorDependents | crates/hora-core/src/topology.rs:68-96 | `u` is among `m`'s upstreams exactly when `m` is among `u`'s dependents |
| Topology.ValidatedUpstreamsAreStrict | crates/hora-core/src/topology.rs:98-100 | on a validated graph no node is its own upstream, being upstream goes one way, and upstreams of upstreams are upstreams |
| Topology.MonitorName | crates/hora-core/src/topology.rs:115-120 | a name exactly for configured ids, and that id's |
| Topology.DownContext | crates/hora-core/src/scheduler.rs:829-856 | a cause exactly when some upstream reads as down, and then no down upstream is strictly nearer; otherwise the dependents' names, nearest first |
| Leb128.ReadVarintInverse | crates/hora-core/src/histogram.rs:211-230 | reading what was written gives the value back and leaves what follows it, for every 64-bit value |
| Leb128.WriteVarint | crates/hora-core/src/histogram.rs:211-217 | the loop appends the value's encoding |
| Leb128.Read | crates/hora-core/src/histogram.rs:219-230 | the shift-and-or loop reads at most ten bytes as the specified value modulo 2^64, or nothing on a short or endless one |
| Histogram.BucketInRange | crates/hora-core/src/histogram.rs:180-194 | no bucket is ever above 895, whatever the latency |
| Histogram.BucketMonotone | crates/hora-core/src/histogram.rs:184-194 | a larger latency never lands in a lower bucket |
| Histogram.MidpointWithinBound | crates/hora-core/src/histogram.rs:184-209 | a bucket's midpoint is within 1/64 of every value it holds, and exact below 64 ms |
| Histogram.CanonicalUnique | crates/hora-core/src/histogram.rs:22-29 | histograms with equal bucket counts are equal: never a trailing zero |
| Histogram.LatencyHistogram.Record | crates/hora-core/src/histogram.rs:33-35 | adds to the latency's bucket and no other, and stays canonical |
| Histogram.LatencyHistogram.Unrecord | crates/hora-core/src/histogram.rs:39-47 | takes from the latency's bucket, saturating, and stays canonical |
| Histogram.LatencyHistogram.Add | crates/hora-core/src/histogram.rs:49-57 | grows the vector only as far as needed; other buckets unchanged |
| Histogram.LatencyHistogram.Merge | crates/hora-core/src/histogram.rs:60-67 | bucket-wise sum, even with itself, and canonical |
| Histogram.LatencyHistogram.MergeEncoded | crates/hora-core/src/histogram.rs:71-80 | adds exactly the entries the bytes spell, or returns false and changes nothing |
| Histogram.LatencyHistogram.Validate | crates/hora-core/src/histogram.rs:72-75 | the first pass accepts exactly the well-formed blobs |
| Histogram.LatencyHistogram.Encode | crates/hora-core/src/histogram.rs:126-135 | the version byte, then delta and count of each non-empty bucket |
| Histogram.LatencyHistogram.Decode | crates/hora-core/src/histogram.rs:139-143 | what merging the bytes into an empty histogram gives |
| Histogram.LatencyHistogram.Len | crates/hora-core/src/histogram.rs:84-86 | the samples counted in all buckets |
| Histogram.LatencyHistogram.IsEmpty | crates/hora-core/src/histogram.rs:82-91 | true exactly when `len` is 0, read off the vector alone |
| Histogram.LatencyHistogram.Percentile | crates/hora-core/src/histogram.rs:96-110 | the midpoint of the one bucket where the running count passes the nearest rank; nothing exactly without samples |
| Histogram.Entries.Next | crates/hora-core/src/histogram.rs:163-177 | yields the entries the rest of the bytes spell, one error item where they stop making sense, and then ends |
| Histogram.RunCounts | crates/hora-core/src/histogram.rs:31-67 | over any run that uncounts only recorded samples, each bucket holds its net count |
| Histogram.OrderNeverMatters | crates/hora-core/src/histogram.rs:31-67 | any two such runs with the same net counts end in equal histograms |
| Histogram.RecordRepresents | crates/hora-core/src/histogram.rs:31-35 | recording one more sample represents one more sample, so every multiset of samples has its histogram |
| Histogram.RankIsPosition | crates/hora-core/src/histogram.rs:101-108 | in sorted order, the sample of rank `r` lies below bucket `k` exactly when at least `r` samples do |
| Histogram.PercentileWithinBound | crates/hora-core/src/histogram.rs:8-13 | for any samples in 0..=`u32::MAX` the answer is within 1/64 of the exact nearest-rank percentile, and is it below 64 ms |
| Histogram.RankedOverAll | crates/hora-core/src/histogram.rs:96-101 | the histogram ranks over as many samples as it represents |
| Histogram.DecodeInvertsEncode | crates/hora-core/src/histogram.rs:126-143 | `decode(encode(h)) == h` |
| Histogram.MergeEncodedIsMerge | crates/hora-core/src/histogram.rs:69-80 | merging `encode(g)` equals merging `g` |
| Histogram.MergeBytesIsMergeDecoded | crates/hora-core/src/histogram.rs:69-80 | any bytes merge exactly as their decoded form, or fail exactly when decoding fails and change nothing |
| Tune.NearestRank | crates/hora-core/src/tune.rs:168-176 | the first position with at least p percent of the samples at or before it: the least rank with 100 times it at least p times n, for p from 1 to 100 |
| Tune.PercentileSplits | crates/hora-core/src/tune.rs:165-178 | of an ascending slice: at least p percent of the samples are at most the answer, and fewer than p percent are below it |
| Tune.FailureRuns | crates/hora-core/src/tune.rs:41-56 | the loop computes the specified runs |
| Tune.RunsAreMaximal | crates/hora-core/src/tune.rs:37-56 | the runs are the lengths of exactly the maximal stretches of down checks, in order, none missed |
| Tune.ReplayPredicts | crates/hora-core/src/tune.rs:58-64 | degraded alerts off: any history fed to a fresh alert state, with any peers' verdicts, confirms exactly `alerts_at(failure_runs(history), threshold)` outages, each one but the one still open ended by a recovery; with no local-only verdict that is the number of real downs |
| Tune.SlowCheckHidesAnOutage | crates/hora-core/src/tune.rs:58-64 | degraded alerts on, at every threshold above 1: an outage, one slow check and an outage are counted as two and announced as one |
| Tune.DownsForetoldIff | crates/hora-core/src/tune.rs:58-64 | for every threshold and setting: the real downs over all histories without a local-only verdict are as many as `alerts_at` counts if and only if degraded alerts are off or the threshold is at most 1 |
| Tune.Tiers | crates/hora-core/src/tune.rs:93-96 | the distinct run lengths, strictly ascending |
| Tune.WidestGap | crates/hora-core/src/tune.rs:108-118 | the first of the widest ratios between adjacent tiers |
| Tune.RecommendThreshold | crates/hora-core/src/tune.rs:90-132 | longest run; a split at the widest gap, or none when no tier doubles the one below; a recommendation just above the flaps if that is at most 6 |
| Tune.ClustersAreApart | crates/hora-core/src/tune.rs:66-79 | every run is a flap or an outage, and an outage is at least twice any flap |
| Tune.RecommendedIsSmallestExact | crates/hora-core/src/tune.rs:81-89 | a threshold alerts on every outage and no flap exactly when it is above the flaps and at most the shortest outage; the recommended one is the smallest such |
| Tune.RecommendedThresholdConfirmsOutages | crates/hora-core/src/tune.rs:81-89 | degraded alerts off, no local-only verdict: under the recommended threshold the state machine sends one real down per run of the outage cluster and none for the flaps |
| Tune.RecommendationNeedsDegradedOff | crates/hora-core/src/tune.rs:81-89 | at a recommended threshold, the real downs of all histories are those foretold if and only if degraded alerts are off |
| SingleFlight.NextKeepsInvariant | crates/hora-web/src/cache.rs:60-97 | every step of every caller keeps one builder on the lock, honest entries and answers, and no build of an entry still fresh |
| SingleFlight.OneBuildAtATime | crates/hora-web/src/cache.rs:43-46 | over any interleaving, at most one caller builds |
| SingleFlight.AnswersAreOwn | crates/hora-web/src/cache.rs:22-34 | over any interleaving, every answer and every kept entry came from a successful build of that key under that very snapshot |
| SingleFlight.AnswersAreFresh | crates/hora-web/src/cache.rs:31-76 | when a caller gets an answer, the build behind it is less than the time to live ago, or is the caller's own, just ended |
| SingleFlight.ServedWhileFresh | crates/hora-web/src/cache.rs:60-84 | while a build under the current snapshot is younger than the time to live, a new call for its key, or one granted the lock, is answered and does not build |
| SingleFlight.NobodyIsStuck | crates/hora-web/src/cache.rs:60-76 | a new call is answered or waits, one that waits is answered or builds once the lock is free, and a lock is only ever held by a builder, who frees it however the build ends |
| SingleFlight.BuiltOnce | crates/hora-web/src/cache.rs:58-76 | over any interleaving, a key is built again under the same snapshot only after the earlier value expired or a build under another snapshot came between |
| SingleFlight.OnlyBuildsTouchEntries | crates/hora-web/src/cache.rs:36-40 | a failed or cancelled build leaves no entry; a successful one leaves only entries fresh under its snapshot, its own included |
| SingleFlight.Memo.Get | crates/hora-web/src/cache.rs:78-84 | the value of a fresh entry of the same snapshot, or nothing |
| SingleFlight.Memo.Insert | crates/hora-web/src/cache.rs:86-97 | drops what is not fresh and keeps the new entry |
| SingleFlight.Memo.Call | crates/hora-web/src/cache.rs:66-69 | the call up to the lock: one protocol step |
| SingleFlight.Memo.Acquire | crates/hora-web/src/cache.rs:69-72 | the second look under the lock: one protocol step |
| SingleFlight.Memo.Finish | crates/hora-web/src/cache.rs:73-75 | the end of the build: one protocol step |
| SingleFlight.Memo.Cancel | crates/hora-web/src/cache.rs:69-73 | a dropped request releases the lock: one protocol step |
| Watchdog.HistoryIsTold | crates/hora-notify/src/lib.rs:377-416 | over any deliveries and reloads, by any dispatchers sharing the map: a channel's counter is its failures since its last success or removal (saturating), dated from the first of them, and latched exactly when the watchdog fired in that streak |
| Watchdog.FiresOncePerStreak | crates/hora-notify/src/lib.rs:403-415 | the watchdog fires exactly at the first counted failure of a streak with the threshold reached and another channel configured |
| Watchdog.AlertsAreApart | crates/hora-notify/src/lib.rs:360-364 | two alerts about a channel have a success, or its removal, between them |
| Watchdog.RefusalChangesNothing | crates/hora-notify/src/lib.rs:384-392 | a 413 changes nothing and fires nothing; a delivery never touches another channel's health |
| Watchdog.Targeted | crates/hora-notify/src/lib.rs:366-372 | exactly the configured channels, or those of them listed |
| Watchdog.Without | crates/hora-notify/src/lib.rs:470-475 | every configured channel but the one reported |
| Watchdog.Dispatcher.constructor | crates/hora-notify/src/lib.rs:273-282 | a fresh map, and a threshold of at least 1 |
| Watchdog.Dispatcher.WithHealth | crates/hora-notify/src/lib.rs:289-311 | the same map, with the counters of the channels still configured |
| Watchdog.Dispatcher.Count | crates/hora-notify/src/lib.rs:383-417 | one outcome counted in place is the specified step, and triggers exactly when it fires |
| Watchdog.Dispatcher.Dispatch | crates/hora-notify/src/lib.rs:365-465 | every target is counted once and the alerts themselves never are; alerts go out about exactly the channels that fired, to every other channel and there is one; the failed names are those not delivered |
| Messages.Truncate | crates/hora-notify/src/util.rs:55-85 | the loop computes the specified cut |
| Messages.TruncateCuts | crates/hora-notify/src/util.rs:51-85 | a text within the limit is untouched; one over it becomes a prefix of itself within the limit, ending in an ellipsis exactly when that fits, and one more character would not have fitted |
| Messages.Fit | crates/hora-notify/src/message.rs:366-407 | the rewriting of fields with a shrinking budget is the specified one |
| Messages.KeepFitting | crates/hora-notify/src/message.rs:384-405 | the loop over the lines |
| Messages.ShortenLine | crates/hora-notify/src/message.rs:392-402 | the cut of the first line that does not fit |
| Messages.HeadlineFits | crates/hora-notify/src/message.rs:367-372 | the headline is within `head`, for every message and either unit |
| Messages.MeasureBody | crates/hora-notify/src/message.rs:291-299 | the length of the joined plain body: its pieces and one separator between each |
| Messages.LinesExceed | crates/hora-notify/src/message.rs:384-405 | the kept lines overrun what is left exactly when they end one separator past it and empty lines follow |
| Messages.BodyExceedsIffBrimsOver | crates/hora-notify/src/message.rs:356-407 | the plain body exceeds `body` exactly under that condition on the message before the call |
| Messages.FitsWithinLimits | crates/hora-notify/src/message.rs:356-407 | without empty lines both limits hold, separators included, in either unit |
| Messages.EmptyLineBreaksTheLimit | crates/hora-notify/src/message.rs:384-391 | a hand-made message with an empty line exceeds its body limit |
| Messages.PiecesAreKept | crates/hora-notify/src/message.rs:356-407 | every piece that fits is the original, a cut one its longest fitting prefix with an ellipsis whenever that fits; the first line that does not fit is the only one cut, dropped only without room for an ellipsis, and nothing of the body follows a cut piece |
| Messages.FitIsIdempotent | crates/hora-notify/src/message.rs:366-407 | fitting twice is fitting once, for every message, limits and unit |
| Rendering.Cap | crates/hora-core/src/updates.rs:245-252 | a release's summary is the text itself, or at most 300 characters of it and an ellipsis |
| Rendering.CapCutsOnAWord | crates/hora-core/src/updates.rs:245-252 | a longer one is cut at the last space within the limit, without the punctuation before it, and ends in an ellipsis |
| Rendering.NothingIsLeftUnsaid | crates/hora-notify/src/message.rs:410-496 | all that an event knows is in its message before it is cut |
| Rendering.EventsNeverBrimOver | crates/hora-notify/src/message.rs:410-496 | no event has an empty line where it could overrun a limit above 301 characters, or 1204 bytes |
| Rendering.EveryChannelFits | crates/hora-notify/src/message.rs:356-407 | for every event and every channel's own limits and unit: headline and plain body are within them |
| Rendering.PushoverFits | crates/hora-notify/src/pushover.rs:12-36 | for every event, the text sent is at most 1024 characters |
| Rendering.PushoverFitsWithoutEmptyLines | crates/hora-notify/src/pushover.rs:12-36 | and so is that of any message without an empty line |
| Heartbeat.CountsForItsRunIff | crates/hora-core/src/heartbeat.rs:136-157 | a ping since the previous run counts for the next one exactly when it comes at most min(grace, half the gap after it) early |
| Heartbeat.PunctualJobIsNeverMissed | crates/hora-core/src/heartbeat.rs:119-157 | for every schedule: one ping per run, in order, not before the previous run, not too early and at most the grace late, is never reported, at any moment from the start of the watch |
| Heartbeat.StoppedJobIsReported | crates/hora-core/src/heartbeat.rs:119-157 | a job that stops is reported exactly once the run its last ping leaves due, plus the grace, has passed: the second run after the ping if the ping counts for the first, else the first |
| Heartbeat.NeverPingedIsReportedIff | crates/hora-core/src/heartbeat.rs:175-194 | a job that never pinged is reported exactly once the first run since the watch began, plus the grace, has passed |
| Heartbeat.NoNextRunNeverAlerts | crates/hora-core/src/heartbeat.rs:119-133 | a schedule with no computable next run never alerts |
| Heartbeat.OverdueIffSilent | crates/hora-core/src/heartbeat.rs:28-38 | with a fixed interval: the verdict is overdue if and only if no heartbeat, nor before the first one the start of the watch, is at most the interval old |
| Heartbeat.Store.LastHeartbeat | crates/hora-core/src/heartbeat.rs:220-242 | the last real heartbeat, whatever misses were recorded since |
| Heartbeat.Store.Evaluate | crates/hora-core/src/heartbeat.rs:229-255 | the status to react to, and a miss recorded exactly when overdue |
| Heartbeat.LastBeatIsLast | crates/hora-core/src/heartbeat.rs:220-242 | the last real heartbeat is found whenever there is one, and only misses were recorded after it |
| Heartbeat.OverdueStays | crates/hora-core/src/heartbeat.rs:225-228 | recorded misses never reset the clock: once overdue, overdue at every later evaluation until a ping |
| CertPin.PinAlert | crates/hora-core/src/cert.rs:719-735 | an alert never names the observed key as the previous one |
| CertPin.SameIff | crates/hora-core/src/cert.rs:719-731 | a key matches a pin exactly when they differ in the case of ASCII letters at most |
| CertPin.AlertNamesThePrevious | crates/hora-core/src/cert.rs:731-735 | over any history: an alert names as the previous key the last one that matched its pin or was reported, or the pin when there is none but the observed one |
| CertPin.Store.RememberPin | crates/hora-core/src/cert.rs:694-709 | key and lower-cased pin are stored together |
| CertPin.Store.PinToReport | crates/hora-core/src/cert.rs:656-690 | the fingerprint to alert about, or the ledger brought up to date |
| CertPin.Store.CheckPin | crates/hora-core/src/cert.rs:606-643 | one check: an alert unless muted, and remembered only if every channel got it |
| CertPin.QuietOnlyIfDelivered | crates/hora-core/src/cert.rs:645-655 | from an empty ledger, over any keys, pin edits, mutes and failed deliveries: a mismatching check stays quiet only if an alert about that key against that pin was delivered before |
| CertPin.QuietIffReportStands | crates/hora-core/src/cert.rs:645-735 | from an empty ledger, over any keys, pin edits, mutes and failed deliveries: a mismatching check is quiet if and only if a report of that key against that pin was delivered and, since then, no other was and no other key matched its pin |
| CertPin.QuietIffLastReported | crates/hora-core/src/cert.rs:645-655 | with the pin left alone, that is: neither the pinned key was seen nor another key reported since |
| CertPin.EditedPinForgetsToRearm | crates/hora-core/src/cert.rs:686-689 | across pin edits the pinned key can have been seen since the report that keeps a check quiet |
| CertPin.UpgradeDoesNotRealert | crates/hora-core/src/cert.rs:678-682 | a key stored without its pin is not reported again |
| Slo.BurnUnderOneIff | crates/hora-core/src/slo.rs:33-41 | for all counts: a burn reads under 1x exactly when the downtime ratio is under the budget's, or the product saturates low; so the two agree if and only if it does not |
| Slo.WithinRatioLeavesBudget | crates/hora-core/src/slo.rs:43-74 | downtime within the ratio never makes the remaining minutes negative, through both floors |
| Slo.WithinRatioMeetsSlo | crates/hora-core/src/fmt.rs:70-75 | nor takes the displayed uptime below the target |
| Slo.BurnUnderOneMeetsTarget | crates/hora-core/src/slo.rs:29-74 | unless the product saturates low, a burn under 1x over the full window implies a remaining budget that is not negative and an uptime at or above the target |
| Slo.SaturationHidesTheBurn | crates/hora-core/src/slo.rs:40-40 | with counts no database holds, the product saturates low and a total outage reads as 0.1x |
| Slo.FullBudgetLastsAtMost | crates/hora-core/src/slo.rs:76-98 | a whole budget burnt at x times the sustainable rate is gone within an x-th of the window |
| Slo.BurnIsWithinATenth | crates/hora-core/src/slo.rs:33-41 | the burn rate is the exact ratio rounded down to a tenth, of a product cut at the saturation |
| Slo.MinutesAreWhole | crates/hora-core/src/slo.rs:43-74 | budget and consumption are the exact shares of the window rounded down to a minute |
| Slo.ExhaustedToTheSecond | crates/hora-core/src/slo.rs:76-98 | burning for the seconds answered does not exceed what is left, and one second more does |
| Slo.UptimeIsNearest | crates/hora-core/src/fmt.rs:70-75 | the displayed uptime is the nearest basis point |

## Left out

- Probes, TLS, proxies, plugins, the peers' protocol, notifier HTTP calls and markup: only their outcomes.
- The database, the configuration parser and the mesh; a row or setting used by a core is a parameter.
- Shutdown of the tasks themselves: a task that sees the signal simply takes no more steps.
- GroupingRouting.RecoveryGoesToWhoeverHeard: assumes a monitor stays configured while it is down, because removing it is meant to forget its routing.
- GroupingHistory.GroupingIsExact: a down drained at shutdown is never itself a cause, because the program does not mark it as sent.
- EndToEnd.ChannelsHearWhatTheyWereTold: assumes degraded alerts off, because with them on the promise fails; of an outage found open, no more had been sent than the database says, because the program writes to it first.
- The burn-rate thresholds and the alerts they raise: the flags that a tick ends with are given.
- Alerts.AnnouncedWhenDue: a message repeated because a crash interrupted its delivery in the channel is not modelled; sending to the coalescer is atomic.
- Whether a message reaches a channel it is sent to: being told means being sent to, as it does to the coalescer.
- The partition and isolated levels, used by peer watches only.
- Tune.WidestGap: compares ratios exactly where the program rounds them to 64-bit floats, so lengths whose ratios differ only past 53 bits may split elsewhere there.
- Latency advice of the tuning report (`round_up_nice`, its table): presentation.
- Leb128.Read: a tenth byte's bits beyond 64 are dropped, as the program's shift drops them, so not every blob that decodes is one that `encode` writes.
- Histogram counts past 64 bits: the program would panic or wrap.
- SingleFlight.BuiltOnce: a build's end, its insertion and its timestamp are one instant.
- The probe clients' cache, which holds a plain mutex across each call.
- Watchdog.Dispatcher.Dispatch: one clock reading per dispatch instead of one per channel; the alert's wording is not modelled.
- Messages.Fit: the urgency of a message, and its markup, which is applied afterwards.
- Rendering.EveryChannelFits: the phrases that only a headline carries (an expiry, a burn rate, a latency) are any text.
- Heartbeat.PunctualJobIsNeverMissed: asks that the runs concerned are computable, because an early ping before the last computable run cannot be told from a missed one.
- Failed reads or writes of the pin ledger, which the program logs and treats as quiet.
- Slo.BurnUnderOneMeetsTarget: the product of total and budget is not wrapped past 64 bits, where the program would panic or wrap.
- Flood protection, connection interleaving, timeline sorting, formatting, pages, the command line and the terminal interface: none of the pipeline's promises depends on them.
