# Sounding: a verified model

Sounding is a server monitor: agents report status and probe targets to a central server, the server
schedules probes, keeps history in SQLite, raises alerts and serves aggregated views to a dashboard. This
project models the parts of it where state, order and arithmetic interact, and proves what they keep over
whole runs.

Code that changes things step by step is modelled by methods and classes with the fields of the original
(`Alerts.Manager`, `ProbeTable.ProbeTasks`, `Scheduler.ProbeScheduler`, `Collector.NetCollector`, ...), each
tied to a specification function; the properties of whole runs are lemmas about those functions.

| file | models |
|---|---|
| `Text.dfy` | Go's string operations: trim, split, join, lower case, decimal numbers, lexicographic order |
| `Wire.dfy` | the probe list's printer and parser in the agent |
| `ProbeTable.dfy` | the `probe_tasks` table: agent upsert, administrator upsert, delete, seeding |
| `Winner.dfy`, `Echo.dfy` | the loop of serving, printing, parsing, reporting and upserting probe tasks |
| `Fleet.dfy` | that loop for several nodes interleaved, with turns in which the fetch fails |
| `Throttle.dfy` | the "not again before the period is over" rule shared by scheduler and alerts |
| `Scheduler.dfy`, `ProbePool.dfy` | the probe scheduler's ticks, and its goroutines and 32-slot semaphore |
| `Pacing.dfy` | how long blocked probes hold up the scheduler's ticks |
| `MuteWindows.dfy`, `Alerts.dfy` | silencing, the alert manager and its rule list |
| `AlertRules.dfy`, `Watcher.dfy` | rule persistence, startup and hooks; the watcher's ticks |
| `Timestamps.dfy`, `History.dfy`, `Queries.dfy` | timestamps as text, history tables, retention, windowed queries |
| `Stats.dfy`, `PingViews.dfy`, `PingSummaries.dfy` | statistics, the three latency views, the batched aggregation |
| `Collector.dfy` | network rates from counters |
| `Reconnect.dfy` | the dashboard's WebSocket reconnect loop |

Times and durations are integers (nanoseconds), floating-point numbers are exact reals, strings are sequences
of code points, and a table is the sequence of its rows in rowid or primary-key order.

## What the proofs found

* The echo results are for a node, not named `*`, that is served clean rows: each global row and each row of
  the node has a name and a target that are not empty, have no white space at an end and no comma, a name
  without colon and bar, and a type that is not empty and has no comma (`Echo.Servable`); local names have no
  bar. The administrator's endpoint does not enforce this, and without it the loop need not settle: global
  tasks named "p,q" and "r,q" both overwrite the node's task q on every report, although no name is contested
  (`Echo.CommaNamesOscillate`).
* For such a node the echo loop settles after one echo if and only if no name is contested
  (`Echo.EchoSettles`). A name is contested when two local entries of it aim at different targets that are also
  not the target of its global task, or when one such entry exists and the node's own row is older than the
  global one. The node's row of a contested name flips between targets on every report for ever
  (`Echo.OscillationExample`). Local names need not be distinct. The same condition decides when the turns of
  many nodes interleave and fetches fail in between, and a fleet without contested names comes to rest
  (`Fleet.FleetSettles`, `Fleet.FleetRests`).
* A clean probe survives the wire if and only if its type is in canonical spelling or, without a type, its
  target does not start like a type (`Wire.PartRoundTrip`). The administrator may store any text as a type. In
  a node's own task that shares its name with nothing, the next report puts a known type into its canonical
  spelling; an unknown one without a comma moves into the target, so a task of type foo and target h becomes
  an icmp task of target foo:h (`Echo.ForeignTypeMoves`, `Echo.ForeignTypeExample`).
* A tick that dispatches n probes holds the scheduler up for at most ceil(n / 32) times the longest a probe
  keeps its slot, and with the ticker's period this bounds the distance between ticks that the no-starvation
  result needs (`Pacing.PacedNoStarvation`).
* An event whose first rule is muted is dropped, even if a later rule applies to it and is not muted
  (`Alerts.EvaluatedExactly`); no delivery of any run stems from such a call (`Alerts.DeliveriesExplained`).
* A restart can change which rule an event meets, for three reasons: an emptied table is seeded again, the
  latency flag replaces the global latency rule with its silence and windows, or adds one, and the rules come
  back in primary-key order. `AlertRules.RestartKeepsDecision` states exactly when the decision stays;
  `AlertRules.RestartSeedsAgain`, `AlertRules.RestartOverrides` and `AlertRules.RestartReorders` are inputs
  for which it does not.
* The windowed history queries sort ascending before they cut, so an overfull window loses its newest rows
  (`Queries.SinceExactly`). The task list then shows the latest value of the rows left
  (`PingViews.LatestIsStale`), for instance the second to last of 20001 (`PingViews.StaleLatestExample`).
* For a task without records the dashboard summary shows 100 % loss, the task list 0 %
  (`PingViews.SummaryAgrees`).
* Mute windows compare as text. Every endpoint, whatever it is, stands for some minute
  (`MuteWindows.ReachesExactly`), a zero-padded one for its own, one with a one-digit hour never
  (`MuteWindows.UnpaddedIsAnother`): "9:00-17:00" mutes everything from midnight to 16:59
  (`MuteWindows.NineToFive`).

## Model

| member | source | states |
|---|---|---|
| `Text.ClientKeyInjective` | internal/probe/scheduler.go:69 | two `client\|id` keys are equal only for the same client and the same id, whatever characters the client holds |
| `Text.ItoaExactly` | internal/probe/scheduler.go:69 | a number is written as its decimal digits without leading zeros, after a minus if it is negative |
| `Text.LessExactly` | internal/alert/alert.go:36-40 | strings are ordered by their first difference, a proper prefix before what it begins |
| `Text.TrimExactly` | cmd/agent/main.go:182 | trimming takes away the white space at both ends and nothing else |
| `Wire.PrintRemoteProbes` | cmd/agent/main.go:129-140 | the loop prints exactly the tasks with a name and a target, typed ones with their type, joined by commas |
| `Wire.PrintedExactly` | cmd/agent/main.go:129-140 | for any tasks: the printed pieces are those of the tasks with a name and a target, in order, each name, type if there is one, and target joined by colons |
| `Wire.ParseOne` | cmd/agent/main.go:181-197 | one piece is read by its first two colons if the text between them is a probe type in any spelling, else by its first colon; empty names and targets are dropped |
| `Wire.RecognisedExactly` | cmd/agent/main.go:102 | the types the agent knows are icmp, ping, tcp, http, https and dns, each in any case and with white space around it, and no other text is one |
| `Wire.PieceWithType` | cmd/agent/main.go:182-189 | any piece whose text between the first two colons spells one of the six types is a probe of that type, with what stands before and behind as name and target, unless one of these is blank |
| `Wire.PieceWithoutType` | cmd/agent/main.go:190-191 | in any other piece with a colon all that follows the first colon is the target |
| `Wire.PieceWithoutColon` | cmd/agent/main.go:192-194 | a piece without a colon is no probe |
| `Wire.TcpExample` | cmd/agent/main.go:188-189 | web:tcp:10.0.0.1:443 is a tcp probe named web of target 10.0.0.1:443 |
| `Wire.ParsePieces` | cmd/agent/main.go:180-204 | the loop with its `seen` set keeps exactly the first probe of each (name, target) key, in order |
| `Wire.DedupeExactly` | cmd/agent/main.go:198-203 | of the probes that share name and target exactly the first one stays, in order, for any list |
| `Wire.ParseProbes` | cmd/agent/main.go:175-206 | the whole parser, including the empty string |
| `Wire.PartRoundTrip` | cmd/agent/main.go:134-189 | a probe with clean name and target is read back unchanged if and only if it is faithful: canonical type, or no type and a target that does not start like one |
| `Wire.PrintedShape` | cmd/agent/main.go:186-197 | whatever its type, a clean typed probe is read back as some probe of the same name with a clean target and an empty or canonical type |
| `Wire.ReadBack` | cmd/agent/main.go:186-191 | what any clean typed probe is read back as: a known type in its canonical spelling, an unknown one as part of the target without a type; of a type with a colon the part behind it belongs to the target |
| `Wire.ReadBackExample` | cmd/agent/main.go:186-191 | a concrete probe, of type foo, that does not survive the wire |
| `Wire.WireRoundTrip` | cmd/agent/main.go:129-206 | parsing the printed list gives back the same list in order if and only if every probe is faithful, for every list of clean probes with distinct (name, target) pairs |
| `Wire.ParseJoined` | cmd/agent/main.go:79-89 | parsing served tasks and local list joined by a comma gives the served ones, then the local ones, first occurrences kept |
| `ProbeTable.ProbeTasks.UpsertProbeTask` | internal/store/adapters.go:270-279 | the agent's upsert keeps id and interval of an existing row and creates a missing one under a fresh id |
| `ProbeTable.ProbeTasks.AdminUpsertProbeInterval` | internal/store/adapters.go:437-452 | the administrator's upsert also sets the interval; an empty type becomes icmp, an interval of zero or less 60 |
| `ProbeTable.ProbeTasks.AdminDeleteProbe` | internal/store/adapters.go:484-487 | the delete removes exactly the rows of the (client, name), keeping the order of the rest |
| `ProbeTable.ProbeTasks.SeedProbeTasks` | internal/store/store.go:154-165 | inserts the three demonstration tasks for every client unless a row of the (client, name) exists |
| `ProbeTable.SeededFresh` | internal/store/store.go:154-165 | the three rows a fresh database is seeded with |
| `ProbeTable.ProbeTasks.VisibleTo` | internal/store/adapters.go:224-244 | a client sees the global rows and its own, enabled or not, in id order |
| `ProbeTable.UpsertLookup` | internal/store/adapters.go:275-277 | what an upsert does to the row of every key: the one named gets the new contents, every other row stays |
| `ProbeTable.AgentRow` | internal/store/adapters.go:270-279 | field by field: after the agent's upsert the row holds target, type and enabled flag as given, and the old id and interval, or a fresh id and the interval given; no other row changes |
| `ProbeTable.AdminRow` | internal/store/adapters.go:437-452 | field by field: after the administrator's upsert the row holds target, type (icmp if empty), interval (60 if not positive) and enabled flag as given, and the old id or a fresh one; no other row changes |
| `ProbeTable.DeleteLookup` | internal/store/adapters.go:484-487 | a delete removes the row of its key and no other |
| `ProbeTable.InsertOrIgnoreLookup` | internal/store/store.go:160 | seeding keeps the row of every key that has one, and adds the seeded row otherwise |
| `ProbeTable.SeededIsRun` | internal/store/store.go:154-165 | seeding is a run of the operations that the results over runs speak about |
| `ProbeTable.IdsNeverReused` | internal/store/store.go:175-191 | over any interleaving of reports, seeding, upserts and deletes (client, name) stays unique and an id, once drawn, never names another (client, name) |
| `ProbeTable.ReportsKeepInterval` | internal/store/adapters.go:267-279 | any number of agent reports and seedings keeps the interval of an existing row and creates a missing one with 60 s |
| `ProbeTable.IntervalOwnership` | internal/store/adapters.go:267-279 | over any interleaving, split after the administrator's last operation on the key, the interval is the value set there, 60 s if that is not positive, or the 60 s of the report or seeding that created the row since |
| `ProbeTable.LastWriter` | internal/store/adapters.go:437-452 | over any interleaving, target, type and enabled flag of a row are those of the last report or administrator's set of its key |
| `Winner.WinningAfter` | cmd/agent/main.go:198-203 | reports added to a list change the winning target exactly if one of them brings a new target, and then the winner is one of those |
| `Winner.NameSettles` | internal/store/adapters.go:267-279 | for one name the second echo repeats the first if and only if the name is not contested, decided before the first echo |
| `Echo.ReceiveReport` | internal/api/agent.go:95-104 | the report loop upserts every probe with name and target under the node, with 60 s and enabled, an empty type as icmp |
| `Echo.ReceivedProbe` | internal/api/agent.go:96-103 | a reported probe without name or target changes nothing; any other sets target, type (icmp if empty) and enabled in the node's row of its name, under the old id and interval or as a new row with 60 s, and changes no other row |
| `Echo.ServeConfig` | cmd/server/main.go:200-201 | the config handler serves name, target and type of the visible rows in id order |
| `Echo.EchoTurn` | cmd/agent/main.go:86-89 | one turn of the agent against the server, fetch to upsert, is one step of the loop that the convergence results speak about |
| `Echo.ReportedIsOffered` | cmd/agent/main.go:79-89 | of clean rows the wire loses nothing: the agent reports exactly the visible rows as it reads them, then its local list, each (name, target) once |
| `Echo.ReceivedName` | internal/api/agent.go:95-104 | after a report the node's row of a name holds the last report whose target was new, under its old id and interval, or under a new id with 60 s |
| `Echo.ReceivedRows` | internal/store/adapters.go:267-279 | a report keeps every row's id and key, changes no row of another client, and appends only rows of the reporting node under new ids |
| `Echo.EchoName` | cmd/agent/main.go:86-89 | for a node served clean rows, one echo takes its row of each name to the winner among everything offered under the name, and leaves the global row and the age order of the two as they were |
| `Echo.EchoReady` | internal/store/adapters.go:267-279 | an echo of clean rows leaves clean rows, on which it can be repeated |
| `Echo.NameUnchanged` | internal/store/adapters.go:267-279 | for a node served clean rows, the second echo leaves the row of a name unchanged if and only if the name is not contested |
| `Echo.EchoIdempotent` | cmd/agent/main.go:81-89 | for a node served clean rows, the second echo leaves the whole table unchanged if and only if no name is contested |
| `Echo.EchoSettles` | cmd/agent/main.go:81-89 | for a node served clean rows, in a run of any length, every echo after the first leaves the table unchanged if no name was contested at the start, and every one changes it if some name was |
| `Echo.DistinctLocalNamesSettle` | cmd/agent/main.go:79-89 | for a node served clean rows, with pairwise distinct local names that are not global the loop settles |
| `Echo.ThirdTargetOscillates` | cmd/agent/main.go:79-89 | for a node served clean rows, a local target that differs from the global one, for a name whose own row is older than the global row, makes the loop oscillate for ever |
| `Echo.OscillationExample` | cmd/agent/main.go:79-89 | a concrete table and local list for which every echo changes the table |
| `Echo.CommaPiece` | cmd/agent/main.go:181-197 | on the wire a probe whose name holds a comma is read as a probe named by the part behind it |
| `Echo.CommaNamesOscillate` | cmd/agent/main.go:79-89 | a concrete valid table with two such global names, no contested name and no local list, that every echo after the first changes |
| `Echo.OwnRowEchoed` | cmd/agent/main.go:86-89 | a clean row of a node that shares its name with no global task and no local entry is left by one echo as the agent read it, enabled, under its id and interval |
| `Echo.KnownTypeStays` | cmd/agent/main.go:188-189 | for a node served clean rows, an own task of one of the six types that shares its name with nothing comes back from every echo as it was, enabled |
| `Echo.ForeignTypeMoves` | internal/api/agent.go:99-103 | for a node served clean rows, one echo puts a known type into its canonical spelling, and turns a task of an unknown type into an icmp task whose target is type and target joined by a colon, for every type text without a comma |
| `Echo.ForeignTypeExample` | internal/api/agent.go:99-103 | a concrete table in which a task of type foo and target h becomes an icmp task of target foo:h |
| `Fleet.LocalTurn` | cmd/agent/main.go:86-89 | a turn after a failed fetch reports the local list alone |
| `Fleet.FailedTurnName` | cmd/agent/main.go:86-89 | after a failed fetch the node's row of a name is the winner among its local entries of that name, and as it was if there are none |
| `Fleet.TurnReady` | cmd/agent/main.go:79-89 | no turn, of whatever node and with or without the remote list, makes the rows unclean that another node is served |
| `Fleet.TurnStanding` | internal/store/adapters.go:267-279 | nor changes what decides whether a name of any node is contested |
| `Fleet.TurnOther` | internal/store/adapters.go:275-277 | a turn changes no row of another node |
| `Fleet.FleetSettles` | cmd/agent/main.go:81-89 | after any interleaving of turns of nodes served clean rows, with and without the remote list, in which the node's last turn had it, the node's next echo leaves the table unchanged if and only if none of its names was contested at the start |
| `Fleet.FleetRests` | cmd/agent/main.go:81-89 | once the last turn of every node had the remote list and no name is contested, no further sequence of echoes in any order changes the table |
| `Throttle.FiredSpaced` | internal/probe/scheduler.go:70-73 | any two firings of one key are at least the later one's period apart |
| `Throttle.FiredCount` | internal/probe/scheduler.go:70-73 | at most 1 + floor(span / period) firings fit into a span |
| `Throttle.FiredOften` | internal/alert/alert.go:111-133 | a key attended to often enough fires first at once, then in less than period + gap + drift, and is never a whole period behind |
| `Throttle.RoundsAttended` | internal/probe/scheduler.go:53-76 | attempts made in regular ticks come often enough for that |
| `Scheduler.Clients` | internal/probe/scheduler.go:82-102 | the client list holds the stored and the extra clients, each once, without the empty name, and no other |
| `Scheduler.DistinctInOrder` | internal/probe/scheduler.go:82-102 | the clients come in the order in which their names stand there first |
| `Scheduler.ProbeScheduler.RunClient` | internal/probe/scheduler.go:61-75 | the inner loop takes the chances of one client's enabled tasks in order against `lastRun` |
| `Scheduler.TakenInOrder` | internal/probe/scheduler.go:61-75 | what the inner loop dispatches, it dispatches in the order of the client's list |
| `Scheduler.ClientsInTurn` | internal/probe/scheduler.go:56-76 | the clients have their turns one after the other, in the order of their list |
| `Scheduler.ProbeScheduler.RunTick` | internal/probe/scheduler.go:53-76 | a tick takes the chances of all clients in order, skipping clients whose list cannot be loaded |
| `Scheduler.KeyIsThrottled` | internal/probe/scheduler.go:69-74 | for each (client, task id) the loop is a throttle of its own: no two pairs share an entry of `lastRun` |
| `Scheduler.SchedulerSpacing` | internal/probe/scheduler.go:45-79 | in every run any two dispatches of one (client, task id) are at least the interval of the later one's task apart, 60 s when that is not positive, even if a list repeats the task |
| `Scheduler.SchedulerRate` | internal/probe/scheduler.go:45-79 | at most 1 + floor(span / period) dispatches of a key in a span, when no interval of its tasks, 60 s when unset, is below the period |
| `Scheduler.SchedulerNoStarvation` | internal/probe/scheduler.go:53-76 | a task listed at every tick is dispatched at the first tick, then less than period + gap apart, and is never a whole period behind |
| `Scheduler.TickDispatchesDueKeys` | internal/probe/scheduler.go:53-102 | from any state a tick dispatches exactly the due keys of the listed clients, each exactly once, and nothing but enabled tasks of their lists; a key is due if it never ran or its task's interval, 60 s when unset, is over |
| `ProbePool.StepAccounted` | internal/probe/scheduler.go:105-129 | every step keeps the books: tokens held are the goroutines alive, at most 32, and every scheduled dispatch is recorded, in flight, dropped or waiting |
| `ProbePool.RunAccounted` | internal/probe/scheduler.go:105-129 | so in every run of every interleaving |
| `ProbePool.SlotsExactly` | internal/probe/scheduler.go:106-113 | in every reachable state at most 32 probes are in flight, a waiting call can be admitted exactly if fewer are, and it can give up, as drops did, exactly if the context is cancelled |
| `ProbePool.InternalStepProgresses` | internal/probe/scheduler.go:111-115 | every step the pool takes by itself shortens the work left |
| `ProbePool.NoDeadlock` | internal/probe/scheduler.go:105-115 | in every reachable state some step is possible, unless nothing waits or runs and every scheduled dispatch was finished or dropped |
| `ProbePool.LoopAccounted` | internal/probe/scheduler.go:70-115 | when calls are made in the order of some list of dispatches, those made so far are at every moment exactly the recorded, in flight, dropped and waiting ones, and in the end the finished and the dropped ones |
| `Pacing.WaitsForSlot` | internal/probe/scheduler.go:105-115 | a call of `schedule` that gets a slot as soon as one is free waits at most until the call 32 before it has given its slot back |
| `Pacing.AdmittedWithin` | internal/probe/scheduler.go:61-75 | the m-th call of a tick gets its slot at most m / 32 + 1 holds after the tick was read |
| `Pacing.DoneWithin` | internal/probe/scheduler.go:53-76 | a tick of n calls is done at most ceil(n / 32) holds after it was read |
| `Pacing.GapBounded` | internal/probe/scheduler.go:47-53 | ticks the loop acts on are at most one period of the ticker and the longest tick apart, though the ticker drops ticks while the loop is blocked |
| `Pacing.PacedNoStarvation` | internal/probe/scheduler.go:45-119 | a task listed at every tick is dispatched at the first, and then less than its interval, one period of the ticker and ceil(n / 32) holds apart, when a tick dispatches at most n probes and a probe keeps its slot for at most one hold |
| `MuteWindows.CheckWindow` | internal/alert/alert.go:31-42 | one window against the wall-clock text, across midnight if its start is after its end |
| `MuteWindows.CheckWindows` | internal/alert/alert.go:30-43 | the loop finds a covering window if there is one |
| `MuteWindows.CheckSilenced` | internal/alert/alert.go:23-45 | finds out whether the deadline is ahead or some window covers the wall-clock text |
| `MuteWindows.WindowReads` | internal/alert/alert.go:31-42 | a window is read as the texts on the two sides of its first dash without the white space around them, and covers a clock text from the first up to before the second, or the complement if the second is the lower one |
| `MuteWindows.ClockOrder` | internal/alert/alert.go:29 | comparing wall-clock texts is comparing minutes of the day |
| `MuteWindows.CutsSomewhere` | internal/alert/alert.go:36-40 | every text, whatever it is, splits the day into the minutes before and from some minute on |
| `MuteWindows.ReachesExactly` | internal/alert/alert.go:36-40 | for which texts an endpoint stands for a given minute |
| `MuteWindows.PaddedIsItself` | internal/alert/alert.go:19 | a zero-padded HH:MM stands for its own minute |
| `MuteWindows.UnpaddedIsAnother` | internal/alert/alert.go:36-40 | an hour written with one digit never stands for its minute, but for 10:00, 20:00 or the end of the day |
| `MuteWindows.CoversIsMutes` | internal/alert/alert.go:31-42 | every window mutes exactly the minutes between those its endpoints stand for, across midnight if the end comes first, and nothing without a dash |
| `MuteWindows.WindowIsArc` | internal/alert/alert.go:31-42 | any window mutes exactly the half-open circular interval between two different minutes if and only if it has a dash and its endpoints stand for them |
| `MuteWindows.SilencedExactly` | internal/alert/alert.go:23-45 | any rule is silenced if and only if its deadline is strictly ahead or one of its windows mutes the minute of the day, told from the clock in nanoseconds |
| `MuteWindows.WindowsPartitionTheDay` | internal/alert/alert.go:36-42 | for different zero-padded endpoints every minute lies in exactly one of a-b and b-a; equal endpoints mute nothing |
| `MuteWindows.NineToFive` | internal/alert/alert.go:36-42 | "9:00-17:00" covers exactly the minutes before 17:00 |
| `MuteWindows.TenToMidnight` | internal/alert/alert.go:36-42 | "22:00-24:00" covers exactly the minutes from 22:00 on |
| `Alerts.Manager.constructor` | internal/alert/alert.go:68-73 | a cooldown of zero or less becomes five minutes; nothing has been sent |
| `Alerts.Manager.Rules` | internal/alert/alert.go:76-80 | the rules in their order |
| `Alerts.Manager.SetRule` | internal/alert/alert.go:83-93 | the first rule of the same kind and node is replaced in place, otherwise the rule is appended; nothing else changes |
| `Alerts.CompactWhere` | internal/alert/alert.go:99-104 | compaction in place, reading ahead of the write position, leaves exactly the order-preserving filter, for any test |
| `Alerts.Compact` | internal/alert/alert.go:99-105 | compaction by (kind, node) leaves exactly the rules of the other keys, in order |
| `Alerts.Manager.DeleteRule` | internal/alert/alert.go:96-106 | the rule list becomes its order-preserving filter; stamps and deliveries stay |
| `Alerts.Manager.FindFirst` | internal/alert/alert.go:116-128 | the scan finds the first rule that matches kind, node or `*`, and threshold |
| `Alerts.FirstMatchExactly` | internal/alert/alert.go:117-127 | the rule met is the first one of the event's kind, for its node or `*`, whose threshold is reached, and none is met exactly if there is no such rule |
| `Alerts.Manager.Evaluate` | internal/alert/alert.go:109-135 | delivers and stamps exactly when the cooldown is over, the first matching rule exists and is not silenced, and there is a notifier; otherwise changes nothing |
| `Alerts.EvaluatedExactly` | internal/alert/alert.go:109-133 | a call with a known first rule delivers the event with the rule's threshold and stamps the key if and only if the cooldown of its (kind, node) is over, neither the rule's deadline nor a window of it mutes the minute, and there is a notifier; otherwise it changes nothing |
| `Alerts.EvaluatedInVain` | internal/alert/alert.go:129-132 | a call to which no rule applies changes nothing |
| `Alerts.HotExactly` | internal/alert/alert.go:117-132 | a call would be delivered but for the cooldown if and only if there is a notifier and a rule applies first that does not mute the minute |
| `Alerts.DeliveriesExplained` | internal/alert/alert.go:109-133 | in every run, with rule edits in between, each delivery stems from a call and carries its event and the threshold of the rule that applied first at that time; none stems from a call whose first rule was muted |
| `Alerts.DeleteKeepsDecisions` | internal/alert/alert.go:96-106 | deleting a rule changes what an event meets first if and only if the deleted rule was it |
| `Alerts.DeliveriesAreFired` | internal/alert/alert.go:111-133 | for each key the manager is a throttle over the calls that meet an unsilenced rule, whatever rule edits come in between |
| `Alerts.DeliveriesSpaced` | internal/alert/alert.go:111-133 | in every run two deliveries for one (kind, node) are stamped at least the cooldown apart, so at most 1 + floor(span / cooldown) in a span |
| `Alerts.DeliveredAgain` | internal/alert/alert.go:109-135 | a (kind, node) evaluated often enough against an unsilenced rule is delivered at the first such call and again within cooldown + gap + drift |
| `Alerts.EventKeysDistinct` | internal/alert/alert.go:111 | kinds without a bar never share a key |
| `AlertRules.RuleTable.LoadAlertRules` | internal/store/alerts.go:10-29 | all rows, in strictly ascending primary-key order and so with unique keys; every statement of the table keeps that order |
| `AlertRules.RuleTable.SaveAlertRule` | internal/store/alerts.go:32-38 | insert or replace by (kind, node), other rows untouched and in order |
| `AlertRules.RuleTable.DeleteAlertRule` | internal/store/alerts.go:41-44 | removes the row of the (kind, node) and no other |
| `AlertRules.SavedRuleFor` | internal/store/alerts.go:32-38 | saving sets the rule of its key and of no other |
| `AlertRules.SeedTable` | cmd/server/main.go:109-119 | an empty table is seeded with the rules the flags ask for, and agrees with the list |
| `AlertRules.OverrideRule` | cmd/server/main.go:124-133 | the loop overwrites the rule of the key in a list of unique keys, or appends it |
| `AlertRules.Startup` | cmd/server/main.go:104-134 | the list handed to the manager is the loaded, seeded or overridden one, and denotes the same map as the table |
| `AlertRules.StartRule` | cmd/server/main.go:104-134 | key by key, what the server starts with: the latency flag's bare rule, the stored rule, or for an empty table the bare rules for offline (1), if asked for, and loss (100) |
| `AlertRules.Hook` | cmd/server/main.go:165-173 | a set or delete through manager and table changes both alike and keeps them in agreement |
| `AlertRules.HooksKeepAgreement` | cmd/server/main.go:165-173 | after any serial sequence of hooks the list has unique keys and denotes the same map as the table |
| `AlertRules.FirstOfTwo` | internal/alert/alert.go:118-128 | with unique keys an event meets the node's rule or the global one, whichever matching one stands first |
| `AlertRules.FirstAfterRestart` | cmd/server/main.go:104-134 | what an event meets after a restart: the node's rule or the global one as the flag left it, the node's first if its name is below `*` or the flag appended the global one |
| `AlertRules.RestartKeepsDecision` | cmd/server/main.go:104-134 | with the seeding, the override and the reload of a restart, an event meets the same rule first as before if and only if the stated condition on table, list order and flags holds |
| `AlertRules.RestartSeedsAgain` | cmd/server/main.go:109-119 | with all rules deleted a loss event meets none, and meets one after a restart |
| `AlertRules.RestartOverrides` | cmd/server/main.go:120-134 | an event above a global latency rule meets it, and none after a restart with a higher flag |
| `AlertRules.RestartReorders` | internal/store/alerts.go:11 | two rules set through the hooks, of which the running manager meets one first and the restarted one the other |
| `Watcher.WatchPings` | internal/alert/watcher.go:43-49 | one node's ping entries become loss or latency events, evaluated in order |
| `Watcher.WatchSnapshot` | internal/alert/watcher.go:40-49 | one node's offline event comes before its ping events |
| `Watcher.SnapshotExactly` | internal/alert/watcher.go:40-49 | a node's events are one offline event of value 1 if it is offline, and then per ping entry in order a loss of 100 for a negative value and otherwise a latency of the value, all naming the node |
| `Watcher.TickEventsConcat` | internal/alert/watcher.go:39-50 | a tick's events are those of its snapshots one after the other |
| `Watcher.WatchTick` | internal/alert/watcher.go:35-50 | a tick evaluates exactly the events of all snapshots in order |
| `Watcher.TicksAreRun` | internal/alert/watcher.go:32-52 | any number of ticks is a run of the manager, one call per event in order |
| `Watcher.OfflineNodeIsReported` | internal/alert/watcher.go:34-50 | a node that stays offline is reported at least once, never twice within the cooldown, and again in less than cooldown + gap + 2 drift |
| `Timestamps.BeforeIsEarlier` | internal/store/retention.go:14 | field-by-field order of two readings is the order of their instants in the proleptic Gregorian calendar |
| `Timestamps.InstantExactly` | internal/store/retention.go:14 | the instant counts the days of the Gregorian calendar, leap years included, in closed form |
| `Timestamps.PrintExactly` | internal/store/retention.go:14 | a stamp is printed as YYYY-MM-DDThh:mm:ss and the zone, each field with its value |
| `Timestamps.PrintOrder` | internal/store/retention.go:14-20 | lexicographic order of RFC 3339 texts of one zone offset and four-digit years is chronological order, strictly and weakly |
| `History.HistoryStore.InsertStatus` | internal/store/adapters.go:391-397 | appends one row under the next rowid |
| `History.HistoryStore.UpsertNode` | internal/store/adapters.go:309-335 | the node is in the table afterwards, once |
| `History.HistoryStore.ReceiveStatus` | internal/api/agent.go:86-94 | a report registers its node and then appends its status, so that every client with a status is a node |
| `History.HistoryStore.InsertProbe` | internal/store/adapters.go:282-285 | appends one row under the next rowid |
| `History.HistoryStore.Purge` | internal/store/retention.go:10-26 | removes from both tables exactly the rows older than the cutoff, 30 days when unset, and returns rows before minus rows after |
| `History.HistoryStore.AdminDeleteNode` | internal/store/adapters.go:508-514 | removes exactly the node's status rows and the node, so that every client with a status stays a node; probe records stay |
| `History.HistoryStore.LatestStatus` | internal/store/adapters.go:38-55 | the newest row of each client |
| `History.LatestIsMaxRowid` | internal/store/adapters.go:39-40 | a client has an entry exactly when it has a row, and the entry is its row of the greatest rowid |
| `History.LatestOfPurged` | internal/store/retention.go:14-20 | retention and "latest" commute on rows in time order: a purge keeps a client's newest row or all its rows go |
| `History.LatestOverRuns` | internal/store/adapters.go:38-55 | over every run of inserts, purges and node deletions the history answers "latest" like a store of one row per client |
| `History.LatestIsNewestReport` | internal/store/adapters.go:38-55 | in every run a client's latest status is its most recently inserted report or missing, never an older one, and missing exactly when that report was deleted or purged since |
| `History.StampedRunsAreSteady` | internal/store/adapters.go:394 | inserts stamped by a non-decreasing clock with one offset are in text order |
| `History.PurgeByTime` | internal/store/retention.go:14-20 | a purge keeps exactly the rows whose instant is not before the cutoff's |
| `Queries.RecordsSince` | internal/store/records.go:11-43 | one hour and 1000 rows unless asked for otherwise within 5000: the answer holds, in time order and within the limit, rows of the client not older than the cutoff; such rows are missing only if the limit is reached, and none of them is older than a returned one |
| `Queries.ProbeRecordsSince` | internal/store/records.go:46-82 | the same for probe records, with 5000 rows up to 20000 and the task filter, which a task id of zero or less switches off |
| `Queries.SortAscShape` | internal/store/records.go:26 | ORDER BY time ASC is an ordered permutation |
| `Queries.WindowExactly` | internal/store/records.go:18-25 | the window holds exactly the rows not older than the cutoff that pass the filters, as they stand |
| `Queries.SinceExactly` | internal/store/records.go:18-41 | the answer is in time order and holds only rows of the window; with the rows cut off it is the whole window; nothing is cut off exactly when the window fits; and no cut-off row is older than a returned one |
| `Queries.SinceOfOrdered` | internal/store/records.go:18-41 | on rows inserted by a steady clock the answer is the first rows of the window as they stand |
| `Queries.SinceByInstant` | internal/store/records.go:18-26 | on stamped rows the query selects by instant and answers in the order of instants |
| `Stats.SortedCopy` | internal/api/rpc_komari.go:707-708 | an ordered permutation of the samples |
| `Stats.ComputePercentile` | internal/api/rpc_komari.go:703-717 | the sample of the clamped rank, zero without samples |
| `Stats.PercentileIsNearestRank` | internal/api/rpc_komari.go:703-717 | a value is the percentile if and only if at least rank-many samples are at most it and fewer are below it |
| `Stats.RankExactly` | internal/api/rpc_komari.go:709-715 | the rank is k exactly if p lies above the share of k - 1 samples and not above that of k, with the clamps for all other p |
| `Stats.PercentileExactly` | internal/api/rpc_komari.go:703-717 | for every p, a value is the percentile if and only if at least k samples are at most it and fewer are below it, where k samples are the first to make up p percent |
| `Stats.PercentilePermuted` | internal/api/rpc_komari.go:707-708 | the percentile does not depend on the order of the samples |
| `Stats.PercentileMonotone` | internal/api/rpc_komari.go:709-716 | the percentile grows with p |
| `Stats.ComputeStats` | internal/api/rpc_komari.go:682-701 | minimum, maximum, mean and mean squared deviation of the samples |
| `Stats.VarianceExactly` | internal/api/rpc_komari.go:694-699 | mean of the squared deviations is mean of the squares less square of the mean |
| `Stats.StatsOrder` | internal/api/rpc_komari.go:682-717 | min <= p-th <= q-th percentile <= max for p <= q, min <= mean <= max, and the variance is not negative |
| `PingViews.SummarizePing` | internal/store/adapters.go:165-202 | the summary of a window, newest first, with its cases of no sample and no successful sample |
| `PingViews.ValidExactly` | internal/store/adapters.go:172-179 | the successful samples are exactly the values that are not negative, in order |
| `PingViews.SummaryExactly` | internal/store/adapters.go:165-202 | with a successful sample: the newest value, lost or not, as the latest; the share of negative values in percent as the loss; minimum, maximum and mean of the successful samples |
| `PingViews.TailExactly` | internal/store/adapters.go:198-200 | the tail is the k-th smallest successful sample by counts, k - 1 being 95 % of the other samples rounded down |
| `PingViews.TailExample` | internal/store/adapters.go:198-200 | of the samples 20, 19, ..., 1 the tail is 19 |
| `PingViews.SummaryOfLost` | internal/store/adapters.go:167-184 | a window without a successful sample, empty or not, has loss 100, latest -1 and zeros |
| `PingViews.TailIndexInRange` | internal/store/adapters.go:200 | the tail index is always inside the sorted samples |
| `PingViews.SummaryOrder` | internal/store/adapters.go:180-201 | min <= tail <= max, min <= avg <= max and the loss lies in 0..100 |
| `PingViews.TaskFigures` | internal/api/rpc_komari.go:366-386 | the task list's figures are those of the metric statistics with the loss as a percentage |
| `PingViews.MetricFigures` | internal/api/rpc_komari.go:621-651 | the metric statistics of one task |
| `PingViews.FiguresExactly` | internal/api/rpc_komari.go:366-386 | with a successful sample: counts, latest, share of negative values, minimum, maximum, mean and variance of the successful samples, and p99 / p50, 0 for a p50 of 0 |
| `PingViews.FiguresPercentiles` | internal/api/rpc_komari.go:381-382 | p50 and p99 are the k-th and l-th smallest successful samples by counts, where k and l samples are the first to make up 50 and 99 percent |
| `PingViews.FiguresOfLost` | internal/api/rpc_komari.go:366-386 | without a successful sample all figures are zero but the count, the latest value and, if there is a record, the loss |
| `PingViews.Series` | internal/api/rpc_komari.go:559-581 | the latency series holds the successful samples in order, the loss series one point per record |
| `PingViews.LossAgrees` | internal/api/rpc_komari.go:572-579 | the loss ratio is the mean of the loss series, and its points count the records |
| `PingViews.SummaryAgrees` | internal/store/adapters.go:165-202 | summary and task list agree on min, max and mean always, on the loss if and only if there is a record, and on the latest value if and only if there is one and an all-lost window ends in -1 |
| `PingViews.GroupByTask` | internal/api/rpc_komari.go:351-359 | one pass gives each task exactly the order-preserving filter of the records, and an entry only to tasks that have some |
| `PingViews.TaskRecordsExactly` | internal/api/rpc_komari.go:351-359 | a task's group holds exactly the records with its id, in their order |
| `PingViews.GroupsPartition` | internal/api/rpc_komari.go:351-359 | the group sizes add up to the number of records |
| `PingViews.NamesById` | internal/api/rpc_komari.go:606-611 | the two maps give each known id the name and type of its task |
| `PingViews.BuildPingTasks` | internal/api/rpc_komari.go:342-396 | one entry per task shown to the client, in order, with its name, type and interval, the figures of exactly its own records and the sorted list of the clients that made them |
| `PingViews.InfosExactly` | internal/api/rpc_komari.go:361-364 | exactly the tasks that are global, of the client asked for, or any if none is asked for, have an entry, in order |
| `PingViews.InfoExactly` | internal/api/rpc_komari.go:366-396 | an entry carries its task's fields, the figures of the records with its id, the loss in percent, and the clients of those records in ascending order |
| `PingViews.CollectClients` | internal/api/rpc_komari.go:352-358 | the clients of some records, sorted, each once and no other |
| `PingViews.TaskListIsWhole` | internal/api/rpc_komari.go:347-379 | the task list computes a task's figures from all its records of the window if and only if the limit cuts off none of them |
| `PingViews.LatestIsStale` | internal/api/rpc_komari.go:368-375 | if it cuts off some, the latest value should be that of the newest cut record but is that of the newest one left, which is no newer than any record cut off |
| `PingViews.StaleLatestExample` | internal/api/rpc_komari.go:347-375 | 20001 concrete records of one task for which the list shows the second to last value as the latest |
| `PingViews.PingMetricStats` | internal/api/rpc_komari.go:606-651 | an entry for exactly the tasks with records, each with the figures of its own records and the name and type of its task, empty if the task is gone |
| `PingViews.StatsForExactly` | internal/api/rpc_komari.go:606-651 | an entry has name and type of the last task with its id, or empty ones if there is none |
| `PingSummaries.RankedDescending` | internal/store/adapters.go:126-128 | the rowids of one (client, task) newest first by time and rowid |
| `PingSummaries.RowNumberOfRanked` | internal/store/adapters.go:127 | ROW_NUMBER over the partition is the place in that order |
| `PingSummaries.BatchedIsNewest` | internal/store/adapters.go:126-129 | in every answer to the grouped query the rows of a pair are the 150 newest values of exactly that pair, newest first |
| `PingSummaries.BatchSize` | internal/store/adapters.go:126-129 | in every answer a pair has all its records, or 150 if it has more |
| `PingSummaries.BatchOrder` | internal/store/adapters.go:126-129 | the k-th row of a pair, from zero, is a record of the pair with exactly k newer ones, by time and then by rowid |
| `PingSummaries.AnswerExists` | internal/store/adapters.go:126-129 | every table has an answer to the grouped query, so the results about answers apply to every table |
| `PingSummaries.NewerByInstant` | internal/store/adapters.go:127 | on stamped rows the order of the query is by instant, then by rowid |
| `PingSummaries.NewestOfSteadyClock` | internal/store/adapters.go:126-129 | with probes recorded in time order these are the last 150 recorded, read backwards |
| `PingSummaries.GroupRows` | internal/store/adapters.go:134-147 | one pass with `client\|id` keys gives every pair exactly its own rows |
| `PingSummaries.ClientSummaries` | internal/store/adapters.go:151-159 | one client's entries: one per enabled visible task under its id, and no other |
| `PingSummaries.ComputeSummaries` | internal/store/adapters.go:102-162 | the batched form refines the simple one: for every client asked for and every enabled task that is global or the client's, and for no other pair, it returns the summary of that pair's 150 newest values; a client without such tasks has no entry |
| `Collector.NetCollector.CollectNet` | internal/collect/collector.go:105-123 | the rates of one sample and the new baseline; the unsigned subtractions stay in range |
| `Collector.StepExactly` | internal/collect/collector.go:111-118 | a step whose clock advanced and whose counters did not go back, moved or not, reports the bytes moved per second, and every other step reports zero |
| `Collector.ReportedIsUsed` | internal/collect/collector.go:111-119 | rate times elapsed time summed over a run is what the counters moved over the used steps |
| `Collector.Telescope` | internal/collect/collector.go:119 | movements over used and skipped steps add up to last minus first |
| `Collector.TrafficConserved` | internal/collect/collector.go:105-123 | for arbitrary resets, reported traffic plus the skipped movement is last minus first, and the rates report exactly last minus first if and only if the skipped movements cancel |
| `Collector.RatesNotNegative` | internal/collect/collector.go:114-117 | rates are never negative, whatever counters and clock do |
| `Reconnect.PushConnection.OnOpen` | web/dashboard/src/services/rpc.ts:94 | an open resets the retry count |
| `Reconnect.PushConnection.OnError` | web/dashboard/src/services/rpc.ts:109 | an error closes the current socket, if there is one |
| `Reconnect.PushConnection.OnClose` | web/dashboard/src/services/rpc.ts:103-108 | a close forgets the socket and, unless disposed of or after ten retries, sets a timer of 3000 ms per retry up to 15000 |
| `Reconnect.PushConnection.OnTimer` | web/dashboard/src/services/rpc.ts:89-93 | a timer opens a new socket unless disposed of |
| `Reconnect.PushConnection.Disconnect` | web/dashboard/src/services/rpc.ts:112 | disposal closes the current socket |
| `Reconnect.ReconnectSafe` | web/dashboard/src/services/rpc.ts:84-113 | in every event sequence all sockets but the newest are closed, and that one too while the one timer is pending; at most eleven sockets are created from the start without an open and ten after the last one; the k-th delay is 3000 k capped at 15000; an undisposed connection rests only after ten retries; after disposal no socket is connecting or open |
| `Reconnect.ErrorCloses` | web/dashboard/src/services/rpc.ts:109 | an error starts closing the socket that reports it and changes nothing else |
| `Reconnect.NothingAfterDispose` | web/dashboard/src/services/rpc.ts:89-107 | after disposal no socket is created and no timer set any more |
| `Reconnect.PatienceRunsOut` | web/dashboard/src/services/rpc.ts:106-107 | every close and every timer uses up a measure that only an open restores |
| `Reconnect.GivesUp` | web/dashboard/src/services/rpc.ts:84-113 | a run without an open comes to rest after at most that many closes and timers, 31 from the start |

## Left out

- Probing itself (ICMP, TCP, HTTP, DNS) and system metrics: foreign calls; only their result values appear.
- HTTP, JSON, WebSocket transport and SQLite internals: tables are row sequences, and statements are assumed to succeed, except that loading clients or tasks may fail in `Scheduler`. A failed fetch of the remote configuration is a turn of `Fleet`; a report that the server rejects is not modelled.
- Clocks: readings and cutoffs are parameters, with one zone offset and, where a result says so, a non-decreasing clock; `AddDate` and `time.Parse` are functions handed in.
- Floating point: exact reals; no rounding, NaN or infinities. The standard deviation is represented by its square.
- Notification channels, message texts and the delivery after the stamp: a delivery is its event, threshold and stamp. The watcher's messages are given in English.
- Lower case of letters outside ASCII: exact only where it matters for recognising a probe type.
- `AUTOINCREMENT`: an upsert is taken to draw a number also when it ends up updating; the results do not depend on it.
- Rows of equal time in the windowed queries: taken to come in rowid order, which SQL leaves open.
- Map iteration order: ping entries come as a sequence in any order, and the metric statistics as a map.
- The JSON text of mute windows in `alert_rules`: taken to be read back as written; a rule row holds the list itself.
- The time the scheduler's own statements and queries take: `Pacing` counts only the waiting for slots and the ticker, before cancellation; `Scheduler` allows arbitrary tick times.
- Echo.EchoSettles: for rows that are not clean, where one row is read as several probes or under another name, no exact condition is given; `Echo.CommaNamesOscillate` shows that the one for clean rows fails there.
- VACUUM after a purge: it may renumber rowids; it is taken to keep their order, on which "latest" and the order of equal times rest.
- Locks: methods of the manager, the collector and the hooks are taken as atomic; concurrent hooks that interleave between manager and table are not modelled.
- Preservation of a disabled node task: the code enables a node's tasks again on every report, and so does the model.
- Online flag, uptime, `RecentStatus`, `PingRecords`, the fields of a node and their merging, public settings, JWT and secrets, the administration and dashboard pages: they would only add easy members or are foreign code.
- PingViews.BuildPingTasks: the flag that marks every loss as approximate is a constant and left out.
- PingViews.PingMetricStats: start, end, tags and count of the response are left out, and the order of the entries.
- The metric series of status fields, their selectors and the paging of request parameters: single-branch facts.
