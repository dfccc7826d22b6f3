# node-watcher, modelled in Dafny

node-watcher watches the OSPF link-state database of a mesh network once a
minute and alerts a Slack channel about routers that disappear. This project
models the alerting core of `node_watcher.py`, cycle by cycle:

- the difference between two snapshots (nodes that came back, nodes that left);
- the tracker of down nodes (`removed_nodes_tracker`, an insertion-ordered
  dict), the open hub-down groups (`hub_down_tracker`), the list used as the
  silenced cache, and which nodes and groups have a Slack thread row or an
  alert-message row in SQLite;
- `is_silenced`, the reaction rules that silence a node ("x" for good,
  "date"/"calendar" for a day, "stopwatch" for three hours), and its upkeep
  of the cache;
- the four phases of one cycle:
  - returning nodes are untracked, and hub-down groups with returning members
    are closed once empty;
  - departed nodes are admitted, as one hub-down group when at least five
    leave at once, else each one checked by `ok_to_monitor`;
  - the threshold sweep: an individual alert after five minutes, and a
    hub-down escalation with a root-cause guess and a map link once five
    group members have been down for three minutes (fewer lose their group);
    then the periodic status of open groups;
  - the daily report, which forgets nodes down for two weeks;
- the helpers `IP_to_NN`, `ok_to_monitor`, `get_downtime_humanized` (its
  bucketing), `get_hub_down_group_members`, `get_node_webmap_URI`,
  `most_frequent_and_closest` and the watcher's `get_closest_common_upstream`;
- the stand-alone `upstream_guesser.py`: its `most_frequent_and_first`, its
  `get_closest_common_upstream` (which catches nothing), and its prompt loop.

The state is a value of type `WatchState.Watch`. The behaviour of each phase
is a function over that value (module `Phases`). The class
`Watcher.NodeWatcher` holds the same state in fields and runs the loops of the
source in its methods. Each method is proved to leave exactly the state the
phase function prescribes. Module `Properties` proves what the phases promise.

Python's exceptions are modelled, not excluded. A `KeyError`, `IndexError` or
`ValueError` inside a cycle ends the cycle at that point; the main loop's
`except` catches it, and the changes made so far stay. The model gives every
phase an `ok` flag, keeps the partial state, and skips the remaining phases.

Where the code and its comments or the surrounding design differ, the model
follows the code:
- The counter that decides a hub-down event counts every departed node,
  cached or not (`unsuppressed_qty` is incremented in both branches). Group
  formation then skips cached nodes.
- A departed node that is still tracked is admitted again with a fresh record
  (`alerting` reset to false).
- Abandoned nodes leave the tracker but stay in the silenced cache.
- An escalation registers only the group of the first collected node. That
  group is the node's timestamp. Its thread row is written with the integer,
  which the TEXT column stores as decimal text, and it is read back with
  `str()`.
- A missing thread row (`row[0][1]` on an empty result) aborts the cycle in
  several places: re-alerting a returning node, closing a group, the status
  check, and the report of an abandoned node.

## Model

| member | source | states |
|---|---|---|
| Decimal.Split | node_watcher.py:399-402 | `str.split`: at least one part, and no part contains the separator |
| Decimal.JoinSplit | node_watcher.py:399-402 | joining the parts of a split with the separator gives back the string |
| Decimal.SplitJoin | node_watcher.py:399-402 | splitting a join of separator-free parts gives back exactly those parts |
| Decimal.DigitsOfNat | node_watcher.py:629 | the decimal text of a natural number reads back as that number |
| Decimal.ParseIntToString | node_watcher.py:787-788 | `int()` of `str(i)` is `i` for every integer, so a group key written as an integer and looked up as `str()` text names the same group |
| Suppression.Judge | node_watcher.py:159-232 | a node is silenced exactly when its thread head, or else its alert message, has "x", an unexpired day reaction, or an unexpired stopwatch; it is silenced for good exactly when the first silencing message found carries "x" |
| Suppression.Refresh | node_watcher.py:183-186 | "x" puts the node in the cache, a timed reaction leaves the cache alone, no reaction takes the node out; other ids keep their membership; no duplicates are introduced |
| Suppression.RefreshMembership | node_watcher.py:183-232 | after `is_silenced` the node is cached exactly when "x" was found, or a timed reaction kept an earlier entry |
| Suppression.RefreshIdempotent | node_watcher.py:183-232 | asking again with the same answer leaves the cache as it is |
| Topology.DiffProperties | node_watcher.py:521-522 | the returned and departed sets are disjoint, skip every node present in both snapshots, and turn the previous set into the current one |
| Tally.FirstModeExists | upstream_guesser.py:8-16 | every non-empty list has a first most frequent element |
| Tally.FirstModeUnique | upstream_guesser.py:8-16 | that element's first position is unique |
| Tally.MostFrequentAndFirst | upstream_guesser.py:8-16 | no result exactly for the empty list (the unbound local raises); otherwise the most frequent element, the earliest one on ties |
| Explorer.FirstHops | node_watcher.py:442-443 | the walk over one node's paths collects the first hop of each path in order; it completes exactly when no path is empty, otherwise it stops at the first empty one |
| Explorer.RouterExitsComplete | node_watcher.py:438-443 | the walk over node explorer's answer completes exactly when no node answering for the router has an empty path, and then it collects the heads of all their paths, node after node |
| Explorer.AppendHops | node_watcher.py:442-443 | the loop appends exactly the hops `FirstHops` collects, and reports whether it completed |
| Explorer.AppendRouterExits | node_watcher.py:438-443 | the nested loops append exactly the hops of the walk, keeping those appended before an empty path |
| NodeHelpers.OkToMonitorMesh | node_watcher.py:140-146 | a mesh address `10.69.x.y` is monitored exactly when `x < 80` |
| NodeHelpers.NodeNumberOfShortHost | node_watcher.py:396-405 | `10.69.x.y` with `y < 100` is node `100 x + y` |
| NodeHelpers.NodeNumberOfLongHost | node_watcher.py:396-405 | with a three-digit last part the hundreds digit is dropped: node `100 x + y % 100` |
| NodeHelpers.NodeNumberCollision | node_watcher.py:396-405 | hosts `y` and `100 + y` of the same third part get the same node number |
| NodeHelpers.WholeMinutes | node_watcher.py:380 | the downtime in whole minutes, truncated toward zero as `int()` does |
| NodeHelpers.Humanize | node_watcher.py:378-393 | within a minute of the five-minute threshold (4 to 6 whole minutes) the threshold itself is shown; any other downtime shows its own whole minutes, in minutes below an hour, hours below two days and days beyond |
| NodeHelpers.NodeWebmapUriAsWritten | node_watcher.py:466-473 | the loop as written builds the prefix followed by each node's text, with a "-" after every node not equal to the last one |
| NodeHelpers.WebmapDropsSeparator | node_watcher.py:466-473 | two equal nodes lose the separator between them in the link as written |
| NodeHelpers.AsWrittenAgrees | node_watcher.py:466-473 | when no earlier node equals the last, the loop as written gives the joined link |
| NodeHelpers.WebmapReadsBack | node_watcher.py:466-473 | the joined link of non-negative node numbers splits back at "-" into each node's text, in order |
| NodeHelpers.RootCause | node_watcher.py:420-450 | when the sample is walked before the deadline and some exit was collected, the suspect is a first most frequent exit; otherwise "not sure lol" |
| NodeHelpers.OutageExits | node_watcher.py:421-448 | the router loop finishes exactly when the deadline admits every router, and then it has collected the hops of every lookup that answered |
| NodeHelpers.SuspectedProblemNode | node_watcher.py:769-774 | the guess, with the caller's fallback, is `RootCause` of the sample |
| UpstreamGuesser.ClosestCommonUpstream | upstream_guesser.py:20-39 | any failed lookup or empty path ends the call; otherwise no result exactly when no exit was collected, else a first most frequent exit |
| UpstreamGuesser.CollectDownNodes | upstream_guesser.py:45-52 | a list is produced exactly when an empty line is entered, and it holds exactly the lines before the first empty one |
| WatchState.Put | node_watcher.py:670 | assignment to the tracker: a new key goes last, an existing key keeps its place, and the order still lists each key once |
| WatchState.Pop | node_watcher.py:546 | `pop` removes the key from the records and the order; on an order without repeats the key's position is closed up, so every other key keeps its relative place; an untracked key leaves the order as it was |
| Basics.WithoutSplice | node_watcher.py:546 | taking a key out of an insertion order without repeats closes the gap at its position and keeps every other key in order |
| WatchState.SetAlerting | node_watcher.py:751 | only that node's `alerting` changes |
| WatchState.GroupFilter | node_watcher.py:454-463 | an id is a group member exactly when it is tracked and its record carries that group |
| WatchState.CheckSilenced | node_watcher.py:159-232 | `is_silenced` changes only the cache, keeps its own answer, and keeps the cache free of repeats |
| Phases.PopAll | node_watcher.py:640-641 | popping keeps every remaining record as it was and the order well formed |
| Phases.Enlist | node_watcher.py:612-616 | the first batch of the group gains the node at its end and every other batch stays; when the group has no batch yet, a batch holding just the node is added last; either way the node ends up in a batch of its own group |
| Phases.EnlistMembers | node_watcher.py:612-616 | after the append the batched nodes are exactly the earlier ones and the node |
| Phases.EnlistGroups | node_watcher.py:612-616 | after the append the groups with a batch are exactly the earlier ones and the node's group |
| Phases.AddedStep | node_watcher.py:543-617 | one returning node, following the `elif` chain, keeps the tracker well formed and leaves every record it keeps as it was |
| Phases.AddedLoop | node_watcher.py:543-617 | the first loop keeps the tracker well formed and leaves every record it keeps as it was |
| Phases.Recover | node_watcher.py:622-646 | closing the batched groups keeps the tracker well formed and leaves every record it keeps as it was |
| Phases.AddedPhase | node_watcher.py:533-646 | the whole block for returning nodes keeps the tracker well formed and leaves every record it keeps as it was |
| Phases.FormGroup | node_watcher.py:667-670 | group formation touches only the tracker, keeps it well formed, keeps every record of a node that did not leave, and tracks nothing but such nodes and departed ones |
| Phases.Screen | node_watcher.py:672-675 | screening touches only the tracker, keeps it well formed, keeps every record of a node that did not leave, and tracks nothing but such nodes and departed ones |
| Phases.AdmitPhase | node_watcher.py:653-675 | admission keeps the tracker well formed, keeps every record of a node that did not leave, and tracks nothing but such nodes and departed ones |
| Phases.RaiseAlert | node_watcher.py:689-751 | an individual alert leaves the node alerting with a thread row |
| Phases.SweepStep | node_watcher.py:684-751 | the first test of the sweep keeps the tracked set, the order and the groups, and clears no `alerting` flag |
| Phases.Sweep | node_watcher.py:679-759 | the sweep keeps the tracked set, collects only walked ids, and clears no `alerting` flag |
| Phases.MarkAlerting | node_watcher.py:793-796 | the escalation loop keeps the tracked set, the cache, the rows and the groups, and clears no `alerting` flag |
| Phases.Escalate | node_watcher.py:764-800 | an escalation keeps the tracked set and the cache and clears no `alerting` flag; its map link is the one the loop as written builds |
| Phases.Ungroup | node_watcher.py:803-807 | losing groups keeps the tracked set, the rows and the cache, and clears no `alerting` flag |
| Phases.Settle | node_watcher.py:764-807 | what the collected nodes lead to keeps the tracker well formed and clears no `alerting` flag |
| Phases.ThresholdPhase | node_watcher.py:679-830 | the whole threshold block keeps the tracker well formed, tracks exactly the nodes it found, and clears no `alerting` flag |
| Phases.Abandoned | node_watcher.py:845-849 | a node is abandoned exactly when it is tracked and down longer than two weeks; no repeats |
| Phases.MapPass | node_watcher.py:863-867 | the map loop changes only the cache, and keeps it free of repeats |
| Phases.TablePass | node_watcher.py:874-877 | the table loop changes only the cache, and keeps it free of repeats |
| Phases.ReportPhase | node_watcher.py:843-887 | the report keeps the tracker well formed and leaves every record it keeps as it was; its map link is the one the loop as written builds |
| Phases.ClearAbandoned | node_watcher.py:874-883 | the end of the report keeps the tracker well formed and leaves every record it keeps as it was |
| Phases.Cycle | node_watcher.py:482-904 | one cycle keeps the tracker well formed |
| Properties.PopAllUntracks | node_watcher.py:640-641 | a completed pop untracks every popped id and keeps every other tracked id |
| Properties.PopAllDistinct | node_watcher.py:880-883 | popping distinct tracked ids cannot fail and shrinks the tracker by their number |
| Properties.AddedStepFacts | node_watcher.py:543-617 | an untracked node changes nothing; a node that is not alerting is popped; an alerting node without a group, or silenced, is popped; an alerting, unsilenced group member stays tracked and is appended to the batch of its own group; other tracked nodes stay tracked, nothing silences them anew, and no group closes |
| Properties.AddedStepMembers | node_watcher.py:603-616 | after one returning node the batched nodes are the earlier ones, plus the node exactly when it was batched |
| Properties.AddedStepGroups | node_watcher.py:608-616 | after one returning node a group has a batch exactly when it had one or the node is an alerting, unsilenced member of it |
| Properties.AddedStepBatched | node_watcher.py:608-616 | one batch per group, each batched node still tracked carrying its batch's group, stays true after one returning node |
| Properties.AddedLoopFacts | node_watcher.py:543-617 | after the first loop every returning node is untracked or batched, only returning nodes are batched, other nodes stay tracked, one batch per group holds, and a group has a batch exactly when some returning node is an alerting, unsilenced member of it |
| Properties.RecoverFacts | node_watcher.py:622-646 | closing the groups untracks every batched node, keeps every other tracked node, and only removes groups from the hub-down tracker |
| Properties.NoMembers | node_watcher.py:454-463 | `get_hub_down_group_members` is empty exactly when no tracked node carries the group |
| Properties.RecoverCloses | node_watcher.py:622-646 | a group without a batch keeps its hub-down entry; a batched group that was open is closed exactly when none of its nodes is still tracked afterwards; a batched group that was not open still has tracked members (else the `pop` would have raised) |
| Properties.RecoverKeepsHub | node_watcher.py:622-646 | the second loop neither closes nor opens a group without a batch |
| Properties.RecoverKeepsMembers | node_watcher.py:640-641 | the second loop leaves a group without a batch with tracked members exactly when it had them |
| Properties.AddedPhaseUntracks | node_watcher.py:533-646 | a completed block leaves exactly the tracked nodes that did not return, with their records, and opens no group |
| Properties.AddedPhaseCloses | node_watcher.py:533-646 | an open group is closed by the block exactly when some returning node was an alerting, unsilenced member of it and none of its nodes is tracked afterwards |
| Properties.FormGroupTracks | node_watcher.py:667-670 | formation tracks exactly the departed nodes outside the cache, as fresh members of the group named by the cycle's time; other records stay |
| Properties.ScreenTracks | node_watcher.py:672-675 | screening completes exactly when `ok_to_monitor` answers for every node, and then tracks exactly the accepted ones with fresh records; other records stay |
| Properties.AdmitPhaseTracks | node_watcher.py:658-675 | five or more departed nodes form a group, fewer are screened; admission adds only departed nodes and keeps the other records |
| Properties.DueMembers | node_watcher.py:755-759 | an id is collected exactly when it is tracked, a due group member, and outside the cache; no repeats |
| Properties.SweepCollects | node_watcher.py:679-759 | the sweep collects exactly the due group members outside the cache, in tracker order |
| Properties.SweepRecords | node_watcher.py:684-751 | the sweep leaves each node its swept record: a due individual node alerts exactly when not silenced; nothing else changes |
| Properties.SweepOpensThreads | node_watcher.py:689-749 | every due individual node that is not silenced has a thread row afterwards; other nodes' rows stay |
| Properties.MarkAlertingFacts | node_watcher.py:793-796 | the marking loop completes exactly when every member has a node number, and then marks every member alerting |
| Properties.EscalateFacts | node_watcher.py:764-800 | an escalation announces exactly the collected nodes under the first one's group, opens its thread, and notifies the channel from 25 nodes on; the map link is posted and the group registered exactly when every node has a node number, and then all are alerting |
| Properties.UngroupFacts | node_watcher.py:803-807 | too few collected distinct group members all lose their group and keep the rest of their record |
| Properties.SettleFacts | node_watcher.py:764-807 | an escalation is announced exactly when at least five nodes were collected; with a map link they are alerting and the group is open; fewer lose their group |
| Properties.SweepWhole | node_watcher.py:679-759 | the sweep of the whole tracker collects exactly the due members and leaves each node its swept record |
| Properties.ThresholdAlertsAlone | node_watcher.py:684-751 | after the threshold block the tracked set is unchanged, and a due individual node is alerting exactly when nothing silences it |
| Properties.ThresholdEscalates | node_watcher.py:679-807 | an escalation is announced exactly when at least five due group members are outside the cache, and names exactly them; it has a map link exactly when all have node numbers, and then they are alerting and the group is open; fewer due members lose their group |
| Properties.MapPassFacts | node_watcher.py:863-867 | the map loop completes exactly when every alerting, unsilenced node has a node number, and then adds a number exactly when such a node exists |
| Properties.ReportCompletes | node_watcher.py:843-887 | the report completes exactly when every abandoned node has a thread row and every node on the map has a node number; the summary goes out once the thread rows are found |
| Properties.ReportForgetsAbandoned | node_watcher.py:845-883 | a completed report keeps exactly the nodes down at most two weeks, with their records |
| Properties.ClearAbandonedFacts | node_watcher.py:880-883 | popping the distinct abandoned nodes cannot fail, forgets exactly them, and shrinks the tracker by their number |
| Properties.ReportSummarizes | node_watcher.py:857-887 | the count the report announces is the tracker's new size; ":tada:" exactly when nothing was tracked; a map link exactly when some node is on it |
| Properties.CycleForgetsReturned | node_watcher.py:519-887 | after a completed cycle no returning node is tracked, and every tracked node was tracked before or has just left |
| Properties.CycleKeepsAlerting | node_watcher.py:519-887 | a cycle never clears the `alerting` flag of a node that stays tracked, unless the node left again and was admitted with a fresh record |
| Watcher.NodeWatcher.constructor | node_watcher.py:122-127 | start-up: empty trackers, the two pre-silenced nodes in the cache, and the database rows as found |
| Watcher.NodeWatcher.Track | node_watcher.py:670 | the tracker assignment, as `Put` |
| Watcher.NodeWatcher.Untrack | node_watcher.py:546 | the tracker `pop`, as `Pop` |
| Watcher.NodeWatcher.IsSilenced | node_watcher.py:159-232 | `is_silenced` answers true exactly when `Judge` finds a silencing reaction, and updates the cache as `Refresh` prescribes |
| Watcher.NodeWatcher.PopEach | node_watcher.py:640-641 | the pop loop, failing at the first untracked id, as `PopAll` |
| Watcher.NodeWatcher.HubDownGroupMembers | node_watcher.py:454-463 | `get_hub_down_group_members` returns exactly the group's members, in tracker order |
| Watcher.NodeWatcher.AddedNode | node_watcher.py:545-617 | one returning node, with the state `AddedStep` prescribes |
| Watcher.NodeWatcher.RecoverGroups | node_watcher.py:622-646 | the loop over the batched groups, with the state `Recover` prescribes |
| Watcher.NodeWatcher.ProcessAdded | node_watcher.py:533-646 | the whole block for returning nodes, as `AddedPhase`, keeping the tracker well formed |
| Watcher.NodeWatcher.AdmitRemoved | node_watcher.py:653-675 | the counting loop and admission, as `AdmitPhase`, keeping the tracker well formed |
| Watcher.NodeWatcher.SweepNode | node_watcher.py:684-759 | both tests of the sweep for one node, as `SweepStep` and `Collects` |
| Watcher.NodeWatcher.HubDownAlert | node_watcher.py:764-800 | the escalation, as `Escalate`, with the map link built by the loop as written |
| Watcher.NodeWatcher.DropGroups | node_watcher.py:803-807 | the `del` loop, failing at the first node without a group, as `Ungroup` |
| Watcher.NodeWatcher.GroupOk | node_watcher.py:813-830 | the status of one group succeeds exactly when `GroupStatusOk` holds |
| Watcher.NodeWatcher.GroupStatus | node_watcher.py:810-830 | the status loop succeeds exactly when every open group's status does |
| Watcher.NodeWatcher.SweepAll | node_watcher.py:679-759 | the sweep loop, as `Sweep`, keeping the tracker well formed |
| Watcher.NodeWatcher.SettleCollected | node_watcher.py:764-807 | the escalation or the loss of groups, as `Settle` |
| Watcher.NodeWatcher.EvaluateThresholds | node_watcher.py:679-830 | the whole threshold block, as `ThresholdPhase` |
| Watcher.NodeWatcher.FindAbandoned | node_watcher.py:845-855 | the loop completes exactly when every abandoned node has a thread row, and then returns exactly the abandoned nodes |
| Watcher.NodeWatcher.MapDown | node_watcher.py:863-867 | the map loop, as `MapPass` |
| Watcher.NodeWatcher.TableDown | node_watcher.py:874-877 | the table loop, as `TablePass` |
| Watcher.NodeWatcher.DailyReport | node_watcher.py:843-887 | the reporting block, as `ReportPhase`, with the map link built by the loop as written |
| Watcher.NodeWatcher.RunCycle | node_watcher.py:519-904 | one pass of the main loop on the difference of two snapshots, as `Cycle`, keeping the tracker well formed |

## Left out

- Slack, HTTP and SQLite are not modelled as I/O. What the model keeps of them:
  - which nodes and groups have a thread row or an alert-message row;
  - the reactions and timestamps of the messages, read from `Env` as they
    are during the cycle.
  Message texts, deletions and the subscriber bookkeeping of
  `get_subscribed_users` (node_watcher.py:233-375) are left out, because they
  do not influence alerting decisions.
- Fetching the two snapshots and the Python set differences are left out.
  The returned and departed nodes are inputs, each listed once. Python's set
  iteration order is arbitrary, so any order is admitted.
- The clock is left out:
  - `time.time()` inside `is_silenced` is one per-cycle value (`Env.clockS`);
  - message timestamps are whole seconds, so `round(float(ts))` is the value
    itself;
  - the root-cause deadline is the number of lookups that start before it
    (`Env.inTime`).
- NodeHelpers.Humanize: the hour and day figures `round(m / 60, 1)` and
  `round(m / 1440, 1)` are floating point; the model keeps the unit and the
  whole minutes only.
- Phases.ThresholdPhase: the report-interval test of the status check
  (node_watcher.py:813) is the parameter `statusMinute`. With the 60-second
  interval of both configurations that test always passes.
- Phases.ReportPhase: the wall-clock test for the reporting hour and minute
  (node_watcher.py:843) is the parameter `reportMinute`.
- The dev configuration (an `ok_to_monitor` that always answers true, other
  delays) is not modelled; the constants are the prod ones.
- `conn.commit()`, logging, `print` and the sleep of the main loop are left
  out, because they change no state the model keeps.
- Decimal.ParseInt: Python's `int()` also accepts surrounding whitespace and
  `_` between digits; router ids never contain those, so they are not modelled.
- Explorer.RouterExits: a malformed node explorer answer (a missing key) is
  treated as a failed lookup that collects nothing. In the source, such a
  failure in a later node of the answer keeps the hops appended before it.
- The hub-down tracker's value is always `{"alerting": True}`, so it is
  modelled as a set of groups. The status loop changes no state, so its
  order does not matter.
- The `__main__` block of upstream_guesser.py: the timestamp prompt and the
  final `print` are left out; the node prompt is CollectDownNodes.

## Findings

| source | as written | input that shows it | evidently intended | confidence | as-written member | corrected member |
|---|---|---|---|---|---|---|
| node_watcher.py:466-473 | `get_node_webmap_URI` omits the "-" after every node whose value equals the last node, not only after the last position | the node numbers of 10.69.12.34 and 10.69.12.134, both 1234, give ".../nodes/12341234" | one "-" between each two positions: ".../nodes/1234-1234", which splits back into the node numbers | not executed | NodeHelpers.NodeWebmapUriAsWritten, NodeHelpers.WebmapDropsSeparator, NodeHelpers.NodeNumberCollision | NodeHelpers.NodeWebmapUri, NodeHelpers.WebmapReadsBack, NodeHelpers.AsWrittenAgrees |

The cycle posts the link as the source builds it: `Phases.Escalate`,
`Phases.ReportPhase` and the watcher methods `HubDownAlert` and `DailyReport`
use the loop as written. `NodeHelpers.NodeWebmapUri` is the corrected link,
one "-" between each two positions, and `NodeHelpers.WebmapReadsBack` proves
that it splits back into the node numbers.
