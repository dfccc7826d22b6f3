/** The watcher as an object: the tracker, the hub-down tracker and the
    silenced cache are fields its methods update in place, next to the rows
    of the two tables the loop consults (`slack_threads` and
    `alert_messages`). Each method carries out one block of the main loop
    and is proved to leave the state its phase function describes. */
module Watcher {
  import opened Basics
  import opened Decimal
  import opened Suppression
  import opened WatchState
  import opened NodeHelpers
  import opened Phases
  import Topology
  import Config

  /** A non-empty set of groups has one to pick. */
  lemma SomeGroup(s: set<int>)
    requires s != {}
    ensures exists g :: g in s
  {
    if forall g :: g !in s {
      assert false;
    }
  }

  class NodeWatcher {
    /** The keys of `removed_nodes_tracker`, in insertion order. */
    var order: seq<NodeId>
    /** The values of `removed_nodes_tracker`. */
    var records: map<NodeId, NodeRecord>
    /** The keys of `hub_down_tracker`. */
    var hubDown: set<int>
    /** `silenced_nodes_cache`. */
    var silenced: seq<NodeId>
    /** The keys with a `slack_threads` row. */
    var threads: set<string>
    /** The node ids with an `alert_messages` row. */
    var alerts: set<NodeId>

    function State(): Watch
      reads this
    {
      Watch(order, records, hubDown, silenced, threads, alerts)
    }

    ghost predicate Valid()
      reads this
    {
      WellFormed(State())
    }

    /** The watcher at start-up: nothing tracked, the cache seeded with its
        two hard-coded entries, and the table rows left by earlier runs. */
    constructor (threadRows: set<string>, alertRows: set<NodeId>)
      ensures State() == Watch([], map[], {}, Config.InitialSilencedCache, threadRows, alertRows)
      ensures Valid()
    {
      order := [];
      records := map[];
      hubDown := {};
      silenced := Config.InitialSilencedCache;
      threads := threadRows;
      alerts := alertRows;
    }

    /** `removed_nodes_tracker[id] = r`. */
    method Track(id: NodeId, r: NodeRecord)
      modifies this
      ensures State() == Put(old(State()), id, r)
    {
      if id !in order {
        order := order + [id];
      }
      records := records[id := r];
    }

    /** `removed_nodes_tracker.pop(id)`. */
    method Untrack(id: NodeId)
      modifies this
      ensures State() == Pop(old(State()), id)
    {
      order := Without(order, id);
      records := records - {id};
    }

    /** `is_silenced(id)`: the thread head is asked first, then the alert
        message; an "x" caches the node, and when nothing silences it the
        node leaves the cache. */
    method IsSilenced(env: Env, id: NodeId) returns (answer: bool)
      modifies this
      ensures answer <==> SilenceOf(old(State()), env, id) != Unsilenced
      ensures State() == CheckSilenced(old(State()), env, id)
    {
      if id in threads {
        var m := env.thread(id);
        if "x" in m.reactions {
          if id !in silenced {
            silenced := silenced + [id];
          }
          return true;
        }
        if AnyIn(ThreadDateNames, m.reactions) && env.clockS - m.postedS < Config.SuppressDurationDateS {
          return true;
        }
        if "stopwatch" in m.reactions && env.clockS - m.postedS < Config.SuppressDurationStopwatchS {
          return true;
        }
      }
      if id in alerts {
        var m := env.alert(id);
        if "x" in m.reactions {
          if id !in silenced {
            silenced := silenced + [id];
          }
          return true;
        }
        if AnyIn(AlertDateNames, m.reactions) && env.clockS - m.postedS < Config.SuppressDurationDateS {
          return true;
        }
        if "stopwatch" in m.reactions && env.clockS - m.postedS < Config.SuppressDurationStopwatchS {
          return true;
        }
      }
      if id in silenced {
        silenced := RemoveFirst(silenced, id);
      }
      return false;
    }

    /** `removed_nodes_tracker.pop(id)` for each id of `ids` in turn. */
    method PopEach(ids: seq<NodeId>) returns (ok: bool)
      modifies this
      ensures Run(State(), ok) == PopAll(old(State()), ids)
    {
      for i := 0 to |ids|
        invariant PopAll(State(), ids[i..]) == PopAll(old(State()), ids)
      {
        assert ids[i..][1..] == ids[i + 1..];
        if ids[i] !in records {
          return false;
        }
        Untrack(ids[i]);
      }
      assert ids[|ids|..] == [];
      return true;
    }

    /** `get_hub_down_group_members(g)`. */
    method HubDownGroupMembers(g: int) returns (members: seq<NodeId>)
      requires Valid()
      ensures members == GroupMembers(State(), g)
    {
      members := [];
      for i := 0 to |order|
        invariant members == GroupFilter(order[..i], records, g)
      {
        assert order[..i + 1][..i] == order[..i];
        if records[order[i]].group == Some(g) {
          members := members + [order[i]];
        }
      }
      assert order[..|order|] == order;
    }

    /** One node of the first loop over `recently_added_nodes`. */
    method AddedNode(env: Env, batches: seq<Batch>, id: NodeId) returns (batches': seq<Batch>, ok: bool)
      modifies this
      ensures Pending(State(), batches', ok) == AddedStep(old(State()), env, batches, id)
    {
      batches' := batches;
      ok := true;
      if id in records && !records[id].alerting {
        Untrack(id);
        return;
      }
      if id in records && records[id].alerting && records[id].group.None? {
        var s := IsSilenced(env, id);
        if !s {
          if id !in threads {
            // get_subscribed_users reads row[0][1] of a missing thread row
            return batches, false;
          }
          alerts := alerts + {id};
          Untrack(id);
          return;
        }
      }
      if id in records && records[id].alerting {
        var s := IsSilenced(env, id);
        if s {
          Untrack(id);
          return;
        }
      }
      if id in records && records[id].alerting && records[id].group.Some? && id !in silenced {
        batches' := Enlist(batches, records[id].group.value, id);
      }
    }

    /** The second loop over the returning hub-down groups. */
    method RecoverGroups(batches: seq<Batch>) returns (ok: bool)
      requires Valid()
      modifies this
      ensures Run(State(), ok) == Recover(old(State()), batches)
    {
      for k := 0 to |batches|
        invariant Valid()
        invariant Recover(State(), batches[k..]) == Recover(old(State()), batches)
      {
        assert batches[k..][1..] == batches[k + 1..];
        var b := batches[k];
        if IntToString(b.group) !in threads {
          return false;
        }
        var popped := PopEach(b.members);
        if !popped {
          return false;
        }
        var members := HubDownGroupMembers(b.group);
        if members == [] {
          if b.group !in hubDown {
            // hub_down_tracker.pop of a missing group
            return false;
          }
          hubDown := hubDown - {b.group};
        }
      }
      assert batches[|batches|..] == [];
      return true;
    }

    /** The block `if recently_added_nodes:`. */
    method ProcessAdded(env: Env, added: seq<NodeId>) returns (ok: bool)
      requires Valid()
      modifies this
      ensures Valid()
      ensures Run(State(), ok) == AddedPhase(old(State()), env, added)
    {
      var batches: seq<Batch> := [];
      for i := 0 to |added|
        invariant Valid()
        invariant AddedLoop(State(), env, batches, added[i..]) == AddedLoop(old(State()), env, [], added)
      {
        assert added[i..][1..] == added[i + 1..];
        var more;
        batches, more := AddedNode(env, batches, added[i]);
        if !more {
          return false;
        }
      }
      assert added[|added|..] == [];
      ok := RecoverGroups(batches);
    }

    /** The block `if recently_removed_nodes:`. */
    method AdmitRemoved(removed: seq<NodeId>, now: int) returns (ok: bool)
      requires Valid()
      modifies this
      ensures Valid()
      ensures Run(State(), ok) == AdmitPhase(old(State()), removed, now)
    {
      var unsuppressedQty := 0;
      for i := 0 to |removed|
        invariant unsuppressedQty == i
      {
        // both branches of the cache test only log; the count goes up either way
        unsuppressedQty := unsuppressedQty + 1;
      }
      if Config.HubWatcherMode && unsuppressedQty >= Config.HubDownNodeQty {
        for i := 0 to |removed|
          invariant FormGroup(State(), removed[i..], now) == FormGroup(old(State()), removed, now)
        {
          assert removed[i..][1..] == removed[i + 1..];
          ghost var s0 := State();
          if removed[i] !in silenced {
            Track(removed[i], NodeRecord(now, false, Some(now)));
          }
          assert FormGroup(s0, removed[i..], now) == FormGroup(State(), removed[i + 1..], now);
        }
        assert removed[|removed|..] == [];
        return true;
      }
      for i := 0 to |removed|
        invariant Screen(State(), removed[i..], now) == Screen(old(State()), removed, now)
      {
        assert removed[i..][1..] == removed[i + 1..];
        ghost var s0 := State();
        match OkToMonitor(removed[i]) {
          case Raises =>
            return false;
          case Returns(monitor) =>
            if monitor {
              Track(removed[i], NodeRecord(now, false, None));
            }
            assert Screen(s0, removed[i..], now) == Screen(State(), removed[i + 1..], now);
        }
      }
      assert removed[|removed|..] == [];
      return true;
    }

    /** One node of the sweep: the individual alert when due, then whether
        it joins `hub_down_nodes_current`. */
    method SweepNode(env: Env, now: int, id: NodeId) returns (collect: bool)
      requires id in records
      modifies this
      ensures State() == SweepStep(old(State()), env, now, id)
      ensures id in records && collect == Collects(State(), now, id)
    {
      if IndividualDue(records[id], now) {
        var s := IsSilenced(env, id);
        if !s {
          if id in threads {
            alerts := alerts + {id};
          } else {
            threads := threads + {id};
          }
          records := records[id := records[id].(alerting := true)];
        }
      }
      collect := HubDue(records[id], now) && id !in silenced;
    }

    /** The hub-down announcement for the collected nodes. */
    method HubDownAlert(env: Env, collected: seq<NodeId>) returns (ok: bool, escalation: Option<Escalation>)
      requires collected != []
      requires forall i :: 0 <= i < |collected| ==> collected[i] in records
      modifies this
      ensures Threshold(State(), ok, escalation) == Escalate(old(State()), env, collected)
    {
      var g := records[collected[0]].since;
      var n := if |collected| < Config.RootCauseSample then |collected| else Config.RootCauseSample;
      var suspect := SuspectedProblemNode(collected[..n], env.explorer, env.inTime);
      var announced := Escalation(g, collected, suspect, |collected| >= Config.HubDownRaiseQty, None);
      threads := threads + {IntToString(g)};
      ghost var w1 := State();
      var nodes: seq<Option<int>> := [];
      for i := 0 to |collected|
        invariant forall x :: x in records <==> x in w1.records
        invariant MarkAlerting(State(), collected[i..], nodes) == MarkAlerting(w1, collected, [])
      {
        assert collected[i..][1..] == collected[i + 1..];
        match IpToNodeNumber(collected[i]) {
          case Raises =>
            return false, Some(announced);
          case Returns(number) =>
            nodes := nodes + [number];
            records := records[collected[i] := records[collected[i]].(alerting := true)];
        }
      }
      assert collected[|collected|..] == [];
      var uri := NodeWebmapUriAsWritten(nodes, NodeNumberText);
      hubDown := hubDown + {g};
      return true, Some(announced.(mapUri := Some(uri)));
    }

    /** Too few collected nodes: each loses its group. */
    method DropGroups(ids: seq<NodeId>) returns (ok: bool)
      requires forall i :: 0 <= i < |ids| ==> ids[i] in records
      modifies this
      ensures Run(State(), ok) == Ungroup(old(State()), ids)
    {
      ghost var w0 := State();
      for i := 0 to |ids|
        invariant forall x :: x in records <==> x in w0.records
        invariant Ungroup(State(), ids[i..]) == Ungroup(w0, ids)
      {
        assert ids[i..][1..] == ids[i + 1..];
        var r := records[ids[i]];
        if r.group.None? {
          return false;
        }
        records := records[ids[i] := r.(group := None)];
      }
      assert ids[|ids|..] == [];
      return true;
    }

    /** The periodic status of one open hub-down group. */
    method GroupOk(env: Env, g: int) returns (ok: bool)
      requires Valid()
      ensures ok == GroupStatusOk(State(), env, g)
    {
      var key := IntToString(g);
      if key !in threads {
        // the thread row is read as row[0][1]
        return false;
      }
      if "eyes" in env.thread(key).reactions {
        var members := HubDownGroupMembers(g);
        for j := 0 to |members|
          invariant forall i :: 0 <= i < j ==> IpToNodeNumber(members[i]).Returns?
        {
          if IpToNodeNumber(members[j]).Raises? {
            return false;
          }
        }
      }
      return true;
    }

    /** The periodic status of the open hub-down groups. The source walks
        them in insertion order and stops at the first that raises; as no
        state changes on the way, the order does not matter. */
    method GroupStatus(env: Env) returns (ok: bool)
      requires Valid()
      ensures ok == AllGroupsOk(State(), env, hubDown)
    {
      var pending := hubDown;
      while pending != {}
        invariant pending <= hubDown
        invariant AllGroupsOk(State(), env, hubDown - pending)
        decreases |pending|
      {
        SomeGroup(pending);
        var g :| g in pending;
        ok := GroupOk(env, g);
        if !ok {
          return;
        }
        pending := pending - {g};
      }
      assert hubDown - pending == hubDown;
      return true;
    }

    /** The sweep over the tracker, returning `hub_down_nodes_current`. */
    method SweepAll(env: Env, now: int) returns (collected: seq<NodeId>)
      requires Valid()
      modifies this
      ensures Valid()
      ensures Swept(State(), collected) == Sweep(old(State()), env, now, old(order), [])
    {
      ghost var w0 := State();
      var ids := order;
      collected := [];
      for i := 0 to |ids|
        invariant forall x :: x in records <==> x in w0.records
        invariant Sweep(State(), env, now, ids[i..], collected) == Sweep(w0, env, now, ids, [])
      {
        SweepFrom(State(), env, now, ids, i, collected);
        var collect := SweepNode(env, now, ids[i]);
        if collect {
          collected := collected + [ids[i]];
        }
      }
      assert ids[|ids|..] == [];
    }

    /** The escalation, or the loss of groups, that the sweep leads to. */
    method SettleCollected(env: Env, collected: seq<NodeId>) returns (ok: bool, escalation: Option<Escalation>)
      requires Valid()
      requires forall x :: x in collected ==> x in records
      modifies this
      ensures Valid()
      ensures Threshold(State(), ok, escalation) == Settle(old(State()), env, collected)
    {
      if |collected| >= Config.HubDownNodeQty {
        ok, escalation := HubDownAlert(env, collected);
      } else if collected != [] {
        ok := DropGroups(collected);
        escalation := None;
      } else {
        ok, escalation := true, None;
      }
    }

    /** The block `if removed_nodes_tracker:`. */
    method EvaluateThresholds(env: Env, now: int, statusMinute: bool) returns (ok: bool, escalation: Option<Escalation>)
      requires Valid()
      modifies this
      ensures Valid()
      ensures Threshold(State(), ok, escalation) == ThresholdPhase(old(State()), env, now, statusMinute)
    {
      if |records| == 0 {
        return true, None;
      }
      ghost var w0 := State();
      var collected := SweepAll(env, now);
      ghost var s := Sweep(w0, env, now, w0.order, []);
      assert State() == s.w && collected == s.collected;
      assert forall x :: x in collected ==> x in records;
      ok, escalation := SettleCollected(env, collected);
      if ok && statusMinute {
        ok := GroupStatus(env);
      }
    }

    /** The first loop of the report: the abandoned nodes, each announced in
        its thread. `false` when one has no thread row (the announcement
        reads `row[0][1]` of an empty result). */
    method FindAbandoned(now: int) returns (abandoned: seq<NodeId>, ok: bool)
      requires Valid()
      ensures ok <==> forall x :: x in Abandoned(order, records, now) ==> x in threads
      ensures ok ==> abandoned == Abandoned(order, records, now)
    {
      var ids, tracked, rows := order, records, threads;
      abandoned := [];
      for i := 0 to |ids|
        invariant abandoned == Abandoned(ids[..i], tracked, now)
        invariant forall x :: x in abandoned ==> x in rows
      {
        AbandonedSnoc(ids, tracked, now, i);
        var id := ids[i];
        if now - tracked[id].since > Config.AbandonedThresholdMs {
          abandoned := abandoned + [id];
          if id !in rows {
            assert id in Abandoned(ids, tracked, now);
            return abandoned, false;
          }
        }
      }
      assert ids[..|ids|] == ids;
      return abandoned, true;
    }

    /** The map loop of the report. */
    method MapDown(env: Env) returns (nodes: seq<Option<int>>, ok: bool)
      requires Valid()
      modifies this
      ensures Valid()
      ensures Mapped(State(), nodes, ok) == MapPass(old(State()), env, old(order), [])
    {
      ghost var w0 := State();
      var ids := order;
      nodes := [];
      for i := 0 to |ids|
        invariant order == ids && records == w0.records
        invariant Valid()
        invariant MapPass(State(), env, ids[i..], nodes) == MapPass(w0, env, ids, [])
      {
        assert ids[i..][1..] == ids[i + 1..];
        if records[ids[i]].alerting {
          var s := IsSilenced(env, ids[i]);
          if !s {
            match IpToNodeNumber(ids[i]) {
              case Raises =>
                return nodes, false;
              case Returns(number) =>
                nodes := nodes + [number];
            }
          }
        }
      }
      assert ids[|ids|..] == [];
      return nodes, true;
    }

    /** The table loop of the report. */
    method TableDown(env: Env, abandoned: seq<NodeId>)
      requires Valid()
      modifies this
      ensures Valid()
      ensures State() == TablePass(old(State()), env, old(order), abandoned)
    {
      ghost var w0 := State();
      var ids := order;
      for i := 0 to |ids|
        invariant order == ids && records == w0.records
        invariant Valid()
        invariant TablePass(State(), env, ids[i..], abandoned) == TablePass(w0, env, ids, abandoned)
      {
        assert ids[i..][1..] == ids[i + 1..];
        if ids[i] !in abandoned {
          var _ := IsSilenced(env, ids[i]);
        }
      }
      assert ids[|ids|..] == [];
    }

    /** The reporting block. */
    method DailyReport(env: Env, now: int, reportMinute: bool) returns (ok: bool, report: Option<Report>)
      requires Valid()
      modifies this
      ensures Valid()
      ensures Reported(State(), ok, report) == ReportPhase(old(State()), env, now, reportMinute)
    {
      if !reportMinute {
        return true, None;
      }
      var abandoned;
      abandoned, ok := FindAbandoned(now);
      if !ok {
        return false, None;
      }
      var summary := Report(|records| - |abandoned|, |records| == 0, abandoned, None);
      if |records| == 0 {
        return true, Some(summary);
      }
      var nodes;
      nodes, ok := MapDown(env);
      if !ok {
        return false, Some(summary);
      }
      TableDown(env, abandoned);
      ok := PopEach(abandoned);
      report := Some(summary);
      if nodes != [] {
        var uri := NodeWebmapUriAsWritten(nodes, NodeNumberText);
        report := Some(summary.(mapUri := Some(uri)));
      }
    }

    /** One pass of the main loop. `added` and `removed` list the two set
        differences of the snapshots, in whatever order Python's sets walk
        them; `now` is the cycle's time in ms. */
    method RunCycle(env: Env, previous: seq<NodeId>, current: seq<NodeId>,
                    added: seq<NodeId>, removed: seq<NodeId>, now: int,
                    statusMinute: bool, reportMinute: bool)
      returns (completed: bool, escalation: Option<Escalation>, report: Option<Report>)
      requires Valid()
      requires Enumerates(added, Topology.AddedNodes(previous, current))
      requires Enumerates(removed, Topology.RemovedNodes(previous, current))
      modifies this
      ensures Valid()
      ensures Outcome(State(), completed, escalation, report)
           == Cycle(old(State()), env, added, removed, now, statusMinute, reportMinute)
    {
      escalation, report := None, None;
      completed := ProcessAdded(env, added);
      if !completed {
        return;
      }
      completed := AdmitRemoved(removed, now);
      if !completed {
        return;
      }
      completed, escalation := EvaluateThresholds(env, now, statusMinute);
      if !completed {
        return;
      }
      completed, report := DailyReport(env, now, reportMinute);
    }
  }
}
