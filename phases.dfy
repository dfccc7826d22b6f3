/** What one pass of the main loop does to the watcher's state, phase by
    phase, as functions of the state before it. A phase that meets an
    exception stops there: the main loop's `except` skips the rest of the
    cycle, and everything changed so far stays changed. */
module Phases {
  import opened Basics
  import opened Decimal
  import opened Tally
  import opened Suppression
  import opened WatchState
  import opened NodeHelpers
  import Config

  /** The state reached, and whether the cycle is still running (`false`:
      an exception escaped to the main loop). */
  datatype Run = Run(w: Watch, ok: bool)

  /** A state together with the node numbers gathered for a map link. */
  datatype Mapped = Mapped(w: Watch, nodes: seq<Option<int>>, ok: bool)

  /** `removed_nodes_tracker.pop(id)` for each id in turn; popping an id that
      is not tracked raises KeyError. */
  function PopAll(w: Watch, ids: seq<NodeId>): (r: Run)
    ensures r.w.hubDown == w.hubDown && r.w.silenced == w.silenced
    ensures r.w.threads == w.threads && r.w.alerts == w.alerts
    ensures forall x :: x in r.w.records ==> x in w.records && r.w.records[x] == w.records[x]
    ensures WellFormed(w) ==> WellFormed(r.w)
    decreases |ids|
  {
    if ids == [] then Run(w, true)
    else if ids[0] !in w.records then Run(w, false)
    else PopAll(Pop(w, ids[0]), ids[1..])
  }

  // ---------------------------------------------------------------------
  // Nodes that are back in the link-state database (`recently_added_nodes`)
  // ---------------------------------------------------------------------

  /** The returning members of one hub-down group (`hub_down_added_nodes`). */
  datatype Batch = Batch(group: int, members: seq<NodeId>)

  /** The first loop's state: the watcher's state and the batches so far. */
  datatype Pending = Pending(w: Watch, batches: seq<Batch>, ok: bool)

  ghost predicate InBatches(batches: seq<Batch>, id: NodeId) {
    exists k :: 0 <= k < |batches| && id in batches[k].members
  }

  lemma InBatchesCons(batches: seq<Batch>, x: NodeId)
    requires batches != []
    ensures InBatches(batches, x) <==> x in batches[0].members || InBatches(batches[1..], x)
  {
    if InBatches(batches, x) && x !in batches[0].members {
      var k :| 0 <= k < |batches| && x in batches[k].members;
      assert x in batches[1..][k - 1].members;
    }
    if InBatches(batches[1..], x) {
      var k :| 0 <= k < |batches[1..]| && x in batches[1..][k].members;
      assert x in batches[k + 1].members;
    }
    if x in batches[0].members {
      assert 0 < |batches|;
    }
  }
  /** Some batch belongs to group `g`. */
  ghost predicate BatchGroup(batches: seq<Batch>, g: int) {
    exists k :: 0 <= k < |batches| && batches[k].group == g
  }

  /** What the first loop keeps true of `hub_down_added_nodes`: one batch
      per group, and every batched node that is still tracked carries the
      group of its batch. */
  ghost predicate Batched(w: Watch, batches: seq<Batch>) {
    && (forall i, j :: 0 <= i < j < |batches| ==> batches[i].group != batches[j].group)
    && (forall k, x :: 0 <= k < |batches| && x in batches[k].members && x in w.records ==>
          w.records[x].group == Some(batches[k].group))
  }

  /** `hub_down_added_nodes[g].append(id)`, creating the list (last in the
      dict's order) when `g` is new: the first batch of `g` gains `id`, or a
      batch `[id]` of `g` is added after the others. */
  function Enlist(batches: seq<Batch>, g: int, id: NodeId): (b: seq<Batch>)
    ensures |batches| <= |b| <= |batches| + 1
    ensures forall k :: 0 <= k < |batches| ==>
      && b[k].group == batches[k].group
      && (b[k].members == batches[k].members || (b[k].group == g && b[k].members == batches[k].members + [id]))
    ensures |b| == |batches| + 1 ==> b[|batches|] == Batch(g, [id]) && !BatchGroup(batches, g)
    ensures exists k :: 0 <= k < |b| && b[k].group == g && id in b[k].members
  {
    if batches == [] then
      assert id in [Batch(g, [id])][0].members;
      [Batch(g, [id])]
    else if batches[0].group == g then
      var b := [batches[0].(members := batches[0].members + [id])] + batches[1..];
      assert id in b[0].members && b[0].group == g;
      b
    else
      var rest := Enlist(batches[1..], g, id);
      var b := [batches[0]] + rest;
      var j :| 0 <= j < |rest| && rest[j].group == g && id in rest[j].members;
      assert b[j + 1].group == g && id in b[j + 1].members;
      assert forall k :: 1 <= k < |batches| ==> b[k] == rest[k - 1] && batches[k] == batches[1..][k - 1];
      assert |b| == |batches| + 1 ==> !BatchGroup(batches, g) by {
        if |b| == |batches| + 1 {
          forall k | 0 <= k < |batches| ensures batches[k].group != g {
            if k > 0 {
              assert batches[k] == batches[1..][k - 1];
            }
          }
        }
      }
      b
  }

  /** After `Enlist` the batched nodes are the earlier ones and `id`. */
  lemma EnlistMembers(batches: seq<Batch>, g: int, id: NodeId)
    ensures forall x :: InBatches(Enlist(batches, g, id), x) <==> InBatches(batches, x) || x == id
  {
    var b := Enlist(batches, g, id);
    forall x ensures InBatches(b, x) <==> InBatches(batches, x) || x == id {
      if InBatches(b, x) {
        var k :| 0 <= k < |b| && x in b[k].members;
        if k < |batches| && x != id {
          assert x in batches[k].members;
        }
      }
      if InBatches(batches, x) {
        var k :| 0 <= k < |batches| && x in batches[k].members;
        assert x in b[k].members;
      }
    }
  }

  /** After `Enlist` the groups with a batch are the earlier ones and `g`. */
  lemma EnlistGroups(batches: seq<Batch>, g: int, id: NodeId)
    ensures forall h :: BatchGroup(Enlist(batches, g, id), h) <==> BatchGroup(batches, h) || h == g
  {
    var b := Enlist(batches, g, id);
    forall h ensures BatchGroup(b, h) <==> BatchGroup(batches, h) || h == g {
      if BatchGroup(b, h) {
        var k :| 0 <= k < |b| && b[k].group == h;
        if k < |batches| {
          assert batches[k].group == h;
        }
      }
      if BatchGroup(batches, h) {
        var k :| 0 <= k < |batches| && batches[k].group == h;
        assert b[k].group == h;
      }
    }
  }

  /** One node of the first loop over `recently_added_nodes`, following its
      `elif` chain. Only the second branch asks `is_silenced` for a node
      without a group; the third asks it (again) for every alerting node
      that did not take the second. The second branch reads the node's
      thread row, which is missing when no thread was ever opened (IndexError),
      and replaces its alert message. */
  function AddedStep(w: Watch, env: Env, batches: seq<Batch>, id: NodeId): (p: Pending)
    ensures WellFormed(w) ==> WellFormed(p.w)
    ensures Retains(w, p.w)
  {
    if id !in w.records then Pending(w, batches, true)
    else
      var r := w.records[id];
      if !r.alerting then Pending(Pop(w, id), batches, true)
      else
        var w1 := if r.group.None? then CheckSilenced(w, env, id) else w;
        if r.group.None? && SilenceOf(w, env, id) == Unsilenced then
          if id !in w1.threads then Pending(w1, batches, false)
          else Pending(Pop(w1.(alerts := w1.alerts + {id}), id), batches, true)
        else
          var w2 := CheckSilenced(w1, env, id);
          if SilenceOf(w1, env, id) != Unsilenced then Pending(Pop(w2, id), batches, true)
          else if r.group.Some? && id !in w2.silenced then
            Pending(w2, Enlist(batches, r.group.value, id), true)
          else Pending(w2, batches, true)
  }

  /** The first loop over `recently_added_nodes`. */
  function AddedLoop(w: Watch, env: Env, batches: seq<Batch>, ids: seq<NodeId>): (p: Pending)
    ensures WellFormed(w) ==> WellFormed(p.w)
    ensures Retains(w, p.w)
    decreases |ids|
  {
    if ids == [] then Pending(w, batches, true)
    else
      var q := AddedStep(w, env, batches, ids[0]);
      if !q.ok then q else AddedLoop(q.w, env, q.batches, ids[1..])
  }

  /** The second loop, over `hub_down_added_nodes`: the group's thread row
      must exist (IndexError otherwise), its returning members are popped,
      and a group left without members is closed (`hub_down_tracker.pop`,
      KeyError when the group is not in it). */
  function Recover(w: Watch, batches: seq<Batch>): (r: Run)
    ensures WellFormed(w) ==> WellFormed(r.w)
    ensures Retains(w, r.w)
    decreases |batches|
  {
    if batches == [] then Run(w, true)
    else
      var b := batches[0];
      if IntToString(b.group) !in w.threads then Run(w, false)
      else
        var p := PopAll(w, b.members);
        if !p.ok then p
        else if GroupMembers(p.w, b.group) == [] then
          if b.group !in p.w.hubDown then Run(p.w, false)
          else Recover(p.w.(hubDown := p.w.hubDown - {b.group}), batches[1..])
        else Recover(p.w, batches[1..])
  }

  /** The whole `if recently_added_nodes:` block. */
  function AddedPhase(w: Watch, env: Env, added: seq<NodeId>): (r: Run)
    ensures WellFormed(w) ==> WellFormed(r.w)
    ensures Retains(w, r.w)
  {
    var p := AddedLoop(w, env, [], added);
    if !p.ok then Run(p.w, false) else Recover(p.w, p.batches)
  }

  // ---------------------------------------------------------------------
  // Nodes that left the link-state database (`recently_removed_nodes`)
  // ---------------------------------------------------------------------

  /** Hub-down formation: every removed node not in the silenced cache is
      (re)tracked with the cycle's time as both its timestamp and its group. */
  function FormGroup(w: Watch, ids: seq<NodeId>, now: int): (v: Watch)
    ensures v.hubDown == w.hubDown && v.silenced == w.silenced
    ensures v.threads == w.threads && v.alerts == w.alerts
    ensures forall x :: x in w.records && x !in ids ==> x in v.records && v.records[x] == w.records[x]
    ensures forall x :: x in v.records ==> x in w.records || x in ids
    ensures WellFormed(w) ==> WellFormed(v)
    decreases |ids|
  {
    if ids == [] then w
    else
      var w1 := if ids[0] !in w.silenced then Put(w, ids[0], NodeRecord(now, false, Some(now))) else w;
      FormGroup(w1, ids[1..], now)
  }

  /** One by one: every removed node that `ok_to_monitor` accepts is
      (re)tracked on its own; a malformed mesh address makes it raise. */
  function Screen(w: Watch, ids: seq<NodeId>, now: int): (r: Run)
    ensures r.w.hubDown == w.hubDown && r.w.silenced == w.silenced
    ensures r.w.threads == w.threads && r.w.alerts == w.alerts
    ensures forall x :: x in w.records && x !in ids ==> x in r.w.records && r.w.records[x] == w.records[x]
    ensures forall x :: x in r.w.records ==> x in w.records || x in ids
    ensures WellFormed(w) ==> WellFormed(r.w)
    decreases |ids|
  {
    if ids == [] then Run(w, true)
    else match OkToMonitor(ids[0])
      case Raises => Run(w, false)
      case Returns(monitor) =>
        var w1 := if monitor then Put(w, ids[0], NodeRecord(now, false, None)) else w;
        Screen(w1, ids[1..], now)
  }

  /** The whole `if recently_removed_nodes:` block. The count that decides
      between the two ways is incremented for every removed node, cached or
      not. */
  function AdmitPhase(w: Watch, removed: seq<NodeId>, now: int): (r: Run)
    ensures WellFormed(w) ==> WellFormed(r.w)
    ensures forall x :: x in w.records && x !in removed ==> x in r.w.records && r.w.records[x] == w.records[x]
    ensures forall x :: x in r.w.records ==> x in w.records || x in removed
  {
    if Config.HubWatcherMode && |removed| >= Config.HubDownNodeQty then Run(FormGroup(w, removed, now), true)
    else Screen(w, removed, now)
  }

  // ---------------------------------------------------------------------
  // Thresholds (`if removed_nodes_tracker:`)
  // ---------------------------------------------------------------------

  /** A node watched on its own, down longer than five minutes, not yet
      alerted. */
  predicate IndividualDue(r: NodeRecord, now: int) {
    now - r.since > Config.AlertTimeThresholdMs && !r.alerting && r.group.None?
  }

  /** A node of a hub-down group, down longer than three minutes, not yet
      alerted. */
  predicate HubDue(r: NodeRecord, now: int) {
    now - r.since > Config.HubDownAlertTimeMs && !r.alerting && r.group.Some?
  }

  /** The individual alert: with a thread row, the alert message in the
      channel is replaced; without one, a thread is opened. Either way the
      node is alerting afterwards. */
  function RaiseAlert(w: Watch, id: NodeId): (v: Watch)
    requires id in w.records
    ensures v.records == w.records[id := w.records[id].(alerting := true)]
    ensures id in v.threads
    ensures v.order == w.order && v.hubDown == w.hubDown && v.silenced == w.silenced
  {
    var w1 := if id in w.threads then w.(alerts := w.alerts + {id}) else w.(threads := w.threads + {id});
    SetAlerting(w1, id)
  }

  /** The first test of the sweep for one tracked node; `is_silenced` is
      asked only when the other three conditions hold. */
  function SweepStep(w: Watch, env: Env, now: int, id: NodeId): (v: Watch)
    requires id in w.records
    ensures v.order == w.order && v.hubDown == w.hubDown
    ensures forall x :: x in v.records <==> x in w.records
    ensures AlertingKept(w, v)
    ensures WellFormed(w) ==> WellFormed(v)
  {
    if IndividualDue(w.records[id], now) then
      var c := CheckSilenced(w, env, id);
      if SilenceOf(w, env, id) == Unsilenced then RaiseAlert(c, id) else c
    else w
  }

  /** The second test of the sweep: a due group member that is not in the
      silenced cache joins `hub_down_nodes_current`. */
  predicate Collects(w: Watch, now: int, id: NodeId)
    requires id in w.records
  {
    HubDue(w.records[id], now) && id !in w.silenced
  }

  datatype Swept = Swept(w: Watch, collected: seq<NodeId>)

  /** The sweep over the tracker, `collected` being `hub_down_nodes_current`
      so far. */
  function Sweep(w: Watch, env: Env, now: int, ids: seq<NodeId>, collected: seq<NodeId>): (s: Swept)
    requires forall i :: 0 <= i < |ids| ==> ids[i] in w.records
    ensures s.w.order == w.order && s.w.hubDown == w.hubDown
    ensures forall x :: x in s.w.records <==> x in w.records
    ensures forall x :: x in s.collected ==> x in collected || x in ids
    ensures AlertingKept(w, s.w)
    ensures WellFormed(w) ==> WellFormed(s.w)
    decreases |ids|
  {
    if ids == [] then Swept(w, collected)
    else
      var v := SweepStep(w, env, now, ids[0]);
      var c := if Collects(v, now, ids[0]) then collected + [ids[0]] else collected;
      Sweep(v, env, now, ids[1..], c)
  }

  /** The sweep from position `i` on, one node at a time. */
  lemma SweepFrom(w: Watch, env: Env, now: int, ids: seq<NodeId>, i: nat, collected: seq<NodeId>)
    requires i < |ids|
    requires forall x :: x in ids ==> x in w.records
    ensures var v := SweepStep(w, env, now, ids[i]);
      Sweep(w, env, now, ids[i..], collected)
      == Sweep(v, env, now, ids[i + 1..], if Collects(v, now, ids[i]) then collected + [ids[i]] else collected)
  {
    assert ids[i..][1..] == ids[i + 1..];
  }

  /** The escalation's loop: each member's node number is taken for the map
      link (`IP_to_NN` may raise) and the member is marked alerting. */
  function MarkAlerting(w: Watch, ids: seq<NodeId>, nodes: seq<Option<int>>): (m: Mapped)
    requires forall i :: 0 <= i < |ids| ==> ids[i] in w.records
    ensures m.w.order == w.order && m.w.silenced == w.silenced && m.w.hubDown == w.hubDown
    ensures m.w.threads == w.threads && m.w.alerts == w.alerts
    ensures forall x :: x in m.w.records <==> x in w.records
    ensures AlertingKept(w, m.w)
    decreases |ids|
  {
    if ids == [] then Mapped(w, nodes, true)
    else match IpToNodeNumber(ids[0])
      case Raises => Mapped(w, nodes, false)
      case Returns(n) => MarkAlerting(SetAlerting(w, ids[0]), ids[1..], nodes + [n])
  }

  /** What the hub-down event posts: the announcement in the channel (the
      group, taken from the first collected node's timestamp, its nodes, the
      suspected root cause, whether the whole channel is notified) and, once
      every member is marked, the map link in its thread (`None` when a node
      number lookup raised before). */
  datatype Escalation = Escalation(
    group: int,
    members: seq<NodeId>,
    suspect: string,
    notifyChannel: bool,
    mapUri: Option<string>)

  datatype Threshold = Threshold(w: Watch, ok: bool, escalation: Option<Escalation>)

  /** Hub-down escalation for at least `HubDownNodeQty` collected nodes. The
      announcement is posted and the thread row written under the group's
      decimal text before the loop; the map link is posted and the group
      enters `hub_down_tracker` after it. */
  ghost function Escalate(w: Watch, env: Env, collected: seq<NodeId>): (t: Threshold)
    requires collected != []
    requires forall i :: 0 <= i < |collected| ==> collected[i] in w.records
    ensures forall x :: x in t.w.records <==> x in w.records
    ensures t.w.order == w.order && t.w.silenced == w.silenced
    ensures AlertingKept(w, t.w)
  {
    var g := w.records[collected[0]].since;
    var sample := collected[..if |collected| < Config.RootCauseSample then |collected| else Config.RootCauseSample];
    var suspect := RootCause(sample, env.explorer, env.inTime);
    var announced := Escalation(g, collected, suspect, |collected| >= Config.HubDownRaiseQty, None);
    var w1 := w.(threads := w.threads + {IntToString(g)});
    var m := MarkAlerting(w1, collected, []);
    if !m.ok then Threshold(m.w, false, Some(announced))
    else
      Threshold(
        m.w.(hubDown := m.w.hubDown + {g}), true,
        Some(announced.(mapUri := Some(WebmapUriAsWritten(m.nodes, NodeNumberText)))))
  }

  /** Too few collected nodes: `del removed_nodes_tracker[id]["hub_down_group"]`
      for each, which raises KeyError on a node without a group. */
  function Ungroup(w: Watch, ids: seq<NodeId>): (r: Run)
    requires forall i :: 0 <= i < |ids| ==> ids[i] in w.records
    ensures r.w.order == w.order && r.w.silenced == w.silenced && r.w.hubDown == w.hubDown
    ensures r.w.threads == w.threads && r.w.alerts == w.alerts
    ensures forall x :: x in r.w.records <==> x in w.records
    ensures AlertingKept(w, r.w)
    decreases |ids|
  {
    if ids == [] then Run(w, true)
    else
      var r := w.records[ids[0]];
      if r.group.None? then Run(w, false)
      else Ungroup(w.(records := w.records[ids[0] := r.(group := None)]), ids[1..])
  }

  /** The periodic status of one open hub-down group: its thread row must
      exist (IndexError otherwise) and, when its thread head carries "eyes",
      every remaining member's node number is taken for the map link. */
  ghost predicate GroupStatusOk(w: Watch, env: Env, g: int) {
    && IntToString(g) in w.threads
    && ("eyes" in env.thread(IntToString(g)).reactions ==>
          forall x :: x in GroupMembers(w, g) ==> IpToNodeNumber(x).Returns?)
  }

  /** What the collected nodes lead to: an escalation when there are
      enough of them, otherwise the loss of their groups. */
  ghost function Settle(w: Watch, env: Env, collected: seq<NodeId>): (t: Threshold)
    requires forall x :: x in collected ==> x in w.records
    ensures WellFormed(w) ==> WellFormed(t.w)
    ensures AlertingKept(w, t.w)
  {
    if |collected| >= Config.HubDownNodeQty then Escalate(w, env, collected)
    else if collected != [] then
      var u := Ungroup(w, collected);
      Threshold(u.w, u.ok, None)
    else Threshold(w, true, None)
  }

  /** The periodic status of every group of `gs`. */
  ghost predicate AllGroupsOk(w: Watch, env: Env, gs: set<int>) {
    forall g :: g in gs ==> GroupStatusOk(w, env, g)
  }

  /** The whole `if removed_nodes_tracker:` block; `statusMinute` is the
      outcome of the report-interval test on the clock. */
  ghost function ThresholdPhase(w: Watch, env: Env, now: int, statusMinute: bool): (t: Threshold)
    requires WellFormed(w)
    ensures WellFormed(t.w)
    ensures AlertingKept(w, t.w)
  {
    if |w.records| == 0 then Threshold(w, true, None)
    else
      var s := Sweep(w, env, now, w.order, []);
      var c := s.collected;
      var t := Settle(s.w, env, c);
      if t.ok && statusMinute && !AllGroupsOk(t.w, env, t.w.hubDown) then
        Threshold(t.w, false, t.escalation)
      else t
  }

  // ---------------------------------------------------------------------
  // The daily report
  // ---------------------------------------------------------------------

  /** The tracked nodes down longer than the abandonment limit, in tracker
      order. */
  function Abandoned(ids: seq<NodeId>, records: map<NodeId, NodeRecord>, now: int): (a: seq<NodeId>)
    ensures forall x :: x in a <==> x in ids && x in records && now - records[x].since > Config.AbandonedThresholdMs
    ensures NoDup(ids) ==> NoDup(a)
    ensures |a| <= |ids|
  {
    if ids == [] then []
    else
      var last := ids[|ids| - 1];
      var init := Abandoned(ids[..|ids| - 1], records, now);
      if last in records && now - records[last].since > Config.AbandonedThresholdMs then
        assert ids == ids[..|ids| - 1] + [last];
        assert NoDup(ids) ==> last !in ids[..|ids| - 1];
        assert NoDup(ids) ==> NoDup(init + [last]) by {
          if NoDup(ids) { AppendFreshNoDup(init, last); }
        }
        init + [last]
      else
        assert ids == ids[..|ids| - 1] + [last];
        init
  }

  /** The abandoned nodes among the first `i + 1` ids. */
  lemma AbandonedSnoc(ids: seq<NodeId>, records: map<NodeId, NodeRecord>, now: int, i: nat)
    requires i < |ids|
    ensures Abandoned(ids[..i + 1], records, now)
      == Abandoned(ids[..i], records, now)
         + (if ids[i] in records && now - records[ids[i]].since > Config.AbandonedThresholdMs then [ids[i]] else [])
  {
    assert ids[..i + 1][..i] == ids[..i];
  }

  /** The map loop of the report: every alerting node that is not silenced
      contributes its node number (`IP_to_NN` may raise). */
  function MapPass(w: Watch, env: Env, ids: seq<NodeId>, nodes: seq<Option<int>>): (m: Mapped)
    requires forall i :: 0 <= i < |ids| ==> ids[i] in w.records
    ensures m.w.order == w.order && m.w.records == w.records && m.w.hubDown == w.hubDown
    ensures m.w.threads == w.threads && m.w.alerts == w.alerts
    ensures NoDup(w.silenced) ==> NoDup(m.w.silenced)
    decreases |ids|
  {
    if ids == [] then Mapped(w, nodes, true)
    else if !w.records[ids[0]].alerting then MapPass(w, env, ids[1..], nodes)
    else
      var c := CheckSilenced(w, env, ids[0]);
      if SilenceOf(w, env, ids[0]) != Unsilenced then MapPass(c, env, ids[1..], nodes)
      else match IpToNodeNumber(ids[0])
        case Raises => Mapped(c, nodes, false)
        case Returns(n) => MapPass(c, env, ids[1..], nodes + [n])
  }

  /** The table loop of the report: `is_silenced` is asked for every node
      that is not abandoned. */
  function TablePass(w: Watch, env: Env, ids: seq<NodeId>, abandoned: seq<NodeId>): (v: Watch)
    ensures v.order == w.order && v.records == w.records && v.hubDown == w.hubDown
    ensures v.threads == w.threads && v.alerts == w.alerts
    ensures NoDup(w.silenced) ==> NoDup(v.silenced)
    decreases |ids|
  {
    if ids == [] then w
    else TablePass(if ids[0] !in abandoned then CheckSilenced(w, env, ids[0]) else w, env, ids[1..], abandoned)
  }

  /** What the daily report announces: how many nodes are still down (the
      abandoned ones not counted), the ":tada:" when none are tracked, the
      abandoned nodes, and the map link of alerting unsilenced nodes. */
  datatype Report = Report(remaining: int, tada: bool, abandoned: seq<NodeId>, mapUri: Option<string>)

  /** The end of the reporting block: the silence check over the tracked
      nodes that are not abandoned, then the abandoned nodes popped. */
  function ClearAbandoned(w: Watch, env: Env, ab: seq<NodeId>): (p: Run)
    requires WellFormed(w)
    ensures WellFormed(p.w) && Retains(w, p.w)
  {
    PopAll(TablePass(w, env, w.order, ab), ab)
  }

  datatype Reported = Reported(w: Watch, ok: bool, report: Option<Report>)

  /** The reporting block, run when `reportMinute` (the reporting hour and
      minute of the local clock). Announcing an abandoned node reads its
      thread row (IndexError when missing); abandoned nodes are popped at
      the end. */
  function ReportPhase(w: Watch, env: Env, now: int, reportMinute: bool): (r: Reported)
    requires WellFormed(w)
    ensures WellFormed(r.w)
    ensures Retains(w, r.w)
  {
    if !reportMinute then Reported(w, true, None)
    else
      var ab := Abandoned(w.order, w.records, now);
      if exists x :: x in ab && x !in w.threads then Reported(w, false, None)
      else
        var summary := Report(|w.records| - |ab|, |w.records| == 0, ab, None);
        if |w.records| == 0 then Reported(w, true, Some(summary))
        else
          var m := MapPass(w, env, w.order, []);
          if !m.ok then Reported(m.w, false, Some(summary))
          else
            var p := ClearAbandoned(m.w, env, ab);
            var uri := if m.nodes == [] then None else Some(WebmapUriAsWritten(m.nodes, NodeNumberText));
            Reported(p.w, p.ok, Some(summary.(mapUri := uri)))
  }

  // ---------------------------------------------------------------------
  // One cycle
  // ---------------------------------------------------------------------

  /** The outcome of one pass of the main loop: the state it leaves, whether
      it ran to the end, and what it announced. */
  datatype Outcome = Outcome(w: Watch, completed: bool, escalation: Option<Escalation>, report: Option<Report>)

  /** One cycle on the tracker `w`, given the nodes that came back and the
      nodes that left (each once, in the order the source walks its set
      differences) and the cycle's time `now` in ms. */
  ghost function Cycle(w: Watch, env: Env, added: seq<NodeId>, removed: seq<NodeId>, now: int,
                       statusMinute: bool, reportMinute: bool): (o: Outcome)
    requires WellFormed(w)
    ensures WellFormed(o.w)
  {
    var a := AddedPhase(w, env, added);
    if !a.ok then Outcome(a.w, false, None, None)
    else
      var b := AdmitPhase(a.w, removed, now);
      if !b.ok then Outcome(b.w, false, None, None)
      else
        var t := ThresholdPhase(b.w, env, now, statusMinute);
        if !t.ok then Outcome(t.w, false, t.escalation, None)
        else
          var r := ReportPhase(t.w, env, now, reportMinute);
          Outcome(r.w, r.ok, t.escalation, r.report)
  }
}
