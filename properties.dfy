/** What the phases of a cycle promise about the tracker, proved from their
    definitions. */
module Properties {
  import opened Basics
  import opened Decimal
  import opened Suppression
  import opened WatchState
  import opened NodeHelpers
  import opened Phases
  import opened Topology
  import Config

  // ---------------------------------------------------------------------
  // Nodes that came back
  // ---------------------------------------------------------------------

  /** Popping every id of `ids` untracks them all and keeps every other
      record as it was. */
  lemma {:induction false} PopAllUntracks(w: Watch, ids: seq<NodeId>)
    requires PopAll(w, ids).ok
    ensures forall x :: x in ids ==> x !in PopAll(w, ids).w.records
    ensures forall x :: x in w.records && x !in ids ==> x in PopAll(w, ids).w.records
    decreases |ids|
  {
    if ids != [] {
      PopAllUntracks(Pop(w, ids[0]), ids[1..]);
    }
  }

  /** One returning node, by the branch of the `elif` chain it takes: a node
      that is not alerting is popped; an alerting node without a group, or
      one that is silenced, is popped; an alerting group member that nothing
      silences stays tracked and joins the batch of its own group. Other
      nodes keep their record and their silencing answer. */
  lemma AddedStepFacts(w: Watch, env: Env, batches: seq<Batch>, id: NodeId)
    requires WellFormed(w)
    requires AddedStep(w, env, batches, id).ok
    ensures var p := AddedStep(w, env, batches, id);
      && (id !in w.records ==> p.w == w && p.batches == batches)
      && (id in w.records && !w.records[id].alerting ==> id !in p.w.records && p.batches == batches)
      && (id in w.records && w.records[id].alerting
          && (w.records[id].group.None? || SilenceOf(w, env, id) != Unsilenced) ==>
            id !in p.w.records && p.batches == batches)
      && (id in w.records && w.records[id].alerting
          && w.records[id].group.Some? && SilenceOf(w, env, id) == Unsilenced ==>
            && id in p.w.records
            && p.batches == Enlist(batches, w.records[id].group.value, id)
            && exists k :: 0 <= k < |p.batches| && p.batches[k].group == w.records[id].group.value
                           && id in p.batches[k].members)
      && (forall x :: x != id && x in w.records ==> x in p.w.records)
      && (forall x :: x != id ==> SilenceOf(p.w, env, x) == SilenceOf(w, env, x))
      && p.w.hubDown == w.hubDown
  {
    if id in w.records && w.records[id].alerting {
      var r := w.records[id];
      if r.group.Some? && SilenceOf(w, env, id) == Unsilenced {
        var w2 := CheckSilenced(w, env, id);
        assert id !in w2.silenced;
        assert AddedStep(w, env, batches, id) == Pending(w2, Enlist(batches, r.group.value, id), true);
      }
    }
  }

  /** The nodes listed in the batches after one returning node: the ones
      listed before, and the node itself when it was batched. */
  lemma AddedStepMembers(w: Watch, env: Env, batches: seq<Batch>, id: NodeId)
    requires WellFormed(w)
    requires AddedStep(w, env, batches, id).ok
    ensures var p := AddedStep(w, env, batches, id);
      forall x :: InBatches(p.batches, x) <==> InBatches(batches, x) || (x == id && p.batches != batches)
  {
    AddedStepFacts(w, env, batches, id);
    if id in w.records && w.records[id].alerting && w.records[id].group.Some? && SilenceOf(w, env, id) == Unsilenced {
      var g := w.records[id].group.value;
      var b := Enlist(batches, g, id);
      EnlistMembers(batches, g, id);
      var k :| 0 <= k < |b| && b[k].group == g && id in b[k].members;
      if b == batches {
        assert id in batches[k].members;
      }
    }
  }

  /** The groups with a batch after one returning node: the ones before,
      and the node's group when it is alerting and silenced by nothing. */
  lemma AddedStepGroups(w: Watch, env: Env, batches: seq<Batch>, id: NodeId)
    requires WellFormed(w)
    requires AddedStep(w, env, batches, id).ok
    ensures var p := AddedStep(w, env, batches, id);
      forall g :: BatchGroup(p.batches, g) <==>
        BatchGroup(batches, g)
        || (id in w.records && w.records[id].alerting && w.records[id].group == Some(g)
            && SilenceOf(w, env, id) == Unsilenced)
  {
    AddedStepFacts(w, env, batches, id);
    if id in w.records && w.records[id].alerting && w.records[id].group.Some? && SilenceOf(w, env, id) == Unsilenced {
      EnlistGroups(batches, w.records[id].group.value, id);
    }
  }

  /** One returning node keeps one batch per group, each tracked member
      carrying its batch's group. */
  lemma AddedStepBatched(w: Watch, env: Env, batches: seq<Batch>, id: NodeId)
    requires WellFormed(w) && Batched(w, batches)
    requires AddedStep(w, env, batches, id).ok
    ensures Batched(AddedStep(w, env, batches, id).w, AddedStep(w, env, batches, id).batches)
  {
    var p := AddedStep(w, env, batches, id);
    AddedStepFacts(w, env, batches, id);
    if id in w.records && w.records[id].alerting && w.records[id].group.Some? && SilenceOf(w, env, id) == Unsilenced {
      var b := p.batches;
      forall i, j | 0 <= i < j < |b| ensures b[i].group != b[j].group {
        if j == |batches| {
          assert b[i].group == batches[i].group;
        }
      }
      forall k, x | 0 <= k < |b| && x in b[k].members && x in p.w.records
        ensures p.w.records[x].group == Some(b[k].group)
      {
        if k < |batches| && x != id {
          assert x in batches[k].members;
        }
      }
    }
  }

  /** A node of `ids` that the first loop batches: tracked, alerting, in
      group `g`, and silenced by nothing. */
  ghost predicate Returning(w: Watch, env: Env, ids: seq<NodeId>, g: int) {
    exists x :: x in ids && x in w.records && w.records[x].alerting && w.records[x].group == Some(g)
                && SilenceOf(w, env, x) == Unsilenced
  }

  /** The first loop: every id it walks is untracked or batched, only walked
      ids are batched, and the records of the other nodes stay. On distinct
      ids, a group gets a batch exactly when one of its alerting members
      returns unsilenced; the batches stay one per group. */
  lemma {:induction false} AddedLoopFacts(w: Watch, env: Env, batches: seq<Batch>, ids: seq<NodeId>)
    requires WellFormed(w)
    requires AddedLoop(w, env, batches, ids).ok
    ensures var p := AddedLoop(w, env, batches, ids);
      && (forall x :: x in ids ==> x !in p.w.records || InBatches(p.batches, x))
      && (forall x :: InBatches(batches, x) ==> InBatches(p.batches, x))
      && (forall x :: InBatches(p.batches, x) ==> InBatches(batches, x) || x in ids)
      && (forall x :: x !in ids && x in w.records ==> x in p.w.records)
      && p.w.hubDown == w.hubDown
      && (Batched(w, batches) ==> Batched(p.w, p.batches))
      && (NoDup(ids) ==> forall g :: BatchGroup(p.batches, g) <==> BatchGroup(batches, g) || Returning(w, env, ids, g))
    decreases |ids|
  {
    if ids != [] {
      var q := AddedStep(w, env, batches, ids[0]);
      var p := AddedLoop(w, env, batches, ids);
      AddedStepFacts(w, env, batches, ids[0]);
      AddedStepMembers(w, env, batches, ids[0]);
      AddedStepGroups(w, env, batches, ids[0]);
      if Batched(w, batches) {
        AddedStepBatched(w, env, batches, ids[0]);
      }
      AddedLoopFacts(q.w, env, q.batches, ids[1..]);
      if NoDup(ids) {
        ConsNoDup(ids[0], ids[1..]);
        assert ids == [ids[0]] + ids[1..];
        forall g ensures BatchGroup(p.batches, g) <==> BatchGroup(batches, g) || Returning(w, env, ids, g) {
          assert Returning(q.w, env, ids[1..], g) <==> Returning(w, env, ids[1..], g) by {
            if Returning(q.w, env, ids[1..], g) {
              var x :| x in ids[1..] && x in q.w.records && q.w.records[x].alerting && q.w.records[x].group == Some(g)
                       && SilenceOf(q.w, env, x) == Unsilenced;
              assert x != ids[0];
            }
            if Returning(w, env, ids[1..], g) {
              var x :| x in ids[1..] && x in w.records && w.records[x].alerting && w.records[x].group == Some(g)
                       && SilenceOf(w, env, x) == Unsilenced;
              assert x != ids[0] && x in q.w.records;
            }
          }
          if Returning(w, env, ids, g) && !Returning(w, env, ids[1..], g) {
            var x :| x in ids && x in w.records && w.records[x].alerting && w.records[x].group == Some(g)
                     && SilenceOf(w, env, x) == Unsilenced;
            assert x == ids[0];
          }
        }
      }
    }
  }

  lemma BatchGroupCons(batches: seq<Batch>, g: int)
    requires batches != []
    ensures BatchGroup(batches, g) <==> batches[0].group == g || BatchGroup(batches[1..], g)
  {
    if BatchGroup(batches, g) && batches[0].group != g {
      var k :| 0 <= k < |batches| && batches[k].group == g;
      assert batches[1..][k - 1].group == g;
    }
    if BatchGroup(batches[1..], g) {
      var k :| 0 <= k < |batches[1..]| && batches[1..][k].group == g;
      assert batches[k + 1].group == g;
    }
  }

  /** On a well-formed tracker, the group's member list is empty exactly
      when no tracked node carries the group. */
  lemma NoMembers(w: Watch, g: int)
    requires WellFormed(w)
    ensures GroupMembers(w, g) == [] <==> !HasMembers(w, g)
  {
    if HasMembers(w, g) {
      var x :| x in w.records && w.records[x].group == Some(g);
      assert x in GroupMembers(w, g);
    }
    if GroupMembers(w, g) != [] {
      assert GroupMembers(w, g)[0] in GroupMembers(w, g);
    }
  }

  /** The second loop: every batched node is untracked and every other
      record stays. */
  lemma {:induction false} RecoverFacts(w: Watch, batches: seq<Batch>)
    requires Recover(w, batches).ok
    ensures var r := Recover(w, batches);
      && (forall x :: InBatches(batches, x) ==> x !in r.w.records)
      && (forall x :: x in w.records && !InBatches(batches, x) ==> x in r.w.records)
      && r.w.hubDown <= w.hubDown
    decreases |batches|
  {
    if batches != [] {
      var b := batches[0];
      var p := PopAll(w, b.members);
      PopAllUntracks(w, b.members);
      var next := if GroupMembers(p.w, b.group) == [] then p.w.(hubDown := p.w.hubDown - {b.group}) else p.w;
      RecoverFacts(next, batches[1..]);
      forall x ensures InBatches(batches, x) <==> x in b.members || InBatches(batches[1..], x) {
        InBatchesCons(batches, x);
      }
    }
  }

  /** Group closure in the second loop. A batched group that was open is
      closed exactly when no tracked node is left in it; a batched group
      that was not open still has members (popping it would have raised);
      every group without a batch keeps its place in the hub-down tracker. */
  lemma {:induction false} RecoverCloses(w: Watch, batches: seq<Batch>)
    requires WellFormed(w) && Batched(w, batches)
    requires Recover(w, batches).ok
    ensures var r := Recover(w, batches);
      && (forall g :: !BatchGroup(batches, g) ==> (g in r.w.hubDown <==> g in w.hubDown))
      && (forall g :: BatchGroup(batches, g) && g in w.hubDown ==> (g !in r.w.hubDown <==> !HasMembers(r.w, g)))
      && (forall g :: BatchGroup(batches, g) && g !in w.hubDown ==> HasMembers(r.w, g))
    decreases |batches|
  {
    forall g | !BatchGroup(batches, g)
      ensures g in Recover(w, batches).w.hubDown <==> g in w.hubDown
    {
      RecoverKeepsHub(w, batches, g);
    }
    if batches != [] {
      var b := batches[0];
      var p := PopAll(w, b.members);
      var next := if GroupMembers(p.w, b.group) == [] then p.w.(hubDown := p.w.hubDown - {b.group}) else p.w;
      assert Recover(w, batches) == Recover(next, batches[1..]);
      BatchedTail(w, next, batches);
      RecoverCloses(next, batches[1..]);
      RecoverHead(w, batches);
      forall g ensures BatchGroup(batches, g) <==> b.group == g || BatchGroup(batches[1..], g) {
        BatchGroupCons(batches, g);
      }
    }
  }

  /** The first batch's group is popped from the hub-down tracker exactly
      when the first loop left it without members, and must have been there
      then. */
  lemma RecoverHead(w: Watch, batches: seq<Batch>)
    requires WellFormed(w) && Batched(w, batches) && batches != []
    requires Recover(w, batches).ok
    ensures var r := Recover(w, batches); var g := batches[0].group;
      && (g in w.hubDown ==> (g !in r.w.hubDown <==> !HasMembers(r.w, g)))
      && (g !in w.hubDown ==> HasMembers(r.w, g))
  {
    var b := batches[0];
    var p := PopAll(w, b.members);
    NoMembers(p.w, b.group);
    var next := if GroupMembers(p.w, b.group) == [] then p.w.(hubDown := p.w.hubDown - {b.group}) else p.w;
    assert Recover(w, batches) == Recover(next, batches[1..]);
    BatchedTail(w, next, batches);
    assert !BatchGroup(batches[1..], b.group);
    RecoverKeepsHub(next, batches[1..], b.group);
    RecoverKeepsMembers(next, batches[1..], b.group);
  }

  /** A group without a batch is neither popped from nor added to the
      hub-down tracker by the second loop. */
  lemma {:induction false} RecoverKeepsHub(w: Watch, batches: seq<Batch>, g: int)
    requires !BatchGroup(batches, g)
    requires Recover(w, batches).ok
    ensures g in Recover(w, batches).w.hubDown <==> g in w.hubDown
    decreases |batches|
  {
    if batches != [] {
      var b := batches[0];
      var p := PopAll(w, b.members);
      var next := if GroupMembers(p.w, b.group) == [] then p.w.(hubDown := p.w.hubDown - {b.group}) else p.w;
      assert Recover(w, batches) == Recover(next, batches[1..]);
      BatchGroupCons(batches, g);
      RecoverKeepsHub(next, batches[1..], g);
    }
  }

  /** The later batches stay one per group over a tracker that only lost
      nodes. */
  lemma BatchedTail(w: Watch, v: Watch, batches: seq<Batch>)
    requires Batched(w, batches) && batches != []
    requires forall x :: x in v.records ==> x in w.records && v.records[x] == w.records[x]
    ensures Batched(v, batches[1..])
  {
    forall k, x | 0 <= k < |batches[1..]| && x in batches[1..][k].members && x in v.records
      ensures v.records[x].group == Some(batches[1..][k].group)
    {
      assert batches[1..][k] == batches[k + 1];
    }
  }

  /** The second loop leaves the members of a group without a batch as they
      were: batched nodes carry their own batch's group. */
  lemma RecoverKeepsMembers(w: Watch, batches: seq<Batch>, g: int)
    requires Batched(w, batches) && !BatchGroup(batches, g)
    requires Recover(w, batches).ok
    ensures HasMembers(Recover(w, batches).w, g) <==> HasMembers(w, g)
  {
    var r := Recover(w, batches);
    RecoverFacts(w, batches);
    if HasMembers(w, g) {
      var x :| x in w.records && w.records[x].group == Some(g);
      if InBatches(batches, x) {
        assert false;
      }
      assert x in r.w.records;
    }
  }

  /** A completed pass over the returning nodes untracks every one of them
      and leaves every other node's record as it was; no group opens. */
  lemma AddedPhaseUntracks(w: Watch, env: Env, added: seq<NodeId>)
    requires WellFormed(w)
    requires AddedPhase(w, env, added).ok
    ensures var r := AddedPhase(w, env, added);
      && (forall x :: x in r.w.records <==> x in w.records && x !in added)
      && (forall x :: x in r.w.records ==> r.w.records[x] == w.records[x])
      && r.w.hubDown <= w.hubDown
  {
    var p := AddedLoop(w, env, [], added);
    AddedLoopFacts(w, env, [], added);
    RecoverFacts(p.w, p.batches);
  }

  /** After a completed pass over distinct returning nodes, an open group is
      closed exactly when one of its alerting members returned unsilenced
      and no tracked node is left in it. */
  lemma AddedPhaseCloses(w: Watch, env: Env, added: seq<NodeId>)
    requires WellFormed(w) && NoDup(added)
    requires AddedPhase(w, env, added).ok
    ensures var r := AddedPhase(w, env, added);
      forall g :: g in w.hubDown ==> (g !in r.w.hubDown <==> Returning(w, env, added, g) && !HasMembers(r.w, g))
  {
    var p := AddedLoop(w, env, [], added);
    AddedLoopFacts(w, env, [], added);
    assert forall g :: !BatchGroup([], g);
    assert Batched(p.w, p.batches);
    assert forall g :: BatchGroup(p.batches, g) <==> Returning(w, env, added, g);
    RecoverCloses(p.w, p.batches);
  }

  // ---------------------------------------------------------------------
  // Nodes that left
  // ---------------------------------------------------------------------

  /** Hub-down formation (re)tracks exactly the removed nodes outside the
      cache, each as a fresh, not yet alerting member of the group named by
      the cycle's time; every other record stays. */
  lemma {:induction false} FormGroupTracks(w: Watch, ids: seq<NodeId>, now: int)
    ensures var v := FormGroup(w, ids, now);
      && (forall x :: x in v.records <==> x in w.records || (x in ids && x !in w.silenced))
      && (forall x :: x in ids && x !in w.silenced ==> v.records[x] == NodeRecord(now, false, Some(now)))
      && (forall x :: x in w.records && (x !in ids || x in w.silenced) ==> v.records[x] == w.records[x])
    decreases |ids|
  {
    if ids != [] {
      var w1 := if ids[0] !in w.silenced then Put(w, ids[0], NodeRecord(now, false, Some(now))) else w;
      FormGroupTracks(w1, ids[1..], now);
    }
  }

  /** Screening completes exactly when `ok_to_monitor` raises for none of the
      removed nodes, and then (re)tracks exactly those it accepts, each as a
      fresh node watched on its own. */
  lemma {:induction false} ScreenTracks(w: Watch, ids: seq<NodeId>, now: int)
    ensures Screen(w, ids, now).ok <==> forall x :: x in ids ==> OkToMonitor(x).Returns?
    ensures var v := Screen(w, ids, now).w;
      Screen(w, ids, now).ok ==>
      && (forall x :: x in v.records <==> x in w.records || (x in ids && OkToMonitor(x) == Returns(true)))
      && (forall x :: x in ids && OkToMonitor(x) == Returns(true) ==> v.records[x] == NodeRecord(now, false, None))
      && (forall x :: x in w.records && !(x in ids && OkToMonitor(x) == Returns(true)) ==> v.records[x] == w.records[x])
    decreases |ids|
  {
    if ids != [] {
      match OkToMonitor(ids[0])
      case Raises =>
      case Returns(monitor) =>
        var w1 := if monitor then Put(w, ids[0], NodeRecord(now, false, None)) else w;
        ScreenTracks(w1, ids[1..], now);
    }
  }

  /** Five or more removed nodes form a hub-down group whatever the cache
      holds (the count includes cached nodes); fewer are screened one by
      one. A completed admission tracks no node outside `removed` that was
      not tracked before, and keeps the records of the nodes outside it. */
  lemma AdmitPhaseTracks(w: Watch, removed: seq<NodeId>, now: int)
    ensures |removed| >= Config.HubDownNodeQty ==>
      AdmitPhase(w, removed, now) == Run(FormGroup(w, removed, now), true)
    ensures |removed| < Config.HubDownNodeQty ==> AdmitPhase(w, removed, now) == Screen(w, removed, now)
    ensures var r := AdmitPhase(w, removed, now);
      r.ok ==>
      && (forall x :: x in r.w.records ==> x in w.records || x in removed)
      && (forall x :: x in w.records && x !in removed ==> x in r.w.records && r.w.records[x] == w.records[x])
  {
    FormGroupTracks(w, removed, now);
    ScreenTracks(w, removed, now);
  }

  // ---------------------------------------------------------------------
  // Thresholds
  // ---------------------------------------------------------------------

  /** The ids of `ids` the sweep collects, judged on the state before it:
      tracked group members due for the hub-down announcement and not in the
      cache. */
  ghost function DueMembers(ids: seq<NodeId>, w: Watch, now: int): (d: seq<NodeId>)
    ensures forall x :: x in d <==> x in ids && x in w.records && HubDue(w.records[x], now) && x !in w.silenced
    ensures NoDup(ids) ==> NoDup(d)
  {
    if ids == [] then []
    else
      var rest := DueMembers(ids[1..], w, now);
      ConsNoDup(ids[0], ids[1..]);
      ConsNoDup(ids[0], rest);
      (if ids[0] in w.records && HubDue(w.records[ids[0]], now) && ids[0] !in w.silenced then [ids[0]] else [])
      + rest
  }

  /** The record the sweep leaves for a node: a due node watched on its own
      is alerting afterwards exactly when nothing silences it. */
  function SweptRecord(w: Watch, env: Env, now: int, x: NodeId): NodeRecord
    requires x in w.records
  {
    if IndividualDue(w.records[x], now) && SilenceOf(w, env, x) == Unsilenced
    then w.records[x].(alerting := true)
    else w.records[x]
  }

  lemma {:induction false} DueMembersFrame(ids: seq<NodeId>, w: Watch, v: Watch, now: int)
    requires forall x :: x in ids ==> (x in w.records <==> x in v.records)
    requires forall x :: x in ids && x in w.records ==> v.records[x] == w.records[x]
    requires forall x :: x in ids ==> (x in w.silenced <==> x in v.silenced)
    ensures DueMembers(ids, v, now) == DueMembers(ids, w, now)
    decreases |ids|
  {
    if ids != [] {
      DueMembersFrame(ids[1..], w, v, now);
    }
  }

  /** The sweep step for `id` touches nothing that belongs to another node. */
  lemma SweepStepFrame(w: Watch, env: Env, now: int, id: NodeId)
    requires id in w.records
    ensures var v := SweepStep(w, env, now, id);
      && v.records[id] == SweptRecord(w, env, now, id)
      && (IndividualDue(w.records[id], now) && SilenceOf(w, env, id) == Unsilenced ==> id in v.threads)
      && (Collects(v, now, id) <==> HubDue(w.records[id], now) && id !in w.silenced)
      && (forall x :: x != id && x in w.records ==> v.records[x] == w.records[x])
      && (forall x :: x != id ==> (x in v.silenced <==> x in w.silenced))
      && (forall x :: x != id ==> (x in v.threads <==> x in w.threads))
      && (forall x :: x != id ==> (x in v.alerts <==> x in w.alerts))
  {
  }

  lemma DueMembersCons(ids: seq<NodeId>, w: Watch, now: int)
    requires ids != [] && ids[0] in w.records
    ensures DueMembers(ids, w, now) ==
      (if HubDue(w.records[ids[0]], now) && ids[0] !in w.silenced then [ids[0]] else [])
      + DueMembers(ids[1..], w, now)
  {
  }

  /** The sweep step for `id` collects it exactly when it is a due group
      member outside the cache, and leaves every other node's membership of
      the due members as it was. */
  lemma SweepStepKeepsDue(w: Watch, env: Env, now: int, id: NodeId, ids: seq<NodeId>)
    requires id in w.records && id !in ids
    ensures var v := SweepStep(w, env, now, id);
      && (Collects(v, now, id) <==> HubDue(w.records[id], now) && id !in w.silenced)
      && DueMembers(ids, v, now) == DueMembers(ids, w, now)
  {
    SweepStepFrame(w, env, now, id);
    DueMembersFrame(ids, w, SweepStep(w, env, now, id), now);
  }

  /** The sweep over distinct tracked ids collects exactly their due group
      members, in order. */
  lemma {:induction false} SweepCollects(w: Watch, env: Env, now: int, ids: seq<NodeId>, collected: seq<NodeId>)
    requires NoDup(ids)
    requires forall i :: 0 <= i < |ids| ==> ids[i] in w.records
    ensures Sweep(w, env, now, ids, collected).collected == collected + DueMembers(ids, w, now)
    decreases |ids|
  {
    if ids != [] {
      var id := ids[0];
      var v := SweepStep(w, env, now, id);
      var c := if Collects(v, now, id) then collected + [id] else collected;
      ConsNoDup(id, ids[1..]);
      assert ids == [id] + ids[1..];
      SweepStepKeepsDue(w, env, now, id, ids[1..]);
      SweepCollects(v, env, now, ids[1..], c);
      var head := if HubDue(w.records[id], now) && id !in w.silenced then [id] else [];
      assert c == collected + head;
      DueMembersCons(ids, w, now);
      ConcatAssociates(collected, head, DueMembers(ids[1..], w, now));
    }
  }

  /** The sweep over distinct tracked ids leaves each of them its swept
      record (and a thread when it alerted) and touches no other node. */
  lemma {:induction false} SweepRecords(w: Watch, env: Env, now: int, ids: seq<NodeId>, collected: seq<NodeId>)
    requires NoDup(ids)
    requires forall i :: 0 <= i < |ids| ==> ids[i] in w.records
    ensures var s := Sweep(w, env, now, ids, collected);
      && (forall x :: x in ids ==> s.w.records[x] == SweptRecord(w, env, now, x))
      && (forall x :: x in w.records && x !in ids ==> s.w.records[x] == w.records[x])
    decreases |ids|
  {
    if ids != [] {
      var id := ids[0];
      var v := SweepStep(w, env, now, id);
      var c := if Collects(v, now, id) then collected + [id] else collected;
      SweepStepFrame(w, env, now, id);
      ConsNoDup(id, ids[1..]);
      assert ids == [id] + ids[1..];
      assert Sweep(w, env, now, ids, collected) == Sweep(v, env, now, ids[1..], c);
      SweepRecords(v, env, now, ids[1..], c);
      forall x | x in ids[1..]
        ensures SweptRecord(v, env, now, x) == SweptRecord(w, env, now, x)
      {
        assert SilenceOf(v, env, x) == SilenceOf(w, env, x);
      }
    }
  }

  /** Every due node watched on its own that nothing silences has a thread
      after the sweep; the thread and alert rows of other nodes stay. */
  lemma {:induction false} SweepOpensThreads(w: Watch, env: Env, now: int, ids: seq<NodeId>, collected: seq<NodeId>)
    requires NoDup(ids)
    requires forall i :: 0 <= i < |ids| ==> ids[i] in w.records
    ensures var s := Sweep(w, env, now, ids, collected);
      && (forall x :: x in ids && IndividualDue(w.records[x], now) && SilenceOf(w, env, x) == Unsilenced ==> x in s.w.threads)
      && (forall x :: x !in ids ==> (x in s.w.threads <==> x in w.threads) && (x in s.w.alerts <==> x in w.alerts))
    decreases |ids|
  {
    if ids != [] {
      var id := ids[0];
      var v := SweepStep(w, env, now, id);
      var c := if Collects(v, now, id) then collected + [id] else collected;
      SweepStepFrame(w, env, now, id);
      ConsNoDup(id, ids[1..]);
      assert ids == [id] + ids[1..];
      SweepOpensThreads(v, env, now, ids[1..], c);
      forall x | x in ids[1..]
        ensures SilenceOf(v, env, x) == SilenceOf(w, env, x) && v.records[x] == w.records[x]
      {
      }
    }
  }

  /** The escalation's loop completes exactly when every member has a node
      number, and then marks every member alerting; nothing else changes. */
  lemma {:induction false} MarkAlertingFacts(w: Watch, ids: seq<NodeId>, nodes: seq<Option<int>>)
    requires forall i :: 0 <= i < |ids| ==> ids[i] in w.records
    ensures var m := MarkAlerting(w, ids, nodes);
      && (m.ok <==> forall x :: x in ids ==> IpToNodeNumber(x).Returns?)
      && (m.ok ==> forall x :: x in ids ==> m.w.records[x] == w.records[x].(alerting := true))
      && (forall x :: x in w.records && x !in ids ==> m.w.records[x] == w.records[x])
    decreases |ids|
  {
    if ids != [] {
      match IpToNodeNumber(ids[0])
      case Raises =>
      case Returns(n) =>
        MarkAlertingFacts(SetAlerting(w, ids[0]), ids[1..], nodes + [n]);
    }
  }

  /** The escalation announces exactly the collected nodes under the group
      named by the first collected node's timestamp, opens a thread under
      the group's decimal text, and notifies the channel from
      `HubDownRaiseQty` nodes on. It completes, with a map link, exactly
      when every collected node has a node number; then every collected
      node is alerting and the group is registered. */
  lemma EscalateFacts(w: Watch, env: Env, collected: seq<NodeId>)
    requires collected != []
    requires forall i :: 0 <= i < |collected| ==> collected[i] in w.records
    ensures var t := Escalate(w, env, collected);
      var g := w.records[collected[0]].since;
      && t.escalation.Some?
      && t.escalation.value.group == g
      && t.escalation.value.members == collected
      && (t.escalation.value.notifyChannel <==> |collected| >= Config.HubDownRaiseQty)
      && IntToString(g) in t.w.threads
      && (t.ok <==> forall x :: x in collected ==> IpToNodeNumber(x).Returns?)
      && (t.escalation.value.mapUri.Some? <==> t.ok)
      && (t.ok ==>
            && t.w.hubDown == w.hubDown + {g}
            && (forall x :: x in collected ==> t.w.records[x] == w.records[x].(alerting := true)))
      && (forall x :: x in w.records && x !in collected ==> t.w.records[x] == w.records[x])
  {
    var g := w.records[collected[0]].since;
    MarkAlertingFacts(w.(threads := w.threads + {IntToString(g)}), collected, []);
  }

  /** Too few collected nodes: each of them loses its group and keeps the
      rest of its record; distinct group members always get there. */
  lemma {:induction false} UngroupFacts(w: Watch, ids: seq<NodeId>)
    requires forall i :: 0 <= i < |ids| ==> ids[i] in w.records
    ensures var r := Ungroup(w, ids);
      && (NoDup(ids) && (forall x :: x in ids ==> w.records[x].group.Some?) ==> r.ok)
      && (r.ok ==> forall x :: x in ids ==> r.w.records[x] == w.records[x].(group := None))
      && (forall x :: x in w.records && x !in ids ==> r.w.records[x] == w.records[x])
    decreases |ids|
  {
    if ids != [] {
      var rec := w.records[ids[0]];
      if rec.group.Some? {
        ConsNoDup(ids[0], ids[1..]);
        assert ids == [ids[0]] + ids[1..];
        UngroupFacts(w.(records := w.records[ids[0] := rec.(group := None)]), ids[1..]);
      }
    }
  }

  /** What the collected nodes lead to. An escalation is announced exactly
      when at least `HubDownNodeQty` nodes were collected, and names them all;
      it carries a map link exactly when all have node numbers, and then
      they are alerting and their group is open. Fewer distinct group
      members lose their group. The tracked set stays and other records are
      untouched. */
  lemma SettleFacts(w: Watch, env: Env, c: seq<NodeId>)
    requires forall x :: x in c ==> x in w.records
    ensures var t := Settle(w, env, c);
      && (forall x :: x in t.w.records <==> x in w.records)
      && (forall x :: x in w.records && x !in c ==> t.w.records[x] == w.records[x])
      && (t.escalation.Some? <==> |c| >= Config.HubDownNodeQty)
      && (t.escalation.Some? ==>
            && t.escalation.value.members == c
            && (t.escalation.value.mapUri.Some? <==> forall x :: x in c ==> IpToNodeNumber(x).Returns?)
            && (t.escalation.value.mapUri.Some? ==>
                  && t.escalation.value.group in t.w.hubDown
                  && (forall x :: x in c ==> t.w.records[x].alerting)))
      && (0 < |c| < Config.HubDownNodeQty && NoDup(c) && (forall x :: x in c ==> w.records[x].group.Some?) ==>
            t.ok && forall x :: x in c ==> t.w.records[x].group.None?)
  {
    if |c| >= Config.HubDownNodeQty {
      EscalateFacts(w, env, c);
    } else if c != [] {
      UngroupFacts(w, c);
    }
  }

  /** The sweep of a whole well-formed tracker: it collects exactly the due
      group members outside the cache, leaves each node its swept record,
      and keeps the tracked set. */
  lemma SweepWhole(w: Watch, env: Env, now: int)
    requires WellFormed(w)
    ensures var s := Sweep(w, env, now, w.order, []);
      && s.collected == DueMembers(w.order, w, now)
      && NoDup(s.collected)
      && (forall x :: x in s.w.records <==> x in w.records)
      && (forall x :: x in w.records ==> s.w.records[x] == SweptRecord(w, env, now, x))
  {
    SweepCollects(w, env, now, w.order, []);
    SweepRecords(w, env, now, w.order, []);
    assert [] + DueMembers(w.order, w, now) == DueMembers(w.order, w, now);
  }

  /** The threshold block on a well-formed tracker keeps the tracked set, and
      a due node watched on its own is alerting afterwards exactly when
      nothing silences it. */
  lemma ThresholdAlertsAlone(w: Watch, env: Env, now: int, statusMinute: bool)
    requires WellFormed(w)
    ensures var t := ThresholdPhase(w, env, now, statusMinute);
      && (forall x :: x in t.w.records <==> x in w.records)
      && (forall x :: x in w.records && IndividualDue(w.records[x], now) ==>
            (t.w.records[x].alerting <==> SilenceOf(w, env, x) == Unsilenced))
  {
    if |w.records| != 0 {
      var s := Sweep(w, env, now, w.order, []);
      SweepWhole(w, env, now);
      var t := Settle(s.w, env, s.collected);
      SettleFacts(s.w, env, s.collected);
      assert ThresholdPhase(w, env, now, statusMinute).w == t.w;
      forall x | x in w.records && IndividualDue(w.records[x], now)
        ensures t.w.records[x].alerting <==> SilenceOf(w, env, x) == Unsilenced
      {
        assert x !in s.collected;
        assert t.w.records[x] == SweptRecord(w, env, now, x);
      }
    }
  }

  /** The threshold block escalates over exactly the due group members
      outside the cache: an escalation is announced exactly when there are
      at least `HubDownNodeQty` of them, and names them all; it carries a
      map link exactly when all have node numbers, and then they are
      alerting and their group is open. Fewer due members lose their group. */
  lemma ThresholdEscalates(w: Watch, env: Env, now: int, statusMinute: bool)
    requires WellFormed(w)
    ensures var t := ThresholdPhase(w, env, now, statusMinute);
      var due := DueMembers(w.order, w, now);
      && (t.escalation.Some? <==> |due| >= Config.HubDownNodeQty)
      && (t.escalation.Some? ==>
            && t.escalation.value.members == due
            && (t.escalation.value.mapUri.Some? <==> forall x :: x in due ==> IpToNodeNumber(x).Returns?)
            && (t.escalation.value.mapUri.Some? ==>
                  && t.escalation.value.group in t.w.hubDown
                  && (forall x :: x in due ==> t.w.records[x].alerting)))
      && (0 < |due| < Config.HubDownNodeQty ==> forall x :: x in due ==> t.w.records[x].group.None?)
  {
    var due := DueMembers(w.order, w, now);
    if |w.records| == 0 {
      assert due == [];
    } else {
      var s := Sweep(w, env, now, w.order, []);
      SweepWhole(w, env, now);
      forall x | x in due
        ensures s.w.records[x].group.Some?
      {
      }
      SettleFacts(s.w, env, s.collected);
    }
  }

  // ---------------------------------------------------------------------
  // The daily report
  // ---------------------------------------------------------------------

  /** Popping distinct tracked ids always succeeds and shrinks the tracker by
      exactly their number. */
  lemma {:induction false} PopAllDistinct(w: Watch, ids: seq<NodeId>)
    requires NoDup(ids)
    requires forall x :: x in ids ==> x in w.records
    ensures PopAll(w, ids).ok
    ensures |PopAll(w, ids).w.records| == |w.records| - |ids|
    decreases |ids|
  {
    if ids != [] {
      var v := Pop(w, ids[0]);
      assert v.records.Keys == w.records.Keys - {ids[0]};
      ConsNoDup(ids[0], ids[1..]);
      assert ids == [ids[0]] + ids[1..];
      PopAllDistinct(v, ids[1..]);
    }
  }

  /** A node the report puts on the map: alerting and not silenced. */
  ghost predicate OnMap(w: Watch, env: Env, x: NodeId)
    requires x in w.records
  {
    w.records[x].alerting && SilenceOf(w, env, x) == Unsilenced
  }

  /** The map loop completes exactly when every node it puts on the map has
      a node number, and then it has added a number exactly when some node
      is on the map. */
  lemma {:induction false} MapPassFacts(w: Watch, env: Env, ids: seq<NodeId>, nodes: seq<Option<int>>)
    requires forall i :: 0 <= i < |ids| ==> ids[i] in w.records
    ensures var m := MapPass(w, env, ids, nodes);
      && |m.nodes| >= |nodes|
      && (m.ok <==> forall x :: x in ids && OnMap(w, env, x) ==> IpToNodeNumber(x).Returns?)
      && (m.ok ==> (|m.nodes| > |nodes| <==> exists x :: x in ids && OnMap(w, env, x)))
    decreases |ids|
  {
    if ids != [] {
      var id := ids[0];
      assert ids == [id] + ids[1..];
      if !w.records[id].alerting {
        MapPassFacts(w, env, ids[1..], nodes);
      } else {
        var c := CheckSilenced(w, env, id);
        assert forall x :: x in ids[1..] ==> OnMap(c, env, x) == OnMap(w, env, x);
        if SilenceOf(w, env, id) != Unsilenced {
          MapPassFacts(c, env, ids[1..], nodes);
        } else {
          match IpToNodeNumber(id)
          case Raises =>
          case Returns(n) =>
            MapPassFacts(c, env, ids[1..], nodes + [n]);
            var m := MapPass(c, env, ids[1..], nodes + [n]);
            assert MapPass(w, env, ids, nodes) == m;
            assert |m.nodes| >= |nodes| + 1;
            assert OnMap(w, env, id);
        }
      }
    }
  }

  /** On a reporting minute, the report completes exactly when every
      abandoned node has a thread and every node on the map has a node
      number; the summary is announced once the abandoned nodes' threads
      are found. */
  lemma ReportCompletes(w: Watch, env: Env, now: int)
    requires WellFormed(w)
    ensures var r := ReportPhase(w, env, now, true);
      var ab := Abandoned(w.order, w.records, now);
      && (r.ok <==>
            && (forall x :: x in ab ==> x in w.threads)
            && (forall x :: x in w.records && OnMap(w, env, x) ==> IpToNodeNumber(x).Returns?))
      && (r.report.Some? <==> forall x :: x in ab ==> x in w.threads)
  {
    var ab := Abandoned(w.order, w.records, now);
    if |w.records| != 0 && forall x :: x in ab ==> x in w.threads {
      var m := MapPass(w, env, w.order, []);
      MapPassFacts(w, env, w.order, []);
      if m.ok {
        var v := TablePass(m.w, env, w.order, ab);
        assert ClearAbandoned(m.w, env, ab) == PopAll(v, ab);
        PopAllDistinct(v, ab);
      }
    }
  }

  /** Popping distinct tracked nodes at the end of the report cannot fail,
      forgets exactly those nodes and shrinks the tracker by their number. */
  lemma ClearAbandonedFacts(w: Watch, env: Env, ab: seq<NodeId>)
    requires WellFormed(w) && NoDup(ab)
    requires forall x :: x in ab ==> x in w.records
    ensures var p := ClearAbandoned(w, env, ab);
      && p.ok
      && (forall x :: x in p.w.records <==> x in w.records && x !in ab)
      && |p.w.records| == |w.records| - |ab|
  {
    var v := TablePass(w, env, w.order, ab);
    PopAllDistinct(v, ab);
    PopAllUntracks(v, ab);
  }

  /** A completed report forgets exactly the abandoned nodes and keeps the
      other records as they were. */
  lemma ReportForgetsAbandoned(w: Watch, env: Env, now: int)
    requires WellFormed(w)
    requires ReportPhase(w, env, now, true).ok
    ensures var r := ReportPhase(w, env, now, true);
      && r.report.Some?
      && (forall x :: x in r.w.records <==>
            x in w.records && now - w.records[x].since <= Config.AbandonedThresholdMs)
      && (forall x :: x in r.w.records ==> r.w.records[x] == w.records[x])
  {
    var ab := Abandoned(w.order, w.records, now);
    ReportCompletes(w, env, now);
    if |w.records| != 0 {
      var m := MapPass(w, env, w.order, []);
      ClearAbandonedFacts(m.w, env, ab);
    } else {
      assert ab == [];
      assert w.records == map[];
    }
  }

  /** A completed report counts the nodes still down as the tracker's new
      size, cheers exactly when nothing was tracked, and links a map exactly
      when some node is on it. */
  lemma ReportSummarizes(w: Watch, env: Env, now: int)
    requires WellFormed(w)
    requires ReportPhase(w, env, now, true).ok
    ensures var r := ReportPhase(w, env, now, true);
      && r.report.Some?
      && r.report.value.remaining == |r.w.records|
      && (r.report.value.tada <==> |w.records| == 0)
      && (r.report.value.mapUri.Some? <==> exists x :: x in w.records && OnMap(w, env, x))
  {
    var ab := Abandoned(w.order, w.records, now);
    ReportCompletes(w, env, now);
    if |w.records| != 0 {
      var m := MapPass(w, env, w.order, []);
      MapPassFacts(w, env, w.order, []);
      ClearAbandonedFacts(m.w, env, ab);
    } else {
      assert ab == [];
      assert w.records == map[];
    }
  }

  // ---------------------------------------------------------------------
  // One cycle
  // ---------------------------------------------------------------------

  /** A completed cycle over the difference of two snapshots leaves no
      returning node tracked, and tracks nothing new but nodes that left. */
  lemma CycleForgetsReturned(w: Watch, env: Env, previous: seq<NodeId>, current: seq<NodeId>,
                             added: seq<NodeId>, removed: seq<NodeId>, now: int,
                             statusMinute: bool, reportMinute: bool)
    requires WellFormed(w)
    requires Enumerates(added, AddedNodes(previous, current))
    requires Enumerates(removed, RemovedNodes(previous, current))
    requires Cycle(w, env, added, removed, now, statusMinute, reportMinute).completed
    ensures var o := Cycle(w, env, added, removed, now, statusMinute, reportMinute);
      && (forall x :: x in added ==> x !in o.w.records)
      && (forall x :: x in o.w.records ==> x in w.records || x in removed)
  {
    DiffProperties(previous, current);
    var a := AddedPhase(w, env, added);
    AddedPhaseUntracks(w, env, added);
    var b := AdmitPhase(a.w, removed, now);
    AdmitPhaseTracks(a.w, removed, now);
    var t := ThresholdPhase(b.w, env, now, statusMinute);
    ThresholdAlertsAlone(b.w, env, now, statusMinute);
    if reportMinute {
      ReportForgetsAbandoned(t.w, env, now);
    }
  }

  /** Once a node is alerting it stays alerting for as long as it is
      tracked: a cycle never clears the flag, unless the node left again
      this cycle and its record was written afresh. */
  lemma CycleKeepsAlerting(w: Watch, env: Env, added: seq<NodeId>, removed: seq<NodeId>, now: int,
                           statusMinute: bool, reportMinute: bool)
    requires WellFormed(w)
    ensures var o := Cycle(w, env, added, removed, now, statusMinute, reportMinute);
      forall x :: x in w.records && x in o.w.records && x !in removed && w.records[x].alerting ==>
        o.w.records[x].alerting
  {
    var o := Cycle(w, env, added, removed, now, statusMinute, reportMinute);
    var a := AddedPhase(w, env, added);
    if a.ok {
      var b := AdmitPhase(a.w, removed, now);
      if b.ok {
        var t := ThresholdPhase(b.w, env, now, statusMinute);
        if t.ok {
          var r := ReportPhase(t.w, env, now, reportMinute);
          assert o.w == r.w;
          forall x | x in w.records && x in o.w.records && x !in removed && w.records[x].alerting
            ensures o.w.records[x].alerting
          {
            assert x in t.w.records && x in b.w.records && x in a.w.records;
          }
        } else {
          assert o.w == t.w;
          forall x | x in w.records && x in o.w.records && x !in removed && w.records[x].alerting
            ensures o.w.records[x].alerting
          {
            assert x in b.w.records && x in a.w.records;
          }
        }
      } else {
        assert o.w == b.w;
        forall x | x in w.records && x in o.w.records && x !in removed && w.records[x].alerting
          ensures o.w.records[x].alerting
        {
          assert x in a.w.records;
        }
      }
    }
  }
}
