/** The state the watcher keeps across cycles, and the world it reads
    during one cycle. */
module WatchState {
  import opened Basics
  import opened Suppression
  import opened Explorer

  /** One entry of `removed_nodes_tracker`: when the node was first seen
      missing (ms), whether it is alerting, and its hub-down group (the
      `hub_down_group` key, absent for a node watched on its own). */
  datatype NodeRecord = NodeRecord(since: int, alerting: bool, group: Option<int>)

  /** The persistent state.
      - `order`, `records`: `removed_nodes_tracker`, its keys in insertion
        order and its values.
      - `hubDown`: the keys of `hub_down_tracker` (its only value is
        `{"alerting": True}`).
      - `silenced`: `silenced_nodes_cache`, a list used as a set.
      - `threads`: the keys that have a `slack_threads` row (node ids, and
        `str()` of hub-down groups).
      - `alerts`: the node ids that have an `alert_messages` row. */
  datatype Watch = Watch(
    order: seq<NodeId>,
    records: map<NodeId, NodeRecord>,
    hubDown: set<int>,
    silenced: seq<NodeId>,
    threads: set<string>,
    alerts: set<NodeId>)

  /** The outside world during one cycle: the reactions and times of each
      key's thread head and of each node's alert message (as Slack answers),
      the clock of `is_silenced` in seconds, node explorer's answer per
      router, and how many root-cause lookups start before their deadline. */
  datatype Env = Env(
    thread: string -> Message,
    alert: NodeId -> Message,
    clockS: int,
    explorer: NodeId -> Lookup,
    inTime: nat)

  /** The tracker's key order lists exactly its keys, once each, and the
      cache has no repeats (it only ever appends an absent id). */
  ghost predicate WellFormed(w: Watch) {
    && NoDup(w.order)
    && (forall id :: id in w.order <==> id in w.records)
    && NoDup(w.silenced)
  }

  /** Every node `v` tracks was tracked in `w`, with the same record. */
  ghost predicate Retains(w: Watch, v: Watch) {
    forall x :: x in v.records ==> x in w.records && v.records[x] == w.records[x]
  }

  /** `v` tracks the nodes `w` tracks, and none of them stopped alerting. */
  ghost predicate AlertingKept(w: Watch, v: Watch) {
    && (forall x :: x in v.records ==> x in w.records)
    && (forall x :: x in w.records ==> x in v.records && (w.records[x].alerting ==> v.records[x].alerting))
  }

  /** Some tracked node carries hub-down group `g`. */
  ghost predicate HasMembers(w: Watch, g: int) {
    exists x :: x in w.records && w.records[x].group == Some(g)
  }

  /** `removed_nodes_tracker[id] = r`: a new key goes last, an existing key
      keeps its place and its record is replaced. */
  function Put(w: Watch, id: NodeId, r: NodeRecord): (v: Watch)
    ensures v.records == w.records[id := r]
    ensures WellFormed(w) && id in w.records ==> v.order == w.order
    ensures WellFormed(w) && id !in w.records ==> v.order == w.order + [id]
    ensures v.hubDown == w.hubDown && v.silenced == w.silenced && v.threads == w.threads && v.alerts == w.alerts
    ensures WellFormed(w) ==> WellFormed(v)
  {
    if id in w.order then w.(records := w.records[id := r])
    else
      AppendFreshNoDup(w.order, id);
      w.(order := w.order + [id], records := w.records[id := r])
  }

  /** `removed_nodes_tracker.pop(id)`. */
  function Pop(w: Watch, id: NodeId): (v: Watch)
    ensures v.records == w.records - {id}
    ensures id !in v.order
    ensures forall x :: x != id ==> (x in v.order <==> x in w.order)
    ensures id !in w.order ==> v.order == w.order
    ensures NoDup(w.order) ==>
      forall k :: 0 <= k < |w.order| && w.order[k] == id ==> v.order == w.order[..k] + w.order[k + 1..]
    ensures v.hubDown == w.hubDown && v.silenced == w.silenced && v.threads == w.threads && v.alerts == w.alerts
    ensures WellFormed(w) ==> WellFormed(v)
  {
    assert NoDup(w.order) ==>
      forall k :: 0 <= k < |w.order| && w.order[k] == id ==> Without(w.order, id) == w.order[..k] + w.order[k + 1..]
    by {
      if NoDup(w.order) {
        forall k | 0 <= k < |w.order| && w.order[k] == id
          ensures Without(w.order, id) == w.order[..k] + w.order[k + 1..]
        {
          WithoutSplice(w.order, id, k);
        }
      }
    }
    w.(order := Without(w.order, id), records := w.records - {id})
  }

  /** `removed_nodes_tracker[id]["alerting"] = True`. */
  function SetAlerting(w: Watch, id: NodeId): (v: Watch)
    requires id in w.records
    ensures v.records == w.records[id := w.records[id].(alerting := true)]
    ensures v.order == w.order && v.hubDown == w.hubDown && v.silenced == w.silenced
    ensures v.threads == w.threads && v.alerts == w.alerts
  {
    w.(records := w.records[id := w.records[id].(alerting := true)])
  }

  /** The ids among `ids` whose record carries hub-down group `g`, in order. */
  function GroupFilter(ids: seq<NodeId>, records: map<NodeId, NodeRecord>, g: int): (m: seq<NodeId>)
    ensures forall x :: x in m <==> x in ids && x in records && records[x].group == Some(g)
    ensures |m| <= |ids|
  {
    if ids == [] then []
    else
      var last := ids[|ids| - 1];
      GroupFilter(ids[..|ids| - 1], records, g)
      + (if last in records && records[last].group == Some(g) then [last] else [])
  }

  /** `get_hub_down_group_members(g)`: tracked ids of group `g`, in tracker
      order (a record without a group raises KeyError, which is caught). */
  function GroupMembers(w: Watch, g: int): seq<NodeId> {
    GroupFilter(w.order, w.records, g)
  }

  /** The decision `is_silenced(id)` takes in state `w`: the thread head is
      consulted when `id` has a thread row, the alert message when it has an
      alert row. */
  function SilenceOf(w: Watch, env: Env, id: NodeId): Silence {
    Judge(
      if id in w.threads then Some(env.thread(id)) else None,
      if id in w.alerts then Some(env.alert(id)) else None,
      env.clockS)
  }

  /** The state after `is_silenced(id)`: only the cache changes. */
  function CheckSilenced(w: Watch, env: Env, id: NodeId): (v: Watch)
    ensures v.order == w.order && v.records == w.records && v.hubDown == w.hubDown
    ensures v.threads == w.threads && v.alerts == w.alerts
    ensures SilenceOf(v, env, id) == SilenceOf(w, env, id)
    ensures WellFormed(w) ==> WellFormed(v)
  {
    w.(silenced := Refresh(w.silenced, id, SilenceOf(w, env, id)))
  }
}
