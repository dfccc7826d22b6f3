/** The difference between two link-state snapshots: the router ids that
    appeared and the ones that disappeared. */
module Topology {
  import opened Basics

  function Ids(snapshot: seq<NodeId>): set<NodeId> {
    set id | id in snapshot
  }

  /** `set(current_nodes) - set(previous_nodes)`. */
  function AddedNodes(previous: seq<NodeId>, current: seq<NodeId>): set<NodeId> {
    Ids(current) - Ids(previous)
  }

  /** `set(previous_nodes) - set(current_nodes)`. */
  function RemovedNodes(previous: seq<NodeId>, current: seq<NodeId>): set<NodeId> {
    Ids(previous) - Ids(current)
  }

  /** The two differences are disjoint, skip every id present in both
      snapshots, and turn the previous snapshot into the current one. */
  lemma DiffProperties(previous: seq<NodeId>, current: seq<NodeId>)
    ensures AddedNodes(previous, current) !! RemovedNodes(previous, current)
    ensures forall id :: id in previous && id in current ==>
      id !in AddedNodes(previous, current) && id !in RemovedNodes(previous, current)
    ensures (Ids(previous) - RemovedNodes(previous, current)) + AddedNodes(previous, current) == Ids(current)
  {
  }
}
