/** The node-explorer "neighbors" answer and the walk over it that collects
    the first hop of every outbound exit path of the queried router. */
module Explorer {
  import opened Basics

  /** One entry of the answer's `nodes` list: its `id` and the paths in
      `exit_paths.outbound`, each a list of node ids starting at the first hop. */
  datatype ExplorerNode = ExplorerNode(id: NodeId, outbound: seq<seq<NodeId>>)

  /** The answer to one lookup. `LookupFailed` stands for every failure that
      happens before anything is collected: the HTTP request, the JSON
      decoding, a missing `nodes` key. */
  datatype Lookup = LookupFailed | Answer(nodes: seq<ExplorerNode>)

  /** What a walk collected, and whether it ran to the end (`false`: it hit an
      empty path, where `exit_path_node[0]` raises IndexError). */
  datatype Gathered = Gathered(exits: seq<NodeId>, complete: bool)

  /** The first hops of `paths`, in order, up to the first empty path. */
  function FirstHops(paths: seq<seq<NodeId>>): (g: Gathered)
    ensures g.complete <==> forall i :: 0 <= i < |paths| ==> paths[i] != []
    ensures |g.exits| <= |paths|
    ensures forall i :: 0 <= i < |g.exits| ==> paths[i] != [] && g.exits[i] == paths[i][0]
    ensures g.complete ==> |g.exits| == |paths|
    ensures !g.complete ==> paths[|g.exits|] == []
  {
    if paths == [] then Gathered([], true)
    else if paths[0] == [] then Gathered([], false)
    else
      var rest := FirstHops(paths[1..]);
      Gathered([paths[0][0]] + rest.exits, rest.complete)
  }

  /** The first element of every path, when none is empty. */
  function Heads(paths: seq<seq<NodeId>>): seq<NodeId>
    requires forall i :: 0 <= i < |paths| ==> paths[i] != []
  {
    seq(|paths|, i requires 0 <= i < |paths| => paths[i][0])
  }

  /** The walk over the answer's nodes: for each node whose id is `router`,
      the first hops of its outbound paths; it stops at the first empty path. */
  function RouterExits(router: NodeId, nodes: seq<ExplorerNode>): Gathered {
    if nodes == [] then Gathered([], true)
    else
      var rest := RouterExits(router, nodes[1..]);
      if nodes[0].id == router then
        var h := FirstHops(nodes[0].outbound);
        if !h.complete then h
        else Gathered(h.exits + rest.exits, rest.complete)
      else rest
  }

  /** No node answering for `router` has an empty outbound path. */
  ghost predicate NoEmptyPath(router: NodeId, nodes: seq<ExplorerNode>) {
    forall k, i :: 0 <= k < |nodes| && nodes[k].id == router && 0 <= i < |nodes[k].outbound| ==>
      nodes[k].outbound[i] != []
  }

  /** The reference reading of a complete walk: the heads of the outbound
      paths of every matching node, node after node. */
  ghost function MatchingHeads(router: NodeId, nodes: seq<ExplorerNode>): seq<NodeId>
    requires NoEmptyPath(router, nodes)
  {
    if nodes == [] then []
    else
      assert forall k :: 0 < k < |nodes| ==> nodes[k] == nodes[1..][k - 1];
      (if nodes[0].id == router then Heads(nodes[0].outbound) else []) + MatchingHeads(router, nodes[1..])
  }

  /** The walk runs to the end exactly when no matching node has an empty
      path, and then it has collected the heads of all their paths in order. */
  lemma {:induction false} RouterExitsComplete(router: NodeId, nodes: seq<ExplorerNode>)
    ensures RouterExits(router, nodes).complete <==> NoEmptyPath(router, nodes)
    ensures NoEmptyPath(router, nodes) ==> RouterExits(router, nodes).exits == MatchingHeads(router, nodes)
  {
    if nodes != [] {
      RouterExitsComplete(router, nodes[1..]);
      var first := nodes[0].id == router ==> forall i :: 0 <= i < |nodes[0].outbound| ==> nodes[0].outbound[i] != [];
      assert forall k :: 0 < k < |nodes| ==> nodes[k] == nodes[1..][k - 1];
      assert NoEmptyPath(router, nodes) <==> first && NoEmptyPath(router, nodes[1..]) by {
        if first && NoEmptyPath(router, nodes[1..]) {
          forall k, i | 0 <= k < |nodes| && nodes[k].id == router && 0 <= i < |nodes[k].outbound|
            ensures nodes[k].outbound[i] != []
          {
            if k > 0 { assert nodes[k] == nodes[1..][k - 1]; }
          }
        }
      }
      if nodes[0].id == router && first {
        var h := FirstHops(nodes[0].outbound);
        assert h.exits == Heads(nodes[0].outbound);
      }
    }
  }

  /** `FirstHops` from position `p` on, one path at a time. */
  lemma FirstHopsFrom(paths: seq<seq<NodeId>>, p: nat)
    requires p < |paths|
    ensures paths[p] == [] ==> FirstHops(paths[p..]) == Gathered([], false)
    ensures paths[p] != [] ==>
      FirstHops(paths[p..]) == Gathered([paths[p][0]] + FirstHops(paths[p + 1..]).exits, FirstHops(paths[p + 1..]).complete)
  {
    assert paths[p..][1..] == paths[p + 1..];
  }

  /** The loop over one node's outbound paths, appending each first hop to
      `acc`; on an empty path it stops with the appends made so far. */
  method AppendHops(acc: seq<NodeId>, paths: seq<seq<NodeId>>) returns (acc': seq<NodeId>, complete: bool)
    ensures acc' == acc + FirstHops(paths).exits
    ensures complete == FirstHops(paths).complete
  {
    acc' := acc;
    var p := 0;
    while p < |paths|
      invariant 0 <= p <= |paths|
      invariant FirstHops(paths[p..]).complete == FirstHops(paths).complete
      invariant acc' + FirstHops(paths[p..]).exits == acc + FirstHops(paths).exits
    {
      FirstHopsFrom(paths, p);
      if paths[p] == [] {
        // exit_path_node[0] raises IndexError
        return acc', false;
      }
      ConcatAssociates(acc', [paths[p][0]], FirstHops(paths[p + 1..]).exits);
      acc' := acc' + [paths[p][0]];
      p := p + 1;
    }
    complete := true;
  }

  /** The nested loops over `nodes` and `exit_paths.outbound`, appending to
      `acc`. On an empty path the appends made so far stay and `complete`
      is false. */
  method AppendRouterExits(acc: seq<NodeId>, router: NodeId, nodes: seq<ExplorerNode>)
    returns (acc': seq<NodeId>, complete: bool)
    ensures acc' == acc + RouterExits(router, nodes).exits
    ensures complete == RouterExits(router, nodes).complete
  {
    acc' := acc;
    var n := 0;
    while n < |nodes|
      invariant 0 <= n <= |nodes|
      invariant RouterExits(router, nodes[n..]).complete == RouterExits(router, nodes).complete
      invariant acc' + RouterExits(router, nodes[n..]).exits == acc + RouterExits(router, nodes).exits
    {
      assert nodes[n..][1..] == nodes[n + 1..];
      if nodes[n].id == router {
        var hops;
        acc', hops := AppendHops(acc', nodes[n].outbound);
        if !hops {
          return acc', false;
        }
      }
      n := n + 1;
    }
    complete := true;
  }
}
