/** The stand-alone root-cause guesser: it asks node explorer for the exit
    paths of each down router, collects the first hop of every path, and
    names the most frequent one (the earliest on ties). Unlike the watcher's
    copy it catches nothing: any failed lookup ends the whole call. */
module UpstreamGuesser {
  import opened Basics
  import opened Tally
  import opened Explorer

  /** What the loop of `get_closest_common_upstream` collects over `routers`,
      or `None` when a lookup fails or an empty path raises (nothing is caught
      here, so either ends the call). */
  ghost function GuesserExits(routers: seq<NodeId>, lookup: NodeId -> Lookup): Option<seq<NodeId>> {
    if routers == [] then Some([])
    else match lookup(routers[0])
      case LookupFailed => None
      case Answer(nodes) =>
        var g := RouterExits(routers[0], nodes);
        if !g.complete then None
        else Prefixed(g.exits, GuesserExits(routers[1..], lookup))
  }

  function Prefixed(p: seq<NodeId>, o: Option<seq<NodeId>>): Option<seq<NodeId>> {
    match o
    case None => None
    case Some(s) => Some(p + s)
  }

  lemma PrefixedTwice(p: seq<NodeId>, q: seq<NodeId>, o: Option<seq<NodeId>>)
    ensures Prefixed(p, Prefixed(q, o)) == Prefixed(p + q, o)
  {
    if o.Some? {
      assert p + (q + o.value) == (p + q) + o.value;
    }
  }

  /** `get_closest_common_upstream(node_list, timestamp_s)`, with the HTTP
      request for a router's neighbors (at the given timestamp) as `lookup`.
      `None` when the call raises: a failed lookup, an empty path, or no
      exit node at all (`most_frequent_and_first` of an empty list). */
  method ClosestCommonUpstream(nodeList: seq<NodeId>, lookup: NodeId -> Lookup) returns (r: Option<NodeId>)
    ensures GuesserExits(nodeList, lookup).None? ==> r.None?
    ensures GuesserExits(nodeList, lookup).Some? ==>
      var exits := GuesserExits(nodeList, lookup).value;
      && (r.None? <==> exits == [])
      && (r.Some? ==> exists i :: IsFirstMode(exits, i) && exits[i] == r.value)
  {
    var outageExitNodes: seq<NodeId> := [];
    var k := 0;
    assert nodeList[k..] == nodeList;
    if GuesserExits(nodeList, lookup).Some? {
      assert [] + GuesserExits(nodeList, lookup).value == GuesserExits(nodeList, lookup).value;
    }
    while k < |nodeList|
      invariant 0 <= k <= |nodeList|
      invariant Prefixed(outageExitNodes, GuesserExits(nodeList[k..], lookup)) == GuesserExits(nodeList, lookup)
    {
      assert nodeList[k..][1..] == nodeList[k + 1..];
      match lookup(nodeList[k]) {
        case LookupFailed =>
          return None;
        case Answer(nodes) =>
          var complete;
          ghost var before := outageExitNodes;
          outageExitNodes, complete := AppendRouterExits(outageExitNodes, nodeList[k], nodes);
          if !complete {
            return None;
          }
          PrefixedTwice(before, RouterExits(nodeList[k], nodes).exits, GuesserExits(nodeList[k + 1..], lookup));
      }
      k := k + 1;
    }
    assert nodeList[k..] == [];
    assert outageExitNodes + [] == outageExitNodes;
    r := MostFrequentAndFirst(outageExitNodes);
  }

  /** The interactive prompt: lines are read until the first empty one, every
      line read (the empty one included) is appended, and the last entry is
      dropped. `None` when input ends first (`input()` raises EOFError). */
  method CollectDownNodes(lines: seq<string>) returns (r: Option<seq<NodeId>>)
    ensures r.Some? <==> "" in lines
    ensures r.Some? ==> exists k :: 0 <= k < |lines| && lines[k] == "" && "" !in lines[..k] && r.value == lines[..k]
  {
    var node: Option<string> := None;
    var downNodes: seq<string> := [];
    var read := 0;
    while node != Some("")
      invariant 0 <= read <= |lines|
      invariant downNodes == lines[..read]
      invariant node.None? <==> read == 0
      invariant node.Some? ==> node.value == lines[read - 1]
      invariant read > 0 ==> "" !in lines[..read - 1]
      decreases |lines| - read, if node.None? then 1 else 0
    {
      if read == |lines| {
        assert "" !in lines by {
          if node.Some? { assert lines == lines[..read - 1] + [node.value]; }
        }
        return None;
      }
      node := Some(lines[read]);
      downNodes := downNodes + [lines[read]];
      read := read + 1;
    }
    assert lines[..read - 1] + [""] == lines[..read];
    r := Some(downNodes[..|downNodes| - 1]);
  }
}
