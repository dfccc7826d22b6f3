/** The watcher's small helpers: the admission filter, the node-number
    conversion, downtime bucketing, the map link, and the root-cause guess
    with the caller's fallback. */
module NodeHelpers {
  import opened Basics
  import opened Decimal
  import opened Tally
  import opened Explorer
  import Config

  predicate StartsWith(s: string, prefix: string) {
    |prefix| <= |s| && s[..|prefix|] == prefix
  }

  /** The address `10.69.<x>.<y>` of the mesh's numbering plan. */
  function MeshAddress(x: nat, y: nat): NodeId {
    "10.69." + NatToString(x) + "." + NatToString(y)
  }

  /** Prod `ok_to_monitor`: not excluded, in 10.69, third part below 80.
      The third part is only read for a 10.69 id; a missing or non-numeric
      one raises (IndexError, ValueError). */
  function OkToMonitor(routerId: NodeId): Py<bool> {
    if routerId in Config.ExcludedFromMonitoring || !StartsWith(routerId, "10.69") then Returns(false)
    else
      var parts := Split(routerId, '.');
      if |parts| < 3 then Raises
      else match ParseInt(parts[2])
        case None => Raises
        case Some(third) => Returns(third < 80)
  }

  /** `IP_to_NN`: `None` outside 10.69; otherwise the third part times 100
      plus the fourth part, whose first character is dropped when it is three
      characters long. Fewer than four parts or a non-numeric part raise. */
  function IpToNodeNumber(ip: NodeId): Py<Option<int>> {
    if !StartsWith(ip, "10.69") then Returns(None)
    else
      var parts := Split(ip, '.');
      if |parts| < 4 then Raises
      else
        var last := if |parts[3]| == 3 then parts[3][1..] else parts[3];
        match (ParseInt(parts[2]), ParseInt(last))
        case (Some(a), Some(b)) => Returns(Some(a * 100 + b))
        case _ => Raises
  }

  lemma NoDotInNat(n: nat)
    ensures '.' !in NatToString(n)
  {
  }

  /** How `MeshAddress(x, y)` splits at its dots. */
  lemma MeshAddressParts(x: nat, y: nat)
    ensures StartsWith(MeshAddress(x, y), "10.69")
    ensures Split(MeshAddress(x, y), '.') == ["10", "69", NatToString(x), NatToString(y)]
  {
    var a, b := NatToString(x), NatToString(y);
    var parts := ["10", "69", a, b];
    NoDotInNat(x);
    NoDotInNat(y);
    MeshAddressJoins(a, b);
    SplitJoin(parts, '.');
    assert MeshAddress(x, y)[..5] == "10.69";
  }

  lemma MeshAddressJoins(a: string, b: string)
    ensures Join(["10", "69", a, b], '.') == "10.69." + a + "." + b
  {
    var parts := ["10", "69", a, b];
    assert parts[1..] == ["69", a, b];
    assert parts[1..][1..] == [a, b];
    assert parts[1..][1..][1..] == [b];
    var tail := a + "." + b;
    assert Join([a, b], '.') == tail;
    assert Join(["69", a, b], '.') == "69." + tail;
    assert "10" + "." + ("69." + tail) == "10.69." + a + "." + b;
  }

  lemma ParseNat(n: nat)
    ensures ParseInt(NatToString(n)) == Some(n)
  {
    ParseIntToString(n);
  }

  /** In 10.69, admission depends on the third part alone. */
  lemma OkToMonitorMesh(x: nat, y: nat)
    ensures OkToMonitor(MeshAddress(x, y)) == Returns(x < 80)
  {
    MeshAddressParts(x, y);
    ParseNat(x);
  }

  /** `10.69.<x>.<y>` with `y` of one or two digits is node `100 x + y`. */
  lemma NodeNumberOfShortHost(x: nat, y: nat)
    requires y < 100
    ensures IpToNodeNumber(MeshAddress(x, y)) == Returns(Some(x * 100 + y))
  {
    MeshAddressParts(x, y);
    ParseNat(x);
    ParseNat(y);
    assert |NatToString(y)| <= 2 by {
      if y >= 10 { assert NatToString(y) == NatToString(y / 10) + [DigitChar(y % 10)]; }
    }
  }

  /** With a three-digit `y` the hundreds digit is dropped: node `100 x + y % 100`. */
  lemma NodeNumberOfLongHost(x: nat, y: nat)
    requires 100 <= y < 1000
    ensures IpToNodeNumber(MeshAddress(x, y)) == Returns(Some(x * 100 + y % 100))
  {
    MeshAddressParts(x, y);
    ParseNat(x);
    var s := NatToString(y);
    var b, c := DigitChar((y / 10) % 10), DigitChar(y % 10);
    assert s == [DigitChar(y / 100), b, c] by {
      assert s == NatToString(y / 10) + [c];
      assert NatToString(y / 10) == NatToString(y / 100) + [b];
    }
    assert s[1..] == [b, c];
    assert DigitsValue([b, c]) == y % 100 by {
      assert [b, c][..1] == [b];
      assert DigitsValue([b]) == (y / 10) % 10 by { assert [b][..0] == []; }
    }
  }

  /** Python `int(a / 60000)`: true division, truncated toward zero. */
  function WholeMinutes(elapsedMs: int): (m: int)
    ensures elapsedMs >= 0 ==> 0 <= m && m * 60000 <= elapsedMs < m * 60000 + 60000
    ensures elapsedMs < 0 ==> m <= 0 && m * 60000 - 60000 < elapsedMs <= m * 60000
  {
    if elapsedMs >= 0 then elapsedMs / 60000 else -((-elapsedMs) / 60000)
  }

  /** `alert_threshold_m`: the individual alert threshold in whole minutes. */
  const AlertThresholdM := 5

  /** The unit `get_downtime_humanized` shows a downtime of `minutes` in.
      The hour and day figures are rounded floats, which this model leaves out. */
  datatype Downtime = Minutes(minutes: int) | Hours(minutes: int) | Days(minutes: int)

  /** Bucketing of `get_downtime_humanized`: within a minute of the alert
      threshold it shows the threshold; otherwise minutes below an hour, hours
      below two days, days beyond. */
  function Humanize(nowMs: int, sinceMs: int): (d: Downtime)
    ensures var m := WholeMinutes(nowMs - sinceMs);
      && (d.Minutes? <==> m < 60)
      && (d.Hours? <==> 60 <= m < 2880)
      && (d.Days? <==> 2880 <= m)
      && (-1 <= m - AlertThresholdM <= 1 ==> d == Minutes(AlertThresholdM))
      && (!(-1 <= m - AlertThresholdM <= 1) ==> d.minutes == m)
  {
    var m := WholeMinutes(nowMs - sinceMs);
    if m in [AlertThresholdM - 1, AlertThresholdM, AlertThresholdM + 1] then Minutes(AlertThresholdM)
    else if m < 60 then Minutes(m)
    else if m < 2880 then Hours(m)
    else Days(m)
  }

  /** Python `str()` of an `IP_to_NN` result. */
  function NodeNumberText(n: Option<int>): string {
    match n
    case None => "None"
    case Some(v) => IntToString(v)
  }

  /** What `get_node_webmap_URI` appends for position `i`: `str()` of the
      node, and a "-" unless the node is EQUAL to the last one. The loop is
      generic in the elements; the watcher passes `IP_to_NN` results, whose
      `str()` is `NodeNumberText`. */
  function WebmapPiece<T(==)>(nodes: seq<T>, str: T -> string, i: nat): string
    requires i < |nodes|
  {
    str(nodes[i]) + (if nodes[i] != nodes[|nodes| - 1] then "-" else "")
  }

  /** The pieces for the first `k` positions, as the loop appends them. */
  function WebmapSuffixAsWritten<T(==)>(nodes: seq<T>, str: T -> string, k: nat): string
    requires k <= |nodes|
  {
    if k == 0 then "" else WebmapSuffixAsWritten(nodes, str, k - 1) + WebmapPiece(nodes, str, k - 1)
  }

  /** The link `get_node_webmap_URI` returns, as written: the prefix and the
      pieces of all positions. */
  function WebmapUriAsWritten<T(==)>(nodes: seq<T>, str: T -> string): string {
    Config.NodeMapPrefix + WebmapSuffixAsWritten(nodes, str, |nodes|)
  }

  /** `get_node_webmap_URI` as written. */
  method NodeWebmapUriAsWritten<T(==)>(nodes: seq<T>, str: T -> string) returns (uri: string)
    ensures uri == Config.NodeMapPrefix + WebmapSuffixAsWritten(nodes, str, |nodes|)
  {
    uri := Config.NodeMapPrefix;
    for i := 0 to |nodes|
      invariant uri == Config.NodeMapPrefix + WebmapSuffixAsWritten(nodes, str, i)
    {
      var piece := str(nodes[i]);
      if nodes[i] != nodes[|nodes| - 1] {
        piece := piece + "-";
      }
      ConcatAssociates(Config.NodeMapPrefix, WebmapSuffixAsWritten(nodes, str, i), piece);
      uri := uri + piece;
    }
  }

  function Texts<T>(nodes: seq<T>, str: T -> string): (t: seq<string>)
    ensures |t| == |nodes|
    ensures forall i :: 0 <= i < |nodes| ==> t[i] == str(nodes[i])
  {
    seq(|nodes|, i requires 0 <= i < |nodes| => str(nodes[i]))
  }

  /** The evident intent of `get_node_webmap_URI`: the elements joined with
      "-", one separator between each two positions. */
  function NodeWebmapUri<T>(nodes: seq<T>, str: T -> string): string {
    Config.NodeMapPrefix + (if nodes == [] then "" else Join(Texts(nodes, str), '-'))
  }

  /** A node number whose text has no "-" (none or not negative). */
  predicate Unsigned(n: Option<int>) {
    n.None? || n.value >= 0
  }

  lemma UnsignedText(n: Option<int>)
    requires Unsigned(n)
    ensures '-' !in NodeNumberText(n)
  {
  }

  /** The intended link can be read back: after the prefix, splitting at "-"
      gives each node number's text in order. */
  lemma WebmapReadsBack(nodes: seq<Option<int>>)
    requires nodes != []
    requires forall i :: 0 <= i < |nodes| ==> Unsigned(nodes[i])
    ensures var uri := NodeWebmapUri(nodes, NodeNumberText);
      && StartsWith(uri, Config.NodeMapPrefix)
      && Split(uri[|Config.NodeMapPrefix|..], '-') == Texts(nodes, NodeNumberText)
  {
    var t := Texts(nodes, NodeNumberText);
    forall i | 0 <= i < |t| ensures '-' !in t[i] {
      UnsignedText(nodes[i]);
    }
    SplitJoin(t, '-');
    var uri := NodeWebmapUri(nodes, NodeNumberText);
    assert uri[|Config.NodeMapPrefix|..] == Join(t, '-');
  }

  lemma {:induction false} JoinSnoc(parts: seq<string>, x: string, sep: char)
    requires |parts| >= 1
    ensures Join(parts + [x], sep) == Join(parts, sep) + [sep] + x
    decreases |parts|
  {
    if |parts| > 1 {
      JoinSnoc(parts[1..], x, sep);
      assert (parts + [x])[1..] == parts[1..] + [x];
    } else {
      assert (parts + [x])[1..] == [x];
    }
  }

  lemma SeparatedStep(done: string, piece: string, j: string, x: string, joined: string)
    requires done == j + "-" && piece == x + "-" && joined == j + ['-'] + x
    ensures done + piece == joined + "-"
  {
  }

  lemma SeparatedLast(done: string, x: string, j: string, joined: string)
    requires done == j + "-" && joined == j + ['-'] + x
    ensures done + x == joined
  {
  }

  /** Before the last position, the loop as written has produced the joined
      text plus a trailing separator, as long as no earlier node equals the last. */
  lemma {:induction false} AsWrittenPrefix<T>(nodes: seq<T>, str: T -> string, k: nat)
    requires 1 <= k < |nodes|
    requires forall i :: 0 <= i < |nodes| - 1 ==> nodes[i] != nodes[|nodes| - 1]
    ensures WebmapSuffixAsWritten(nodes, str, k) == Join(Texts(nodes, str)[..k], '-') + "-"
    decreases k
  {
    var t := Texts(nodes, str);
    var x := t[k - 1];
    assert WebmapPiece(nodes, str, k - 1) == x + "-";
    if k == 1 {
      assert t[..1] == [x];
      assert WebmapSuffixAsWritten(nodes, str, 1) == "" + WebmapPiece(nodes, str, 0);
    } else {
      AsWrittenPrefix(nodes, str, k - 1);
      var j := Join(t[..k - 1], '-');
      JoinSnoc(t[..k - 1], x, '-');
      SliceSnoc(t, k);
      SeparatedStep(WebmapSuffixAsWritten(nodes, str, k - 1), WebmapPiece(nodes, str, k - 1), j, x, Join(t[..k], '-'));
    }
  }

  /** The loop as written produces the intended link when no node before the
      last is equal to the last one. */
  lemma AsWrittenAgrees<T>(nodes: seq<T>, str: T -> string)
    requires forall i :: 0 <= i < |nodes| - 1 ==> nodes[i] != nodes[|nodes| - 1]
    ensures Config.NodeMapPrefix + WebmapSuffixAsWritten(nodes, str, |nodes|) == NodeWebmapUri(nodes, str)
  {
    if |nodes| == 1 {
      AsWrittenSingle(nodes, str);
    } else if |nodes| > 1 {
      AsWrittenMany(nodes, str);
    }
  }

  lemma AsWrittenSingle<T>(nodes: seq<T>, str: T -> string)
    requires |nodes| == 1
    ensures WebmapSuffixAsWritten(nodes, str, 1) == Join(Texts(nodes, str), '-')
  {
    var t := Texts(nodes, str);
    assert t == [t[0]];
    assert WebmapSuffixAsWritten(nodes, str, 1) == "" + WebmapPiece(nodes, str, 0);
  }

  lemma AsWrittenMany<T>(nodes: seq<T>, str: T -> string)
    requires |nodes| > 1
    requires forall i :: 0 <= i < |nodes| - 1 ==> nodes[i] != nodes[|nodes| - 1]
    ensures WebmapSuffixAsWritten(nodes, str, |nodes|) == Join(Texts(nodes, str), '-')
  {
    var n := |nodes|;
    var t := Texts(nodes, str);
    AsWrittenPrefix(nodes, str, n - 1);
    JoinSnoc(t[..n - 1], t[n - 1], '-');
    SliceSnoc(t, n);
    assert t[..n] == t;
    assert WebmapPiece(nodes, str, n - 1) == t[n - 1];
    SeparatedLast(WebmapSuffixAsWritten(nodes, str, n - 1), t[n - 1], Join(t[..n - 1], '-'), Join(t, '-'));
  }


  /** Hosts `y` and `100 + y` of the same third part give the same node
      number (10.69.12.34 and 10.69.12.134 are both node 1234). */
  lemma NodeNumberCollision(x: nat, y: nat)
    requires y < 100
    ensures IpToNodeNumber(MeshAddress(x, y)) == IpToNodeNumber(MeshAddress(x, 100 + y)) == Returns(Some(x * 100 + y))
  {
    NodeNumberOfShortHost(x, y);
    NodeNumberOfOffsetHost(x, y);
  }

  lemma NodeNumberOfOffsetHost(x: nat, y: nat)
    requires y < 100
    ensures IpToNodeNumber(MeshAddress(x, 100 + y)) == Returns(Some(x * 100 + y))
  {
    NodeNumberOfLongHost(x, 100 + y);
    assert (100 + y) % 100 == y;
  }


  /** Two equal elements lose the separator between them: the loop as
      written gives `str(v) + str(v)` where the joined link has
      `str(v) + "-" + str(v)`. */
  lemma WebmapDropsSeparator<T>(v: T, str: T -> string)
    ensures WebmapSuffixAsWritten([v, v], str, 2) == str(v) + str(v)
    ensures NodeWebmapUri([v, v], str) == Config.NodeMapPrefix + (str(v) + "-" + str(v))
    ensures Config.NodeMapPrefix + WebmapSuffixAsWritten([v, v], str, 2) != NodeWebmapUri([v, v], str)
  {
    var nodes := [v, v];
    assert WebmapSuffixAsWritten(nodes, str, 1) == "" + WebmapPiece(nodes, str, 0);
    var t := Texts(nodes, str);
    assert t == [str(v), str(v)];
    assert t[1..] == [str(v)];
    assert Join(t[1..], '-') == str(v);
    assert Join(t, '-') == str(v) + "-" + str(v);
  }

  /** First hops the watcher's loop collects for `routers`: the error of a
      lookup is caught, so it contributes nothing, and an empty path is caught
      too, keeping the hops appended before it. */
  ghost function CaughtExits(routers: seq<NodeId>, explorer: NodeId -> Lookup): seq<NodeId> {
    if routers == [] then []
    else RouterCaught(routers[0], explorer) + CaughtExits(routers[1..], explorer)
  }

  /** The hops one router contributes. */
  ghost function RouterCaught(router: NodeId, explorer: NodeId -> Lookup): seq<NodeId> {
    match explorer(router)
    case LookupFailed => []
    case Answer(nodes) => RouterExits(router, nodes).exits
  }

  lemma CaughtExitsFrom(routers: seq<NodeId>, explorer: NodeId -> Lookup, k: nat)
    requires k < |routers|
    ensures CaughtExits(routers[k..], explorer) == RouterCaught(routers[k], explorer) + CaughtExits(routers[k + 1..], explorer)
  {
    assert routers[k..][1..] == routers[k + 1..];
  }

  /** The suspect the watcher names: "not sure lol" when the deadline
      passes before the sample is walked or no exit was collected, otherwise
      the most frequent exit, earliest on ties. */
  ghost function RootCause(sample: seq<NodeId>, explorer: NodeId -> Lookup, inTime: nat): (s: string)
    ensures |sample| <= inTime && CaughtExits(sample, explorer) != [] ==>
      exists i :: IsFirstMode(CaughtExits(sample, explorer), i) && CaughtExits(sample, explorer)[i] == s
  {
    if |sample| > inTime then Config.NotSure
    else
      var exits := CaughtExits(sample, explorer);
      if exits == [] then Config.NotSure else exits[FirstModeIndex(exits)]
  }

  /** The router loop of `get_closest_common_upstream`. The deadline is
      checked before each router; `inTime` routers start before it passes,
      and reaching a further router raises (`onTime` false). */
  method OutageExits(sample: seq<NodeId>, explorer: NodeId -> Lookup, inTime: nat)
    returns (exits: seq<NodeId>, onTime: bool)
    ensures onTime <==> |sample| <= inTime
    ensures onTime ==> exits == CaughtExits(sample, explorer)
  {
    exits := [];
    for k := 0 to |sample|
      invariant k <= inTime || k == 0
      invariant exits + CaughtExits(sample[k..], explorer) == CaughtExits(sample, explorer)
    {
      if k >= inTime {
        // raise Exception("request timeout")
        return exits, false;
      }
      CaughtExitsFrom(sample, explorer, k);
      ghost var before := exits;
      match explorer(sample[k]) {
        case LookupFailed =>
        case Answer(nodes) =>
          var complete;
          exits, complete := AppendRouterExits(exits, sample[k], nodes);
      }
      assert exits == before + RouterCaught(sample[k], explorer);
      ConcatAssociates(before, RouterCaught(sample[k], explorer), CaughtExits(sample[k + 1..], explorer));
    }
    assert sample[|sample|..] == [];
    onTime := true;
  }

  /** `get_closest_common_upstream` of the watcher with its caller's
      fallback: any exception (the deadline, or no exit node at all) yields
      "not sure lol". */
  method SuspectedProblemNode(sample: seq<NodeId>, explorer: NodeId -> Lookup, inTime: nat)
    returns (suspect: string)
    ensures suspect == RootCause(sample, explorer, inTime)
  {
    var exits, onTime := OutageExits(sample, explorer, inTime);
    if !onTime {
      return Config.NotSure;
    }
    var best := MostFrequentAndFirst(exits);
    suspect := if best.None? then Config.NotSure else best.value;
  }
}
