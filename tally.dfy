/** The "most frequent, earliest on ties" choice that both the watcher and the
    stand-alone guesser make over a list of upstream node ids. */
module Tally {
  import opened Basics

  /** Python's `list.count(x)`. */
  function Count<T(==)>(s: seq<T>, x: T): nat {
    multiset(s)[x]
  }

  /** Position `i` holds an element of highest count, and every element
      before it has a strictly lower count: the element a left-to-right scan
      keeps when only a strictly greater count replaces its candidate. */
  ghost predicate IsFirstMode<T>(s: seq<T>, i: int) {
    && 0 <= i < |s|
    && (forall j :: 0 <= j < |s| ==> Count(s, s[j]) <= Count(s, s[i]))
    && (forall j :: 0 <= j < i ==> Count(s, s[j]) < Count(s, s[i]))
  }

  /** At most one position is the first mode. */
  lemma FirstModeUnique<T>(s: seq<T>, i: int, k: int)
    requires IsFirstMode(s, i) && IsFirstMode(s, k)
    ensures i == k
  {
    assert Count(s, s[i]) == Count(s, s[k]);
  }

  /** Every non-empty list has a first mode. */
  lemma {:induction false} FirstModeExists<T>(s: seq<T>)
    requires s != []
    ensures exists i :: IsFirstMode(s, i)
  {
    var best := 0;
    for k := 1 to |s|
      invariant 0 <= best < k
      invariant forall j :: 0 <= j < k ==> Count(s, s[j]) <= Count(s, s[best])
      invariant forall j :: 0 <= j < best ==> Count(s, s[j]) < Count(s, s[best])
    {
      if Count(s, s[k]) > Count(s, s[best]) {
        best := k;
      }
    }
    assert IsFirstMode(s, best);
  }

  /** The position a stable argmax settles on. */
  ghost function FirstModeIndex<T>(s: seq<T>): (i: int)
    requires s != []
    ensures IsFirstMode(s, i)
  {
    FirstModeExists(s);
    var i :| IsFirstMode(s, i);
    i
  }

  /** The stable argmax, written twice in the source: `most_frequent_and_first`
      of the guesser and `most_frequent_and_closest` of the watcher. `None` when
      the list is empty: both then reach their `return` with
      `most_frequent_node` unbound and raise. */
  method MostFrequentAndFirst<T(==)>(nodeList: seq<T>) returns (r: Option<T>)
    ensures r.None? <==> nodeList == []
    ensures r.Some? ==> exists i :: IsFirstMode(nodeList, i) && nodeList[i] == r.value
    ensures r.Some? ==> r.value == nodeList[FirstModeIndex(nodeList)]
  {
    var highestCount := 0;
    var mostFrequentNode: Option<T> := None;
    ghost var at := 0;
    for k := 0 to |nodeList|
      invariant mostFrequentNode.None? <==> k == 0
      invariant mostFrequentNode.None? ==> highestCount == 0
      invariant mostFrequentNode.Some? ==>
        0 <= at < k && nodeList[at] == mostFrequentNode.value && highestCount == Count(nodeList, nodeList[at])
      invariant forall j :: 0 <= j < k ==> Count(nodeList, nodeList[j]) <= highestCount
      invariant 0 <= at <= k
      invariant forall j :: 0 <= j < at ==> Count(nodeList, nodeList[j]) < highestCount
    {
      var currentNode := nodeList[k];
      var currentCount := Count(nodeList, currentNode);
      assert currentNode in multiset(nodeList);
      if currentCount > highestCount {
        highestCount := currentCount;
        mostFrequentNode := Some(currentNode);
        at := k;
      }
    }
    r := mostFrequentNode;
    if r.Some? {
      FirstModeUnique(nodeList, at, FirstModeIndex(nodeList));
    }
  }

}
