/** Shared vocabulary: optional values, the outcome of a Python call that may
    raise, node ids, and small facts about sequences used as ordered sets. */
module Basics {

  datatype Option<+T> = None | Some(value: T)

  /** What a Python expression does: return a value, or raise an exception
      that the surrounding code does not catch. */
  datatype Py<+T> = Returns(value: T) | Raises

  /** Router ids are the dotted-quad strings of the link-state database. */
  type NodeId = string

  /** A sequence without repeated elements. */
  ghost predicate NoDup<T>(s: seq<T>) {
    forall i, j :: 0 <= i < j < |s| ==> s[i] != s[j]
  }

  /** `xs` lists every element of `s` exactly once, in some order: how the
      source walks the result of a Python set difference. */
  ghost predicate Enumerates<T(!new)>(xs: seq<T>, s: set<T>) {
    NoDup(xs) && forall x :: x in xs <==> x in s
  }

  /** `s` with every occurrence of `x` taken out; on a duplicate-free `s`
      this is Python's `dict.pop` applied to the key order. */
  function Without<T(==,!new)>(s: seq<T>, x: T): (r: seq<T>)
    ensures forall y :: y in r <==> y in s && y != x
    ensures NoDup(s) ==> NoDup(r)
    ensures x !in s ==> r == s
  {
    if s == [] then []
    else if s[0] == x then Without(s[1..], x)
    else
      var rest := Without(s[1..], x);
      ConsNoDup(s[0], s[1..]);
      ConsNoDup(s[0], rest);
      [s[0]] + rest
  }

  /** On a duplicate-free `s` whose position `k` holds `x`, taking `x` out
      closes the gap at `k`: every other element keeps its relative order. */
  lemma {:induction false} WithoutSplice<T(!new)>(s: seq<T>, x: T, k: nat)
    requires NoDup(s) && k < |s| && s[k] == x
    ensures Without(s, x) == s[..k] + s[k + 1..]
  {
    if k == 0 {
      assert x !in s[1..] by {
        forall j | 0 <= j < |s[1..]| ensures s[1..][j] != x {
          assert s[1..][j] == s[j + 1];
        }
      }
      assert s[k + 1..] == s[1..];
    } else {
      assert s == [s[0]] + s[1..];
      ConsNoDup(s[0], s[1..]);
      WithoutSplice(s[1..], x, k - 1);
      calc {
        Without(s, x);
        [s[0]] + Without(s[1..], x);
        [s[0]] + (s[1..][..k - 1] + s[1..][k..]);
        { assert s[1..][..k - 1] == s[1..k] && s[1..][k..] == s[k + 1..]; }
        [s[0]] + (s[1..k] + s[k + 1..]);
        { assert s[..k] == [s[0]] + s[1..k]; }
        s[..k] + s[k + 1..];
      }
    }
  }

  /** Python's `list.remove`: the first occurrence of `x` is taken out. */
  function RemoveFirst<T(==,!new)>(s: seq<T>, x: T): (r: seq<T>)
    ensures x in s ==> |r| == |s| - 1
    ensures x !in s ==> r == s
    ensures forall y :: y != x ==> (y in r <==> y in s)
    ensures NoDup(s) ==> NoDup(r) && x !in r
  {
    if s == [] then []
    else if s[0] == x then ConsNoDup(s[0], s[1..]); s[1..]
    else
      var rest := RemoveFirst(s[1..], x);
      ConsNoDup(s[0], s[1..]);
      ConsNoDup(s[0], rest);
      [s[0]] + rest
  }

  lemma ConsNoDup<T>(x: T, s: seq<T>)
    ensures NoDup([x] + s) <==> x !in s && NoDup(s)
  {
    if x !in s && NoDup(s) {
      forall i, j | 0 <= i < j < |[x] + s| ensures ([x] + s)[i] != ([x] + s)[j] {
        if i > 0 { assert ([x] + s)[i] == s[i - 1]; }
      }
    }
    if NoDup([x] + s) {
      forall i, j | 0 <= i < j < |s| ensures s[i] != s[j] {
        assert s[i] == ([x] + s)[i + 1] && s[j] == ([x] + s)[j + 1];
      }
      forall k | 0 <= k < |s| ensures s[k] != x {
        assert s[k] == ([x] + s)[k + 1] && x == ([x] + s)[0];
      }
    }
  }

  lemma ConcatAssociates<T>(a: seq<T>, b: seq<T>, c: seq<T>)
    ensures a + (b + c) == (a + b) + c
  {
  }

  lemma AppendFreshNoDup<T>(s: seq<T>, x: T)
    requires x !in s
    ensures NoDup(s) ==> NoDup(s + [x])
  {
  }

  lemma SliceSnoc<T>(s: seq<T>, k: nat)
    requires 0 < k <= |s|
    ensures s[..k - 1] + [s[k - 1]] == s[..k]
  {
  }
}
