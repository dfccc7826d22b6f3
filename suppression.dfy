/** The decision of `is_silenced` and its upkeep of the silenced cache. Users
    silence a node by reacting to its thread head or to its latest alert
    message in the channel: "x" for good, "date" (or, on the thread head,
    "calendar") for a day, "stopwatch" for three hours from the message's
    time. */
module Suppression {
  import opened Basics
  import Config

  /** A Slack message as the watcher reads it: the names of the reactions
      on it (none when Slack's answer has no "reactions" key) and its
      timestamp in whole seconds. */
  datatype Message = Message(reactions: seq<string>, postedS: int)

  /** What `is_silenced` found: an "x" (it also puts the node in the cache),
      an unexpired timed reaction (the cache is left alone), or nothing (the
      node is taken out of the cache). */
  datatype Silence = Permanent | Timed | Unsilenced

  /** The day-long reactions honoured on a node's thread head. */
  const ThreadDateNames := ["date", "calendar"]
  /** The day-long reactions honoured on the alert message in the channel. */
  const AlertDateNames := ["date"]

  predicate AnyIn(names: seq<string>, reactions: seq<string>) {
    exists k :: 0 <= k < |names| && names[k] in reactions
  }

  /** What one message decides, checked in the source's order: "x", then the
      day-long reactions, then "stopwatch". `None`: this message does not
      silence and the search goes on. */
  function Verdict(m: Message, dateNames: seq<string>, nowS: int): Option<Silence> {
    if "x" in m.reactions then Some(Permanent)
    else if AnyIn(dateNames, m.reactions) && nowS - m.postedS < Config.SuppressDurationDateS then Some(Timed)
    else if "stopwatch" in m.reactions && nowS - m.postedS < Config.SuppressDurationStopwatchS then Some(Timed)
    else None
  }

  /** A message silences the node now. */
  predicate Silences(m: Message, dateNames: seq<string>, nowS: int) {
    || "x" in m.reactions
    || (AnyIn(dateNames, m.reactions) && nowS - m.postedS < Config.SuppressDurationDateS)
    || ("stopwatch" in m.reactions && nowS - m.postedS < Config.SuppressDurationStopwatchS)
  }

  /** The decision of `is_silenced`: the thread head (when the node has a
      thread row) is asked first, then the alert message (when it has one). */
  function Judge(thread: Option<Message>, alert: Option<Message>, nowS: int): (s: Silence)
    ensures s != Unsilenced <==>
      (thread.Some? && Silences(thread.value, ThreadDateNames, nowS))
      || (alert.Some? && Silences(alert.value, AlertDateNames, nowS))
    ensures s == Permanent <==>
      (thread.Some? && "x" in thread.value.reactions)
      || (!(thread.Some? && Silences(thread.value, ThreadDateNames, nowS))
          && alert.Some? && "x" in alert.value.reactions)
  {
    var first := if thread.Some? then Verdict(thread.value, ThreadDateNames, nowS) else None;
    var second := if alert.Some? then Verdict(alert.value, AlertDateNames, nowS) else None;
    if first.Some? then first.value
    else if second.Some? then second.value
    else Unsilenced
  }

  /** The cache after `is_silenced` decided `s` for `id`: an "x" appends the
      id unless present, a timed reaction changes nothing, and no reaction
      removes the id's first occurrence (when present). */
  function Refresh(cache: seq<NodeId>, id: NodeId, s: Silence): (c: seq<NodeId>)
    ensures s == Permanent ==> id in c
    ensures s == Timed ==> c == cache
    ensures s == Unsilenced && NoDup(cache) ==> id !in c
    ensures forall other :: other != id ==> (other in c <==> other in cache)
    ensures NoDup(cache) ==> NoDup(c)
  {
    match s
    case Permanent =>
      if id in cache then cache
      else
        AppendFreshNoDup(cache, id);
        cache + [id]
    case Timed => cache
    case Unsilenced => RemoveFirst(cache, id)
  }

  /** On a cache without repeats, the id is cached afterwards exactly when
      an "x" was found or a timed reaction kept an earlier entry. */
  lemma RefreshMembership(cache: seq<NodeId>, id: NodeId, s: Silence)
    requires NoDup(cache)
    ensures id in Refresh(cache, id, s) <==> s == Permanent || (s == Timed && id in cache)
  {
  }

  /** Asking again with the same answer changes nothing more. */
  lemma RefreshIdempotent(cache: seq<NodeId>, id: NodeId, s: Silence)
    requires NoDup(cache)
    ensures Refresh(Refresh(cache, id, s), id, s) == Refresh(cache, id, s)
  {
    if s == Unsilenced {
      assert id !in Refresh(cache, id, s);
    }
  }
}
