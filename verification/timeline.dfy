/**
 * The key-event timeline as values: a map from key index to the list of
 * events recorded for that key, and what a press and a release do to it.
 * `MidiRecorder.PianoEvents` is proved to follow these functions.
 */
module Timeline {
  import opened Wrappers
  import opened KeyEvents

  type Timeline = map<int, seq<Event>>

  /** The events of key k; a key without an entry has none. */
  function EventsOf(m: Timeline, k: int): seq<Event>
  {
    if k in m then m[k] else []
  }

  /** Every event stored under key k has key index k. */
  ghost predicate WellKeyed(m: Timeline)
  {
    forall k, i | k in m && 0 <= i < |m[k]| :: m[k][i].keyIndex == k
  }

  /** How many events of s are still open. */
  function OpenCount(s: seq<Event>): nat
  {
    if s == [] then 0
    else OpenCount(s[..|s| - 1]) + (if s[|s| - 1].IsOpen() then 1 else 0)
  }

  /** A press of k at t: an entry for k is created if missing, and one open event is appended to it. */
  function Press(m: Timeline, k: int, t: Time): (r: Timeline)
    ensures r.Keys == m.Keys + {k}
    ensures forall j | j in m && j != k :: r[j] == m[j]
    ensures |r[k]| == |EventsOf(m, k)| + 1
    ensures r[k][..|EventsOf(m, k)|] == EventsOf(m, k)
    ensures r[k][|EventsOf(m, k)|] == Opened(k, t)
  {
    m[k := EventsOf(m, k) + [Opened(k, t)]]
  }

  /** The index of the last open event of s, scanning from the end; None when every event is closed. */
  function LastOpen(s: seq<Event>): (r: Option<nat>)
    ensures r.Some? ==> r.value < |s| && s[r.value].IsOpen()
    ensures r.Some? ==> forall j | r.value < j < |s| :: !s[j].IsOpen()
    ensures r.None? <==> forall j | 0 <= j < |s| :: !s[j].IsOpen()
  {
    if s == [] then None
    else if s[|s| - 1].IsOpen() then Some(|s| - 1)
    else LastOpen(s[..|s| - 1])
  }

  /** Sets the end time of the last open event of s to t; every other event stays as it is. */
  function CloseLast(s: seq<Event>, t: Time): (r: seq<Event>)
    ensures |r| == |s|
    ensures forall j | 0 <= j < |s| :: r[j].keyIndex == s[j].keyIndex && r[j].startTime == s[j].startTime
    ensures LastOpen(s).None? ==> r == s
    ensures LastOpen(s).Some? ==>
              var i := LastOpen(s).value;
              r[i].endTime == Some(t) && forall j | 0 <= j < |s| && j != i :: r[j] == s[j]
  {
    match LastOpen(s)
    case None => s
    case Some(i) => s[i := s[i].(endTime := Some(t))]
  }

  /** A release of k at t: closes the last open event of k, if k has an entry. */
  function Release(m: Timeline, k: int, t: Time): (r: Timeline)
    ensures r.Keys == m.Keys
    ensures k !in m ==> r == m
    ensures forall j | j in m && j != k :: r[j] == m[j]
    ensures k in m ==> r[k] == CloseLast(m[k], t)
  {
    if k in m then m[k := CloseLast(m[k], t)] else m
  }

  /** Changing one event changes the open count by that event's own change. */
  lemma {:induction false} OpenCountUpdate(s: seq<Event>, i: nat, e: Event)
    requires i < |s|
    ensures OpenCount(s[i := e]) + (if s[i].IsOpen() then 1 else 0)
         == OpenCount(s) + (if e.IsOpen() then 1 else 0)
  {
    var n := |s| - 1;
    assert s[i := e][..n] == if i == n then s[..n] else s[..n][i := e];
    if i < n {
      OpenCountUpdate(s[..n], i, e);
    }
  }

  /** A list has no open event exactly when its open count is zero. */
  lemma {:induction false} OpenCountZero(s: seq<Event>)
    ensures OpenCount(s) == 0 <==> LastOpen(s).None?
  {
    if s != [] {
      OpenCountZero(s[..|s| - 1]);
    }
  }

  /** A press raises the key's open count by exactly one. */
  lemma PressOpensOne(m: Timeline, k: int, t: Time)
    ensures OpenCount(Press(m, k, t)[k]) == OpenCount(EventsOf(m, k)) + 1
  {
  }

  /**
   * A release on a key with an open event lowers its open count by exactly
   * one; otherwise (no entry, or nothing open) the release changes nothing.
   */
  lemma ReleaseClosesOne(m: Timeline, k: int, t: Time)
    ensures k in m && OpenCount(m[k]) > 0 ==> OpenCount(Release(m, k, t)[k]) == OpenCount(m[k]) - 1
    ensures Release(m, k, t) == m <==> k !in m || OpenCount(m[k]) == 0
  {
    if k in m {
      OpenCountZero(m[k]);
      match LastOpen(m[k])
      case None =>
      case Some(i) =>
        OpenCountUpdate(m[k], i, m[k][i].(endTime := Some(t)));
        assert Release(m, k, t)[k][i] != m[k][i];
    }
  }

  /** Press and release keep the invariant that events under key k have key index k. */
  lemma WellKeyedPreserved(m: Timeline, k: int, t: Time)
    requires WellKeyed(m)
    ensures WellKeyed(Press(m, k, t))
    ensures WellKeyed(Release(m, k, t))
  {
  }

  /**
   * A press followed by a release of the same key records one closed event
   * from the press time to the release time, whatever was recorded before.
   */
  lemma PressThenRelease(m: Timeline, k: int, t1: Time, t2: Time)
    ensures Release(Press(m, k, t1), k, t2)[k] == EventsOf(m, k) + [Event(k, t1, Some(t2))]
    ensures Release(Press(m, k, t1), k, t2).Keys == m.Keys + {k}
  {
  }

  /**
   * Pressing a key twice without a release leaves the first of the two new
   * events open: a later release closes only the second one.
   */
  lemma DoublePressLeavesDangling(m: Timeline, k: int, t1: Time, t2: Time, t3: Time)
    ensures Press(Press(m, k, t1), k, t2)[k] == EventsOf(m, k) + [Opened(k, t1), Opened(k, t2)]
    ensures OpenCount(Press(Press(m, k, t1), k, t2)[k]) == OpenCount(EventsOf(m, k)) + 2
    ensures Release(Press(Press(m, k, t1), k, t2), k, t3)[k]
         == EventsOf(m, k) + [Opened(k, t1), Event(k, t2, Some(t3))]
  {
  }
}
