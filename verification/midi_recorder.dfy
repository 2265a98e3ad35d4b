/**
 * The recorder screen's press and release handlers, as operations on the
 * map from key index to the list of mutable `KeyEvent` objects of that key.
 */
module MidiRecorder {
  import opened Wrappers
  import opened KeyEvents
  import Timeline

  /**
   * The objects of one key's list hold the values ms, all carry key index k,
   * and no object occurs twice in the list.
   */
  ghost predicate Holds(s: seq<KeyEvent>, ms: seq<Event>, k: int)
    reads s
  {
    && |s| == |ms|
    && (forall i | 0 <= i < |s| :: s[i].Value() == ms[i] && ms[i].keyIndex == k)
    && (forall i, j | 0 <= i < j < |s| :: s[i] != s[j])
  }

  /** Appending an object not yet in the list, with the right key index, keeps `Holds`. */
  lemma HoldsAppend(s: seq<KeyEvent>, ms: seq<Event>, k: int, e: KeyEvent)
    requires Holds(s, ms, k) && e !in s && e.keyIndex == k
    ensures Holds(s + [e], ms + [e.Value()], k)
  {
  }

  class PianoEvents {
    /** Key index to the key's events, oldest first. */
    var events: map<int, seq<KeyEvent>>
    /** Every event object held in `events`. */
    ghost var Repr: set<KeyEvent>
    /** The values the event objects hold now. */
    ghost var Model: Timeline.Timeline

    ghost predicate Valid()
      reads this, Repr
    {
      && events.Keys == Model.Keys
      && (forall k, i | k in events && 0 <= i < |events[k]| :: events[k][i] in Repr)
      && (forall k | k in events :: Holds(events[k], Model[k], k))
    }

    constructor ()
      ensures Valid() && events == map[] && Model == map[] && Repr == {}
    {
      events := map[];
      Repr := {};
      Model := map[];
    }

    /**
     * A press of `keyIndex` at `pressTime`: creates the key's list when it is
     * missing and appends a fresh open event to it. The events already stored
     * are the same objects with the same values.
     */
    method HandleKeyPress(keyIndex: int, pressTime: Time)
      requires Valid()
      modifies this
      ensures Valid()
      ensures Model == Timeline.Press(old(Model), keyIndex, pressTime)
      ensures events.Keys == old(events.Keys) + {keyIndex}
      ensures forall k | k in old(events) && k != keyIndex :: events[k] == old(events[k])
      ensures keyIndex in old(events) ==> events[keyIndex][..|old(events[keyIndex])|] == old(events[keyIndex])
      ensures fresh(events[keyIndex][|events[keyIndex]| - 1])
      ensures Repr == old(Repr) + {events[keyIndex][|events[keyIndex]| - 1]}
    {
      var e := new KeyEvent(keyIndex, pressTime, None);
      Append(e);
    }

    /** Appends the open event object e, not held yet, to the list of its key. */
    method Append(e: KeyEvent)
      requires Valid() && e !in Repr && e.endTime.None?
      modifies this
      ensures Valid()
      ensures Model == Timeline.Press(old(Model), e.keyIndex, e.startTime)
      ensures events == old(events)[e.keyIndex := (if e.keyIndex in old(events) then old(events[e.keyIndex]) else []) + [e]]
      ensures Repr == old(Repr) + {e}
    {
      // A key without an entry starts from an empty list.
      var keyEvents := if e.keyIndex in events then events[e.keyIndex] else [];
      ghost var values := Timeline.EventsOf(Model, e.keyIndex);
      assert e !in keyEvents;
      HoldsAppend(keyEvents, values, e.keyIndex, e);
      events := events[e.keyIndex := keyEvents + [e]];
      Repr := Repr + {e};
      Model := Model[e.keyIndex := values + [e.Value()]];
    }

    /**
     * A release of `keyIndex` at `releaseTime`: scans the key's list from the
     * end and sets the end time of the first open event it meets. The map
     * and its lists keep the same objects; only that one event changes.
     */
    method HandleKeyRelease(keyIndex: int, releaseTime: Time)
      requires Valid()
      modifies this, Repr
      ensures Valid()
      ensures Model == Timeline.Release(old(Model), keyIndex, releaseTime)
      ensures events == old(events) && Repr == old(Repr)
    {
      if keyIndex in events {
        var keyEvents := events[keyIndex];
        var i := |keyEvents| - 1;
        while i >= 0
          invariant -1 <= i < |keyEvents|
          invariant forall j | i < j < |keyEvents| :: !Model[keyIndex][j].IsOpen()
        {
          if keyEvents[i].endTime == None {
            CloseEvent(keyIndex, i, releaseTime);
            break;
          }
          i := i - 1;
        }
      }
    }

    /** Sets the end time of event i of key k, the last open event of its list. */
    method CloseEvent(k: int, i: nat, t: Time)
      requires Valid() && k in events && i < |events[k]|
      requires Model[k][i].IsOpen() && forall j | i < j < |Model[k]| :: !Model[k][j].IsOpen()
      modifies this, events[k][i]
      ensures Valid()
      ensures Model == Timeline.Release(old(Model), k, t)
      ensures events == old(events) && Repr == old(Repr)
    {
      var e := events[k][i];
      e.endTime := Some(t);
      Model := Model[k := Model[k][i := e.Value()]];
    }
  }

  /**
   * A fresh recorder, one press of a key and one release of it: the key's
   * list holds exactly one event, from the press time to the release time.
   */
  method RecordOneNote(keyIndex: int, pressTime: Time, releaseTime: Time) returns (recorded: seq<Event>)
    ensures recorded == [Event(keyIndex, pressTime, Some(releaseTime))]
  {
    var recorder := new PianoEvents();
    recorder.HandleKeyPress(keyIndex, pressTime);
    recorder.HandleKeyRelease(keyIndex, releaseTime);
    Timeline.PressThenRelease(map[], keyIndex, pressTime, releaseTime);
    var list := recorder.events[keyIndex];
    assert |list| == 1 && Holds(list, recorder.Model[keyIndex], keyIndex);
    recorded := seq(|list|, i requires 0 <= i < |list| reads list => list[i].Value());
  }
}
