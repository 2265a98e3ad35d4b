/**
 * The `KeyEvent` record: one press of one piano key, with the time it
 * started and, once the key is released, the time it ended.
 */
module KeyEvents {
  import opened Wrappers

  /** A timestamp (a JavaScript number); the model never does arithmetic on it. */
  type Time = real

  /** The value held by a `KeyEvent` object at one moment. */
  datatype Event = Event(keyIndex: int, startTime: Time, endTime: Option<Time>)
  {
    /** An event whose end time is still undefined: the key is held. */
    predicate IsOpen() { endTime.None? }
  }

  /** An event just created by a press: open, at the given time. */
  function Opened(keyIndex: int, startTime: Time): Event
  {
    Event(keyIndex, startTime, None)
  }

  /**
   * The mutable record. All three fields are public; the release handler
   * overwrites `endTime` in place. The constructor imposes no relation
   * between the start and the end time.
   */
  class KeyEvent {
    var keyIndex: int
    var startTime: Time
    var endTime: Option<Time>

    constructor (keyIndex: int, startTime: Time, endTime: Option<Time> := None)
      ensures this.keyIndex == keyIndex && this.startTime == startTime
      ensures this.endTime == endTime
    {
      this.keyIndex := keyIndex;
      this.startTime := startTime;
      this.endTime := endTime;
    }

    /** The value this object holds now. */
    function Value(): (e: Event)
      reads this
    {
      Event(keyIndex, startTime, endTime)
    }
  }

  /** Omitting the end time and passing `undefined` both yield an open event. */
  method NewOpenEvents(keyIndex: int, startTime: Time) returns (byDefault: KeyEvent, explicit: KeyEvent)
    ensures fresh(byDefault) && fresh(explicit)
    ensures byDefault.Value() == Opened(keyIndex, startTime)
    ensures explicit.Value() == Opened(keyIndex, startTime)
  {
    byDefault := new KeyEvent(keyIndex, startTime);
    explicit := new KeyEvent(keyIndex, startTime, None);
  }
}
