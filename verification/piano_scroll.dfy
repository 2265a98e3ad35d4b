/**
 * The scroll view above the keyboard: one vertical lane per key, laid out
 * in the same column units as the keys, so that each lane lines up with
 * its key. The view declares its own tables; they are proved to agree
 * with the keyboard's.
 */
module PianoScroll {
  import Piano

  const LaneCount: nat := 88
  /** Residues mod 12 of the white lanes, counting from A. */
  const WhiteLanePositions: seq<nat> := [0, 2, 3, 5, 7, 8, 10]
  /** Residues mod 12 of the black lanes. */
  const BlackLanePositions: seq<nat> := [1, 4, 6, 9, 11]
  /** Offset of a black lane within its group of five, in columns. */
  const BlackLaneOffsets: seq<nat> := [1, 3, 3, 5, 5]

  /** The key indices of the lanes, 0 .. 87. */
  function Lanes(): seq<nat>
  {
    Piano.Range(LaneCount)
  }

  /** The lanes of white keys: the same list as the keyboard's white keys. */
  function WhiteLanes(): (r: seq<nat>)
    ensures r == Piano.WhiteKeys()
  {
    Piano.Filter(Lanes(), WhiteLanePositions)
  }

  /** The lanes of black keys: the same list as the keyboard's black keys. */
  function BlackLanes(): (r: seq<nat>)
    ensures r == Piano.BlackKeys()
  {
    Piano.Filter(Lanes(), BlackLanePositions)
  }

  /** White lane number i. */
  function WhiteLaneSpan(i: nat): Piano.Span
  {
    Piano.Span(i * 4, 4)
  }

  /** Black lane number i, whose key index is keyIndex. */
  function BlackLaneSpan(keyIndex: nat, i: nat): Piano.Span
  {
    Piano.Span(keyIndex * 2 + BlackLaneOffsets[i % 5] + (i / 5) * 4, 2)
  }

  /** The white lanes with their spans: each has the index and the columns of its white key. */
  function WhiteLaneLayout(): (r: seq<Piano.PlacedKey>)
    ensures r == Piano.WhiteKeyLayout()
  {
    var lanes := WhiteLanes();
    seq(|lanes|, i requires 0 <= i < |lanes| => Piano.PlacedKey(lanes[i], WhiteLaneSpan(i)))
  }

  /** The black lanes with their spans: each has the index and the columns of its black key. */
  function BlackLaneLayout(): (r: seq<Piano.PlacedKey>)
    ensures r == Piano.BlackKeyLayout()
  {
    var lanes := BlackLanes();
    seq(|lanes|, i requires 0 <= i < |lanes| => Piano.PlacedKey(lanes[i], BlackLaneSpan(lanes[i], i)))
  }

  /** Whether the lane of key k is shown as pressed. */
  function IsPressed(pressedKeys: set<int>, keyIndex: nat): bool
  {
    keyIndex in pressedKeys
  }

  /**
   * For any set of pressed keys, each lane is highlighted exactly when the
   * key in the same columns below it is.
   */
  lemma PressedTogether(pressedKeys: set<int>)
    ensures forall i | 0 <= i < |WhiteLaneLayout()| ::
              WhiteLaneLayout()[i].span == Piano.WhiteKeyLayout()[i].span
              && (IsPressed(pressedKeys, WhiteLaneLayout()[i].keyIndex)
                  <==> Piano.IsPressed(pressedKeys, Piano.WhiteKeyLayout()[i].keyIndex))
    ensures forall i | 0 <= i < |BlackLaneLayout()| ::
              BlackLaneLayout()[i].span == Piano.BlackKeyLayout()[i].span
              && (IsPressed(pressedKeys, BlackLaneLayout()[i].keyIndex)
                  <==> Piano.IsPressed(pressedKeys, Piano.BlackKeyLayout()[i].keyIndex))
  {
  }
}
