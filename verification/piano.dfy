/**
 * The keyboard view: which of the 88 keys are white and which are black,
 * and where each key sits, in column units (a white key is 4 columns wide,
 * a black key 2; the keyboard is 52 * 4 columns wide).
 */
module Piano {
  import MidiService

  const KeyCount: nat := 88
  /** Residues mod 12 of the white keys, counting from A. */
  const WhiteKeyPositions: seq<nat> := [0, 2, 3, 5, 7, 8, 10]
  /** Residues mod 12 of the black keys. */
  const BlackKeyPositions: seq<nat> := [1, 4, 6, 9, 11]
  /** Offset of a black key within its group of five, in columns. */
  const BlackKeyOffsets: seq<nat> := [1, 3, 3, 5, 5]
  /** Width of the keyboard in columns. */
  const ColumnCount: nat := 52 * 4

  /** The numbers 0 .. n - 1 in ascending order. */
  function Range(n: nat): (r: seq<nat>)
    ensures |r| == n
  {
    if n == 0 then [] else Range(n - 1) + [n - 1]
  }

  /** The key indices of the keyboard, 0 .. 87. */
  function Keys(): seq<nat>
  {
    Range(KeyCount)
  }

  predicate Ascending(s: seq<nat>)
  {
    forall i, j | 0 <= i < j < |s| :: s[i] < s[j]
  }

  /** The keys of s whose residue mod 12 is one of positions, in the order of s. */
  function Filter(s: seq<nat>, positions: seq<nat>): (r: seq<nat>)
    ensures |r| <= |s|
  {
    if s == [] then []
    else
      var rest := Filter(s[..|s| - 1], positions);
      if s[|s| - 1] % 12 in positions then rest + [s[|s| - 1]] else rest
  }

  predicate IsWhite(k: nat)
  {
    k % 12 in WhiteKeyPositions
  }

  predicate IsBlack(k: nat)
  {
    k % 12 in BlackKeyPositions
  }

  /** The white keys: the 52 keys 0 .. 87 with a white residue, in ascending order. */
  function WhiteKeys(): (r: seq<nat>)
    ensures |r| == 52 && Ascending(r)
    ensures forall k: nat :: k in r <==> k < KeyCount && IsWhite(k)
  {
    FilterRangeMembers(KeyCount, WhiteKeyPositions);
    FilterRangeAscending(KeyCount, WhiteKeyPositions);
    WhiteCount(KeyCount);
    Filter(Keys(), WhiteKeyPositions)
  }

  /** The black keys: the 36 keys 0 .. 87 with a black residue, in ascending order. */
  function BlackKeys(): (r: seq<nat>)
    ensures |r| == 36 && Ascending(r)
    ensures forall k: nat :: k in r <==> k < KeyCount && IsBlack(k)
  {
    FilterRangeMembers(KeyCount, BlackKeyPositions);
    FilterRangeAscending(KeyCount, BlackKeyPositions);
    WhiteCount(KeyCount);
    ClassCountSum(KeyCount);
    Filter(Keys(), BlackKeyPositions)
  }

  /** How many white residues lie below each residue r of an octave. */
  const WhitesBelow: seq<nat> := [0, 1, 1, 2, 3, 3, 4, 4, 5, 6, 6, 7]

  /** The number of white keys below key k, which is the list position of a white key k. */
  function WhiteOrdinal(k: nat): nat
  {
    |Filter(Range(k), WhiteKeyPositions)|
  }

  /** Extending the range by n adds n to the filtered list exactly when n's residue is selected. */
  lemma FilterStep(n: nat, positions: seq<nat>)
    ensures Filter(Range(n + 1), positions)
         == Filter(Range(n), positions) + (if n % 12 in positions then [n] else [])
  {
  }

  /** `Range(n)` holds each number below n at its own position. */
  lemma {:induction false} RangeEntries(n: nat)
    ensures forall i | 0 <= i < n :: Range(n)[i] == i
  {
    if n > 0 {
      RangeEntries(n - 1);
      assert forall i | 0 <= i < n - 1 :: Range(n)[i] == Range(n - 1)[i];
    }
  }

  /** The keys below n that are selected are exactly those with a selected residue. */
  lemma {:induction false} FilterRangeMembers(n: nat, positions: seq<nat>)
    ensures forall x: nat :: x in Filter(Range(n), positions) <==> x < n && x % 12 in positions
  {
    if n > 0 {
      FilterRangeMembers(n - 1, positions);
      FilterStep(n - 1, positions);
    }
  }

  /** The filtered list of a shorter range is a prefix of that of a longer one. */
  lemma {:induction false} FilterPrefix(n: nat, m: nat, positions: seq<nat>)
    requires n <= m
    ensures |Filter(Range(n), positions)| <= |Filter(Range(m), positions)|
    ensures Filter(Range(n), positions) == Filter(Range(m), positions)[..|Filter(Range(n), positions)|]
  {
    if n < m {
      FilterPrefix(n, m - 1, positions);
      FilterStep(m - 1, positions);
      var short, mid := Filter(Range(n), positions), Filter(Range(m - 1), positions);
      assert Filter(Range(m), positions)[..|mid|] == mid;
      assert mid[..|short|] == short;
    }
  }

  /** A selected key x below n sits in the filtered list at the position given by the keys below it. */
  lemma FilterPosition(x: nat, n: nat, positions: seq<nat>)
    requires x < n && x % 12 in positions
    ensures |Filter(Range(x), positions)| < |Filter(Range(n), positions)|
    ensures Filter(Range(n), positions)[|Filter(Range(x), positions)|] == x
  {
  }

  /** Entry i of the filtered list has exactly i selected keys below it. */
  lemma {:induction false} FilterEntry(n: nat, positions: seq<nat>, i: nat)
    requires i < |Filter(Range(n), positions)|
    ensures Filter(Range(n), positions)[i] < n
    ensures |Filter(Range(Filter(Range(n), positions)[i]), positions)| == i
  {
    FilterStep(n - 1, positions);
    var f := Filter(Range(n - 1), positions);
    if i < |f| {
      FilterEntry(n - 1, positions, i);
    }
  }

  /** The selected keys below n come in ascending order. */
  lemma FilterRangeAscending(n: nat, positions: seq<nat>)
    ensures Ascending(Filter(Range(n), positions))
  {
    var f := Filter(Range(n), positions);
    forall i, j | 0 <= i < j < |f| ensures f[i] < f[j] {
      FilterEntry(n, positions, i);
      FilterEntry(n, positions, j);
      if f[j] <= f[i] {
        FilterPrefix(f[j], f[i], positions);
      }
    }
  }

  /** Every residue of an octave is white or black, never both. */
  lemma ResidueClass(r: nat)
    requires r < 12
    ensures (r in WhiteKeyPositions) != (r in BlackKeyPositions)
    ensures r in WhiteKeyPositions ==> WhitesBelow[r] + 1 == (if r == 11 then 8 else WhitesBelow[r + 1])
    ensures r in BlackKeyPositions ==> WhitesBelow[r] == (if r == 11 then 7 else WhitesBelow[r + 1])
  {
  }

  lemma NextDivMod(n: nat)
    ensures n % 12 < 11 ==> (n + 1) / 12 == n / 12 && (n + 1) % 12 == n % 12 + 1
    ensures n % 12 == 11 ==> (n + 1) / 12 == n / 12 + 1 && (n + 1) % 12 == 0
  {
  }

  /** Below key n there are 7 white keys per whole octave plus those of the last partial octave. */
  lemma {:induction false} WhiteCount(n: nat)
    ensures WhiteOrdinal(n) == 7 * (n / 12) + WhitesBelow[n % 12]
  {
    if n > 0 {
      var k := n - 1;
      WhiteCount(k);
      FilterStep(k, WhiteKeyPositions);
      var q, r := k / 12, k % 12;
      NextDivMod(k);
      ResidueClass(r);
      assert WhiteOrdinal(n) == WhiteOrdinal(k) + (if r in WhiteKeyPositions then 1 else 0);
      if r < 11 {
        assert n / 12 == q && n % 12 == r + 1;
      } else {
        assert n / 12 == q + 1 && n % 12 == 0;
      }
    }
  }

  /** Below key n every key is white or black, never both. */
  lemma {:induction false} ClassCountSum(n: nat)
    ensures |Filter(Range(n), WhiteKeyPositions)| + |Filter(Range(n), BlackKeyPositions)| == n
  {
    if n > 0 {
      var k := n - 1;
      ClassCountSum(k);
      FilterStep(k, WhiteKeyPositions);
      FilterStep(k, BlackKeyPositions);
      var r := k % 12;
      ResidueClass(r);
      assert |Filter(Range(n), WhiteKeyPositions)|
          == |Filter(Range(k), WhiteKeyPositions)| + (if r in WhiteKeyPositions then 1 else 0);
      assert |Filter(Range(n), BlackKeyPositions)|
          == |Filter(Range(k), BlackKeyPositions)| + (if r in BlackKeyPositions then 1 else 0);
    }
  }

  /** Every key of the keyboard is in exactly one of the two lists. */
  lemma KeyPartition()
    ensures forall k: nat | k < KeyCount :: (k in WhiteKeys()) != (k in BlackKeys())
  {
    forall k: nat | k < KeyCount ensures (k in WhiteKeys()) != (k in BlackKeys()) {
      ResidueClass(k % 12);
    }
  }

  /** A key is white exactly when its pitch name has no sharp sign. */
  lemma WhiteIffNatural(k: nat)
    ensures IsWhite(k) <==> '#' !in MidiService.KeyIndexToNotation(k)
  {
    var name, digits := MidiService.NoteName(k), MidiService.Decimal(MidiService.Octave(k));
    MidiService.NoteShapes(k % 12);
    assert '#' in name + digits <==> '#' in name;
  }

  /** A horizontal extent in columns: the columns left .. left + width - 1. */
  datatype Span = Span(left: int, width: nat)
  {
    function Right(): int { left + width }
  }

  /** A key as the view places it. */
  datatype PlacedKey = PlacedKey(keyIndex: nat, span: Span)

  /** White key number i of the white-key list. */
  function WhiteKeySpan(i: nat): Span
  {
    Span(i * 4, 4)
  }

  /** Black key number i of the black-key list, whose key index is keyIndex. */
  function BlackKeySpan(keyIndex: nat, i: nat): Span
  {
    Span(keyIndex * 2 + BlackKeyOffsets[i % 5] + (i / 5) * 4, 2)
  }

  /**
   * The white keys with their spans, in list order. They tile the keyboard:
   * the first starts at column 0, each is 4 columns wide and ends where the
   * next starts, and the last ends at the keyboard's width.
   */
  function WhiteKeyLayout(): (r: seq<PlacedKey>)
    ensures |r| == 52
    ensures forall i | 0 <= i < |r| :: r[i].keyIndex == WhiteKeys()[i] && r[i].span.width == 4
    ensures r[0].span.left == 0
    ensures forall i | 0 <= i < |r| - 1 :: r[i].span.Right() == r[i + 1].span.left
    ensures r[|r| - 1].span.Right() == ColumnCount
  {
    var keys := WhiteKeys();
    seq(|keys|, i requires 0 <= i < |keys| => PlacedKey(keys[i], WhiteKeySpan(i)))
  }

  /**
   * A black key k with the given span sits over the boundary between the
   * white key just below it and the white key just above it: it covers the
   * last column of the one and the first column of the other.
   */
  predicate Straddles(k: nat, span: Span)
  {
    && 1 <= k
    && var w := WhiteOrdinal(k - 1);
       && w + 1 < |WhiteKeys()|
       && WhiteKeys()[w] == k - 1
       && WhiteKeys()[w + 1] == k + 1
       && span.left == WhiteKeySpan(w).Right() - 1
       && span.Right() == WhiteKeySpan(w + 1).left + 1
  }

  /** The black keys with their spans, in list order; each straddles its two white neighbours. */
  function BlackKeyLayout(): (r: seq<PlacedKey>)
    ensures |r| == 36
    ensures forall i | 0 <= i < |r| :: r[i].keyIndex == BlackKeys()[i] && r[i].span.width == 2
    ensures forall i | 0 <= i < |r| :: Straddles(r[i].keyIndex, r[i].span)
  {
    var keys := BlackKeys();
    assert forall i | 0 <= i < |keys| :: Straddles(keys[i], BlackKeySpan(keys[i], i)) by {
      forall i | 0 <= i < |keys| ensures Straddles(keys[i], BlackKeySpan(keys[i], i)) {
        BlackKeyStraddles(i);
      }
    }
    seq(|keys|, i requires 0 <= i < |keys| => PlacedKey(keys[i], BlackKeySpan(keys[i], i)))
  }

  /** Black key number i, as a residue class: 5 black keys per octave of 12 keys. */
  lemma BlackKeyAt(i: nat)
    requires i < |BlackKeys()|
    ensures BlackKeys()[i] < KeyCount && IsBlack(BlackKeys()[i])
    ensures i == 5 * (BlackKeys()[i] / 12) + (BlackKeys()[i] % 12 - WhitesBelow[BlackKeys()[i] % 12])
  {
    var k := BlackKeys()[i];
    FilterEntry(KeyCount, BlackKeyPositions, i);
    FilterRangeMembers(KeyCount, BlackKeyPositions);
    assert k in BlackKeys();
    ClassCountSum(k);
    WhiteCount(k);
  }

  /** The column arithmetic of a black key in octave q at black residue r. */
  lemma BlackKeyColumns(k: nat, i: nat)
    requires IsBlack(k) && i == 5 * (k / 12) + (k % 12 - WhitesBelow[k % 12])
    ensures 1 <= k && (k - 1) / 12 == k / 12 && (k - 1) % 12 == k % 12 - 1
    ensures IsWhite(k - 1) && IsWhite(k + 1) && (k < KeyCount ==> k + 1 < KeyCount)
    ensures BlackKeySpan(k, i).left == 4 * (7 * (k / 12) + WhitesBelow[k % 12 - 1]) + 3
  {
    var q, r := k / 12, k % 12;
    var j := r - WhitesBelow[r];
    assert k == 12 * q + r && 0 <= j < 5;
    assert i / 5 == q && i % 5 == j;
  }

  /**
   * Black key number i starts in the last column of the white key just
   * below it, and the key just above it is white as well.
   */
  lemma BlackKeyLeft(i: nat)
    requires i < |BlackKeys()|
    ensures var k := BlackKeys()[i];
            && 1 <= k && k + 1 < KeyCount && IsWhite(k - 1) && IsWhite(k + 1)
            && WhiteOrdinal(k + 1) == WhiteOrdinal(k - 1) + 1
            && BlackKeySpan(k, i).left == 4 * WhiteOrdinal(k - 1) + 3
  {
    var k := BlackKeys()[i];
    BlackKeyAt(i);
    BlackKeyColumns(k, i);
    WhiteCount(k - 1);
    ResidueClass(k % 12);
    FilterStep(k - 1, WhiteKeyPositions);
    FilterStep(k, WhiteKeyPositions);
  }

  /**
   * Black key number i, placed at its span, straddles its two white
   * neighbours.
   */
  lemma BlackKeyStraddles(i: nat)
    requires i < |BlackKeys()|
    ensures Straddles(BlackKeys()[i], BlackKeySpan(BlackKeys()[i], i))
  {
    var k := BlackKeys()[i];
    BlackKeyLeft(i);
    FilterPosition(k - 1, KeyCount, WhiteKeyPositions);
    FilterPosition(k + 1, KeyCount, WhiteKeyPositions);
  }

  /** Whether the view shows key k as pressed. */
  function IsPressed(pressedKeys: set<int>, keyIndex: nat): bool
  {
    keyIndex in pressedKeys
  }

  /** The callbacks a key's mouse handlers invoke. */
  datatype KeyCallback = OnKeyPress(keyIndex: nat) | OnKeyRelease(keyIndex: nat)

  function HandleMouseDown(keyIndex: nat): KeyCallback
  {
    OnKeyPress(keyIndex)
  }

  function HandleMouseUp(keyIndex: nat): KeyCallback
  {
    OnKeyRelease(keyIndex)
  }

  function HandleMouseLeave(keyIndex: nat): KeyCallback
  {
    OnKeyRelease(keyIndex)
  }

  /** Mouse-down presses the key; mouse-up and mouse-leave both release it. */
  lemma MouseHandlers(keyIndex: nat)
    ensures HandleMouseDown(keyIndex) == OnKeyPress(keyIndex)
    ensures HandleMouseUp(keyIndex) == HandleMouseLeave(keyIndex) == OnKeyRelease(keyIndex)
  {
  }
}
