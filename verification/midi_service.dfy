/**
 * The pitch name of a key: `keyIndexToNotation` of the MIDI service. Key 0
 * is A0; note names repeat every 12 keys and the octave number goes up at
 * every C.
 */
module MidiService {
  import opened Wrappers

  /** The twelve note names, starting at A. */
  const Notes: seq<string> := ["A", "A#", "B", "C", "C#", "D", "D#", "E", "F", "F#", "G", "G#"]

  /** The note name of key k: the table entry at k mod 12, which the name identifies. */
  function NoteName(k: nat): (r: string)
    ensures forall j | 0 <= j < |Notes| :: Notes[j] == r <==> j == k % 12
  {
    NoteIndexOfName(k % |Notes|);
    Notes[k % |Notes|]
  }

  /** The octave number of key k: the floor of (k + 9) / 12. */
  function Octave(k: nat): (r: nat)
    ensures 12 * r <= k + 9 < 12 * r + 12
  {
    (k + 9) / 12
  }

  /** The decimal digit character of d. */
  function Digit(d: nat): char
    requires d < 10
  {
    "0123456789"[d]
  }

  predicate IsDigit(c: char)
  {
    '0' <= c <= '9'
  }

  /** The decimal numeral of n, without leading zeros, as a template literal prints it. */
  function Decimal(n: nat): (r: string)
    ensures |r| >= 1
    ensures forall i | 0 <= i < |r| :: IsDigit(r[i])
    ensures n >= 10 <==> |r| >= 2
    ensures r[0] != '0' || n == 0
  {
    if n < 10 then [Digit(n)] else Decimal(n / 10) + [Digit(n % 10)]
  }

  /**
   * The pitch name of key k: its note name followed by its octave number.
   * Reading it back gives the key, so different keys have different names.
   */
  function KeyIndexToNotation(k: nat): (r: string)
    ensures ParseNotation(r) == Some(k)
  {
    ReadsBack(k);
    NoteName(k) + Decimal(Octave(k))
  }

  /** The digit character of d stands for d. */
  lemma DigitValue(d: nat)
    requires d < 10
    ensures IsDigit(Digit(d)) && Digit(d) as int - '0' as int == d
  {
  }

  /** The value of a string of decimal digits. */
  function ParseDecimal(s: string): nat
    requires forall i | 0 <= i < |s| :: IsDigit(s[i])
  {
    if s == [] then 0
    else
      assert IsDigit(s[|s| - 1]);
      10 * ParseDecimal(s[..|s| - 1]) + (s[|s| - 1] as int - '0' as int)
  }

  lemma {:induction false} DecimalRoundTrip(n: nat)
    ensures ParseDecimal(Decimal(n)) == n
  {
    var s := Decimal(n);
    DigitValue(n % 10);
    if n >= 10 {
      var prefix := Decimal(n / 10);
      assert s == prefix + [Digit(n % 10)];
      assert s[..|s| - 1] == prefix;
      DecimalRoundTrip(n / 10);
      assert ParseDecimal(s) == 10 * (n / 10) + n % 10;
    }
  }

  /** The position of a note name in the table, if it is one. */
  function NoteIndex(name: string): (r: Option<nat>)
    ensures r.Some? ==> r.value < |Notes| && Notes[r.value] == name
    ensures r.None? ==> name !in Notes
  {
    NoteIndexFrom(name, 0)
  }

  function NoteIndexFrom(name: string, from: nat): (r: Option<nat>)
    requires from <= |Notes|
    ensures r.Some? ==> from <= r.value < |Notes| && Notes[r.value] == name
    ensures r.None? ==> name !in Notes[from..]
    decreases |Notes| - from
  {
    if from == |Notes| then None
    else if Notes[from] == name then Some(from)
    else NoteIndexFrom(name, from + 1)
  }

  /** The note names are pairwise different, so each has one position. */
  lemma NoteIndexOfName(r: nat)
    requires r < |Notes|
    ensures NoteIndex(Notes[r]) == Some(r)
  {
  }

  /**
   * Reads a pitch name back to the key index it names: a note name (a letter
   * and an optional '#') followed by an octave number. None for anything that
   * does not name a key.
   */
  function ParseNotation(s: string): Option<nat>
  {
    if |s| >= 2 && s[1] == '#' then KeyOf(s[..2], s[2..])
    else if |s| >= 1 then KeyOf(s[..1], s[1..])
    else None
  }

  function KeyOf(name: string, digits: string): Option<nat>
  {
    if digits == [] || exists i | 0 <= i < |digits| :: !IsDigit(digits[i]) then None
    else match NoteIndex(name)
      case None => None
      case Some(n) =>
        var octave := ParseDecimal(digits);
        var shift := if n >= 3 then 1 else 0;
        if octave < shift then None else Some(12 * (octave - shift) + n)
  }

  /** The note-name table: a letter, then '#' for the five sharps. */
  lemma NoteShapes(r: nat)
    requires r < |Notes|
    ensures 1 <= |Notes[r]| <= 2
    ensures 'A' <= Notes[r][0] <= 'G'
    ensures |Notes[r]| == 2 <==> r in [1, 4, 6, 9, 11]
    ensures |Notes[r]| == 2 ==> Notes[r][1] == '#'
    ensures '#' in Notes[r] <==> |Notes[r]| == 2
    ensures Notes[r] == "C" <==> r == 3
  {
  }

  /** A note name followed by digits splits back into the name and the digits. */
  lemma ParseSplits(r: nat, digits: string)
    requires r < |Notes| && digits != [] && IsDigit(digits[0])
    ensures ParseNotation(Notes[r] + digits) == KeyOf(Notes[r], digits)
  {
  }

  /** The note name and the octave number of a key read back as that key. */
  lemma ReadsBack(k: nat)
    ensures ParseNotation(NoteName(k) + Decimal(Octave(k))) == Some(k)
  {
    var r, o := k % 12, Octave(k);
    var name, digits := Notes[r], Decimal(o);
    assert NoteName(k) == name;
    ParseSplits(r, digits);
    NoteIndexOfName(r);
    DecimalRoundTrip(o);
    var shift := if r >= 3 then 1 else 0;
    assert k == 12 * (k / 12) + r;
    assert o == k / 12 + shift;
    assert KeyOf(name, digits) == Some(12 * (o - shift) + r);
  }

  /** Different keys have different pitch names. */
  lemma NotationInjective(a: nat, b: nat)
    requires KeyIndexToNotation(a) == KeyIndexToNotation(b)
    ensures a == b
  {
  }

  /** Pitch names of the first and last keys, the first C and middle C. */
  lemma NotationAnchors()
    ensures KeyIndexToNotation(0) == "A0"
    ensures KeyIndexToNotation(1) == "A#0"
    ensures KeyIndexToNotation(3) == "C1"
    ensures KeyIndexToNotation(12) == "A1"
    ensures KeyIndexToNotation(39) == "C4"
    ensures KeyIndexToNotation(87) == "C8"
  {
    assert KeyIndexToNotation(0) == "A0" by { assert NoteName(0) == "A" && Decimal(Octave(0)) == "0"; }
    assert KeyIndexToNotation(1) == "A#0" by { assert NoteName(1) == "A#" && Decimal(Octave(1)) == "0"; }
    assert KeyIndexToNotation(3) == "C1" by { assert NoteName(3) == "C" && Decimal(Octave(3)) == "1"; }
    assert KeyIndexToNotation(12) == "A1" by { assert NoteName(12) == "A" && Decimal(Octave(12)) == "1"; }
    assert KeyIndexToNotation(39) == "C4" by { assert NoteName(39) == "C" && Decimal(Octave(39)) == "4"; }
    assert KeyIndexToNotation(87) == "C8" by { assert NoteName(87) == "C" && Decimal(Octave(87)) == "8"; }
  }

  lemma AddTwelve(a: nat)
    ensures (a + 12) / 12 == a / 12 + 1 && (a + 12) % 12 == a % 12
  {
    var q, r := a / 12, a % 12;
    assert a + 12 == 12 * (q + 1) + r && 0 <= r < 12;
  }

  /** Twelve keys up: the same note name, one octave higher. */
  lemma OctavePeriod(k: nat)
    ensures NoteName(k + 12) == NoteName(k)
    ensures Octave(k + 12) == Octave(k) + 1
  {
    AddTwelve(k);
    AddTwelve(k + 9);
  }

  /** Moving up one key raises the octave number exactly when the new key is a C. */
  lemma OctaveStep(k: nat)
    ensures Octave(k + 1) == if NoteName(k + 1) == "C" then Octave(k) + 1 else Octave(k)
  {
    var r := (k + 1) % 12;
    NoteShapes(r);
    assert k + 1 == 12 * ((k + 1) / 12) + r;
    assert Octave(k + 1) == (k + 1) / 12 + (if r >= 3 then 1 else 0);
  }

  /** On the 88 keys the table index is in bounds and the octave runs from 0 to 8. */
  lemma KeyRangeBounds(k: nat)
    requires k < 88
    ensures 0 <= k % |Notes| < 12
    ensures Octave(k) <= 8
    ensures 2 <= |KeyIndexToNotation(k)| <= 3
  {
  }
}
