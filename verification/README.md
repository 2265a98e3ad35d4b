# Piano app core, modelled in Dafny

A browser piano records each key press as a `KeyEvent` (key index, start
time, end time once released) in a map from key index to that key's list of
events, names each key's pitch for the synthesizer, and lays out its 88 keys
and the scroll lanes above them on a grid of columns. This project models
those three pieces and proves their properties:

- `key_event.dfy` (`KeyEvents`): the `KeyEvent` record as a class with a
  mutable `endTime`, and `Event`, the value such an object holds.
- `timeline.dfy` (`Timeline`): press and release as functions on
  `map<int, seq<Event>>`, with lemmas on open counts, the key-index
  invariant, press-then-release and the double-press behaviour.
- `midi_recorder.dfy` (`MidiRecorder`): the recorder's press and release
  handlers as methods of a class holding `map<int, seq<KeyEvent>>`; press
  appends a fresh object, release runs the backwards scan with `break` and
  writes `endTime` in place. Both are proved to follow the `Timeline`
  functions through a ghost `Model`.
- `midi_service.dfy` (`MidiService`): `keyIndexToNotation`, with a parser
  that reads a pitch name back, so the mapping is proved injective.
- `piano.dfy` (`Piano`): the white/black split of keys 0..87, the key
  spans in column units (white key i at 4i, width 4; black key i at
  2k + [1,3,3,5,5][i mod 5] + 4 * (i div 5), width 2), `isPressed` and the
  mouse handlers.
- `piano_scroll.dfy` (`PianoScroll`): the lanes of the scroll view, with
  their own position tables (app/src/components/PianoScroll.tsx:14-15) and
  offset table (app/src/components/PianoScroll.tsx:67), proved to give the same lists
  and the same spans as the keyboard, so that a lane is highlighted
  together with the key below it.

## Model

| member | source | states |
|---|---|---|
| KeyEvents.KeyEvent.constructor | app/src/components/KeyEvent.tsx:2-6 | stores key index, start time and end time as given; no relation between start and end time is required |
| KeyEvents.NewOpenEvents | app/src/components/KeyEvent.tsx:5 | omitting the end time and passing undefined both give an open event with the given key index and start time |
| Timeline.Press | app/src/screens/MidiRecorder.tsx:14-23 | the key gets an entry if it had none; its list is the old list (empty if none) plus one open event at the end; every other key's list is unchanged |
| Timeline.LastOpen | app/src/screens/MidiRecorder.tsx:38-39 | the backwards scan finds the highest-index open event, or none exactly when every event is closed |
| Timeline.CloseLast | app/src/screens/MidiRecorder.tsx:38-43 | release keeps the list length, every key index and start time; it sets the end time of the last open event only, leaving earlier open events unchanged; with nothing open the list is unchanged |
| Timeline.Release | app/src/screens/MidiRecorder.tsx:32-45 | a release on a key without an entry changes nothing and creates no entry; other keys are untouched |
| Timeline.OpenCountUpdate | app/src/screens/MidiRecorder.tsx:40 | overwriting one event changes the open count only by that event's change |
| Timeline.OpenCountZero | app/src/screens/MidiRecorder.tsx:38-43 | a list has no open event exactly when its open count is zero |
| Timeline.PressOpensOne | app/src/screens/MidiRecorder.tsx:23 | a press raises the key's open count by exactly one |
| Timeline.ReleaseClosesOne | app/src/screens/MidiRecorder.tsx:35-43 | with an open event a release lowers the open count by exactly one; the release is a no-op exactly when the key has no entry or no open event |
| Timeline.WellKeyedPreserved | app/src/screens/MidiRecorder.tsx:17-42 | press and release keep every event under key k carrying key index k |
| Timeline.PressThenRelease | app/src/screens/MidiRecorder.tsx:17-42 | press at t1 then release at t2 appends exactly one event from t1 to t2 to the key's list |
| Timeline.DoublePressLeavesDangling | app/src/screens/MidiRecorder.tsx:23 | two presses without a release add two open events; a later release closes only the second, leaving the first open |
| MidiRecorder.PianoEvents.constructor | app/src/screens/MidiRecorder.tsx:10 | the recorder starts with an empty map |
| MidiRecorder.PianoEvents.HandleKeyPress | app/src/screens/MidiRecorder.tsx:12-28 | the map follows Timeline.Press; the stored objects of every key stay the same and in order; one fresh object is appended |
| MidiRecorder.PianoEvents.HandleKeyRelease | app/src/screens/MidiRecorder.tsx:30-48 | the event values follow Timeline.Release; the map and its lists keep the same objects; the invariants are kept |
| MidiRecorder.RecordOneNote | app/src/screens/MidiRecorder.tsx:12-48 | on a fresh recorder, a press then a release of a key leaves that key's list holding exactly one event, from the press time to the release time |
| MidiService.Decimal | app/src/services/MidiService.ts:23 | the octave is printed as a nonempty string of digits, of two or more digits exactly from 10 on |
| MidiService.DecimalRoundTrip | app/src/services/MidiService.ts:23 | reading the printed octave back gives the octave |
| MidiService.NoteIndex | app/src/services/MidiService.ts:20 | a name's position in the note table, or none when it is not a note name |
| MidiService.NoteIndexOfName | app/src/services/MidiService.ts:20 | the twelve note names are distinct, so each table entry is found at its own position |
| MidiService.NoteShapes | app/src/services/MidiService.ts:20 | each note name is a letter from A to G with '#' exactly at table positions 1, 4, 6, 9, 11; "C" is at position 3 |
| MidiService.NoteName | app/src/services/MidiService.ts:20-21 | the note name of key k is the table entry at exactly one position, k mod 12, so the name determines the key's place in the octave |
| MidiService.Octave | app/src/services/MidiService.ts:22 | the octave o of key k is the floor of (k + 9) / 12: 12o <= k + 9 < 12o + 12 |
| MidiService.KeyIndexToNotation | app/src/services/MidiService.ts:19-24 | the pitch name of every key reads back, through an independent parser of note name and octave digits, to that key |
| MidiService.NotationInjective | app/src/services/MidiService.ts:19-24 | different keys have different pitch names |
| MidiService.NotationAnchors | app/src/services/MidiService.ts:19-24 | keys 0, 1, 3, 12, 39 and 87 are A0, A#0, C1, A1, C4 and C8 |
| MidiService.OctavePeriod | app/src/services/MidiService.ts:21-22 | twelve keys up gives the same note name and an octave one higher |
| MidiService.OctaveStep | app/src/services/MidiService.ts:20-22 | one key up raises the octave by one exactly when the new key's note is C, and keeps it otherwise |
| MidiService.KeyRangeBounds | app/src/services/MidiService.ts:20-23 | for keys 0..87 the table index is in 0..11, the octave in 0..8, and the pitch name has 2 or 3 characters |
| Piano.Range | app/src/components/Piano.tsx:13 | the key list has one entry per index |
| Piano.RangeEntries | app/src/components/Piano.tsx:13 | entry i of the key list is i |
| Piano.Filter | app/src/components/Piano.tsx:20-21 | filtering keeps at most the keys it is given |
| Piano.FilterRangeMembers | app/src/components/Piano.tsx:20-21 | the filtered keys below n are exactly those with a selected residue mod 12 |
| Piano.FilterRangeAscending | app/src/components/Piano.tsx:20-21 | the filtered keys below n come out in strictly ascending order, the order of the key range |
| Piano.FilterStep | app/src/components/Piano.tsx:20-21 | one more key extends the filtered list by that key exactly when its residue is selected |
| Piano.FilterPrefix | app/src/components/Piano.tsx:20-21 | the filtered list of fewer keys is a prefix of that of more keys |
| Piano.FilterPosition | app/src/components/Piano.tsx:59 | a selected key sits in the filtered list at the position given by the count of selected keys below it |
| Piano.FilterEntry | app/src/components/Piano.tsx:80 | entry i of the filtered list has exactly i selected keys below it |
| Piano.ResidueClass | app/src/components/Piano.tsx:16-17 | every residue mod 12 is white or black, never both |
| Piano.WhiteCount | app/src/components/Piano.tsx:16-20 | below key n lie 7 white keys per whole octave plus those of the partial octave |
| Piano.ClassCountSum | app/src/components/Piano.tsx:16-21 | below key n the white and black keys together number n |
| Piano.WhiteKeys | app/src/components/Piano.tsx:13-20 | the white keys are 52 keys in ascending order, exactly the keys 0..87 with a white residue mod 12 |
| Piano.BlackKeys | app/src/components/Piano.tsx:13-21 | the black keys are 36 keys in ascending order, exactly the keys 0..87 with a black residue mod 12 |
| Piano.KeyPartition | app/src/components/Piano.tsx:13-21 | every key 0..87 is in exactly one of the two lists |
| Piano.WhiteIffNatural | app/src/components/Piano.tsx:16-21 | a key is white exactly when its pitch name from keyIndexToNotation has no '#' |
| Piano.WhiteKeyLayout | app/src/components/Piano.tsx:59-62 | the 52 white keys, in list order and 4 columns wide, tile the keyboard: the first starts at column 0, each ends where the next starts, the last ends at column 52 * 4 |
| Piano.BlackKeyLayout | app/src/components/Piano.tsx:80-85 | the 36 black keys, in list order and 2 columns wide, each cover the last column of the white key just below and the first column of the white key just above |
| Piano.BlackKeyAt | app/src/components/Piano.tsx:80 | black key number i is a black key below 88, and i counts 5 per octave plus its place in the octave |
| Piano.BlackKeyColumns | app/src/components/Piano.tsx:81-84 | the neighbours of a black key are white and its left edge is 4 * (white keys below its lower neighbour k - 1) + 3 |
| Piano.BlackKeyLeft | app/src/components/Piano.tsx:81-85 | black key number i starts in the last column of the white key below it; the key above it is the next white key |
| Piano.BlackKeyStraddles | app/src/components/Piano.tsx:60-85 | black key number i at its computed span covers the last column of the white key below it and the first column of the white key above it |
| Piano.MouseHandlers | app/src/components/Piano.tsx:43-53 | mouse-down invokes the press callback; mouse-up and mouse-leave both invoke the release callback with the same key |
| PianoScroll.WhiteLanes | app/src/components/PianoScroll.tsx:11-18 | the white lanes, built from the scroll view's own table, are the keyboard's white keys |
| PianoScroll.BlackLanes | app/src/components/PianoScroll.tsx:11-19 | the black lanes, built from the scroll view's own table, are the keyboard's black keys |
| PianoScroll.WhiteLaneLayout | app/src/components/PianoScroll.tsx:45-48 | the white lanes get the key indices and column spans of the white keys, so they tile the width as the keys do |
| PianoScroll.BlackLaneLayout | app/src/components/PianoScroll.tsx:64-69 | the black lanes, with the scroll view's own offset table, get the key indices and column spans of the black keys |
| PianoScroll.PressedTogether | app/src/components/PianoScroll.tsx:37-39 | for every pressed set, each lane is highlighted exactly when the key in the same columns is |

## Left out

- Pixel layout: the column width `window.innerWidth / (52 * 4)`, the resize listener and `Math.round` of pixel offsets; the model works in whole column units.
- React machinery: `useState`, `useEffect`, JSX output, the `console.log` click handler and the updater-function semantics of `setPianoEvents`; press and release are direct operations on the recorder object.
- MidiRecorder.PianoEvents.HandleKeyPress and HandleKeyRelease: the source's `new Map(prev)` copies only the map, so the pushed event and the written `endTime` are also visible through the previous state; the model updates one recorder in place and claims nothing about a previous state.
- Sound: the Tone.js synth, `initialize`, `playNote` and `releaseNote` are calls into an external library, and the handlers' `midiService?.` calls are left out with them.
- The wiring between components: the recorder passes its event map as a `pianoEvents` prop (app/src/screens/MidiRecorder.tsx:66-68) that neither view reads, so their `pressedKeys` is undefined and `isPressed` (app/src/components/Piano.tsx:40) would fail at render. The keyboard also calls the two-argument press handler with one argument; press and release times are parameters here, and `isPressed` takes the pressed set as given.
- Negative or fractional key indices: JavaScript `%` on a negative number differs from Dafny's, so pitch names and layout take key indices as natural numbers; the recorder map accepts any integer key, as the source does.
- MidiService.NotationInjective, OctavePeriod and OctaveStep, and the round trip of KeyIndexToNotation, hold for every natural number; the source computes with JavaScript doubles, so they describe it only where that arithmetic is exact and the octave prints without an exponent (key indices up to 2^53 - 10), which covers the 88 keys 0..87.
- Times are real numbers; no arithmetic is done on them, so floating point plays no part.
- The landing page and the router (app/src/screens/Home.tsx, app/src/App.tsx) are not part of this model.
