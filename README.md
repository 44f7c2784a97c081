# Spin wheel: a verified model

This project models the logic of a browser "wheel of fortune". The user keeps
a list of entries. The wheel draws one coloured segment per entry and spins
by a random angle. When the spin completes, one entry is named the winner.
Five parts are modelled, one Dafny module each:

- `SpinWheel` (`spin_wheel.dfy`) covers the spin. A request is refused while
  the wheel is spinning or has no entries. Otherwise the spin angle is five
  full turns plus a random offset. When the animation delay has passed, the
  spin completes: the winner is the entry at
  `(n - floor((rotation mod 360) / (360 / n))) mod n`. The module also gives
  the angles at which segments and labels are drawn. The wheel's state
  `{isSpinning, winner, rotation}` is the class `SpinWheelState`. Its
  `pending` field is the scheduled completion, holding the entry list and
  target rotation captured when the spin started. Starting and completing a
  spin are two separate methods.
- `WheelUtils` (`wheel_utils.dfy`) holds the colour palette, the inclusive
  number range (a counting loop), entry validation, the default roulette
  numbers and the parsing of newline-separated entries.
- `WheelSettings` (`wheel_settings.dfy`) holds the entry-list updaters: add,
  bulk add, remove at an index, replace at an index and clear. It also holds
  the number generator, which reads the Min and Max text fields.
- `EntryInput` (`entry_input.dfy`) is the single-entry field and the bulk
  text panel, with their handlers and the rules that enable their buttons.
- `EntryList` (`entry_list.dfy`) is the inline editor: which row is being
  edited, the text being edited, start, save, Enter and Escape.

`Text` (`text.dfy`) writes out the JavaScript built-ins these rely on:

- `trim`, over the ECMAScript whitespace characters
- `split` and `join` on one character
- `toString` for integers
- `parseInt` on decimal text

`Wrappers` (`wrappers.dfy`) holds the `Option` type. It stands for `null`,
for `NaN`, and for "the callback was not called".

Angles are whole degrees (`nat`). The stored rotation starts at 0, and every
spin adds a whole number of degrees. `segmentsPassed` is computed exactly, as
`(norm * n) / 360` in integer division. Callbacks (`onSpin`, `onAdd`,
`onBulkAdd`, `onEdit`) are the `Option` out-parameters of the handlers that
call them.

The pointer-inversion formula `floor(((360 - r mod 360) mod 360) / (360 / n))`
is not what the code computes, and the model follows the code.
`SpinWheel.WinningIndexVersusInversion` proves how the two differ. They agree
when the rotation stops exactly on a segment edge. Otherwise the code names the
next entry. For example, with four entries at 1900 degrees the code gives
entry 3 and the inversion gives entry 2.

## Model

| member | source | states |
|---|---|---|
| `SpinWheel.SpinAngle` | src/components/SpinWheel.tsx:27 | the spin angle lies in [1800, 2160) and is congruent to the random offset modulo 360 |
| `SpinWheel.SegmentsPassed` | src/components/SpinWheel.tsx:38-53 | the number of segments passed is below n and is the segment k with k*360 <= (rotation mod 360)*n < (k+1)*360 |
| `SpinWheel.WinningIndex` | src/components/SpinWheel.tsx:55-58 | the winning index is a valid index (< n), and together with the segments passed it makes 0 or n, i.e. it counts back from entry 0 |
| `SpinWheel.Resolve` | src/components/SpinWheel.tsx:61 | the winner is always one of the entries |
| `SpinWheel.WinnerIgnoresFullTurns` | src/components/SpinWheel.tsx:41 | adding full turns to the rotation does not change the winning index: it depends only on n and the rotation modulo 360 |
| `SpinWheel.SingleEntryAlwaysWins` | src/components/SpinWheel.tsx:58 | with one entry the index is always 0 |
| `SpinWheel.FirstSegmentWinsEntryZero` | src/components/SpinWheel.tsx:53-58 | while the rotation modulo 360 is below 360/n the winning index is 0 |
| `SpinWheel.EveryEntryCanWin` | src/components/SpinWheel.tsx:27-58 | for n <= 360 every index j < n is the winner of some whole-degree rotation below 360 |
| `SpinWheel.WinningIndexVersusInversion` | src/components/SpinWheel.tsx:53-58 | the index as written equals the pointer-inversion index on segment edges and is that index plus one (mod n) everywhere else |
| `SpinWheel.FourEntriesAt1900` | src/components/SpinWheel.tsx:41-58 | four entries at 1900 degrees: index 3 as written, 2 by the inversion |
| `SpinWheel.SegmentSpan` | src/components/SpinWheel.tsx:102 | the segment angle is positive and n segments make exactly 360 degrees |
| `SpinWheel.SegmentStart` | src/components/SpinWheel.tsx:103 | segment i starts at i*360/n degrees: its start times n is i*360 |
| `SpinWheel.LabelAngle` | src/components/SpinWheel.tsx:124-129 | a label's angle lies strictly inside its segment |
| `SpinWheel.SegmentsTileTheTurn` | src/components/SpinWheel.tsx:101-111 | each segment ends where the next starts, the first starts at 0, the last ends at 360, and every segment lies within [0, 360] |
| `SpinWheel.SegmentsPassedLocatesAngle` | src/components/SpinWheel.tsx:38-53 | the segments-passed count is the segment whose drawn span [start, next start) holds the rotation modulo 360, lower edge included |
| `SpinWheel.RotationAfterSpins` | src/components/SpinWheel.tsx:27-28 | after s completed spins the rotation has grown by at least 1800*s and at most 2159*s degrees |
| `SpinWheel.RotationIncreases` | src/components/SpinWheel.tsx:28 | each further spin adds at least five full turns to the accumulated rotation |
| `SpinWheel.SpinWheelState.constructor` | src/components/SpinWheel.tsx:14-16 | a new wheel is not spinning, has no winner and rotation 0 |
| `SpinWheel.SpinWheelState.CanSpin` | src/components/SpinWheel.tsx:21 | the spin is allowed exactly when the wheel is idle and has entries, and then every rotation resolves to one of them |
| `SpinWheel.SpinWheelState.StartSpin` | src/components/SpinWheel.tsx:20-34 | a request while spinning or with no entries changes nothing and schedules nothing; otherwise it sets spinning, clears the winner, keeps the rotation and schedules completion with the captured entries and rotation + spin angle |
| `SpinWheel.SpinWheelState.CompleteSpin` | src/components/SpinWheel.tsx:36-86 | completion sets the rotation to the captured target (at least 1800, below 2160 degrees further), the winner to the captured entry list's resolved entry, clears spinning, and notifies onSpin once with that winner when a callback is given |
| `Text.Trim` | src/utils/wheelUtils.ts:42 | the trim is the slice of the text left after removing an all-whitespace prefix and an all-whitespace suffix; it is empty exactly for all-whitespace text and otherwise starts and ends with a non-whitespace character |
| `Text.TrimIdempotent` | src/utils/wheelUtils.ts:61 | trimming twice is trimming once |
| `Text.Split` | src/utils/wheelUtils.ts:60 | splitting yields one more piece than there are separators, none containing the separator |
| `Text.JoinSplit` | src/utils/wheelUtils.ts:60 | joining the pieces of a split gives the text back |
| `Text.SplitJoin` | src/utils/wheelUtils.ts:60 | splitting the join of separator-free pieces gives the pieces back |
| `Text.IntToString` | src/utils/wheelUtils.ts:31 | a numeral is non-empty, does not start with whitespace, and starts with '-' exactly for negative numbers |
| `Text.ParseIntToString` | src/components/WheelSettings.tsx:54-55 | parseInt reads back every integer numeral |
| `Text.ParseInt` | src/components/WheelSettings.tsx:54-55 | `parseInt` of blank text is NaN, and a number is read only from text that holds a digit; `Text.ParseIntToString` is its partner, reading back every numeral |
| `Text.IntToStringInjective` | src/utils/wheelUtils.ts:31 | distinct integers have distinct numerals |
| `WheelUtils.SegmentColor` | src/utils/wheelUtils.ts:3-20 | the colour is a palette colour, the palette's own entry for the first seven indexes |
| `WheelUtils.SegmentColorPeriodic` | src/utils/wheelUtils.ts:18-20 | colours repeat with period 7 |
| `WheelUtils.NeighbourColorsDiffer` | src/utils/wheelUtils.ts:3-20 | segments i and i+1 never share a colour |
| `WheelUtils.SeamColors` | src/utils/wheelUtils.ts:18-20 | the last and first segment of an n-segment wheel share a colour exactly when n mod 7 = 1 |
| `WheelUtils.NumberRange` | src/utils/wheelUtils.ts:28-34 | the range has max(0, end - start + 1) elements, element k being the numeral of start + k |
| `WheelUtils.GenerateNumberRange` | src/utils/wheelUtils.ts:28-34 | the counting loop builds exactly that range |
| `WheelUtils.NumberRangeValues` | src/utils/wheelUtils.ts:28-34 | element k parses back to start + k, so the elements are increasing and distinct |
| `WheelUtils.DefaultRouletteNumbers` | src/utils/wheelUtils.ts:49-51 | 37 entries, element k the numeral of k, from "0" to "36" |
| `WheelUtils.IsValidEntry` | src/utils/wheelUtils.ts:41-43 | an entry is invalid exactly when it is empty or all whitespace |
| `WheelUtils.TrimAll` | src/utils/wheelUtils.ts:61 | `map(trim)` keeps the number of lines |
| `WheelUtils.TrimAllTrimmed` | src/utils/wheelUtils.ts:61 | every line `map(trim)` yields is its own trim |
| `WheelUtils.TrimAllCons` | src/utils/wheelUtils.ts:61 | `map(trim)` works line by line: the first line's trim, then the rest's |
| `WheelUtils.KeepValid` | src/utils/wheelUtils.ts:62 | the filter yields no more strings than it is given, all of them valid |
| `WheelUtils.KeepValidIsSubsequence` | src/utils/wheelUtils.ts:62 | the filter keeps order |
| `WheelUtils.KeepValidKeeps` | src/utils/wheelUtils.ts:62 | the filter drops no valid string |
| `WheelUtils.KeepValidAppend` | src/utils/wheelUtils.ts:62 | filtering a concatenation is the concatenation of the filtered parts |
| `WheelUtils.KeepValidCounts` | src/utils/wheelUtils.ts:62 | the filter keeps every occurrence of a valid string (duplicates included) and no occurrence of an invalid one |
| `WheelUtils.KeepValidOfValid` | src/utils/wheelUtils.ts:62 | a list of valid strings passes unchanged |
| `WheelUtils.ParseEntriesFromText` | src/utils/wheelUtils.ts:58-63 | at most one entry per line: no more entries than newlines plus one |
| `WheelUtils.ParsedEntriesAreTrimmed` | src/utils/wheelUtils.ts:58-63 | every parsed entry is non-empty, equal to its own trim and free of newlines |
| `WheelUtils.ParseKeepsLineOrder` | src/utils/wheelUtils.ts:58-63 | the entries are the trimmed lines in line order, and every non-blank line's trim is among them |
| `WheelUtils.ParseLineByLine` | src/utils/wheelUtils.ts:58-63 | a first line contributes exactly its trim when it is a valid entry and nothing otherwise, followed by the parse of the remaining text; so every non-blank line gives its own entry, repeated lines included |
| `WheelUtils.ParseEmptyText` | src/utils/wheelUtils.ts:58-63 | empty text yields no entry |
| `WheelUtils.ParseJoinOfEntries` | src/utils/wheelUtils.ts:58-63 | trimmed, non-empty, single-line entries survive a newline join and a parse unchanged |
| `WheelUtils.ReparseJoined` | src/utils/wheelUtils.ts:58-63 | parsing the newline join of parsed entries gives the same entries |
| `WheelUtils.NonBlankTextHasEntry` | src/components/EntryInput.tsx:28-34 | text that is not blank yields at least one entry |
| `WheelSettings.AppendEntry` | src/components/WheelSettings.tsx:33-35 | add puts the entry last: one longer, earlier entries unchanged |
| `WheelSettings.AppendEntries` | src/components/WheelSettings.tsx:37-39 | bulk add is the old entries followed by the new ones in order |
| `WheelSettings.KeepOtherPositionsSpec` | src/components/WheelSettings.tsx:42 | `filter((_, i) => i !== index)` removes exactly the element at the index when the index is in range and keeps the list otherwise |
| `WheelSettings.RemoveEntry` | src/components/WheelSettings.tsx:41-43 | an index in range drops exactly that entry, keeping the others in order; any other index changes nothing |
| `WheelSettings.ReplaceEntry` | src/components/WheelSettings.tsx:45-51 | an index in range replaces only that position and keeps the length; the length index appends; a negative index changes nothing |
| `WheelSettings.RangeMin` | src/components/WheelSettings.tsx:54 | the lower bound is the Min field's parsed value or the fallback 0 |
| `WheelSettings.RangeMax` | src/components/WheelSettings.tsx:55 | the upper bound is never 0, and is the Max field's parsed value or the fallback 36 |
| `WheelSettings.RangeDefaults` | src/components/WheelSettings.tsx:54-55 | for every text: NaN gives bounds 0 and 36, a parsed 0 gives 0 and 36, any other parsed value is used as is |
| `WheelSettings.RangeRejected` | src/components/WheelSettings.tsx:57 | the range is rejected exactly when it would be empty or would reach above 99; there is no lower-bound check |
| `WheelSettings.GeneratedEntries` | src/components/WheelSettings.tsx:53-62 | min > max or max > 99 keeps the entries; otherwise they are replaced by max - min + 1 numerals from min, none above 99 |
| `WheelSettings.GenerateFromInitialFields` | src/components/WheelSettings.tsx:30-62 | with the initial fields "0" and "36" generating gives the 37 roulette numbers |
| `WheelSettings.GenerateFromBlankFields` | src/components/WheelSettings.tsx:54-55 | blank fields fall back to 0 and 36 |
| `WheelSettings.ZeroMaxMeansThirtySix` | src/components/WheelSettings.tsx:55-59 | a max of "0" reads as 36, so "5" to "0" generates 5 to 36 |
| `WheelSettings.NegativeMinAccepted` | src/components/WheelSettings.tsx:57-59 | there is no lower-bound check: "-3" to "2" generates six numerals starting at "-3" |
| `WheelSettings.WheelSettingsState.constructor` | src/components/WheelSettings.tsx:30-31 | the fields start as "0" and "36" |
| `WheelSettings.WheelSettingsState.HandleAddEntry` | src/components/WheelSettings.tsx:33-35 | the entries become the add updater's result, the fields are unchanged |
| `WheelSettings.WheelSettingsState.HandleBulkAddEntries` | src/components/WheelSettings.tsx:37-39 | the entries become the bulk add updater's result |
| `WheelSettings.WheelSettingsState.HandleRemoveEntry` | src/components/WheelSettings.tsx:41-43 | the entries become the remove updater's result |
| `WheelSettings.WheelSettingsState.HandleEditEntry` | src/components/WheelSettings.tsx:45-51 | the entries become the replace updater's result |
| `WheelSettings.WheelSettingsState.SetMinNumber` | src/components/WheelSettings.tsx:113 | typing sets the Min text only |
| `WheelSettings.WheelSettingsState.SetMaxNumber` | src/components/WheelSettings.tsx:125 | typing sets the Max text only |
| `WheelSettings.WheelSettingsState.GenerateNumbers` | src/components/WheelSettings.tsx:53-63 | the entries become the generated entries for the current fields (through the counting loop), the fields are unchanged |
| `WheelSettings.WheelSettingsState.ClearEntries` | src/components/WheelSettings.tsx:65-67 | the entries become empty |
| `EntryInput.EntryInputState.constructor` | src/components/EntryInput.tsx:16-18 | empty field, panel closed, empty bulk text |
| `EntryInput.EntryInputState.AddEnabled` | src/components/EntryInput.tsx:53 | the Add button is enabled exactly when the field holds a character that is not whitespace |
| `EntryInput.EntryInputState.AddAllEnabled` | src/components/EntryInput.tsx:70 | "Add All" is enabled exactly when the bulk text is not blank, and then the text parses to at least one entry |
| `EntryInput.EntryInputState.SetEntry` | src/components/EntryInput.tsx:46 | typing sets the field only |
| `EntryInput.EntryInputState.SetBulkEntries` | src/components/EntryInput.tsx:62 | typing sets the bulk text only |
| `EntryInput.EntryInputState.OpenBulkInput` | src/components/EntryInput.tsx:80 | opens the panel, keeps both texts |
| `EntryInput.EntryInputState.Cancel` | src/components/EntryInput.tsx:67 | closes the panel without clearing the bulk text |
| `EntryInput.EntryInputState.HandleAddEntry` | src/components/EntryInput.tsx:20-25 | a valid entry is delivered trimmed (non-empty, its own trim) and the field cleared; an invalid one delivers nothing and keeps the field |
| `EntryInput.EntryInputState.HandleBulkAdd` | src/components/EntryInput.tsx:27-38 | delivers the parse of the bulk text when it is non-empty, then clears the text and closes the panel; otherwise delivers nothing and changes nothing; when "Add All" is enabled something is always delivered |
| `EntryList.EntryListState.constructor` | src/components/EntryList.tsx:14-15 | no row is being edited |
| `EntryList.EntryListState.EditingRows` | src/components/EntryList.tsx:44 | at most one row renders in edit mode, exactly the row at the editing index |
| `EntryList.EntryListState.StartEdit` | src/components/EntryList.tsx:17-20 | editing row i starts from the text of entry i |
| `EntryList.EntryListState.SetEditValue` | src/components/EntryList.tsx:49 | typing sets the edited text only |
| `EntryList.EntryListState.SaveEdit` | src/components/EntryList.tsx:22-27 | while editing, calls onEdit once with the row and the edited text as it stands (no validation) and leaves edit mode; otherwise does nothing |
| `EntryList.EntryListState.KeyDown` | src/components/EntryList.tsx:52-55 | Enter saves; Escape leaves edit mode without calling onEdit; other keys change nothing |

## Left out

- Randomness and timing: `Math.random` becomes the `offset` parameter, with 0 <= offset < 360. The 5-second `setTimeout` becomes the separate `CompleteSpin` step.
- Side effects of a spin are not modelled: confetti, toasts, `console.log`, the CSS variable write and the animation classes are display-only.
- Trigonometry and pixel layout are not modelled: the clip-path polygon, label positions and font sizes are floating-point drawing. Only the angles are modelled.
- Floating point: `360 / n` and the division at SpinWheel.tsx:53 are IEEE doubles in the source. The model uses exact arithmetic. At exact segment edges the doubles can round differently.
- Whether the drawn segment under the top pointer is the reported winner is not modelled. The drawing measures angles from 3 o'clock, while the pointer is at 12 o'clock.
- `WheelUtils.SegmentColor`: the index is a `nat`. For a negative index, JavaScript's remainder would give `undefined`. The only caller passes array positions.
- `WheelSettings.ReplaceEntry` requires `index <= |prev|`. A larger index would turn the JavaScript array into a sparse array with holes, which `seq<string>` cannot hold. The editor saves only rows that are drawn, so their index is in range.
- `EntryList.EntryListState.StartEdit` requires an index in range, because only the edit button of a drawn row calls it.
- `Text.ParseInt` reads decimal text only. A `0x` hexadecimal prefix, which `parseInt` would accept, is not modelled. The Min and Max fields are number inputs, whose values never hold one.
- `Text.IntToString`, `Text.ParseInt` and the range loop use unbounded integers. `parseInt` returns a double, so numerals beyond 2^53 are rounded in the source and read exactly here. JavaScript's exponent notation beyond 1e21 is not modelled. Neither is the stalling of `i++` beyond 2^53.
- The entry list's owner (the home page, src/pages/Index.tsx) and its size cap are not part of this model: `validateEntriesLimit` is imported from wheelUtils.ts, which does not define it. `WheelSettingsState` holds the list that `setEntries` updates.
- Display-only parts are not modelled: the winner history list, the Save and Share buttons (which have no handlers), the tabs and the static pages.
