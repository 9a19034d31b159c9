# Music Maestro core, modelled in Dafny

Music Maestro is a pygame application that listens to a microphone and
scores the user's playing against a scrolling sheet of notes.  This project
models the sequential logic at its core and proves what that logic
promises:

- **Audio analysis** (`audio_manager.dfy`, module `Audio`).
  - `_framing` cuts the signal into overlapping zero-padded frames.
  - The arg-max and bin-mapping step of `_get_dominant_frequency`.
  - The round / `np.unique` aggregation of `get_dominant_frequencies`.
  - The weighted nearest-note search of `get_note_from_frequency`.
  - The FFT with its Hamming window and power scaling is a parameter
    `analyse` that yields one non-negative power per `rfft` bin.
  - The sine/logarithm octave distance is a parameter `distance` with a
    non-negative result.
- **Calibration** (`calibrate.dfy`, module `Calibration`).
  - `run_calibration`: for every note of the reference table, 39 sampling
    ticks fill an insertion-ordered histogram.
  - The 40th tick keeps the keys whose counts are among the three largest
    distinct counts, ties included, ordered by count and then by first
    sighting.
  - Escape on any tick restores the default table and ends the run.
  - Each sampling tick also shows a reading: the average frequency and the
    closest note in the table as it stands. That reading raises
    ZeroDivisionError for an empty frequency list, and ValueError when some
    note has no targets (a note whose window heard nothing above 1 gets an
    empty list). The run then ends with that exception.
  - What the microphone and the keyboard report on each tick is the input
    `input: nat -> TickInput`.
- **Reference table lifecycle** (`application.dfy`, module `App`).
  - The twelve-entry default table, `reset_notes`, the `get_font` cache and
    the `set_screen` guard.
  - The table itself is an ordered sequence of entries with distinct names
    (`reference_table.dfy`), because the note matcher breaks ties by dict
    order.
- **Song parser** (`song_parser.dfy`, module `Songs`).
  - The constructor reverses the caller's bar list in place, and each bar
    after the metadata as well; the list is an `array`.
  - The 49-entry `note_y_pos` table.
  - `_parse`, with every `KeyError` and `ValueError` it can raise.
  - `next_note`. Its state is related to the notes still to play in file
    order, through `Upcoming`.
- **Text input** (`text_input.dfy`, module `TextInputs`): a class whose
  `value` list and cursor the key handlers edit with Python's `del` and
  `insert` semantics, under the invariant that the cursor sits at the end.
- **Scroll bar** (`scrollbar.dfy`, module `ScrollBars`): a class whose thumb
  rectangle a drag moves and then moves back when it would leave the track.
  `pygame.Rect` is modelled in `geometry.dfy`, where `contains` includes the
  edges but wants the inner corner strictly before the outer right and bottom
  edges, and `collidepoint` is half-open.
- **Shared** (`wrappers.dfy` and `numerics.dfy`): `Option` and `Result` with
  the Python exception kinds, and Python's `round` (half to even) and `int()`
  (truncation).

Notes on the source:

- `np.fft.fftfreq` is called with the length of the power spectrum (8193),
  not with the FFT size 16384.
  - So bin `i` has frequency `i * rate / 8193`.
  - After `// 2 + 1` that is `i * rate // 16386 + 1`.
  - The model follows the code.
- `number_of_frames` is `ceil(|n - L| / step)`. It is zero when the signal is
  exactly one frame long `L`, although the comment above it says "at least
  one frame".
  - `FramingFrameCount` proves this.
  - `GetDominantFrequencies` then returns the empty list.
- A frame step of 0 (a rate below 100) makes line 67 divide by zero.
  - The model reports that as `ZeroDivisionError`.
  - So does the thumb width for a scroll length of -1000.

## Model

| member | source | states |
|---|---|---|
| Numerics.RoundHalfEven | ui/scrollbar.py:47 | `round(x)` lies within one half of `x`, and a tie goes to the even neighbour |
| Numerics.Truncate | screen/calibrate.py:34 | `int(x)` rounds toward zero and lies within 1 of `x` on that side |
| Numerics.RoundHalfEvenOfWhole | ui/scrollbar.py:47 | rounding a whole number leaves it unchanged |
| Numerics.FloorOfQuotient | audio/audio_manager.py:107 | the floor of an exact quotient of naturals is integer division |
| Audio.FrameCountIsCeiling | audio/audio_manager.py:67 | the frame count is the ceiling of `abs(n - L) / step`: the least count whose steps cover the gap, zero exactly when `n == L` |
| Audio.PaddingNonNegative | audio/audio_manager.py:77-78 | the padded length `k * step + L` is at least the signal length, so the padding is never negative |
| Audio.FrameIndexInBounds | audio/audio_manager.py:70-82 | every index `i * step + j` of the index matrix lies inside the padded signal |
| Audio.FrameRows | audio/audio_manager.py:70-82 | `padded[indices]` has `k` rows of `L` samples, row `i` column `j` being `padded[i * step + j]` |
| Audio.FramesOf | audio/audio_manager.py:64-82 | the frames number `ceil(abs(n - L) / step)`, each `L` long; entry `(i, j)` is `data[i * step + j]` inside the signal and 0 in the padding |
| Audio.Framing | audio/audio_manager.py:60-84 | `_framing` fails with ZeroDivisionError exactly when `int(.01 * rate)` is 0 |
| Audio.FramingFrameCount | audio/audio_manager.py:66-67 | framing yields no frame exactly when the signal is one frame long, despite the comment |
| Audio.ShortSignalIsPadded | audio/audio_manager.py:76-82 | a signal shorter than a frame gives at least one frame, zero after the signal |
| Audio.NonNegativeOfSplit | audio/audio_manager.py:107 | filtering `>= 0` out of a sequence that turns negative after `m` entries keeps exactly those `m` |
| Audio.NegativeBin | audio/audio_manager.py:104 | every `fftfreq` bin after the first 4097 is negative |
| Audio.MappedBin | audio/audio_manager.py:104-107 | each of the first 4097 bins is non-negative and `f // 2 + 1` maps it to `i * rate // 16386 + 1` |
| Audio.MappedBinsClosedForm | audio/audio_manager.py:104-110 | the filtered, mapped frequency list has 4097 entries in that closed form |
| Audio.FirstArgMax | audio/audio_manager.py:113 | `np.argmax` returns the first index of the maximum |
| Audio.DominantFrequency | audio/audio_manager.py:96-116 | a frame's dominant frequency is the mapped bin at the first peak of the truncated spectrum; it is a whole number of at least 1 |
| Audio.BinIsWhole | audio/audio_manager.py:107 | every mapped bin is a whole number of at least 1 |
| Audio.Round3OfWhole | audio/audio_manager.py:153 | `np.round(x, 3)` leaves whole numbers unchanged |
| Audio.InsertSorted | audio/audio_manager.py:154 | adding one value to an ascending duplicate-free list keeps it so and adds exactly that value |
| Audio.Unique | audio/audio_manager.py:154 | `np.unique` is strictly ascending and has the same elements as its input |
| Audio.StrictlyIncreasingIsDeterminedByElements | audio/audio_manager.py:154 | two strictly ascending lists with the same elements are equal, so `np.unique`'s output is determined by its input's set |
| Audio.PerFrame | audio/audio_manager.py:152-153 | one rounded dominant frequency per frame |
| Audio.GetDominantFrequencies | audio/audio_manager.py:133-156 | ValueError until a buffer exists, ZeroDivisionError for a zero frame step, otherwise a strictly ascending list |
| Audio.DominantFrequenciesAreFrameValues | audio/audio_manager.py:146-154 | the result's elements are exactly the frames' dominant frequencies, each a whole number of at least 1; the list is empty exactly for a one-frame signal |
| Audio.MinDistance | audio/audio_manager.py:179-181 | `min` over the targets is attained by a target and bounds every target's distance |
| Audio.ContributionBonus | audio/audio_manager.py:179-184 | a frequency contributes -100 exactly when some target is at distance 0, otherwise its positive least distance |
| Audio.FirstMinimum | audio/audio_manager.py:186-187 | the strict `<` selects the first index of the minimum weight |
| Audio.FirstMinimumOfSnoc | audio/audio_manager.py:186-187 | a new weight replaces the current best only when strictly lighter |
| Audio.ClosestOfNextNote | audio/audio_manager.py:174-188 | one outer-loop pass turns the best of the first `i` notes into the best of the first `i + 1` |
| Audio.NoteWeight | audio/audio_manager.py:177-184 | the inner loop computes the note's weight, and fails with ValueError on `min([])` for a note without targets when there is something to weigh |
| Audio.GetNoteFromFrequency | audio/audio_manager.py:158-189 | "rest" whenever 1.0 was detected; ValueError when a visited note has no targets and frequencies are present; `None` for an empty table; otherwise the first note of least weight |
| Audio.NoFrequenciesPickFirstNote | audio/audio_manager.py:176-187 | with no detected frequency every weight is 0 and the first table entry wins |
| App.DefaultNotesShape | application.py:73-86 | the default table has twelve distinct names from A to G#/Ab in chromatic order, one target each |
| App.Application.constructor | application.py:73-87 | after construction `notes` equals the default table and the font cache is empty |
| App.Application.ResetNotes | application.py:113-114 | `notes` becomes the default table again, keeping the default names in order |
| App.Application.GetFont | application.py:167-170 | the font for a size is loaded once, on its first request, and afterwards returned from the cache with nothing else changing |
| App.Application.SetScreen | application.py:180-184 | an unknown name raises KeyError and leaves the current screen unchanged; a known one becomes the current screen |
| Calibration.AddWellFormed | screen/calibrate.py:34 | one increment keeps the histogram's keys duplicate-free and in step with its counts |
| Calibration.AddAllWellFormed | screen/calibrate.py:32-34 | any number of increments keep the histogram well formed |
| Calibration.AddCounts | screen/calibrate.py:34 | `buffer.get(k, 0) + 1` raises exactly `k`'s count, by one, and appends `k` only when new |
| Calibration.AddAllCounts | screen/calibrate.py:32-34 | after counting `ks`, each key's count has grown by its number of occurrences in `ks`, and the old keys keep their places |
| Calibration.AddAllConcat | screen/calibrate.py:26-34 | counting two runs of keys one after the other is counting their concatenation |
| Calibration.KeysOfAreAtLeastOne | screen/calibrate.py:32-34 | every counted key comes from a frequency above 1 and is at least 1 |
| Calibration.WindowReadsOnlySamplingTicks | screen/calibrate.py:24-34 | a window's keys depend only on the frequencies of its own sampling ticks |
| Calibration.TallyKeys | screen/calibrate.py:32-34 | the histogram's keys are exactly the counted keys |
| Calibration.TallyFirstSeenOrder | screen/calibrate.py:34 | the histogram lists its keys in the order of their first occurrence |
| Calibration.TallyCountsAndOrder | screen/calibrate.py:19-34 | the histogram is well formed, counts each key exactly as often as it occurs and lists keys in first-seen order |
| Calibration.InsertByCountPermutes | screen/calibrate.py:38 | one insertion step of the sort adds the key and loses nothing |
| Calibration.InsertByCountKeepsOrder | screen/calibrate.py:38 | an insertion step keeps the list ordered by non-increasing count |
| Calibration.InsertByCountIsStable | screen/calibrate.py:38 | an insertion step puts the key first among the keys of equal count, so later keys stay later |
| Calibration.SortByCountPermutes | screen/calibrate.py:38 | the sort is a permutation of the keys |
| Calibration.SortByCountIsStableSort | screen/calibrate.py:38 | `sorted(..., reverse=True)` on counts is a permutation ordered by non-increasing count that keeps the original order within each count |
| Calibration.MergeEqualNeighbours | screen/calibrate.py:39 | collapsing equal neighbours keeps exactly the same values and the first value |
| Calibration.MergeEqualNeighboursDescends | screen/calibrate.py:39 | on a non-increasing list the result is strictly descending, so it is `sorted(set(counts), reverse=True)` |
| Calibration.KeepCounts | screen/calibrate.py:41-43 | the comprehension keeps exactly the keys whose count is among the chosen counts |
| Calibration.KeepCountsNoRepeats | screen/calibrate.py:41-43 | filtering a duplicate-free list leaves it duplicate-free |
| Calibration.KeepCountsDescends | screen/calibrate.py:41-43 | filtering a count-ordered list keeps it count-ordered |
| Calibration.KeepCountsByCount | screen/calibrate.py:41-43 | the keys of each surviving count keep their order, and the others vanish |
| Calibration.DistinctCountsProperties | screen/calibrate.py:39 | the distinct counts are strictly descending and are exactly the counts that occur |
| Calibration.PrefixOfDescending | screen/calibrate.py:39 | a value is among the first three of a strictly descending list iff it occurs and fewer than three values exceed it |
| Calibration.TopCountsAreRankBelowThree | screen/calibrate.py:39 | a count survives `[:3]` iff it occurs and fewer than three distinct counts are larger |
| Calibration.TopThreeMembers | screen/calibrate.py:38-43 | the new target list holds exactly the keys whose count is among the three largest distinct counts, ties included |
| Calibration.TopThreeOrder | screen/calibrate.py:38-43 | the new list has no repeats, never increases in count, and keeps first-seen order among equal counts |
| Calibration.TopThreeEmpty | screen/calibrate.py:38-43 | the new list is empty exactly when no frequency above 1 was counted |
| Calibration.FirstEscape | screen/calibrate.py:45-52 | the first tick with Escape, with none before it, or none at all |
| Calibration.CalibratedNotes | screen/calibrate.py:15-43 | a run without Escape keeps every note's name and order |
| Calibration.EscapeNote | screen/calibrate.py:16-52 | the note being calibrated when the run's first Escape came, if any |
| Calibration.CalibrationReadsOnlySamples | screen/calibrate.py:24-43 | the calibrated table depends only on the frequencies of ticks 1-39 of every note |
| Calibration.TallyOfNextTick | screen/calibrate.py:32-34 | counting one more tick extends the window's histogram by that tick's keys |
| Calibration.CountFrequencies | screen/calibrate.py:32-34 | the loop over one tick's frequencies adds exactly the keys of those above 1, in order |
| Calibration.CalibrationStep | screen/calibrate.py:41-43 | assigning note `n`'s new targets turns the table calibrated up to `n` into the one calibrated up to `n + 1` |
| Calibration.EscapeIsFirst | screen/calibrate.py:45-52 | Escape at a tick after none before it is the run's first Escape |
| Calibration.NoEscapeAtAll | screen/calibrate.py:45-52 | with no Escape before the limit there is no first Escape |
| Calibration.EscapeInNote | screen/calibrate.py:45-52 | a first Escape on one of note `n`'s forty ticks ends the run during note `n` |
| Calibration.NoEscapeInRun | screen/calibrate.py:45-56 | with no Escape on any tick the run is not cancelled |
| Calibration.Calibrate.constructor | screen/calibrate.py:11-13 | no note is being calibrated at first |
| Calibration.DisplayError | screen/calibrate.py:78-81 | the reading raises ZeroDivisionError exactly for an empty frequency list, and ValueError exactly when frequencies without 1.0 meet a note with no targets |
| Calibration.ShowReading | screen/calibrate.py:78-83 | the reading's average and note match raise exactly the exception `DisplayError` names, through the note matcher |
| Calibration.FirstStop | screen/calibrate.py:20-52 | the first tick of a window whose reading raises or that sees Escape, with none before it |
| Calibration.RunFrom | screen/calibrate.py:16-56 | a run that does not complete ends during one of the notes still to play |
| Calibration.StopEndsRunBy | screen/calibrate.py:16-56 | a tick that raises or sees Escape ends the run during its own note or an earlier one |
| Calibration.RunFromCompleted | screen/calibrate.py:16-56 | a run completes exactly when no tick of any note raises or sees Escape |
| Calibration.SilentNoteStopsRun | screen/calibrate.py:28-43 | a note whose window counted nothing above 1 is left without targets, and a later tick hearing anything but 1.0 then raises ValueError in the matcher, so the run cannot complete |
| Calibration.EmptyReadingStopsRun | screen/calibrate.py:28-29 | a sampling tick with no frequencies raises ZeroDivisionError, so the run cannot complete |
| Calibration.CleanRunFollowsEscape | screen/calibrate.py:16-56 | when no reading raises, the run completes without Escape and is cancelled in the note of the first Escape otherwise |
| Calibration.Calibrate.RunCalibration | screen/calibrate.py:15-56 | on Escape the default table and the options screen; on completion every note's targets replaced by its window's top three and the options screen; on an exception from a reading, that exception, with the notes calibrated so far and the screen unchanged |
| Calibration.Calibrate.CalibrateNotes | screen/calibrate.py:16-56 | the notes are processed in table order against the partly calibrated table; the loop stops exactly where the run's ending says, in the note whose tick ended it |
| Calibration.Calibrate.CalibrateNote | screen/calibrate.py:16-52 | one note's forty ticks either replace just that note's entry, or on Escape restore the defaults, or on an exception leave the table as it was |
| Calibration.Calibrate.Cancel | screen/calibrate.py:49-52 | Escape restores the default table and selects the options screen |
| Calibration.CaptureNote | screen/calibrate.py:17-52 | one note's `while buffering` loop yields the top three of its 39-tick histogram, or the first tick that raised or saw Escape, with its exception |
| Calibration.CountWindow | screen/calibrate.py:20-52 | ticks 1-39 build the histogram of their keys unless a reading raises or Escape interrupts them |
| Calibration.SampleTick | screen/calibrate.py:24-52 | one sampling tick raises what its reading raises; otherwise it extends the histogram by its keys and reports its Escape |
| Geometry.Move | ui/scrollbar.py:75 | `move` keeps the size |
| Geometry.MoveBack | ui/scrollbar.py:75-81 | moving by `-dx` undoes moving by `dx` |
| TextInputs.OccursSingle | ui/text_input.py:93 | for a one-character key, `key in allowed_characters` is membership |
| TextInputs.DeleteAt | ui/text_input.py:100-104 | `del s[i]` succeeds exactly for `-len(s) <= i < len(s)` and removes one entry |
| TextInputs.InsertAt | ui/text_input.py:110 | `insert` adds exactly one entry |
| TextInputs.DeleteAtEnd | ui/text_input.py:100-104 | deleting before an end cursor removes the last entry, and fails only on an empty value |
| TextInputs.InsertAtEnd | ui/text_input.py:110-111 | inserting at an end cursor appends |
| TextInputs.JoinAppend | ui/text_input.py:120 | after an append, `get_value` gains the new key at the end |
| TextInputs.JoinSingleCharacters | ui/text_input.py:120 | for one-character entries, `get_value` is those characters in order |
| TextInputs.TextInput.constructor | ui/text_input.py:33-44 | a new field is inactive, empty, with the cursor at 0 |
| TextInputs.TextInput.Check | ui/text_input.py:57-75 | a click inside the rectangle activates, a click outside deactivates, no click leaves the flag |
| TextInputs.TextInput.KeyPress | ui/text_input.py:78-88 | an inactive field ignores keys; an active one applies the edit; the buffer invariant is kept |
| TextInputs.TextInput.HandleCharacterInput | ui/text_input.py:90-94 | Backspace removes the last key, if any; an allowed key below the limit is appended and joins onto the text; nothing else changes; the invariant is kept |
| TextInputs.TextInput.DeleteCharacter | ui/text_input.py:96-104 | `del` at the cursor minus one, the cursor moving back only when it succeeds |
| TextInputs.TextInput.InsertCharacter | ui/text_input.py:106-111 | the key goes in at the cursor and the cursor advances |
| ScrollBars.TrackRect | ui/scrollbar.py:43-50 | the track has the given size and its corner is the half-size offset rounded half to even |
| ScrollBars.ThumbWidth | ui/scrollbar.py:52-59 | ZeroDivisionError exactly for a scroll length of -1000; otherwise the width is between 0 and the track width when the length is at least the track width minus 1000 |
| ScrollBars.QuotientBound | ui/scrollbar.py:57 | `w / d * w` lies between 0 and `w` for `0 <= w <= d` |
| ScrollBars.ScrollAmount | ui/scrollbar.py:61-64 | zero unless the track is wider than the thumb, otherwise the content pixels per pixel of thumb travel |
| ScrollBars.ScrollBar.constructor | ui/scrollbar.py:31-64 | the stored scroll length is at least the track width plus one; thumb and `scroll_amount` are computed from the length as passed in |
| ScrollBars.ScrollBar.Create | ui/scrollbar.py:36-64 | construction fails with ZeroDivisionError exactly for a scroll length of -1000 |
| ScrollBars.ScrollBar.Check | ui/scrollbar.py:93-105 | a click on the thumb starts a drag without moving; release ends a drag without moving; a held drag performs one drag step; the last mouse position is recorded; a thumb inside the track stays inside |
| ScrollBars.ScrollBar.HandleScrollBarDrag | ui/scrollbar.py:66-71 | a held button drags, a released one ends the drag with no movement |
| ScrollBars.ScrollBar.UpdateScrollBarPosition | ui/scrollbar.py:73-81 | either the moved thumb is inside the track and the position moved by `-scroll_amount * dx`, or both are as before; the thumb moves only horizontally |
| ScrollBars.ScrollBar.GetNotchPosition | ui/scrollbar.py:107-108 | the notch position is the stored scroll position |
| Songs.ReverseIndex | audio/song_parser.py:17 | entry `i` of a reversal is entry `n - 1 - i` of the original |
| Songs.ReverseByIndex | audio/song_parser.py:17 | a list read from the end entry by entry is the reversal |
| Songs.ReverseAppend | audio/song_parser.py:17-21 | reversing a concatenation reverses and swaps the parts |
| Songs.ReverseReverse | audio/song_parser.py:17-21 | reversing twice gives the original |
| Songs.ReverseEachReverse | audio/song_parser.py:17-21 | reversing the list and reversing each bar commute, and reversing each bar twice restores it |
| Songs.PitchNamesDistinct | audio/song_parser.py:24-28 | the 49 pitch names G7 ... A1 are distinct |
| Songs.NoteYPosTable | audio/song_parser.py:24-28 | the `i`-th pitch name has height `20 * i + 60` |
| Songs.NoteYPosKeys | audio/song_parser.py:24-28 | only pitch names have heights, and no two share one |
| Songs.StemThresholdIsB5 | audio/song_parser.py:75 | `note_y_pos['B5']` is 440 |
| Songs.DurationPrefix | audio/song_parser.py:36-42 | an image prefix exists exactly for the lengths 0.25, 0.5, 1, 2 and 4 |
| Songs.ParseWhole | audio/song_parser.py:58 | `float` reads a digit string as its number |
| Songs.ParsePointed | audio/song_parser.py:58 | `float` reads digits, a point and digits as the decimal they spell |
| Songs.Accidental | audio/song_parser.py:30-34 | the accidental lookup succeeds exactly for `#`, `b` and `n`, and otherwise raises KeyError |
| Songs.ParseStages | audio/song_parser.py:56-94 | a parsed note is built from its length, the length's prefix, the pitch height, the accidental and the image, in that order |
| Songs.ParseFields | audio/song_parser.py:56-71 | a parsed note has pos 1280, played 5, long_duration_bool 0, the first three characters as name, and one of the five lengths read from `note[3:-1]` |
| Songs.NoteImagePlacement | audio/song_parser.py:73-89 | a natural note above B5 is flipped with offset 18, otherwise offset 118, and drawn at height minus offset; a rest sits at 350 with offset 0; anything else has no image |
| Songs.ParsePlacement | audio/song_parser.py:68-92 | a parsed note has the image its final letter calls for, and a tilt image exactly for `#` or `b`, 115 above its height |
| Songs.ParseWithLengthErrors | audio/song_parser.py:69-71 | an unknown length, pitch or accidental is a KeyError, and past `float` only KeyErrors are raised |
| Songs.NoteImageErrors | audio/song_parser.py:73-89 | the image step fails exactly when the image it needs is missing, with KeyError |
| Songs.ParseErrors | audio/song_parser.py:58-71 | `_parse` raises ValueError exactly when `note[3:-1]` is not a number |
| Songs.PopNote | audio/song_parser.py:113 | popping the current bar yields the next note in file order, and the rest follow |
| Songs.PopBar | audio/song_parser.py:105-108 | taking the next bar off the stack leaves the notes to come unchanged |
| Songs.InitialBars | audio/song_parser.py:17-44 | after construction the current bar and the stack hold every bar after the metadata, in file order |
| Songs.SongParser.constructor | audio/song_parser.py:13-34 | the parser keeps the images and the two accidental images |
| Songs.SongParser.Create | audio/song_parser.py:13-44 | the caller's list is reversed with every bar but the metadata reversed too; KeyError without sharp or flat images, IndexError with fewer than two segments; otherwise the notes to come are the file's notes after the metadata, in order |
| Songs.SongParser.NextNote | audio/song_parser.py:96-113 | each call returns the next note in file order, parsed, with `end_of_bar` true exactly for a bar's last note; IndexError on an empty bar; `None` when everything is played, and the parser stays exhausted |
| Songs.SongParser.PopAndParse | audio/song_parser.py:104-113 | pops and parses the next note of a non-empty bar, recording whether it was the bar's last |
| Songs.ReverseSong | audio/song_parser.py:17 | `song.reverse()` reverses the caller's list in place |
| Songs.ReverseBars | audio/song_parser.py:18-21 | each bar before the metadata is reversed in place and the rest of the list is untouched |
| Songs.InitialLayout | audio/song_parser.py:17-21 | the two reversal steps leave the bars after the metadata reversed, in reverse order, then the metadata |

## Left out

- The FFT (`np.fft.rfft`), the Hamming window, the magnitude and power scaling and the sine/logarithm octave distance are floating-point numerics over NumPy. They are the parameters `analyse` and `distance`, constrained only to non-negative results.
- Floating point in general: reals are exact here. `np.round`, the thumb-width division and the scroll arithmetic are computed without rounding error.
- ScrollBars.ScrollBar.UpdateScrollBarPosition: with exact reals, the revert restores the scroll position exactly. Python's floats may differ from the old value in the last bit.
- `AudioManager.__init__`, `stream` and `_write_stream_to_file` are device and file I/O. The buffer and rate they store are parameters of `GetDominantFrequencies`, and only mono (one-dimensional) buffers are modelled.
- Calibration's rendering and clock pacing are UI only. Of the on-screen reading (screen/calibrate.py:78-83) only the two exceptions it can raise are modelled; the text it draws is not, and formatting the rounded average is taken to succeed. A QUIT event during calibration ends the program through `SystemExit` and is not modelled.
- App.Application.SetScreen: the call to `run_event_loop` or `setup` that follows the assignment is not modelled. Only the guard and the assignment are.
- App.Application.constructor: image loading, pygame initialisation and the screen objects are not modelled.
- `Application.load_files`, `run_event_loop`, `_handle_event` and `quit` are event plumbing.
  - `_handle_event` passes only non-empty `event.unicode` keys to `key_press`.
  - So the empty key, which `key in allowed_characters` would accept, never reaches the text input.
- Songs.ParseFloat: only an optional sign, digits and at most one point are read. Python's `float` also accepts surrounding whitespace, exponents, underscores, `inf` and `nan`, which are a ValueError here.
- Songs.SongParser.Create: the constructor's bars are the lists the caller's list holds. Later `pop` calls on the current bar therefore also shorten the caller's copy. The model copies the bars into the parser, so this aliasing after construction is not captured.
- `next_note`'s `end_of_bar` is also written by screen/performance.py, which is not part of this model.
- Songs.ParsePlacement: `if tilt:` is taken to be true for every image surface.
- ScrollBars.ThumbWidth: `pygame.Rect` is taken to truncate a fractional width toward zero. `pygame.draw.rect` is taken to return the rectangle passed in, unclipped by the screen.
- Cursor shapes and the rendering of the text input and the scroll bar are display only.
- screen/performance.py, user/user.py, the other screens and the buttons and song tabs (rendering, threads, JSON files) are not part of this model.
