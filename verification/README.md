# songLooper tempo and bar-grid engine

songLooper lets a musician upload a track, tap its tempo, tap the first beat of a bar, and then practise against a grid of bars. Any stretch of bars can be looped. This project models the timing arithmetic behind that workflow and proves properties of it:

- **Tap tempo** (`TapTempo`). Each press of the space bar extends the tap history. The gaps between consecutive taps are kept only when strictly between 200 and 2000 ms. The shown tempo is `round(60000 / mean kept gap)`. Once 20 gaps are kept and none deviates 50 ms or more from their mean, that tempo is committed to the song.
- **Downbeat capture and bar grid** (`BarGrid`, `Meter`).
  - Up to ten downbeat presses are collected.
  - The bar length is `beatsPerBar * 60000 / bpm` ms. `beatsPerBar` is the numerator of the "N/M" signature, read the way `parseInt` reads it.
  - The grid starts at the mean of the downbeats and steps forward until the end of the audio. One bar is prepended when the anchor lies more than half a bar in.
  - Finishing the step is refused without a tempo or with fewer than ten downbeats.
- **Player** (`Player`).
  - **Cursor**: the bar holding the playback position, with 0 as the fallback. The last bar is open-ended.
  - **Subdivision**: the beat-sized slice of the bar that holds the position. For this width, the last bar is taken to be 4000 ms long.
  - **Loop selection**: the bar-click state machine, the loop and clear buttons, and the highlighted range.
  - **Rewind**: the jump back to the loop's first bar once the position reaches the end of its last bar. If the loop's last bar is the grid's last bar, it ends 4000 ms after its start.
  - **Metronome**: the accent on every `beatsPerBar`-th click.
- **Bar read-out** (`BarDisplay`). A separate component finds the bar with its own search. That search reads `bars[i + 1] || Infinity`, so a next bar at exactly 0 ms counts as open-ended. It shows index -1 when no bar holds the position and counts beats from 1.
- **Project list** (`Projects`). Saving removes every stored project with the same id and appends the new one.

Times are exact `real` milliseconds. `Math.round` is `Stats.Round` (halves round up) and `Math.floor` is `.Floor`. The song record is `Songs.Song`, and an absent tempo is `None`.

The grid anchor is the plain mean of the downbeat presses and is not checked against the tempo. At most one bar is prepended; the grid is not tiled back to time 0.

## Model

| member | source | states |
|---|---|---|
| TapTempo.Intervals | src/components/dawWizard/Step2Tempo.jsx:33-35 | one gap fewer than taps (none for an empty history); gap k is tap k+1 minus tap k |
| TapTempo.Kept | src/components/dawWizard/Step2Tempo.jsx:36 | every kept gap lies strictly inside (200, 2000), and the result is never longer than the input |
| TapTempo.KeptMembers | src/components/dawWizard/Step2Tempo.jsx:36 | a gap is kept exactly when it occurs in the input and lies strictly inside (200, 2000) |
| TapTempo.MaxDeviation | src/components/dawWizard/Step2Tempo.jsx:113-114 | the result bounds every element's distance from the centre and is attained by some element |
| TapTempo.IsStable | src/components/dawWizard/Step2Tempo.jsx:111-116 | the empty list is stable (`Math.max()` is minus infinity); a stable list has every gap strictly within 50 ms of its mean |
| TapTempo.StableIffAllNearMean | src/components/dawWizard/Step2Tempo.jsx:111-116 | the max-deviation test is equivalent to "every gap is within 50 ms of the mean" (vacuously true for no gaps) |
| TapTempo.TempoOf | src/components/dawWizard/Step2Tempo.jsx:40-41 | for plausible gaps the mean lies in (200, 2000), the tempo lies in [30, 300], and it is the nearest integer to 60000 / mean |
| TapTempo.OnTap | src/components/dawWizard/Step2Tempo.jsx:29-52 | the tap is always appended. Fewer than two taps, or no kept gap, leave the tempo unchanged and commit nothing. Otherwise the shown tempo is that of the kept gaps. A commit happens exactly when at least 20 gaps are kept and all are near their mean, and it commits the shown tempo |
| TapTempo.IntervalsSum | src/components/dawWizard/Step2Tempo.jsx:33-35 | the gaps of a history add up to the time from its first tap to its last |
| TapTempo.IntervalsAppend | src/components/dawWizard/Step2Tempo.jsx:30-35 | a new tap adds exactly one gap, the distance to the previous tap, and leaves the earlier gaps alone |
| TapTempo.KeptConcat | src/components/dawWizard/Step2Tempo.jsx:36 | the band filter distributes over concatenation, keeping order |
| TapTempo.OutlierIgnored | src/components/dawWizard/Step2Tempo.jsx:36 | a gap outside the band (a double trigger or a long pause) leaves the kept gaps unchanged |
| TapTempo.KeptAllPlausible | src/components/dawWizard/Step2Tempo.jsx:36 | a list of plausible gaps passes the filter unchanged |
| TapTempo.CommitNeedsTwentyOneTaps | src/components/dawWizard/Step2Tempo.jsx:45 | a tap that commits a tempo is at least the 21st |
| TapTempo.SteadyTappingCommits | src/components/dawWizard/Step2Tempo.jsx:40-49 | 21 or more taps evenly spaced by a plausible period commit `round(60000 / period)` |
| TapTempo.HalfSecondTapsGive120 | src/components/dawWizard/Step2Tempo.jsx:40-49 | taps 500 ms apart commit 120 BPM once 20 gaps are in |
| Stats.Average | src/components/dawWizard/Step3TimeSignature.jsx:81-84 | the empty list averages to 0; otherwise the mean times the length is the sum |
| Stats.Round | src/components/dawWizard/Step2Tempo.jsx:41 | the result is within half a unit of x, with halves rounding up |
| Stats.Slices | src/pages/DAW.jsx:113 | `Math.floor(x / w)` for a positive width: x lies in slice s, i.e. between s and s + 1 widths |
| Stats.SlicesAtLeast | src/pages/DAW.jsx:113 | a span of at least k widths has at least k whole slices |
| Stats.SlicesUnique | src/pages/DAW.jsx:113 | the slice holding x is unique |
| Stats.AverageWithin | src/components/dawWizard/Step3TimeSignature.jsx:81-84 | the mean of a non-empty list lies inside any closed band that holds all its elements |
| Stats.AverageStrictlyWithin | src/components/dawWizard/Step2Tempo.jsx:40 | the mean of a non-empty list lies inside any open band that holds all its elements |
| Stats.AverageConstant | src/components/dawWizard/Step3TimeSignature.jsx:81-84 | a list of equal values averages to that value |
| Meter.BeforeSlash | src/components/dawWizard/Step3TimeSignature.jsx:61 | the result is the longest slash-free prefix: it contains no slash and is followed by a slash or the end |
| Meter.LeadingDigits | src/components/dawWizard/Step3TimeSignature.jsx:61 | the result is the longest all-digit prefix |
| Meter.ParseLeadingInt | src/components/dawWizard/Step3TimeSignature.jsx:61 | there is no number (NaN) exactly when the string is empty or does not start with a digit |
| Meter.BeatsPerBar | src/components/dawWizard/Step3TimeSignature.jsx:61 | the numerator is NaN exactly when the signature is empty or does not start with a digit |
| Meter.NumeratorRoundTrip | src/components/dawWizard/Step3TimeSignature.jsx:61 | a digit numerator written before a slash reads back as its value, whatever follows |
| Meter.OfferedSignatures | src/components/dawWizard/Step3TimeSignature.jsx:4 | the offered signatures read as 4, 3, 6 and 2 beats per bar, all positive |
| BarGrid.StartCapture | src/components/dawWizard/Step3TimeSignature.jsx:139-141 | a new pass starts listening with no downbeats |
| BarGrid.OnDownbeatTap | src/components/dawWizard/Step3TimeSignature.jsx:43-50 | a full list (10) is returned unchanged. Otherwise the time is appended, and listening continues exactly while fewer than 10 are held |
| BarGrid.CaptureKeepsFirstTen | src/components/dawWizard/Step3TimeSignature.jsx:43-50 | any run of presses after a start keeps exactly its first ten, and listening ends exactly at the tenth |
| BarGrid.CaptureFrom | src/components/dawWizard/Step3TimeSignature.jsx:43-50 | from any listening state the held downbeats followed by the new presses are truncated to ten |
| BarGrid.CaptureIdle | src/components/dawWizard/Step3TimeSignature.jsx:36-37 | once listening has stopped, presses change nothing |
| BarGrid.CaptureInvPreserved | src/components/dawWizard/Step3TimeSignature.jsx:43-50 | starting, stopping and tapping keep "listening implies fewer than ten downbeats" |
| BarGrid.BarDuration | src/components/dawWizard/Step3TimeSignature.jsx:62-63 | the bar length is positive, and it times the tempo equals 60000 times the beats per bar |
| BarGrid.GridStep | src/components/dawWizard/Step3TimeSignature.jsx:61-63 | the bar length read from a well-formed signature is positive |
| BarGrid.ForwardTiles | src/components/dawWizard/Step3TimeSignature.jsx:66-72 | the result is non-empty exactly when the anchor is before the limit. It starts at the anchor, is evenly spaced by one bar and stays below the limit, and one more bar would reach the limit |
| BarGrid.SpacedClosedForm | src/components/dawWizard/Step3TimeSignature.jsx:69-72 | entry k of an evenly spaced grid is k bar lengths after the first |
| BarGrid.CalcBars | src/components/dawWizard/Step3TimeSignature.jsx:58-79 | no downbeats give no bars. The grid is evenly spaced, lies before the end of the audio, is non-empty exactly when the mean downbeat is before the end, and reaches the end. It starts at the mean when the mean is at most half a bar in; otherwise it starts one bar before the mean |
| BarGrid.SpacedIncreasing | src/components/dawWizard/Step3TimeSignature.jsx:69-72 | a grid spaced by a positive step is strictly increasing |
| BarGrid.CalcBarsIncreasing | src/components/dawWizard/Step3TimeSignature.jsx:58-79 | the bar grid is strictly increasing |
| BarGrid.FirstBarPlacement | src/components/dawWizard/Step3TimeSignature.jsx:74-76 | for non-negative downbeats the first bar starts after minus half a bar. It starts within half a bar of 0 when the mean is at most 1.5 bars in, and beyond half a bar otherwise |
| BarGrid.OneSecondAnchorExample | src/components/dawWizard/Step3TimeSignature.jsx:58-79 | ten downbeats at 1 s, 120 BPM in 4/4 over 5 s of audio give bars at 1000 and 3000 ms |
| BarGrid.OnFinish | src/components/dawWizard/Step3TimeSignature.jsx:86-110 | a missing or zero tempo is rejected first, then fewer than ten downbeats. Saving happens exactly when both guards pass, and it stores the selected signature, the downbeats, the computed grid and the duration, keeping the id, name and tempo |
| Player.InBar | src/pages/DAW.jsx:91-92 | a held position is at or after the bar's start; the last bar is open-ended and holds every position from its start on |
| Player.FindBarFrom | src/pages/DAW.jsx:90-93 | -1 exactly when no bar from the start position holds t; otherwise the first bar that does |
| Player.BarIndex | src/pages/DAW.jsx:90-95 | a valid index; the first bar holding t when one exists, else 0 |
| Player.InBarUnique | src/pages/DAW.jsx:90-93 | on an increasing grid at most one bar holds a position |
| Player.InBarExcludesLater | src/pages/DAW.jsx:90-93 | a position held by one bar is not held by any later bar |
| Player.SomeBarHolds | src/pages/DAW.jsx:90-93 | on an increasing grid a position at or after some bar's start is held by that bar or a later one |
| Player.BarIndexOnGrid | src/pages/DAW.jsx:90-95 | from the first bar on, the cursor's bar is the unique bar holding t; before it, bar 0 |
| Player.BarEnd | src/pages/DAW.jsx:108-109 | a bar ends at the next bar's start, the last one 4000 ms after its own start, and always after it starts on an increasing grid |
| Player.SliceWidth | src/pages/DAW.jsx:108-111 | the slice width is positive and beatsPerBar slices fill the bar |
| Player.Subdivision | src/pages/DAW.jsx:113 | the index is the floor of the offset in slices: the position lies in slice s |
| Player.SubdivisionInRange | src/pages/DAW.jsx:108-113 | inside its bar a position is in slice 0 to beatsPerBar - 1, and a bar's start is in slice 0 |
| Player.LastSliceBeforeNextBar | src/pages/DAW.jsx:108-113 | the last slice-wide stretch of a bar is subdivision beatsPerBar - 1 |
| Player.BarClick | src/pages/DAW.jsx:66-81 | the first click sets both ends. A later click at or after the start closes the range; an earlier click, or any click after the range is closed, restarts with only a start. The loop switch is untouched |
| Player.ToggleLoop | src/pages/DAW.jsx:218 | the switch flips only while both ends are set, and the ends never change |
| Player.ClearLoop | src/pages/DAW.jsx:221 | both ends are cleared and looping is off, so no bar is highlighted |
| Player.Highlighted | src/pages/DAW.jsx:239 | only a range with both ends set and ordered highlights a bar; a one-bar range highlights exactly that bar |
| Player.LoopInvariant | src/pages/DAW.jsx:66-81 | clicks, toggles and clearing keep the start at or before the end and both inside the grid |
| Player.ClickHighlights | src/pages/DAW.jsx:239 | after a first click only that bar is highlighted, after a closing click the bars from start to end are, and after a restart none is |
| Player.UpdateCursor | src/pages/DAW.jsx:86-113 | the bar is valid. A seek happens exactly when the loop is on, both ends are set and t has reached the end of the last looped bar. A seek goes to the loop's first bar and shows it; otherwise the shown bar is the bar lookup's. The subdivision is that of the shown bar |
| Player.Rewinds | src/pages/DAW.jsx:97-99 | a rewind needs looping on and both ends set. The position must have reached the start of the bar after the loop, or 4000 ms past the loop's last bar when that is the grid's last bar |
| Player.RewindFrameSubdivision | src/pages/DAW.jsx:97-113 | on a rewind frame the subdivision is measured from the loop start and is at least beatsPerBar, outside the drawn range |
| Player.LoopExample | src/pages/DAW.jsx:97-104 | with bars 1 to 2 looped on a 1 s grid, 2999 ms plays on in bar 2 and 3000 ms seeks to 1000 ms, bar 1 |
| Player.OnBarStart | src/pages/DAW.jsx:90-113 | a position on a bar start, without a rewind, shows that bar at subdivision 0 |
| Player.IsDownbeat | src/pages/DAW.jsx:146 | within the first bar only click 0 is accented |
| Player.DownbeatsAreBarStarts | src/pages/DAW.jsx:146 | a click is accented exactly when its count is a whole number of bars |
| BarDisplay.InBarLoose | src/components/BarDisplay.jsx:14-15 | a held position is at or after the bar's start; when the next bar starts at exactly 0 the bar counts as open-ended |
| BarDisplay.FindBarLoose | src/components/BarDisplay.jsx:13-16 | -1 exactly when no bar holds t under the `||` rule; otherwise the first bar that does |
| BarDisplay.TimingOf | src/components/BarDisplay.jsx:8-10 | a beat times the tempo is 60000 ms, and the bar length agrees with the grid's bar length |
| BarDisplay.Display | src/components/BarDisplay.jsx:5-19 | nothing is shown exactly for an empty grid. Otherwise the bar is -1 or the first bar holding t, and the beat is the 1-based count of whole beats since that bar's start (since 0 for -1) |
| BarDisplay.CountFrom | src/components/BarDisplay.jsx:18 | beats are counted from the located bar's start, or from time 0 when no bar was found (index -1) |
| BarDisplay.BeatOneAtBarStart | src/components/BarDisplay.jsx:18-19 | at the start of the bar it shows, the read-out shows beat 1 |
| BarDisplay.LooseSearchAgrees | src/components/BarDisplay.jsx:13-16 | when no bar after the first starts at 0, the `||` search finds the same bar as the player's `??` search |
| BarDisplay.DisplayMatchesPlayer | src/components/BarDisplay.jsx:13-18 | on such grids the read-out's bar equals the cursor's bar, except that -1 reads as 0 in the player |
| BarDisplay.GridHasNoLaterZero | src/components/dawWizard/Step3TimeSignature.jsx:58-79 | grids computed from non-negative downbeats start every bar after the first past 0, so both searches agree on them |
| BarDisplay.ZeroStartQuirk | src/components/BarDisplay.jsx:14 | on the grid -2000, 0, 2000 ms the position 500 ms reads as bar 0, beat 6, while the player shows bar 1 |
| BarDisplay.BeforeFirstBar | src/components/BarDisplay.jsx:13-18 | before the first bar of an increasing grid the read-out shows bar -1 |
| Projects.WithoutId | src/components/dawWizard/Step4Summary.jsx:12 | the result is as long as the input minus the entries carrying the id, and holds exactly the stored projects whose id differs. With FilterKeepsOrder this makes it the in-order filter |
| Projects.Save | src/components/dawWizard/Step4Summary.jsx:12-13 | the saved song is last and is the only entry with its id. The other entries are the stored ones with different ids, and filtering the id out gives back the filtered original |
| Projects.NoneLeft | src/components/dawWizard/Step4Summary.jsx:12 | after the filter no entry carries the id |
| Projects.FilterIdempotent | src/components/dawWizard/Step4Summary.jsx:12 | filtering twice by an id is filtering once |
| Projects.SaveIdempotent | src/components/dawWizard/Step4Summary.jsx:12-13 | saving the same song twice equals saving it once |
| Projects.FilterKeepsOrder | src/components/dawWizard/Step4Summary.jsx:12 | the kept entries are a subsequence of the stored list |
| Projects.SaveKeepsOrder | src/components/dawWizard/Step4Summary.jsx:12-13 | the entries ahead of the saved song are a subsequence of the stored list |
| Projects.FilterKeepsUnique | src/components/dawWizard/Step4Summary.jsx:12 | filtering keeps ids unique |
| Projects.SaveKeepsUnique | src/components/dawWizard/Step4Summary.jsx:11-13 | saving into a list with unique ids gives a list with unique ids |

## Left out

- **Outside services**: Supabase loading and saving, the browser's `localStorage` and JSON encoding, audio playback (`Audio`, Tone.js synths and transport), the upload step, keyboard and animation-frame event plumbing, timers and all React rendering. Times enter the model as parameters.
- **IEEE-754 doubles**: arithmetic is exact on `real`. NaN and Infinity paths are not modelled: an unparsable numerator, a zero tempo, an empty bar list in the player, or division by a zero-width bar.
- **`Number()` in the player**: the player reads the numerator with `Number(...)`, not `parseInt`. It is taken there as a positive `beatsPerBar` parameter.
- **`parseInt` details**: `parseInt` is modelled only for unsigned decimal numerals. Leading whitespace, signs and the radix-less `0x` prefix read by the read-out component are not modelled.
- **Loop state seen by the cursor**: the animation-frame chain begins in `play()` (src/pages/DAW.jsx:169) and re-arms itself (src/pages/DAW.jsx:122). It always calls the `updateCursor` closure from the render in which play was pressed. So the `loopActive`, `loopStart` and `loopEnd` read at src/pages/DAW.jsx:97 are those captured at play time. A loop selected or switched on during playback does not rewind until playback is paused and restarted. `Player.UpdateCursor` models one frame and takes the loop state as a parameter; which snapshot the source passes is not modelled.
- **`beatInBar` display text**: the read-out's strings ("Bar: idx+1", seconds with two decimals) are not modelled; only the index and the beat are.
- TapTempo.TempoOf: requires at least one gap, all plausible. The source calls it only after the empty case has returned, on filtered gaps.
- BarGrid.OnDownbeatTap: requires listening, because the key handler is installed only while listening.
- BarGrid.CalcBars: requires a positive tempo and a well-formed signature. The finish step guarantees the tempo, and the signature comes from the four offered ones. Other inputs give NaN or Infinity bar lengths in the source.
- BarGrid.OnFinish: requires the selected signature to be one of the four offered, which is the only way the selection is set.
- Player.UpdateCursor: requires a non-empty, strictly increasing grid, a positive beat count and loop ends inside the grid. Grids only come from the grid computation, which is strictly increasing, and clicks only name drawn bars. Other inputs give negative, infinite or NaN subdivisions.
- BarDisplay.Display: requires a positive tempo, which a saved song always has. With tempo 0 the source divides by Infinity.
