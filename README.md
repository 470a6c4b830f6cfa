# Red Light Green Light — verified model of the scoring and statistics core

The app records "drives". During a drive the player taps red, yellow and green
light buttons. Each light is appended to the drive's light list, and three
counters are kept: `redScore`, `greenScore` and `yellowCount`. A red light adds
a red point. A yellow light adds two green points and one yellow. A green light
adds one green point. A finished drive goes to the front of the past-drives
list, which is ordered most recent first. The statistics screen reduces that
list to totals, a win rate, four extremum drives, averages and win/loss streaks.
A share text summarises one drive, and a theme provider keeps a light, dark or
system colour mode.

The model is split into modules that follow the source files:

- `Types` (`types.dfy`): the records of `src/types/index.ts` as datatypes. The
  optional fields become `Option`. `winRate` is an exact `real`.
- `Scoring` (`scoring.dfy`): the per-light rule, its left fold over a light list,
  and the from-scratch recount loop.
- `Stats` (`stats.dfy`): `calculateStats`. It is a functional specification
  (`StatsOf`) plus an imperative `CalculateStats` that runs the same streak scan
  as the source and is proved equal to `StatsOf`.
- `DriveContext` (`drive_context.dfy`): the drive provider as a class. It holds
  `currentDrive: Option<Drive>`, `pastDrives: seq<Drive>`, and ghost copies of
  the two persisted slots.
- `Sharing` (`sharing.dfy`): `formatDuration`, the default name, the winner line,
  the colour counts, the emoji line and the assembled share text.
- `Theme` (`theme.dfy`): the theme provider as a class, with the `isDark`
  derivation, toggling, setting and loading.

Clock readings, generated ids, the outcome of each storage write and the values
returned by storage reads are method parameters. A failed write changes only
what the source changes in that case. For `endDrive`, the past-drives list is
already updated when a write fails, but the current drive stays.

Two points of the source text that the model keeps as written:

- The counters are kept two ways. `addLight` patches them incrementally
  (src/contexts/DriveContext.tsx:78-93). `deleteLight` and `reorderLights`
  recount them from zero (120-137 and 159-176). `FoldSnoc` and `AddedLight`
  prove that the patch gives the same counters as a recount.
- The past-drives list is most recent first, because `endDrive` prepends
  (src/contexts/DriveContext.tsx:206). The statistics screen labels
  `currentStreak` "Current Win/Loss Streak" (src/screens/StatsScreen.tsx:127-134).
  Yet the scan reports the run at the oldest drive; see Findings.

## Model

| member | source | states |
|---|---|---|
| `Scoring.Step` | src/contexts/DriveContext.tsx:82-93 | The rule for one light. No counter decreases, and red + green − yellow grows by exactly one. A red point is scored exactly for a red light, and a yellow is tallied exactly for a yellow light. |
| `Scoring.Fold` | src/contexts/DriveContext.tsx:124-137 | The rule applied to every light in order, starting from zero. The counters are non-negative and green is at least twice the yellow count. red + green − yellow equals the number of lights. |
| `Scoring.FoldSnoc` | src/contexts/DriveContext.tsx:78-101 | The fold over the lights plus one more equals the scoring rule applied once to the old counters. This is why the incremental patch in `addLight` agrees with a recount. |
| `Scoring.FoldByCounts` | src/contexts/DriveContext.tsx:120-137 | The recount over a list is (number of reds, greens + 2·yellows, number of yellows). Each yellow is worth two green points and one yellow. |
| `Scoring.CountsSumToLength` | src/types/index.ts:1 | Every light has exactly one of the three colours, so the red, yellow and green counts add up to the list length. |
| `Scoring.CountPermutation` | src/contexts/DriveContext.tsx:158-176 | Two lists holding the same lights (the same multiset) have the same count of each colour. |
| `Scoring.FoldPermutation` | src/contexts/DriveContext.tsx:158-184 | Reordering lights never changes the recomputed counters. |
| `Scoring.Recount` | src/contexts/DriveContext.tsx:120-137 | The `forEach` loop that zeroes the counters and applies the rule to each light in order returns exactly the fold of the list. |
| `Stats.Total` | src/contexts/DriveContext.tsx:261-264 | Sum of a per-drive quantity over the drives. The sum of light-list lengths is never negative. |
| `Stats.Wins` | src/contexts/DriveContext.tsx:266 | The number of drives with green > red is at most the number of drives. It equals the number of drives iff every drive is a win, and is 0 iff none is. |
| `Stats.WinRate` | src/contexts/DriveContext.tsx:267 | The win percentage lies in [0, 100]. It is 100 exactly when the list is non-empty and every drive is a win. |
| `Stats.Best` | src/contexts/DriveContext.tsx:269-283 | The strict-`>` reduction seeded with drive 0 lands on an index inside the list. |
| `Stats.BestIsFirstMaximum` | src/contexts/DriveContext.tsx:269-283 | That index has the largest key in the list. Every earlier drive has a strictly smaller key, so ties go to the earliest drive. |
| `Stats.FloorAverage` | src/contexts/DriveContext.tsx:285-287 | `Math.floor(total / n)` for a positive count n is the q with q·n ≤ total < (q+1)·n. It is never negative for a non-negative total. Durations may be negative. |
| `Stats.RunAtIsMaximal` | src/contexts/DriveContext.tsx:296-315 | The run the scan counts at index i is uniformly classified (win iff green > red). It cannot be extended towards the front. |
| `Stats.RunFromIsMaximal` | src/contexts/DriveContext.tsx:296-315 | The run starting at index i is uniformly classified and cannot be extended towards the back. |
| `Stats.LongestRunIsMaximum` | src/contexts/DriveContext.tsx:305-310 | The best streak of a class is 0 iff no drive has that class. Otherwise some run of that class attains it, and every run of that class is at most that long. |
| `Stats.RunAtCoversBlock` | src/contexts/DriveContext.tsx:303-304 | A uniformly classified block that ends at i is no longer than the run the scan has counted at i. |
| `Stats.LongestRunBoundsBlocks` | src/contexts/DriveContext.tsx:305-324 | No block of wins (losses) is longer than the longest win (loss) run. |
| `Stats.StatsOf` | src/contexts/DriveContext.tsx:242-346 | The aggregate: `totalDrives` is the list length, and the extremum drives are present iff the list is non-empty. Both averages are floors: avg·n ≤ total < (avg+1)·n. |
| `Stats.StatsOfEmpty` | src/contexts/DriveContext.tsx:243-259 | An empty history gives all counts, scores and rates 0 and a current streak of `{win, 0}`. No extremum drive is set. |
| `Stats.StatsExtrema` | src/contexts/DriveContext.tsx:269-283 | Each of bestGreenDrive, worstRedDrive, longestDrive (missing duration = 0) and mostLightsDrive is a drive of the list. It maximises its key and is the earliest drive that does. |
| `Stats.StatsBestStreaks` | src/contexts/DriveContext.tsx:289-325 | `bestWinStreak` and `bestLossStreak` bound every block of wins and of losses. |
| `Stats.StatsCurrentStreak` | src/contexts/DriveContext.tsx:317-325 | The reported current streak counts at least one drive, is a maximal run ending at the last (oldest) drive, and is at most the best streak of its kind. |
| `Stats.TotalsOfConsistentDrives` | src/contexts/DriveContext.tsx:261-264 | Over drives whose counters follow the scoring rule: totalLights = totalReds + totalGreens − totalYellows. |
| `Stats.CorrectedCurrentStreak` | src/contexts/DriveContext.tsx:317-325 | With the corrected current streak: it is `{win, 0}` for no drives. Otherwise it is a maximal run of ≥ 1 drive starting at the most recent drive, and at most the best streak of its kind. |
| `Stats.CurrentStreakIsOldestRun` | src/contexts/DriveContext.tsx:296-325 | For [loss, loss, win] the scan as written reports `{win, 1}` while the leading run is `{loss, 2}`. Best loss streak 2, best win streak 1. |
| `Stats.AlternatingStreakExample` | src/contexts/DriveContext.tsx:296-325 | For [win, loss, win]: current streak `{win, 1}`, and both best streaks are 1. |
| `Stats.TieCountsAsLoss` | src/contexts/DriveContext.tsx:266-300 | A tied drive is not a win for the win count and rate, but is a loss for the streaks. |
| `Stats.FloorAverageExample` | src/contexts/DriveContext.tsx:285-286 | Durations 10, 10 and 11 average to 10 (floor of 31/3). |
| `Stats.ScanStreaks` | src/contexts/DriveContext.tsx:289-325 | The forEach scan with its `currentStreakType`/`tempStreak` state and the final close-out. It returns the run ending at the last drive, and the longest win run and longest loss run. |
| `Stats.CalculateStats` | src/contexts/DriveContext.tsx:242-346 | The aggregator: sums, reductions, averages and the streak scan. It returns exactly `StatsOf(drives)`. |
| `Sharing.NatToStringRoundTrip` | src/utils/sharing.ts:43-47 | The decimal rendering of a number is non-empty, all digits, and reads back as the number. |
| `Sharing.FormatDuration` | src/utils/sharing.ts:43-47 | The text is at least four characters. For a non-negative duration it ends with a colon and then exactly two digits of seconds. |
| `Sharing.TwoDigits` | src/utils/sharing.ts:44-46 | Seconds under 60 `padStart(2, '0')` to exactly their tens and units digits. |
| `Sharing.FormatDurationParts` | src/utils/sharing.ts:43-47 | For s ≥ 0 the text is digits, ':' and exactly two digits. Minutes read back as s div 60 and seconds as a value under 60, and minutes·60 + seconds = s. |
| `Sharing.FormatNegativeDuration` | src/utils/sharing.ts:43-47 | Negative inputs follow JavaScript's flooring `Math.floor` and truncating `%`: −5 gives "-1:-5". |
| `Sharing.DriveName` | src/utils/sharing.ts:7 | The name is used when present and non-empty. Otherwise the result is "My Drive". It is never empty. |
| `Sharing.WinnerLine` | src/utils/sharing.ts:15-19 | The line starts with the green prefix when green scored more and with the red prefix when red scored more. It is "Tie!" exactly when the scores are equal. |
| `Sharing.VerdictOf` | src/utils/sharing.ts:15-19 | Green wins exactly for the drives the statistics count as wins. A tie is exactly equal scores. The margin is the positive score difference. |
| `Sharing.WinnerLineRoundTrip` | src/utils/sharing.ts:15-19 | Reading the winner line back recovers who won and by how many points, or "Tie!" for equal scores. |
| `Sharing.LightEmoji` | src/constants/colors.ts:34-38 | Each colour's emoji decodes back to that colour, so distinct colours get distinct emoji. None of them is the traffic-light emoji of the header. |
| `Sharing.EmojiSequence` | src/utils/sharing.ts:22-24 | Exactly one emoji per light, in recorded order. |
| `Sharing.EmojiSequenceDecodes` | src/utils/sharing.ts:22-24 | The emoji line decodes back to the colours of the lights, in order. |
| `Sharing.ColorCounts` | src/utils/sharing.ts:10-12 | The red, yellow and green counts add up to the number of lights. |
| `Sharing.ColorCountsMatchScores` | src/utils/sharing.ts:10-12 | For a drive whose counters follow the scoring rule: reds = redScore, yellows = yellowCount, greens = greenScore − 2·yellowCount. |
| `Sharing.ShareText` | src/utils/sharing.ts:26-30 | The text starts with the traffic-light emoji. `EndsWithVerdictAndEmoji` says it ends with the winner line, a newline and then exactly the emoji line. Its last characters decode to the drive's light colours in order. With `WinnerLineRoundTrip`, the text names the winner and the margin. |
| `Theme.ParseMode` | src/contexts/ThemeContext.tsx:47-49 | A loaded value is accepted only when it is exactly the stored name of the mode it yields. |
| `Theme.ParseModeName` | src/contexts/ThemeContext.tsx:47-48 | Each of "light", "dark" and "system" is accepted as its own mode. |
| `Theme.IsDark` | src/contexts/ThemeContext.tsx:35-42 | Dark mode is dark and light mode is light, whatever the system reports. System mode is dark exactly when the system scheme is dark. An unknown scheme counts as light. |
| `Theme.Toggled` | src/contexts/ThemeContext.tsx:64-72 | The mode a toggle selects is never system, and its dark flag is the opposite of the current one. |
| `Theme.ToggleTwice` | src/contexts/ThemeContext.tsx:64-72 | Two toggles restore the dark flag, and from a manual mode they restore the mode. |
| `Theme.ThemeProvider.constructor` | src/contexts/ThemeContext.tsx:27-29 | The initial mode is system, and the app is dark exactly when the system scheme is dark. |
| `Theme.ThemeProvider.SystemSchemeChanged` | src/contexts/ThemeContext.tsx:35-42 | A new system scheme re-derives isDark: the system scheme in system mode, otherwise the mode itself. |
| `Theme.ThemeProvider.LoadTheme` | src/contexts/ThemeContext.tsx:44-53 | A stored valid name replaces the mode. A missing or invalid value, or a failed read, leaves it unchanged. |
| `Theme.ThemeProvider.SetThemeMode` | src/contexts/ThemeContext.tsx:55-62 | The mode is set before persisting. A failed write leaves the new mode in effect and only the stored slot unwritten. |
| `Theme.ThemeProvider.ToggleTheme` | src/contexts/ThemeContext.tsx:64-72 | From system mode it selects the opposite of the system scheme, and from a manual mode the other manual mode. The result is never system, and isDark flips. |
| `DriveContext.NewDrive` | src/contexts/DriveContext.tsx:40-48 | A started drive is active, has no lights, zero counters consistent with them, and no name, end time or duration. |
| `DriveContext.AddedLight` | src/contexts/DriveContext.tsx:69-101 | The light is appended at the end and the earlier lights are unchanged. Only the lights and counters change, and consistent counters stay consistent. |
| `DriveContext.WithoutLight` | src/contexts/DriveContext.tsx:114-117 | A light remains iff it was present and has another id. An absent id leaves the list unchanged, and a present one makes it shorter. |
| `DriveContext.WithoutLightAppend` | src/contexts/DriveContext.tsx:117 | Removal by id works piecewise over a concatenation, so the remaining lights keep their relative order. |
| `DriveContext.Completed` | src/contexts/DriveContext.tsx:195-204 | The completed drive is inactive and carries the name and end time. Its duration is floor((end − start)/1000) seconds, and its lights and counters are kept. |
| `DriveContext.WithoutDrive` | src/contexts/DriveContext.tsx:216 | A drive remains iff it was present and has another id. When no drive has the id, the list is unchanged. |
| `DriveContext.WithoutDriveAppend` | src/contexts/DriveContext.tsx:216 | Removal by id works piecewise, so the remaining drives keep their order. |
| `DriveContext.DeleteYellowExample` | src/contexts/DriveContext.tsx:114-137 | Deleting the yellow light of [red, yellow, green] leaves [red, green] with counters (1, 1, 0). |
| `DriveContext.DriveProvider.constructor` | src/contexts/DriveContext.tsx:16-17 | The provider starts with no current drive and no past drives. |
| `DriveContext.DriveProvider.Summary` | src/contexts/DriveContext.tsx:18-27 | The published statistics are `calculateStats` of the past drives as written. There is one drive entry per past drive and an extremum drive exactly when there is a drive. The current streak is the run ending at the oldest drive, and the best streaks are the longest runs. |
| `DriveContext.DriveProvider.CorrectedSummary` | src/contexts/DriveContext.tsx:25-27 | The same statistics except that the current streak is the run starting at the most recent drive. No other field differs from `Summary`. |
| `DriveContext.DriveProvider.LoadDrives` | src/contexts/DriveContext.tsx:29-37 | The past drives become the loaded list. A loaded current drive replaces the in-memory one, and none leaves it as it was. |
| `DriveContext.DriveProvider.StartDrive` | src/contexts/DriveContext.tsx:39-52 | The current drive becomes a fresh empty drive and its slot is written. |
| `DriveContext.DriveProvider.AddLight` | src/contexts/DriveContext.tsx:54-108 | With no current drive a fresh one is started first. The light is appended by `AddedLight`, the counters-follow-lights invariant is kept, and past drives are untouched. |
| `DriveContext.DriveProvider.DeleteLight` | src/contexts/DriveContext.tsx:110-152 | With no current drive it stays absent, and with an unknown id nothing changes. Otherwise every light with the id is removed and the counters are the fold of what remains. |
| `DriveContext.DriveProvider.ReorderLights` | src/contexts/DriveContext.tsx:154-190 | The new list is installed with counters equal to its fold. For a permutation of a consistent drive's lights the counters are unchanged. |
| `DriveContext.DriveProvider.EndDrive` | src/contexts/DriveContext.tsx:192-213 | No current drive: no-op. Otherwise the completed drive becomes element 0 of the past drives, followed by all earlier ones in order. The current drive is cleared only after both writes succeed. |
| `DriveContext.DriveProvider.DeleteDrive` | src/contexts/DriveContext.tsx:215-220 | The past drives become the list without that id, in order, and the write outcome is reported. |

## Left out

- React plumbing is left out: context creation, `useDrive`/`useTheme`, `useEffect` scheduling and the batching of `setState`. The providers are plain sequential objects. The stats effect becomes `DriveProvider.Summary`, a function recomputed on demand rather than a stored field.
- Haptic feedback is left out; it is a side effect only.
- `src/services/storage.ts` is not part of this model. Its AsyncStorage and JSON I/O are replaced by ghost slots that record successful writes, boolean write outcomes, and read results passed in as parameters. `clearAllData` is not modelled.
- `Date.now()` and `Math.random()` are not modelled; timestamps and ids are parameters.
- Ids are not assumed unique. Filters remove every light or drive with a matching id, as the source does.
- Stats.WinRate: it is an exact real 100·wins/n, not an IEEE double. Floating-point rounding is not modelled.
- JavaScript numbers are unbounded integers here. Precision loss beyond 2^53 and fractional durations are not modelled; durations are always floored whole seconds.
- `formatDate`, `formatTime` and the date in the share text depend on the locale. The formatted date is a parameter of `ShareText`.
- `copyToClipboard` is not modelled; it is a foreign asynchronous call.
- `src/utils/responsive.ts` is not part of this model; it does floating-point screen scaling.
- The screens and components are not part of this model, and neither is `app/index.tsx`. Their inline winner and count logic repeats what `Sharing` and `Stats` cover.
- Sharing.ShareText: the contract fixes the first character, the winner line and the emoji line. It does not state where the name/date line and the counts line sit inside the text. The counts themselves are `ColorCounts`.
- Sharing.EmojiSequence: a length is counted in Unicode scalar values (one per emoji), not in UTF-16 code units as JavaScript's `length` would count it.
- Stale React closures are not modelled. `endDrive` and `addLight` read `currentDrive` from the last render; here each call sees the latest state.
- Console logging of caught errors is not modelled.

## Findings

| source | as written | input that shows it | evidently intended | confidence | as-written member | corrected member |
|---|---|---|---|---|---|---|
| src/contexts/DriveContext.tsx:296-325 | The scan runs from index 0 (the most recent drive) and finally reports the run still open at the end. That is the run of the oldest drives. `Stats.StatsOf` and `Stats.CalculateStats` model this; `Stats.CorrectedStats` takes the run at index 0 instead; `DriveContext.DriveProvider.CorrectedSummary` reports it, next to the as-written `Summary`. | Drives most recent first with (green, red) = (1, 5), (1, 5), (5, 0): `currentStreak` is `{win, 1}` | The current streak is the run at the most recent drive, here `{loss, 2}` | not executed | `Stats.CurrentStreakIsOldestRun` | `Stats.CorrectedCurrentStreak` |
