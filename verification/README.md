# Diary app core, modelled in Dafny

This project models the pure logic inside a Next.js diary app. The rest of the
app is Supabase, Stripe and OpenAI calls plus page markup. The modelled parts are:

- **Seeded generator** (`SeededRng`). `hashToSeed` is 32-bit FNV-1a over the
  UTF-16 code units of the seed. `mulberry32` is modelled as a value: a 32-bit
  counter and a mixing function whose output is normalised to [0, 1).
  The 32-bit words are integers in [0, 2^32). `^`, `|`, `>>>` and
  `Math.imul` are defined on them digit by digit, and `Math.imul` is proved
  to be the product modulo 2^32. `randBetween` and `randInt` sit on top. Every draw returns the advanced
  generator, so the state is threaded explicitly.
- **Light layout** (`LightLayout`). The greedy packer `layoutLights` places
  one light per id, in input order. Each light gets its own seeded candidate
  stream, and a candidate is accepted when no earlier light is closer than the
  minimum distance. Otherwise the best-scoring candidate wins, or the centre
  when no candidate was drawn. The pixel points are then normalised, and `toPx`
  projects them back. Distances are compared squared.
- **Flicker** (`DeepFlicker`). The strength falls with depth and is cut off
  at the front-layer cutoff. The `tick` body is a pure step over
  (offset, stall deadline, draws consumed) given the current time.
- **Lights layer** (`LightsLayer`). Opacity, size, glow and z-index are
  computed from depth. It also covers the pixel projection of the items, the
  highlight test and the flickered position.
- **Forest page** (`ForestPage`). The `items` memo computes depth from
  recency rank, lays the ids out and looks each one up by id. Both forest
  pages (`src/app/forest/page.tsx` and `src/components/forest/page.tsx`)
  carry the same memo, and one definition models both.
- **Tuning constants and seasons** (`UxSpec`).
- **Diary editor** (`DiaryEditor`). It covers date-string validation, trim
  and word count, the draft key and the dirty flag. It also covers the
  date-switch and back guards, the elapsed label, the rule that resolves a
  loaded day between the database row and the local draft, and the save
  guards with their title normalisation.
- **Insights** (`Insights`). `buildCounts` counts the non-empty words and
  keeps the five most frequent.
- **Entry calendar** (`Entries`). It covers `monthRangeStr`, the date→entry
  map, where a click on a day leads, the `hasEntry` marker and the day's mood badge.
- **Mood** (`Mood`). Covers the emoji↔word encoding of the new-entry form and
  `moodToEmoji`.
- **Access** (`Access`). Covers `isProPlan`, the `ProGate` decision and render
  gate, and the `UpgradeCta` decision and render condition.

`Lookup` is shared by the forest and calendar lookups. It models a `Map`
filled in list order, where a later element overwrites an earlier one.
`Numeric` holds the clamps and the interpolation behind `randBetween`, and
`Wrappers` holds `Option`.

The following are inputs to the model rather than effects it performs:

- network reads: the profile row, the diary row, the user lookup;
- local storage: the parsed draft;
- `confirm` answers;
- the current time.

`Math.pow(v, 0.6)` in `ease` is a parameter, assumed to be a monotone map of
[0, 1] onto itself that fixes 0 and 1.

## Model

| member | source | states |
|---|---|---|
| UxSpec.GetSeason | src/lib/uxSpec.ts:32-38 | Spring exactly for months 3–5, summer for 6–8, autumn for 9–11, winter for 12, 1 and 2 |
| UxSpec.SeasonsPartitionYear | src/lib/uxSpec.ts:34-37 | Each season covers exactly three months, and the four seasons partition the twelve months |
| UxSpec.TuningWellFormed | src/lib/uxSpec.ts:9-20 | Walk range, update interval and stall range have low ≤ high; the front-layer cutoff lies in (0, 1); 80 tries > 0; padding and minimum distance are non-negative |
| Numeric.Clamp | src/components/forest/useDeepFlicker.ts:10-12 | For lo ≤ hi the result lies in [lo, hi]; it is v inside the interval, lo below it, hi above it |
| Numeric.Clamp01 | src/components/forest/LightsLayer.tsx:17-19 | The result lies in [0, 1]; it is the identity on [0, 1], 0 below and 1 above |
| Numeric.ClampMonotone | src/components/forest/useDeepFlicker.ts:10-12 | Clamping preserves order |
| Numeric.Lerp | src/lib/seededRng.ts:28-30 | For a draw in [0, 1): the result is in [min, max) when min < max, equals min when they are equal, and is in (max, min] when reversed |
| Numeric.LerpInverse | src/lib/lightLayout.ts:84-85 | Normalising an interpolated value by the same bounds gives back the draw |
| SeededRng.Utf16Char | src/lib/seededRng.ts:17-18 | Below U+10000 a character is one code unit, equal to the character and not a surrogate. Above it, a character is a high surrogate and then a low one, whose ten-bit payloads rebuild the character |
| SeededRng.Utf16 | src/lib/seededRng.ts:17-18 | A string has between its length and twice its length in code units, and decoding the units (`FromUtf16`) gives the string back |
| SeededRng.BitsBound | src/lib/seededRng.ts:8-10 | The xor and the or of two words below 2^k stay below 2^k, so on 32-bit words they give 32-bit words |
| SeededRng.MulLowIsProduct | src/lib/seededRng.ts:8-9 | Shift-and-add over the bits of the second factor computes the product |
| SeededRng.ImulIsProduct | src/lib/seededRng.ts:19 | `Math.imul` is the product of its operands modulo 2^32 |
| SeededRng.HashOfEmpty | src/lib/seededRng.ts:16-21 | The empty seed hashes to the offset basis 2166136261 |
| SeededRng.FnvAppend | src/lib/seededRng.ts:17-20 | Hashing one more code unit continues the fold with one xor-then-multiply round |
| SeededRng.HashToSeedLoop | src/lib/seededRng.ts:14-22 | The source's loop over the code units computes the FNV-1a fold; the result is a 32-bit word |
| SeededRng.Unit | src/lib/seededRng.ts:10 | A draw is u / 2^32 for the unsigned 32-bit word u, so it lies in [0, 1) |
| SeededRng.Step | src/lib/seededRng.ts:7 | A draw advances the counter by 0x6D2B79F5 modulo 2^32 |
| SeededRng.Output | src/lib/seededRng.ts:8-10 | The emitted value lies in [0, 1) |
| SeededRng.Next | src/lib/seededRng.ts:6-11 | A draw first advances the counter and then emits the mix of the new counter, in [0, 1) |
| SeededRng.DrawDependsOnlyOnNewState | src/lib/seededRng.ts:7-10 | Two generators that reach the same counter emit the same draw |
| SeededRng.DrawAt | src/lib/seededRng.ts:6-11 | Draw number n lies in [0, 1) |
| SeededRng.Draws | src/lib/seededRng.ts:6-11 | The first n draws are n values in [0, 1) |
| SeededRng.DrawsAt | src/lib/seededRng.ts:6-11 | Entry k of the first n draws is the draw made after k earlier draws |
| SeededRng.CountersSplit | src/lib/seededRng.ts:7 | The counters of m + n draws are those of the first m, then those of the generator advanced by m |
| SeededRng.AdvanceCounter | src/lib/seededRng.ts:7 | After n draws the counter has moved by n increments modulo 2^32 |
| SeededRng.DrawsSplit | src/lib/seededRng.ts:6-11 | m + n draws are the first m draws followed by n draws of the advanced generator |
| SeededRng.SameHashSameDraws | src/lib/seededRng.ts:24-26 | Seeds with the same hash, equal seeds in particular, give the same draw sequence |
| SeededRng.RandBetween | src/lib/seededRng.ts:28-30 | Consumes one draw; the value is in [min, max) for min < max and equals min for min = max |
| SeededRng.NextAt | src/lib/seededRng.ts:6-11 | `rand()` on a generator that has made n draws emits draw n of its stream and leaves n + 1 draws made |
| SeededRng.RandBetweenAt | src/lib/seededRng.ts:28-30 | `randBetween` on a generator that has made n draws interpolates draw n and leaves n + 1 draws made |
| SeededRng.RandInt | src/lib/seededRng.ts:32-35 | Consumes one draw; for min ≤ max the value is the floor of `randBetween(min, max + 1)` and lies in [min, max]; for max < min it is min |
| LightLayout.Usable | src/lib/lightLayout.ts:39-40 | The usable extent is at least one pixel: the padded extent, or 1 |
| LightLayout.Resolve | src/lib/lightLayout.ts:35-40 | Usable width and height are ≥ 1; without options the UX defaults apply |
| LightLayout.SquaredComparison | src/lib/lightLayout.ts:58-60 | For the non-negative root d of the squared distance, `d < minD` holds exactly when the squared test does, whatever the sign of minD |
| LightLayout.ScanPlacedSpec | src/lib/lightLayout.ts:54-64 | The scan is clear iff no placed light is too close; when blocked, the score is the least distance over the lights up to and including the first violator |
| LightLayout.CandidateAt | src/lib/lightLayout.ts:50-53 | Candidate k lies in the usable rectangle, from draws 2k and 2k + 1 |
| LightLayout.CandidateIsTwoRandBetween | src/lib/lightLayout.ts:50-51 | Candidate k is exactly two `randBetween` calls on the light's generator after the 2k draws of the earlier tries |
| LightLayout.BestSoFarStep | src/lib/lightLayout.ts:71-74 | A rejected try replaces the best only on a strictly greater score, so the best is the first argmax so far |
| LightLayout.BestSoFarDone | src/lib/lightLayout.ts:49-77 | When the tries run out, the best rejected candidate is the first argmax over all of them |
| LightLayout.TryFromSpec | src/lib/lightLayout.ts:49-75 | The loop from any try on ends at the centre (no tries), at the first accepted try, or at the first argmax when all are rejected |
| LightLayout.PlaceSpec | src/lib/lightLayout.ts:45-77 | Centre iff maxTries ≤ 0; accepted iff some try is not rejected, at the first such try; otherwise the first candidate with the strictly greatest score |
| LightLayout.PlaceAll | src/lib/lightLayout.ts:44-79 | One placed light per id, in input order |
| LightLayout.PlaceAllPrefix | src/lib/lightLayout.ts:44-79 | Placing a prefix of the ids places a prefix of the lights: later ids never move earlier lights |
| LightLayout.PlaceAllAt | src/lib/lightLayout.ts:44-78 | Light i is placed with its own stream against exactly the lights before it |
| LightLayout.LayoutWith | src/lib/lightLayout.ts:82-86 | The output has one light per id with that id, in input order |
| LightLayout.LayoutLights | src/lib/lightLayout.ts:26-87 | Exactly one point per input id, in input order; no ids give no points |
| LightLayout.NormalisedChoice | src/lib/lightLayout.ts:77-86 | A normalised choice lies in [0, 1) on both axes |
| LightLayout.NormaliseCandidate | src/lib/lightLayout.ts:84-85 | Normalising candidate k gives back its two draws |
| LightLayout.NormaliseChosen | src/lib/lightLayout.ts:77-86 | Normalising the chosen pixel point gives the draws of the chosen try, or (0.5, 0.5) for the centre |
| LightLayout.LayoutCoordinates | src/lib/lightLayout.ts:82-86 | Every returned coordinate is a draw of the light's chosen try or the centre, so it lies in [0, 1) for any viewport, a zero-size one included |
| LightLayout.AcceptedKeepsDistance | src/lib/lightLayout.ts:57-70 | An accepted light is at least minD from every light placed before it |
| LightLayout.FirstLightTakesFirstCandidate | src/lib/lightLayout.ts:57-70 | With at least one try, the first id takes its first candidate, whose normalised point is its first two draws |
| LightLayout.NoMinimumDistanceIndependent | src/lib/lightLayout.ts:60-70 | With minD ≤ 0 every light is its own first two draws, independent of the other ids and their order |
| LightLayout.SeededLayoutFirstDraws | src/lib/lightLayout.ts:45-70 | In the seeded layout that light's point is `DrawAt(rngFromSeed(id), 0)` and `DrawAt(…, 1)` |
| LightLayout.SeededLayoutInUnitSquare | src/lib/lightLayout.ts:82-86 | The seeded layout's coordinates lie in [0, 1) |
| LightLayout.ToPxRange | src/lib/lightLayout.ts:89-96 | `toPx` maps [0, 1] into [pad, pad + usable] on each axis |
| LightLayout.ToPxUndoesNormalise | src/lib/lightLayout.ts:92-95 | `toPx` with the same padding inverts the normalisation |
| LightLayout.ToPxInvertsLayout | src/lib/lightLayout.ts:82-96 | `toPx` of a returned point is the pixel point the light was placed at |
| DeepFlicker.Strength | src/components/forest/useDeepFlicker.ts:22-27 | Strength lies in [0, 1]; it is 0 exactly from the cutoff on, 1 exactly at depth ≤ 0, and `1 − depth/cutoff` in between |
| DeepFlicker.StrengthAntitone | src/components/forest/useDeepFlicker.ts:22-27 | A deeper light never flickers more strongly |
| DeepFlicker.NextDelay | src/components/forest/useDeepFlicker.ts:87-88 | Every rescheduling delay lies in [250, 330) |
| DeepFlicker.Amplitude | src/components/forest/useDeepFlicker.ts:69 | The amplitude lies in [0.4·strength, 0.6) and is positive |
| DeepFlicker.WalkAxis | src/components/forest/useDeepFlicker.ts:75-83 | A walk axis lies in [-2, 2] and is the damped sum `0.9·(cur + d)` when that is in range |
| DeepFlicker.Tick | src/components/forest/useDeepFlicker.ts:47-90 | Stalled: only one draw is consumed. Entering a stall: offset kept, deadline 1–3 s ahead, three draws. Walking: deadline kept, five draws. The offset stays in bounds and the delay is in [250, 330) |
| DeepFlicker.TickWalks | src/components/forest/useDeepFlicker.ts:68-88 | A walk step after n draws takes its amplitude from draw n + 1, in [0.4·strength, 0.6). It takes the x and y steps from draws n + 2 and n + 3, each in [-amp, amp), and moves to the damped, clamped sum. Its delay comes from draw n + 4 |
| DeepFlicker.StalledTickIsRandCalls | src/components/forest/useDeepFlicker.ts:51-56 | While stalled, a tick on the generator after n draws is exactly one `randBetween(250, 330)` call, which gives the delay; the state then records n + 1 draws |
| DeepFlicker.StallTickIsRandCalls | src/components/forest/useDeepFlicker.ts:58-66 | Past the deadline, the tick stalls exactly when `rand()` on the generator after n draws is below 0.22. The stall length and the delay are then the next two `randBetween` calls, and n + 3 draws are made |
| DeepFlicker.AmplitudeIsRandCall | src/components/forest/useDeepFlicker.ts:69 | The amplitude is `randBetween(0.4, 0.6)` on the generator after n draws, times the strength |
| DeepFlicker.WalkTickIsRandCalls | src/components/forest/useDeepFlicker.ts:69-84 | A walking tick moves x by the step `randBetween(-amp, amp)` after n + 2 draws, and y by the step after n + 3 draws, each damped and clamped. The amplitude `amp` is drawn after n + 1 draws |
| DeepFlicker.StepsAreRandCalls | src/components/forest/useDeepFlicker.ts:70-71 | The two steps of a walk are the two `randBetween(-amp, amp)` calls after the amplitude's draw |
| DeepFlicker.WalkDelayIsRandCall | src/components/forest/useDeepFlicker.ts:87-89 | A walking tick makes five draws, and its delay is `randBetween(250, 330)` on the generator after n + 4 draws |
| DeepFlicker.Mount | src/components/forest/useDeepFlicker.ts:36-93 | A light at or past the cutoff is frozen at the origin; otherwise it starts at the origin and first ticks after a delay in [120, 240) |
| DeepFlicker.Run | src/components/forest/useDeepFlicker.ts:43-90 | A run schedules one delay per tick, each in [250, 330). Each tick consumes one to five draws, and a run from an in-bounds offset stays in [-2, 2] |
| DeepFlicker.MountedRunStaysInBounds | src/components/forest/useDeepFlicker.ts:31-85 | A mounted light that runs, starting from {0, 0}, never leaves [-2, 2] |
| LightsLayer.Ease | src/components/forest/LightsLayer.tsx:21-24 | `ease` lies in [0, 1]; it is 0 at or below 0 and 1 at or above 1 |
| LightsLayer.EaseMonotone | src/components/forest/LightsLayer.tsx:21-24 | `ease` is monotone |
| LightsLayer.Round | src/components/forest/LightsLayer.tsx:75 | `Math.round` is within half a unit of its argument |
| LightsLayer.ZIndex | src/components/forest/LightsLayer.tsx:75 | The z-index lies in [0, 1000] for depth in [0, 1], and is 1000 at depth 0 and 0 at depth 1 |
| LightsLayer.ZIndexAntitone | src/components/forest/LightsLayer.tsx:75 | The z-index never increases with depth |
| LightsLayer.LightAppearance | src/components/forest/LightsLayer.tsx:46-55 | Opacity lies in [0.18, 0.80], size in [6, 16], glow in [10, 36] and glow alpha in [0.10, 0.32]; opacity, size and glow take their maxima at depth ≤ 0 and their minima at depth ≥ 1 |
| LightsLayer.AppearanceAntitone | src/components/forest/LightsLayer.tsx:46-75 | A deeper light is never brighter, larger, more glowing or stacked higher |
| LightsLayer.PxItems | src/components/forest/LightsLayer.tsx:113-118 | Same length and order as the items; each `px` is `toPx(point, vp, 24)` |
| LightsLayer.PxItemsInsideViewport | src/components/forest/LightsLayer.tsx:113-118 | An item in the unit square is drawn inside the padded usable rectangle |
| LightsLayer.Highlighted | src/components/forest/LightsLayer.tsx:129 | A dot is highlighted iff its id equals the highlighted id, and a null id highlights nothing |
| LightsLayer.RenderPosition | src/components/forest/LightsLayer.tsx:63-64 | The drawn position is the projected point moved by exactly the flicker offset |
| LightsLayer.RenderPositionNearPoint | src/components/forest/LightsLayer.tsx:63-64 | A flickering dot stays within two pixels of its projected point on each axis |
| LightsLayer.DotFor | src/components/forest/LightsLayer.tsx:44-75 | A dot carries its item's id, the appearance of its depth, the highlight test, and the flickered position |
| ForestPage.Depth01 | src/app/forest/page.tsx:70-73 | Depth lies in [0, 1]. It is 0 for rank 0 and for a single entry, 1 for the last of ≥ 2 entries, and otherwise idx/(n − 1) |
| ForestPage.Depth01Monotone | src/components/forest/page.tsx:77 | Depth never decreases with rank |
| ForestPage.Ids | src/app/forest/page.tsx:66 | The ids are the entries' ids, in entry order |
| ForestPage.ItemsFrom | src/components/forest/page.tsx:76-84 | One item per entry, in entry order, with its id, creation time and rank depth |
| ForestPage.ItemsFromLastLight | src/components/forest/page.tsx:73-82 | An item's point is the laid-out light at the last position of its id |
| ForestPage.Items | src/app/forest/page.tsx:65-81 | One item per entry, in entry order, with its id, creation time and rank depth among all entries |
| ForestPage.DuplicateIdsSharePoint | src/app/forest/page.tsx:68-78 | Entries with the same id share one point |
| ForestPage.NewestTakesFirstDraws | src/app/forest/page.tsx:66-67 | The newest entry is laid out first, so an unrepeated newest id sits at the first two draws of its own generator |
| Lookup.LastBySpec | src/app/entries/page.tsx:48-52 | A key is in the map iff some element has it, and it maps to the element at the last position with that key |
| DiaryEditor.DateStrCompose | src/components/diary/DiaryEditor.tsx:17-19 | Four, two and two characters joined by dashes are accepted iff they are all ASCII digits |
| DiaryEditor.DateStrDecompose | src/components/diary/DiaryEditor.tsx:17-19 | Every accepted string is four digits, a dash, two digits, a dash, two digits |
| DiaryEditor.DateStrNotRangeChecked | src/components/diary/DiaryEditor.tsx:17-19 | The test checks shape only: "2024-13-45" passes and "2024-1-05" does not |
| DiaryEditor.InitialDate | src/components/diary/DiaryEditor.tsx:83-87 | A valid `date` query parameter becomes the date; anything else leaves today |
| DiaryEditor.Trim | src/components/diary/DiaryEditor.tsx:70 | The trim is empty iff the body is all white space; otherwise it is the slice from the first to the last non-space character |
| DiaryEditor.TrimIdempotent | src/components/diary/DiaryEditor.tsx:70 | Trimming twice is trimming once |
| DiaryEditor.SplitCountsRuns | src/components/diary/DiaryEditor.tsx:73 | The non-empty pieces of the split on white-space runs are as many as the maximal non-space runs |
| DiaryEditor.TrimKeepsRuns | src/components/diary/DiaryEditor.tsx:70-73 | Trimming keeps every word |
| DiaryEditor.WordCount | src/components/diary/DiaryEditor.tsx:69-74 | A one-pass count equals trim, split and filter. It is the number of maximal non-space runs, and 0 exactly for an empty or white-space body |
| DiaryEditor.DraftKey | src/components/diary/DiaryEditor.tsx:77-80 | No key iff there is no user id or it is empty; otherwise `draft:diary:{user}:{date}` |
| DiaryEditor.DraftKeyInjective | src/components/diary/DiaryEditor.tsx:77-80 | Different users, or different dates of one length, never share a draft key |
| DiaryEditor.IsDirty | src/components/diary/DiaryEditor.tsx:65 | Dirty iff the title or the body differs from the baseline |
| DiaryEditor.ChangeDate | src/components/diary/DiaryEditor.tsx:145-152 | A clean editor switches; a dirty one switches only when the question is confirmed |
| DiaryEditor.LeavesOnBack | src/components/diary/DiaryEditor.tsx:339-342 | A clean editor leaves; a dirty one leaves iff the question is confirmed |
| DiaryEditor.BackAndChangeDateAgree | src/components/diary/DiaryEditor.tsx:339-342 | Going back and switching to another date obey the same answer |
| DiaryEditor.Decimal | src/components/diary/DiaryEditor.tsx:347 | `String(n)` is digits without a leading zero, one digit exactly below 10, at most two below 100 |
| DiaryEditor.DecimalRoundTrip | src/components/diary/DiaryEditor.tsx:347 | Reading back the decimal digits of n gives n |
| DiaryEditor.PadStart2 | src/components/diary/DiaryEditor.tsx:347 | A string of at most two characters is padded with leading zeros to length two; a longer one is unchanged |
| DiaryEditor.TwoDigits | src/components/diary/DiaryEditor.tsx:346-347 | The seconds of a minute are two digits that read back as the seconds |
| DiaryEditor.LabelOf | src/components/diary/DiaryEditor.tsx:347 | The label is the minutes, `m `, the seconds, then `s` |
| DiaryEditor.ElapsedLabel | src/components/diary/DiaryEditor.tsx:344-348 | The label is decimal digits with no leading zero, then `m `, then two digits, then `s`. The first digits denote seconds div 60, and the two digits denote seconds mod 60, which is below 60 |
| DiaryEditor.ParseLabel | src/components/diary/DiaryEditor.tsx:347 | A label laid out from canonical minutes and two-digit seconds below 60 reads back (`ParseElapsed`) as 60 × minutes + seconds |
| DiaryEditor.ElapsedLabelRoundTrip | src/components/diary/DiaryEditor.tsx:344-348 | Reading the label back with `ParseElapsed`, which admits only seconds below 60, gives the elapsed seconds |
| DiaryEditor.SecondsAreCarried | src/components/diary/DiaryEditor.tsx:345-347 | `0m 61s` is not a label, and 61 seconds show as `1m 01s` |
| DiaryEditor.Load | src/components/diary/DiaryEditor.tsx:174-241 | A read error fails the load. A row sets the baseline, with null read as "", and its draft is restored only with a body and on request. Without a row the baseline is empty, and a draft with a title or body is restored. Unrestored fields equal the baseline |
| DiaryEditor.LoadedCleanUnlessRestored | src/components/diary/DiaryEditor.tsx:208-241 | A day loaded without restoring a draft is not dirty |
| DiaryEditor.RestoredOverRowDirtyIffDiffers | src/components/diary/DiaryEditor.tsx:214-226 | A draft restored over a row is dirty iff it differs from the row |
| DiaryEditor.RestoredWithoutRowIsDirty | src/components/diary/DiaryEditor.tsx:229-234 | A draft restored on a day without a row is always dirty |
| DiaryEditor.StoredTitle | src/components/diary/DiaryEditor.tsx:308 | The stored title is null iff the title is all white space, otherwise the trimmed title |
| DiaryEditor.SaveRequest | src/components/diary/DiaryEditor.tsx:292-315 | Nothing is sent iff the body is blank or there is no user; otherwise the user, date, stored title and the body as typed |
| DiaryEditor.BaselineAfterSave | src/components/diary/DiaryEditor.tsx:317-320 | After a successful save the editor is clean; a failed save keeps the baseline |
| DiaryEditor.ShortcutSendsRequest | src/components/diary/DiaryEditor.tsx:133-136 | A save started by Ctrl/Cmd+S with a known user sends the body as typed |
| Insights.AddWordTallies | src/app/insights/page.tsx:32-33 | One more word keeps keys distinct, counts every non-empty word seen, and counts each one's occurrences |
| Insights.BuildCounts | src/app/insights/page.tsx:26-36 | Exactly the distinct non-empty words of the present arrays are counted, each with its number of occurrences |
| Insights.Insert | src/app/insights/page.tsx:38 | Inserting into a descending sequence keeps it descending and adds exactly the element |
| Insights.SortDescending | src/app/insights/page.tsx:38 | The sort is a permutation in descending count order |
| Insights.TalliesOf | src/app/insights/page.tsx:37 | One tally per counted word, with its count, in key order |
| Insights.SortedTallies | src/app/insights/page.tsx:37-38 | The sorted tallies list every key once with its count, in descending order |
| Insights.TakeTop | src/app/insights/page.tsx:39 | The first five, or all when there are fewer |
| Insights.PastCutAtMostLast | src/app/insights/page.tsx:38-39 | Nothing past the cut of a descending sequence counts more than the last one kept |
| Insights.TopOfSorted | src/app/insights/page.tsx:37-39 | The cut keeps min(5, keys) distinct keys with their counts, descending, and no key left out counts more than the last one kept |
| Insights.TopIsTopWords | src/app/insights/page.tsx:26-39 | A top of the counted keys is a top of the input's distinct non-empty words |
| Insights.TopWords | src/app/insights/page.tsx:26-40 | At most five entries, and as many as the distinct non-empty words when fewer. Each is a distinct word with its number of occurrences. The entries are descending, and no word left out occurs more often than the last one |
| Mood.MoodToEmoji | src/app/entries/page.tsx:19-28 | The emoji is one of the three options: a smile iff `good`, tears iff `bad`, the neutral face otherwise, missing included |
| Mood.EncodeMood | src/app/entries/new/page.tsx:23-24 | The word is `good`, `normal` or `bad`: `good` iff the smile, `normal` iff the neutral face |
| Mood.MoodRoundTrip | src/app/entries/new/page.tsx:69-71 | Every option of the select is shown again as itself once stored |
| Mood.StoredMoodRoundTrip | src/app/insights/page.tsx:42-51 | Every stored word the form produces is encoded again as itself once shown |
| Mood.MissingMoodBecomesNormal | src/app/entries/page.tsx:25-26 | A missing mood is shown neutral, which the form would store as `normal` |
| Access.IsProPlan | src/lib/plan.ts:4-7 | An explicit false active flag denies; otherwise pro iff the plan is `pro` |
| Access.IsProPlanExactly | src/lib/plan.ts:4-6 | Pro iff the plan is `pro` and the active flag is missing or true |
| Access.GatePlan | src/components/ProGate.tsx:50-52 | A missing row or null plan defaults to `pro`, and a null active flag to true |
| Access.CheckPro | src/components/ProGate.tsx:20-67 | Loading always ends. A throw, a user error or no user denies. No row admits, whatever the read reported. A row admits iff its plan is null or `pro` and it is not deactivated |
| Access.GateIgnoresBetaFlag | src/components/ProGate.tsx:56-61 | The decision is the same whatever the beta flag |
| Access.GateRender | src/components/ProGate.tsx:73-108 | Checking iff loading; children iff not loading and allowed |
| Access.GateShowsChildrenIff | src/components/ProGate.tsx:20-108 | Children are shown iff a signed-in user's defaulted profile passes the plan test |
| Access.FetchPlan | src/components/UpgradeCta.tsx:19-50 | A throw leaves it loading. No user or a failed read is not pro. Otherwise pro iff the row's plan is `pro` and it is not deactivated |
| Access.CtaShown | src/components/UpgradeCta.tsx:56 | Once loaded, shown iff not pro; never shown to a pro user |
| Access.NoRowAdmittedAndAskedToUpgrade | src/components/UpgradeCta.tsx:36-44 | A signed-in user without a profile row passes the gate yet is shown the upgrade prompt |
| Access.NullPlanAdmittedAndAskedToUpgrade | src/components/ProGate.tsx:51-54 | A row with a null plan passes the gate yet is shown the upgrade prompt |
| Access.GateAndCtaAgreeOnSetPlan | src/components/UpgradeCta.tsx:45-47 | On a row with a plan set, the gate and the prompt agree on who is pro |
| Entries.DaysInMonth | src/app/entries/page.tsx:32 | 31 for months 1, 3, 5, 7, 8, 10, 12; 30 for 4, 6, 9, 11; 29 for February of a Gregorian leap year, 28 otherwise |
| Entries.NewDate | src/app/entries/page.tsx:31-32 | `new Date(y, m, d)` normalises to a valid civil date |
| Entries.DayZeroIsLastDay | src/app/entries/page.tsx:32 | Day 0 of the next month is the last day of this month, December rolling into the next year and back |
| Entries.MonthRangeAsWritten | src/app/entries/page.tsx:30-37 | Both ends of the range as written are valid dates |
| Entries.MonthRange | src/app/entries/page.tsx:30-37 | The intended range runs from day 1 to the month's last day, in the same year and month, with start ≤ end |
| Entries.MonthRangeAsWrittenAgrees | src/app/entries/page.tsx:31-32 | Outside years 0–99 the code's range is the intended range |
| Entries.MonthRangeTwoDigitYear | src/app/entries/page.tsx:31-32 | In year 50 the code asks for January 1950 |
| Entries.EntryMapSpec | src/app/entries/page.tsx:48-52 | A date is a key iff some entry has it, and it maps to the last entry with that date |
| Entries.OnSelect | src/app/entries/page.tsx:116-124 | No date does nothing. A date with an entry opens the last entry of that date; any other date opens the editor on it |
| Entries.HasEntry | src/app/entries/page.tsx:126 | A day is marked iff some entry has its date |
| Entries.MarkedIffOpensEntry | src/app/entries/page.tsx:116-126 | A day is marked iff clicking it opens an entry |
| Entries.DayBadge | src/app/entries/page.tsx:132-143 | A badge is shown iff the day is marked; it is the emoji of the last entry of that date |

## Left out

- Timers and the React lifecycle are left out. This covers `setTimeout`/`setInterval`, cleanup on unmount, effects and resize listeners: they are scheduling and concurrency. The flicker tick is a step function, and the time of each tick is an input.
- SeededRng.Step: the counter `t` is a JavaScript double that is never truncated. It agrees with the 32-bit counter modelled here only while the number of draws stays below about 2^22.
- Floating point is left out. Coordinates, durations and draws are `real`, so IEEE rounding (which can let `randBetween` reach `max`), NaN and infinite viewports are not modelled.
- `Math.sqrt` is replaced by squared distances; the scores are squared too, which picks the same argmax because the square root is monotone.
- LightsLayer.Ease: `Math.pow(v, 0.6)` is a parameter assumed monotone on [0, 1] with 0 and 1 fixed, not the real power function.
- Numeric seeds are strings here: `String(number)` in `hashToSeed` is not modelled.
- Foreign calls are not modelled: the date-fns `format` (callers pass the formatted string), `encodeURIComponent`, and `JSON.parse`/`stringify` of drafts (the load takes the parsed draft or none).
- The `Date` constructor and the local time zone are modelled only as far as `monthRangeStr` needs: civil dates in the proleptic Gregorian calendar.
- The current month, today's date and `confirm` answers are inputs.
- Insights.SortDescending: its contract states a descending permutation, not stability. The body is a stable insertion sort, so ties keep first-seen order. That order is the order of `Object.entries` only for keys that are not integer-like, and prototype keys such as `constructor` are not modelled.
- Network I/O is not modelled: Supabase reads and writes, auth, and the Stripe and OpenAI routes. Their answers are inputs.
- The static pages and the other auth and billing pages are markup or network only.
- `ForestScene.tsx` is not part of this model. It holds gradient strings and SVG shapes, and season selection is covered by `GetSeason`.
- The editor's local-storage autosave (500 ms debounce, 800 ms rate limit) is timer-driven and is not modelled. The `clearDraft` removal is not modelled either.
- DiaryEditor.ElapsedLabel takes a natural number: a negative elapsed time, possible only if the clock moves backwards, is not modelled.
- Access.CheckPro: `src/lib/beta.ts` is not part of this model, so the beta flag is a parameter.

The code is followed where it differs from the natural reading of its comments:

- A zero-size viewport does not fall back to the centre. The usable extent is one pixel and the returned point is the raw draws (`LightLayout.LayoutCoordinates`).
- `draftKey` is null for an empty user id as well as a missing one, because the test is `!userId`.
- A draft restored over a database row keeps the row as its baseline. The editor is therefore dirty exactly when the draft differs from the row, not always.

## Findings

| source | as written | input that shows it | evidently intended | confidence | as-written member | corrected member |
|---|---|---|---|---|---|---|
| src/app/entries/page.tsx:31-32 | `new Date(month.getFullYear(), month.getMonth(), 1)` and `…, month.getMonth() + 1, 0)`: the `Date` constructor reads a year from 0 to 99 as 1900 plus that year | a calendar month in year 50: the range queried is 1950-01-01 to 1950-01-31 | the first and last day of the displayed month in its own year | not executed | Entries.MonthRangeAsWritten (Entries.MonthRangeTwoDigitYear) | Entries.MonthRange (Entries.MonthRangeAsWrittenAgrees) |
