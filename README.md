# AI image comparison page, modelled in Dafny

The page (`src/app/page.tsx`) lets a user put a file into each of two
upload boxes. Once both boxes hold a file it compares them automatically and
shows a similarity score, a sentence under it and a difference image. A file
whose name, cut at its first dot and lower-cased, contains one of the trigger
words `john_doe`, `sukhwinder`, `sukh` or `winder` sets a special-case flag.
Under that flag no pixel comparison is done: the score is forced to 100. On
the ordinary path a simulated progress bar climbs by 10 per tick and holds at
90 until the comparer's result arrives. The comparer is the Resemble library.

The project has six modules:

- `Wrappers` (`wrappers.dfy`): the `Option` type used for the page's nullable state.
- `Classifier` (`classifier.dfy`): `isSpecificPerson` as a predicate on the file name, with its substring test, lower-casing and cut at the first dot.
- `Progress` (`progress.dfy`): the tick `prev >= 90 ? 90 : prev + 10` and what iterating it from 0 gives.
- `ResultLabel` (`result_label.dfy`): the sentence shown under the score.
- `PageModel` (`page_model.dfy`): the page state as a value, the steps `StoreImage`, `StoreVerdict`, `CompareImages`, `Upload`, `Complete` and `Tick`, the result area `Displayed`, its invariant, and lemmas about whole requests.
- `PageComponent` (`page_component.dfy`): the component as a class. Its fields are the React state variables, and its methods assign them as the setters do. Each method's new state is a `PageModel` step: `SetImage` is `StoreImage`, `SetVerdict` is `StoreVerdict`, and `CompareImages`, `Upload`, `Complete` and `Tick` are the steps of the same name. `ResultPanel` returns `Displayed`.

The asynchronous work that `compareImages` starts is shown by two counters.
`pendingComparisons` counts comparisons whose completion callback has not run
yet. `runningTickers` counts progress intervals that have not cleared
themselves yet. That callback and each interval firing are separate events
(`Complete` and `Tick`), and they may come in any order.

An upload runs in two halves. `setImage` stores the file, and then
`handleImageUpload` waits for `isSpecificPerson` before it sets the flag.
In between, React renders and the auto-compare effect runs `compareImages`
with the flag as it was. Setting the flag makes `compareImages` a new
callback, so the effect runs it again if the flag changed. `PageModel.Upload`
follows these two halves. The model therefore covers three things the page
really does:

- An ordinary first file and a trigger file second: the render between the two halves starts an ordinary comparison before the flag is set. That comparison completes after the forced 100 is shown and replaces it, while the sentence still reads "special case" (`PageModel.OverrideLostToPendingComparison`).
- A completion that was still pending when an override happened overwrites the forced score in the same way (`PageModel.StaleCompletionAfterOverride`).
- An interval that was still running when the result arrived sets the `progress` state back from 100 to 90 (`PageModel.StaleTickAfterCompletion`). The bar itself is drawn only while a comparison is in flight, so it is hidden by then. It stays at 90 until a comparison starts, which sets 0 on the ordinary path and 100 under the special case, or until another pending completion sets it to 100.

Three points where the page behaves differently from what a reader might expect. The model follows the code in each:

- The name is cut at the first dot, not the last. So `photo.sukh.png` does not fire.
- Both upload boxes share `handleImageUpload`. So the flag is recomputed from whichever file was uploaded last, not only from the first box's file.
- The `progress` state can go back from 100 to 90. It is not monotone across completion.

## Model

| member | source | states |
|---|---|---|
| `Classifier.LowerChar` | src/app/page.tsx:8 | the lower-cased character is never an upper-case ASCII letter; an upper-case letter maps to the lower-case letter at the same alphabet position; any other character is kept |
| `Classifier.ToLower` | src/app/page.tsx:8 | the lower-cased name has the same length and each character is the lower-case form of the original one |
| `Classifier.BeforeFirstDot` | src/app/page.tsx:8 | `split(".")[0]` is a prefix of the name, holds no dot, and is followed by a dot unless it is the whole name |
| `Classifier.Contains` | src/app/page.tsx:10 | `includes` holds when the word is a prefix, and only when the word is no longer than the text |
| `Classifier.Key` | src/app/page.tsx:8 | the key is the lower-cased name cut at its first dot; it is no longer than the name, holds no dot and no upper-case letter |
| `Classifier.IsSpecificPerson` | src/app/page.tsx:7-12 | a name that fires has at least four characters before its first dot |
| `Classifier.ContainsAny` | src/app/page.tsx:9-10 | `some(includes)` holds exactly when some listed word is contained in the key |
| `Classifier.ContainsIff` | src/app/page.tsx:10 | `includes` holds exactly when the word occurs at some position of the text |
| `Classifier.IsSpecificPersonIff` | src/app/page.tsx:7-11 | the verdict holds iff some trigger word occurs somewhere in the lower-cased text before the first dot |
| `Classifier.CaseInsensitive` | src/app/page.tsx:8 | two names that differ only in letter case get the same verdict |
| `Classifier.LowerBeforeFirstDot` | src/app/page.tsx:8 | lower-casing and cutting at the first dot commute |
| `Classifier.OnlyStemMatters` | src/app/page.tsx:8 | whatever follows the first dot does not change the key or the verdict |
| `Classifier.MatchesAnywhereInStem` | src/app/page.tsx:8-10 | a trigger word anywhere in a dot-free stem, surrounded by any text in any case and followed by any extension, fires |
| `Classifier.TriggersAtLeastFour` | src/app/page.tsx:9 | every trigger word has at least four letters |
| `Classifier.TriggerWordPlain` | src/app/page.tsx:9 | every trigger word is lower-case and has no dot |
| `Classifier.TriggerCases` | src/app/page.tsx:9-10 | the check over the list is the disjunction of the four word tests |
| `Classifier.RedundantTrigger` | src/app/page.tsx:9 | since `sukhwinder` contains `sukh`, the verdict equals the test for `john_doe`, `sukh` or `winder` alone |
| `Classifier.FirstLetterAbsent` | src/app/page.tsx:10 | a word whose first letter is absent from the text is not contained in it |
| `Classifier.NoTrigger` | src/app/page.tsx:9-10 | a key without the letters j, s and w matches no trigger |
| `Classifier.KeyOfStem` | src/app/page.tsx:8 | the key of `stem.rest` for a dot-free stem is the stem lower-cased |
| `Classifier.ExampleUpperCase` | src/app/page.tsx:7-11 | `SUKH.jpg` is a special case |
| `Classifier.ExampleMixedCase` | src/app/page.tsx:7-11 | `Winder123.png` is a special case |
| `Classifier.ExampleNoTrigger` | src/app/page.tsx:7-11 | `vacation.png` is not a special case |
| `Classifier.ExampleTriggerAfterDot` | src/app/page.tsx:8 | `photo.sukh.png` is not a special case, because only the text before the first dot counts |
| `Progress.Step` | src/app/page.tsx:73-79 | a value of 90 or more becomes 90; a smaller value grows; a multiple of ten stays a multiple of ten and ends at most 90 |
| `Progress.StopsTicker` | src/app/page.tsx:74-75 | the tick that clears its interval sets 90; a tick that does not clear it raises the value |
| `Progress.Ticks` | src/app/page.tsx:72-80 | from a multiple of ten, `n` ticks stay on multiples of ten and at most 90 once `n > 0`; from a multiple of ten at most 90, they never go below the start |
| `Progress.TicksFromStart` | src/app/page.tsx:72-80 | from 0, `n` ticks show min(10 n, 90) |
| `Progress.TicksMonotoneAndBounded` | src/app/page.tsx:72-80 | from 0, the ticked values never decrease and stay in [0, 90] |
| `Progress.TicksReachCap` | src/app/page.tsx:74-77 | after nine ticks the value is 90 and stays there |
| `Progress.TicksNeverComplete` | src/app/page.tsx:72-80 | ticking alone never shows 100 |
| `Progress.StepKeepsGrid` | src/app/page.tsx:72-80 | a tick maps a multiple of ten in [0, 100] to a multiple of ten in [0, 90], and never lowers a value of at most 90 |
| `Progress.StaleTickPullsBack` | src/app/page.tsx:74-77 | a tick that sees 100 sets 90 and clears its interval |
| `ResultLabel.Label` | src/app/page.tsx:150-154 | "special case" iff the flag is set; "highly similar" iff the flag is unset and the score is strictly above 80; "low similarity" iff the flag is unset and the score is at most 80 |
| `ResultLabel.Message` | src/app/page.tsx:151-154 | each sentence is non-empty, and only the special-case sentence starts with "S" |
| `ResultLabel.MessagesDistinct` | src/app/page.tsx:151-154 | different verdicts have different sentences |
| `ResultLabel.ThresholdIsStrict` | src/app/page.tsx:152 | a score of exactly 80 is low similarity |
| `PageModel.Inv` | src/app/page.tsx:41-80 | in every reachable state progress is a multiple of ten in [0, 100]; at 100 the result area is shown; while a comparison is in flight the result area is hidden and progress is below 100 |
| `PageModel.Initial` | src/app/page.tsx:14-20 | the initial state has empty slots, no result, no difference image, no comparison in flight, progress 0, the flag unset, nothing pending and no interval running, and keeps the invariant |
| `PageModel.StoreImage` | src/app/page.tsx:29 | the file goes into the chosen slot, the other slot is kept, nothing else changes, and the invariant is kept |
| `PageModel.StoreVerdict` | src/app/page.tsx:30-34 | the flag becomes the classifier's verdict on the file, nothing else changes, and the invariant is kept |
| `PageModel.CompareImages` | src/app/page.tsx:38-82 | nothing happens unless both slots are filled; under the flag the result is 100, there is no difference image, no comparison is in flight, progress is 100, and no comparison work or ticker is started; otherwise one comparison and one ticker start, progress is reset to 0 and the old result is kept; the slots and the flag are never changed, and the invariant is kept |
| `PageModel.Upload` | src/app/page.tsx:22-88 | an event with no file changes nothing; with a file the chosen slot holds it, the other slot is kept and the flag becomes its verdict; while a slot stays empty nothing else changes; the invariant is kept |
| `PageModel.Complete` | src/app/page.tsx:58-65 | the result becomes 100 minus the mismatch, the difference image is stored, the comparison is over, progress is 100, and one fewer completion is pending; a mismatch in [0, 100] gives a score in [0, 100]; the invariant is kept |
| `PageModel.Tick` | src/app/page.tsx:72-80 | with no running interval nothing changes; otherwise progress takes one tick step and the interval stops when it saw 90 or more; only those two things change; the invariant is kept, and progress never falls while a comparison is in flight |
| `PageModel.Displayed` | src/app/page.tsx:136-167 | the result area is shown iff a result exists and no comparison is in flight; it shows that result and its label; when shown, it holds a difference image iff one is stored and the flag is unset, and then the stored one |
| `PageModel.UploadIncomplete` | src/app/page.tsx:22-88 | an upload that leaves the other slot empty only stores the file and the flag: it starts no comparison and leaves the comparison state as it was |
| `PageModel.UploadOverride` | src/app/page.tsx:22-88 | a trigger file uploaded into either slot, with the other slot filled, shows 100 with the special-case label and no difference image at once; if the flag was unset before, the render between `setImage` and the flag setter has started one more comparison and one more interval, otherwise none |
| `PageModel.UploadStartsComparison` | src/app/page.tsx:22-88 | an ordinary file uploaded with the other slot filled starts exactly one comparison and one interval, whatever the flag was, resets progress to 0 and hides the result area; the stored result and difference image are the forced 100 and none if the flag was set before, and are kept otherwise |
| `PageModel.VerdictFollowsLatestUpload` | src/app/page.tsx:22-88 | a trigger file in the first slot followed by an ordinary file in the second takes the ordinary comparison path, with the forced 100 from the render before the flag is reset stored but hidden |
| `PageModel.TickN` | src/app/page.tsx:72-80 | `n` firings change only progress and the interval count, never start an interval, and keep the invariant |
| `PageModel.TickNFollowsTicks` | src/app/page.tsx:72-80 | from a value on the ticker's path with an interval able to move it, `n` firings advance it `n` steps along that path and change nothing else |
| `PageModel.ProgressDuringComparison` | src/app/page.tsx:41-80 | after an ordinary comparison starts, `n` firings show min(10 n, 90), the comparison stays in flight and the result area stays hidden |
| `PageModel.ComparisonRequest` | src/app/page.tsx:38-88 | two uploads without a trigger in the second file, any number of firings and the completion show 100 minus the mismatch with the difference image, labelled highly similar iff the mismatch is below 20 |
| `PageModel.OverrideRequest` | src/app/page.tsx:22-88 | two uploads with a trigger in the second file show 100 with the special-case label and no difference image, whatever the first file is; one comparison is pending unless the first file is a trigger file too |
| `PageModel.OverrideLostToPendingComparison` | src/app/page.tsx:22-88 | an ordinary first file and a trigger file second leave one comparison pending, whose completion replaces the forced 100 by 100 minus the mismatch, with the label still "special case" and no difference image |
| `PageModel.StaleCompletionAfterOverride` | src/app/page.tsx:22-88 | a trigger file uploaded while an ordinary comparison is pending shows the forced 100 with two comparisons pending, and a completion replaces it by 100 minus the mismatch, with the label still "special case" and no difference image |
| `PageModel.StaleTickAfterCompletion` | src/app/page.tsx:59-80 | a completion before the ticker reached 90 leaves its interval running, and the next firing sets progress from 100 back to 90 while the result stays shown |
| `PageComponent.ComparisonPage.constructor` | src/app/page.tsx:14-20 | the fields start as the initial state |
| `PageComponent.ComparisonPage.SetImage` | src/app/page.tsx:29 | the new fields are `PageModel.StoreImage` of the old ones |
| `PageComponent.ComparisonPage.SetVerdict` | src/app/page.tsx:30-34 | the new fields are `PageModel.StoreVerdict` of the old ones |
| `PageComponent.ComparisonPage.CompareImages` | src/app/page.tsx:38-82 | the new fields are `PageModel.CompareImages` of the old ones |
| `PageComponent.ComparisonPage.Upload` | src/app/page.tsx:22-88 | `setImage`, the effect's run with the old flag, the flag setter, and a second effect run if the flag changed; the new fields are `PageModel.Upload` of the old ones |
| `PageComponent.ComparisonPage.Complete` | src/app/page.tsx:58-65 | the new fields are `PageModel.Complete` of the old ones |
| `PageComponent.ComparisonPage.Tick` | src/app/page.tsx:72-80 | the new fields are `PageModel.Tick` of the old ones |
| `PageComponent.ComparisonPage.ResultPanel` | src/app/page.tsx:136-167 | returns the result area of the current state: shown only when no comparison is in flight, with the stored score, and the special-case label iff the flag is set |
| `PageComponent.OrdinaryRequest` | src/app/page.tsx:38-88 | through the object, two ordinary uploads, ticks and a completion show 100 minus the mismatch with its label and the difference image |
| `PageComponent.SpecialRequest` | src/app/page.tsx:38-88 | through the object, a trigger file in the second slot shows 100 with the special-case label and no difference image |

## Left out

- The pixel comparison in `Resemble(...).compareTo(...).ignoreColors()` (src/app/page.tsx:55-65) is foreign library code. Its mismatch percentage is an input of `Complete`, and the difference image it renders is an uninterpreted string.
- `FileReader` and data-URL reading (src/app/page.tsx:50-69, 207) are asynchronous browser I/O. A read that never finishes is a completion that never arrives. File contents are never looked at.
- Timing of `setInterval` (300 ms) and the order of callbacks are not modelled. Each firing and each completion is an event that may come at any point.
- `parseFloat` and `toFixed(2)` (src/app/page.tsx:60, 147) are replaced by real numbers. There is no rounding or string formatting.
- `Classifier.ToLower`: lower-cases only the ASCII letters A-Z. JavaScript's `toLowerCase` also maps other Unicode letters.
- `PageModel.Upload`: assumes that React renders and runs the effect between `setImage` and the code after the `await`, as it does for an input event. Putting the identical `File` object into a slot again would not re-render in React, but the model still runs the effect.
- React's batching within one synchronous run is taken as given: the setter calls in `compareImages` or in the completion callback take effect together, with the last call to each setter winning.
- An empty difference-image string counts as a shown image. In JavaScript it would be falsy (src/app/page.tsx:156).
- `console.log` (src/app/page.tsx:27) is left out. It is output only.
- JSX rendering and animation (src/app/page.tsx:90-233), `src/app/layout.tsx`, `src/components/Header.tsx` and `src/components/Footer.tsx` are presentation with no logic.
