# Sleep tracker: the tracker screen's view model and the list's decisions

This project models two parts of the "track my sleep quality" app's
sleep-tracker screen in Dafny and proves properties about them.

**The view model (`SleepTrackerViewModel`).** It holds:
- the night being tracked ("tonight");
- a one-shot request to open the quality screen for a night;
- a one-shot request to show a snackbar.

It offers three handlers, START, STOP and CLEAR, plus two "done" calls that
consume the one-shot requests. The START, STOP and CLEAR button flags are
pure functions of that state.

**The sleep table.** The view model reaches it through insert, update,
clear, getTonight and getAllNights. It is modelled as a class holding a
sequence of `SleepNight` rows and the table's auto-increment key counter.

**The list adapter (`SleepNightAdapter`).** Two comparisons are handed to
the list-diffing library:
- same item: equal keys;
- same contents: record equality.

When an item is bound, its quality score (0 to 5, or anything else) picks
the picture it shows.

Files:
- `sleep_data.dfy` (module `SleepData`): the `SleepNight` row value. Also
  the `NightEntity` object, which is what a query returns and what the view
  model changes in place.
- `sleep_database.dfy` (module `SleepDatabase`): the table. It holds the
  newest-night query and the update rule, with their lemmas.
- `sleep_tracker.dfy` (module `SleepTracker`): the view model. It holds the
  visibility flags, the rule that reloads tonight, the handlers, and two
  client scenarios checked by the verifier.
- `sleep_night_adapter.dfy` (module `SleepNightAdapter`): the diff callback
  predicates and the quality-to-picture choice.

How the view model is modelled:
- `tonight` and the navigation request are references to a `NightEntity`.
  STOP sets the end time on the very object that `tonight` holds, and the
  navigation request then points at that same object. So a second STOP,
  made before the request is served, moves the end time seen through both
  references. `DoubleStopScenario` shows this.
- The view model's invariant `Valid` says two things. The table's keys grow
  along it. A tracked night equals the table's newest row.

Assumptions about collaborators whose code is not part of this model:
- The data-access object's queries are stated as assumptions in
  `sleep_database.dfy`:
  - getTonight returns, as a new object, the row with the greatest key.
  - update overwrites the row with the same key.
  - insert is given a night with key 0 and numbers it by an auto-increment
    counter that clearing does not reset.
- `SleepNight()` builds an unnumbered night (key 0) that starts and ends at
  the current time and has quality -1. This constructor is not part of
  this model; `NewNight(now)` states that assumption.
- `SleepNight` compares by value: its four fields are equal. The adapter's
  `oldItem == newItem` relies on this data-class equality.

The session lifecycle one would expect runs from no night, to a night in
progress, and then back to no night after STOP. The code does not take that
last step. `SleepTrackerViewModel.kt:204-219` never clears `tonight`: it
keeps the stopped night, so STOP stays offered until tonight is reloaded.
The model follows the code. What it proves about this is `ReloadAfterStop`.
Once a night is stopped at an instant other than its start, reloading
tonight finds nothing.

The three flags are the source's maps, written as predicates.
`StartButtonVisible` holds exactly when tonight is null. `StopButtonVisible`
holds exactly when it is not. `ClearButtonVisible` holds exactly when the
list of nights is non-empty. The handlers' postconditions state each flag's
value after the handler runs.

## Model

| member | source | states |
|---|---|---|
| `SleepDatabase.NewestNight` | app/src/main/java/com/example/android/trackmysleepquality/sleeptracker/SleepTrackerViewModel.kt:162 | getTonight's answer: none exactly for an empty table; otherwise a stored night whose key no stored night exceeds |
| `SleepDatabase.NewestIsUnique` | app/src/main/java/com/example/android/trackmysleepquality/sleeptracker/SleepTrackerViewModel.kt:162 | with distinct keys, the answer is determined: it is the one stored night of greatest key |
| `SleepDatabase.NewestIsLast` | app/src/main/java/com/example/android/trackmysleepquality/sleeptracker/SleepTrackerViewModel.kt:162 | because keys grow along the table, the newest night is the last row inserted |
| `SleepDatabase.UpdateRows` | app/src/main/java/com/example/android/trackmysleepquality/sleeptracker/SleepTrackerViewModel.kt:177-180 | update keeps the table's length and every row's key; rows keyed like the night become the night; all other rows are unchanged |
| `SleepDatabase.UpdateReplacesOne` | app/src/main/java/com/example/android/trackmysleepquality/sleeptracker/SleepTrackerViewModel.kt:177-180 | with distinct keys, updating a stored key replaces exactly that one row, in place |
| `SleepDatabase.UpdateOfMissingKey` | app/src/main/java/com/example/android/trackmysleepquality/sleeptracker/SleepTrackerViewModel.kt:177-180 | updating a key the table does not hold changes nothing |
| `SleepDatabase.SleepDatabaseDao.Insert` | app/src/main/java/com/example/android/trackmysleepquality/sleeptracker/SleepTrackerViewModel.kt:182-184 | insert of an unnumbered night appends exactly one row, numbered by the next counter value, and keeps the keys increasing |
| `SleepDatabase.SleepDatabaseDao.GetAllNights` | app/src/main/java/com/example/android/trackmysleepquality/sleeptracker/SleepTrackerViewModel.kt:56 | the `nights` list the view model observes is the table's stored rows |
| `SleepDatabase.SleepDatabaseDao.Update` | app/src/main/java/com/example/android/trackmysleepquality/sleeptracker/SleepTrackerViewModel.kt:177-180 | the table becomes `UpdateRows` of the old table; the counter is unchanged |
| `SleepDatabase.SleepDatabaseDao.Clear` | app/src/main/java/com/example/android/trackmysleepquality/sleeptracker/SleepTrackerViewModel.kt:172-174 | the table becomes empty; the counter keeps its value |
| `SleepDatabase.SleepDatabaseDao.GetTonight` | app/src/main/java/com/example/android/trackmysleepquality/sleeptracker/SleepTrackerViewModel.kt:162 | null exactly for an empty table; otherwise a new object holding the newest night |
| `SleepData.NewNight` | app/src/main/java/com/example/android/trackmysleepquality/sleeptracker/SleepTrackerViewModel.kt:193 | the night created on START is unnumbered (key 0), starts at `now`, is in progress (end equals start) and is unrated (-1) |
| `SleepTracker.StartButtonVisible` | app/src/main/java/com/example/android/trackmysleepquality/sleeptracker/SleepTrackerViewModel.kt:71-73 | START is offered exactly when tonight is null |
| `SleepTracker.StopButtonVisible` | app/src/main/java/com/example/android/trackmysleepquality/sleeptracker/SleepTrackerViewModel.kt:79-81 | STOP is offered exactly when tonight is not null |
| `SleepTracker.ClearButtonVisible` | app/src/main/java/com/example/android/trackmysleepquality/sleeptracker/SleepTrackerViewModel.kt:88-90 | CLEAR is offered exactly when the list of nights is non-empty |
| `SleepTracker.StartStopExclusive` | app/src/main/java/com/example/android/trackmysleepquality/sleeptracker/SleepTrackerViewModel.kt:71-81 | in every state, START is offered exactly when STOP is not |
| `SleepTracker.TonightRow` | app/src/main/java/com/example/android/trackmysleepquality/sleeptracker/SleepTrackerViewModel.kt:160-169 | a reload finds nothing in an empty table; what it finds is a stored night that is in progress and has the greatest key |
| `SleepTracker.TonightRowOfNewest` | app/src/main/java/com/example/android/trackmysleepquality/sleeptracker/SleepTrackerViewModel.kt:160-169 | a reload finds the newest night when its end equals its start, and nothing when that night has ended |
| `SleepTracker.ReloadAfterStart` | app/src/main/java/com/example/android/trackmysleepquality/sleeptracker/SleepTrackerViewModel.kt:189-198 | appending an in-progress night keyed above every stored one keeps keys increasing, and a reload then finds that night |
| `SleepTracker.ReloadAfterStop` | app/src/main/java/com/example/android/trackmysleepquality/sleeptracker/SleepTrackerViewModel.kt:210-215 | after the newest night is updated with an end other than its start, a reload finds nothing |
| `SleepTracker.SleepTrackerViewModel.constructor` | app/src/main/java/com/example/android/trackmysleepquality/sleeptracker/SleepTrackerViewModel.kt:116-118 | a new view model has no pending requests; tonight is what a reload of the table yields |
| `SleepTracker.SleepTrackerViewModel.InitializeTonight` | app/src/main/java/com/example/android/trackmysleepquality/sleeptracker/SleepTrackerViewModel.kt:146-150 | tonight becomes what a reload yields; the two requests are untouched |
| `SleepTracker.SleepTrackerViewModel.GetTonightFromDatabase` | app/src/main/java/com/example/android/trackmysleepquality/sleeptracker/SleepTrackerViewModel.kt:160-169 | null exactly when the reload rule finds nothing; otherwise a new object equal to the table's last, in-progress row |
| `SleepTracker.SleepTrackerViewModel.DoneShowingSnackbar` | app/src/main/java/com/example/android/trackmysleepquality/sleeptracker/SleepTrackerViewModel.kt:112-114 | the snackbar request is off afterwards, whatever it was before (so calling it twice is calling it once); tonight and the navigation request are untouched; the table is not in its frame |
| `SleepTracker.SleepTrackerViewModel.DoneNavigating` | app/src/main/java/com/example/android/trackmysleepquality/sleeptracker/SleepTrackerViewModel.kt:140-142 | the navigation request is null afterwards, whatever it was before (so calling it twice is calling it once); tonight and the snackbar request are untouched; the table is not in its frame |
| `SleepTracker.SleepTrackerViewModel.OnStartTracking` | app/src/main/java/com/example/android/trackmysleepquality/sleeptracker/SleepTrackerViewModel.kt:189-199 | exactly one night (start = end = now, unrated, next key) is appended; tonight becomes a new object equal to it, which the reload rule also finds; STOP and CLEAR are offered; requests untouched |
| `SleepTracker.SleepTrackerViewModel.OnStopTracking` | app/src/main/java/com/example/android/trackmysleepquality/sleeptracker/SleepTrackerViewModel.kt:204-219 | with no tonight, nothing changes; otherwise the same tonight object gets end = now with its other fields kept, the table row of its key is replaced by it and all others kept, the navigation request is that same object, and tonight stays set; a stop at a time other than the start leaves nothing for a reload |
| `SleepTracker.SleepTrackerViewModel.OnClear` | app/src/main/java/com/example/android/trackmysleepquality/sleeptracker/SleepTrackerViewModel.kt:224-234 | the table is empty, tonight is null and the snackbar is requested; START is offered, STOP and CLEAR are not; the navigation request is untouched |
| `SleepNightAdapter.AreItemsTheSame` | app/src/main/java/com/example/android/trackmysleepquality/sleeptracker/SleepNightAdapter.kt:73-75 | two items are the same item exactly when their keys are equal |
| `SleepNightAdapter.AreContentsTheSame` | app/src/main/java/com/example/android/trackmysleepquality/sleeptracker/SleepNightAdapter.kt:77-79 | two items have the same contents exactly when they are equal as records |
| `SleepNightAdapter.ItemsTheSameIsEquivalence` | app/src/main/java/com/example/android/trackmysleepquality/sleeptracker/SleepNightAdapter.kt:73-75 | same-item (equal keys) is reflexive, symmetric and transitive |
| `SleepNightAdapter.ContentsTheSameIsEquivalence` | app/src/main/java/com/example/android/trackmysleepquality/sleeptracker/SleepNightAdapter.kt:77-79 | same-contents is reflexive, symmetric and transitive |
| `SleepNightAdapter.ContentsTheSameIsFieldwise` | app/src/main/java/com/example/android/trackmysleepquality/sleeptracker/SleepNightAdapter.kt:77-79 | same-contents holds exactly when key, start, end and quality all agree |
| `SleepNightAdapter.SameContentsIsSameItem` | app/src/main/java/com/example/android/trackmysleepquality/sleeptracker/SleepNightAdapter.kt:73-79 | items with the same contents are always the same item |
| `SleepNightAdapter.ChangedNightIsSameItem` | app/src/main/java/com/example/android/trackmysleepquality/sleeptracker/SleepNightAdapter.kt:73-79 | a night with the same key and some other field changed is the same item with changed contents |
| `SleepNightAdapter.QualityImage` | app/src/main/java/com/example/android/trackmysleepquality/sleeptracker/SleepNightAdapter.kt:49-58 | the "active" picture is chosen exactly for scores outside 0..5, the unrated -1 included |
| `SleepNightAdapter.QualityImageRoundTrip` | app/src/main/java/com/example/android/trackmysleepquality/sleeptracker/SleepNightAdapter.kt:50-57 | reading back the score a picture stands for gives the score for 0..5, and none for any other value |
| `SleepNightAdapter.QualityImagesDistinct` | app/src/main/java/com/example/android/trackmysleepquality/sleeptracker/SleepNightAdapter.kt:50-56 | scores 0 to 5 show six pairwise different pictures |

## Left out

- Coroutines: the launches, the switch to the I/O dispatcher and cancellation are not modelled. Each handler is one atomic step, so interleavings of handlers that were launched together are not modelled.
- LiveData notification: the flags are pure functions of the state, `StartButtonVisible`, `StopButtonVisible` and `ClearButtonVisible`, and are not observable streams. Before its first value, a LiveData holds nothing. The model starts the snackbar request at false and the navigation request at null.
- The data-access object's queries and the `SleepNight` entity's defaults are not part of this model. Their assumed meaning is stated above and in `sleep_database.dfy`.
- The row order of getAllNights is not modelled. Only its emptiness is used, by the CLEAR flag.
- `System.currentTimeMillis()` is the `now` parameter of the handlers.
- 64-bit keys and instants are unbounded integers. Nothing in the core does arithmetic on instants. The only arithmetic on keys is the counter's increment, whose overflow is not modelled.
- The list-diffing algorithm belongs to a library and is not modelled. Only the two comparisons it is given are modelled.
- View plumbing is not modelled: creating and binding view holders, inflating layouts, the text of the duration and quality labels (formatters that are not part of this model), and resource lookup.
- Persistence failures are not modelled. A write that fails would leave the model's state out of step with the table.
- Commented-out code is not live behaviour and is not modelled: the UI scope, the formatted nights string and the teardown override.
