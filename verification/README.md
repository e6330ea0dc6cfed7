# TaskManager task store in Dafny

A model of the task store of the TaskManager iOS app: the `Task` record with
its `Priority` enumeration, and the `TaskViewModel` that holds the ordered
task list and the search text. The view model derives the filtered list and
adds, toggles and deletes tasks. After every change it saves the whole list
under one key of the defaults database, and it reads that key back when it
is created.

Layout, one module per concern:

- `optional.dfy` (`Optional`): the `Option` type standing in for Swift optionals.
- `text.dfy` (`Text`): case folding and substring search behind the title search.
- `sequences.dfy` (`Sequences`): removal of a set of positions, as
  `remove(atOffsets:)` does, and the "selected at increasing positions"
  predicate `SelectedBy` that states order-preserving subsequences.
- `task.dfy` (`Models`): `Task`, `Priority`, raw values, colours, defaults.
- `persistence.dfy` (`Persistence`): the defaults database as a class holding
  a `map` from keys to stored values, the fixed key `"SavedTasks"`, and an
  abstract encoding of the list.
- `view_model.dfy` (`ViewModels`): the filter and lookup functions, their
  lemmas, and the class `TaskViewModel`. Its methods change `tasks` and the
  defaults entries in place.
- `scenarios.dfy` (`Scenarios`): client methods that use only the class
  contracts. They add, complete, search for and reload a task, load from a
  corrupted slot, and delete the first of three tasks.

`UUID()` becomes the counter `nextId`, so "fresh" means "not the id of any
stored task". `Date()` becomes a `Timestamp` parameter of `AddTask`, which the
model never inspects.

The model follows the code as written:

- `deleteTask` applies its offsets to the stored list.
- An out-of-range offset traps.
- `toggleComplete` on an unknown id silently does nothing.

## Model

| member | source | states |
|---|---|---|
| `Models.RawValue` | TaskManager/Models/Task.swift:19-21 | the raw string of each priority: low is "Low", medium is "Medium", high is "High"; injectivity and the round trip are `RawValueAndColorInjective` and `RawValueRoundTrip` |
| `Models.Color` | TaskManager/Models/Task.swift:23-28 | the colour string of each priority: low is "green", medium is "orange", high is "red"; total over the three cases and injective (`RawValueAndColorInjective`) |
| `Models.NewTask` | TaskManager/Models/Task.swift:10-16 | the memberwise initialiser: the given id, title and date, with priority and category defaulting to medium and "Personal" and `isCompleted` false (`NewTaskDefaults`) |
| `Text.CaseInsensitiveContains` | TaskManager/ViewModels/TaskViewModel.swift:27 | `localizedCaseInsensitiveContains`: the folded title contains the folded search text; its meaning is given by `Contains`, `CaseInsensitiveContainsIgnoresCase` and `ContainsImpliesCaseInsensitive` |
| `Sequences.RemoveOffsets` | TaskManager/ViewModels/TaskViewModel.swift:48 | `remove(atOffsets:)`; what it keeps, in which order and how many is stated by `RemoveOffsetsSelects`, `RemoveOffsetsLength` and `RemoveOffsetsMembers` |
| `ViewModels.FilterByTitle` | TaskManager/ViewModels/TaskViewModel.swift:27 | `tasks.filter` on the title match; `FilterByTitleSelects` and `FilterByTitleMembers` state that it is the ordered selection of exactly the matching tasks |
| `ViewModels.Displayed` | TaskManager/ViewModels/TaskViewModel.swift:23-28 | the whole list for an empty search text, the title filter otherwise; `DisplayedIsSelection` and `TaskViewModel.FilteredTasks` state its meaning |
| `Persistence.Decode` | TaskManager/ViewModels/TaskViewModel.swift:62 | decoding yields the stored list, or nothing for data that does not decode; `Encode` states the lossless round trip |
| `Persistence.UserDefaults.constructor` | TaskManager/ViewModels/TaskViewModel.swift:55 | the defaults database starts with the given entries, which `set(_:forKey:)` and `data(forKey:)` then write and read |
| `Models.FromRawValue` | TaskManager/Models/Task.swift:18-21 | decoding a raw string gives `Some(p)` exactly when `p`'s raw value is that string, so the raw-value mapping is injective |
| `Models.RawValueRoundTrip` | TaskManager/Models/Task.swift:19-21 | decoding the raw value of any priority returns that priority |
| `Models.RawValueAndColorInjective` | TaskManager/Models/Task.swift:19-28 | distinct priorities have distinct raw values ("Low", "Medium", "High") and distinct colours ("green", "orange", "red") |
| `Models.AllCasesEnumeratesPriorities` | TaskManager/Models/Task.swift:18-21 | `allCases` has exactly three entries, low, medium, high in that order, and contains every priority |
| `Models.NewTaskDefaults` | TaskManager/Models/Task.swift:11-16 | a task built from a title alone is not completed, has priority medium and category "Personal", and keeps the given id, title and date |
| `Models.Toggled` | TaskManager/ViewModels/TaskViewModel.swift:41 | toggling negates `isCompleted` and changes no other field |
| `Models.ToggledTwice` | TaskManager/ViewModels/TaskViewModel.swift:41 | toggling a task twice restores it |
| `Text.Contains` | TaskManager/ViewModels/TaskViewModel.swift:27 | the left-to-right scan answers true exactly when the needle occurs at some position of the haystack |
| `Text.FoldIdempotent` | TaskManager/ViewModels/TaskViewModel.swift:27 | case folding twice equals folding once |
| `Text.CaseInsensitiveContainsIgnoresCase` | TaskManager/ViewModels/TaskViewModel.swift:27 | lower-casing the title or the search text first never changes whether the title matches |
| `Text.ContainsImpliesCaseInsensitive` | TaskManager/ViewModels/TaskViewModel.swift:27 | a title that literally contains the search text matches it |
| `Sequences.KeptPositions` | TaskManager/ViewModels/TaskViewModel.swift:48 | the positions kept by a removal increase strictly, are below the length, and are exactly the positions not named by an offset |
| `Sequences.RemoveOffsetsSelects` | TaskManager/ViewModels/TaskViewModel.swift:48 | `remove(atOffsets:)` leaves exactly the elements at the kept positions, in their original relative order |
| `Sequences.KeptPositionsLength` | TaskManager/ViewModels/TaskViewModel.swift:48 | with every offset in range, the number of kept positions is the length minus the number of distinct offsets |
| `Sequences.RemoveOffsetsLength` | TaskManager/ViewModels/TaskViewModel.swift:48 | with every offset in range, removal shortens the list by the number of distinct offsets |
| `Sequences.RemoveOffsetsMembers` | TaskManager/ViewModels/TaskViewModel.swift:48 | an element survives removal exactly when it stands at some position that no offset names |
| `ViewModels.MatchPositions` | TaskManager/ViewModels/TaskViewModel.swift:27 | the matching positions increase strictly, and a position is included exactly when its task's title contains the search text, ignoring case |
| `ViewModels.FilterByTitleSelects` | TaskManager/ViewModels/TaskViewModel.swift:27 | `tasks.filter` is the order-preserving subsequence of `tasks` at the matching positions |
| `ViewModels.FilterByTitleMembers` | TaskManager/ViewModels/TaskViewModel.swift:27 | a task is in the filtered list exactly when it is stored and its title matches |
| `ViewModels.MatchPositionsOnlyReadTitles` | TaskManager/ViewModels/TaskViewModel.swift:27 | two lists whose titles agree position by position match at the same positions, so category and the other fields are never consulted |
| `ViewModels.DisplayedIsSelection` | TaskManager/ViewModels/TaskViewModel.swift:23-28 | the displayed list is the subsequence of `tasks` at the display positions: all positions for an empty search, the matching ones otherwise |
| `ViewModels.TaskViewModel.FilteredTasks` | TaskManager/ViewModels/TaskViewModel.swift:23-29 | with an empty search text the result is `tasks` itself; otherwise it is an order-preserving subsequence holding exactly the stored tasks whose titles match; it reads the state and changes nothing |
| `ViewModels.FilterCommutesWithRemoval` | TaskManager/TaskManager/ContentView.swift:59-62 | deleting the stored tasks behind some rows of the filtered list removes exactly those rows from the filtered list and keeps the rest in order |
| `ViewModels.DisplayedCommutesWithRemoval` | TaskManager/TaskManager/ContentView.swift:59-62 | the same holds for the displayed list, whether or not the search text is empty |
| `ViewModels.DeleteAgreesWhenNotSearching` | TaskManager/ViewModels/TaskViewModel.swift:24-25 | with an empty search text, removing the offsets from `tasks` directly, as the code does, gives the same list as first translating them as displayed offsets; the as-written and corrected deletions agree |
| `ViewModels.DeleteWhileSearchingRemovesHiddenTask` | TaskManager/TaskManager/ContentView.swift:59-62 | with tasks "rent" and "milk" and search "milk", deleting displayed row 0 by stored offset removes "rent" and leaves "milk" on screen |
| `ViewModels.FirstIndexOfId` | TaskManager/ViewModels/TaskViewModel.swift:40 | `firstIndex(where:)` returns the smallest position holding the id, or nothing when no task holds it |
| `ViewModels.ToggleById` | TaskManager/ViewModels/TaskViewModel.swift:40-41 | length and ids are unchanged, only `isCompleted` can change, and it changes at exactly the first position with the id |
| `ViewModels.ToggleByIdTwice` | TaskManager/ViewModels/TaskViewModel.swift:39-43 | toggling the same id twice restores the original list |
| `ViewModels.IdBound` | TaskManager/Models/Task.swift:11 | the bound exceeds the id of every task in the list, so the fresh-id counter can start there after loading |
| `ViewModels.SelectionKeepsIdsDistinct` | TaskManager/ViewModels/TaskViewModel.swift:48 | a subsequence of a list with distinct ids has distinct ids |
| `Persistence.Encode` | TaskManager/ViewModels/TaskViewModel.swift:54-55 | decoding the encoding of a list gives back the same list, field for field and in order |
| `Persistence.Restored` | TaskManager/ViewModels/TaskViewModel.swift:60-63 | something is restored exactly when the key is present and its data decodes, and then the stored data is the encoding of what is restored |
| `ViewModels.TaskViewModel.constructor` | TaskManager/ViewModels/TaskViewModel.swift:18-20 | a new store has an empty search text, and its tasks are the saved list if the slot holds a decodable one, otherwise empty, with no error |
| `ViewModels.TaskViewModel.LoadTasks` | TaskManager/ViewModels/TaskViewModel.swift:60-64 | loading replaces `tasks` by the decoded saved list, or leaves it unchanged when the key is absent or does not decode |
| `ViewModels.TaskViewModel.SaveTasks` | TaskManager/ViewModels/TaskViewModel.swift:53-56 | saving overwrites the one key with the encoding of the whole current list and leaves every other key alone |
| `ViewModels.TaskViewModel.AddTask` | TaskManager/ViewModels/TaskViewModel.swift:32-36 | the list grows by one with the old list as unchanged prefix; the new last task has the given title, priority and category, is not completed, and has an id no old task has; ids stay distinct; the whole list is saved |
| `ViewModels.TaskViewModel.ToggleComplete` | TaskManager/ViewModels/TaskViewModel.swift:39-44 | the first task with the id has `isCompleted` negated and nothing else changes, and the list is saved; with an unknown id, neither the list nor the saved slot changes |
| `ViewModels.TaskViewModel.DeleteTask` | TaskManager/ViewModels/TaskViewModel.swift:47-50 | given offsets below the length, exactly the tasks at those positions are removed, the survivors keep their order, the length drops by the number of offsets, ids stay distinct, and the whole list is saved |
| `ViewModels.TaskViewModel.DeleteDisplayedTasks` | TaskManager/TaskManager/ContentView.swift:59-62 | offsets into the displayed list are translated to stored positions before removal, so the displayed list loses exactly the rows at those offsets and keeps the others in order; the whole list is saved |

## Left out

- The SwiftUI views in `ContentView.swift`: layout, sheets, pickers and styling. The one rule they enforce, disabling "Add" for an empty title (ContentView.swift:192), is a caller check. `AddTask` accepts any title, as the store does.
- Combine, `@Published` and `ObservableObject`: change notification only, with no state of its own.
- `UUID()` and `Date()`: replaced by the fresh-id counter `nextId` and a `Timestamp` parameter. Random UUIDs can collide only with negligible probability; the counter rules collisions out.
- `JSONEncoder`/`JSONDecoder` and the bytes in the defaults database: a stored value is either the encoding of a list or data that does not decode. `saveTasks` skips saving when encoding throws; the model assumes encoding always succeeds.
- `Text.CaseInsensitiveContains`: folds ASCII letters only. It does not model the locale-aware comparison of `localizedCaseInsensitiveContains` (Unicode case folding, other locales' rules).
- `Text.Contains`: answers true for an empty needle, while Foundation's search answers false. `filteredTasks` never searches for the empty string, because it tests `isEmpty` first, so this does not affect the store.
- `ViewModels.TaskViewModel.DeleteTask`: an out-of-range offset traps in `remove(atOffsets:)`. The model makes "every offset below the length" a precondition.
- Id uniqueness: the source never checks ids loaded from the defaults database. The model therefore proves that each operation keeps distinct ids distinct, and does not make distinctness an invariant of `Valid()`.

## Findings

| source | as written | input that shows it | evidently intended | confidence | as-written member | corrected member |
|---|---|---|---|---|---|---|
| TaskManager/TaskManager/ContentView.swift:59-62 | swipe-to-delete hands over offsets into `filteredTasks`, and `deleteTask` (TaskViewModel.swift:47-48) removes those offsets from `tasks` | tasks "rent", "milk"; search text "milk"; delete row 0 (the only row shown, "milk") | the swiped row is deleted: "milk" is removed and "rent" stays | high; not executed | `ViewModels.DeleteWhileSearchingRemovesHiddenTask` | `ViewModels.TaskViewModel.DeleteDisplayedTasks` |

`ViewModels.TaskViewModel.DeleteTask` models the code as written. The as-written
lemma shows that, while a search is active, it deletes a hidden task and the
swiped row stays on screen. `DeleteAgreesWhenNotSearching` shows it is correct
when the search text is empty. `DeleteDisplayedTasks` first maps each displayed
offset to the stored position of that row. It is proved to remove exactly the
swiped rows from the displayed list (`DisplayedCommutesWithRemoval`).
