/** The task store of TaskManager/ViewModels/TaskViewModel.swift: the list of
    tasks, the search text, the filtered view and the operations that change
    the list and save it. */
module ViewModels {
  import opened Optional
  import opened Text
  import opened Sequences
  import opened Models
  import opened Persistence

  // ---------------------------------------------------------------------
  // The filtered view

  /** The search predicate: the title contains the search text, ignoring
      case. Only the title is consulted. */
  function TitleMatches(t: Task, searchText: string): bool
  {
    CaseInsensitiveContains(t.title, searchText)
  }

  /** The positions of the tasks whose titles match, in increasing order. */
  function MatchPositions(ts: seq<Task>, searchText: string): (idx: seq<nat>)
    ensures StrictlyIncreasing(idx)
    ensures forall j :: 0 <= j < |idx| ==> idx[j] < |ts|
    ensures forall i: nat :: i in idx <==> i < |ts| && TitleMatches(ts[i], searchText)
    decreases |ts|
  {
    if ts == [] then []
    else
      var k := |ts| - 1;
      MatchPositions(ts[..k], searchText) + (if TitleMatches(ts[k], searchText) then [k] else [])
  }

  /** `tasks.filter { title contains searchText }`. */
  function FilterByTitle(ts: seq<Task>, searchText: string): seq<Task>
    decreases |ts|
  {
    if ts == [] then []
    else
      var k := |ts| - 1;
      FilterByTitle(ts[..k], searchText) + (if TitleMatches(ts[k], searchText) then [ts[k]] else [])
  }

  /** The filter keeps exactly the tasks at the matching positions, in their
      stored order. */
  lemma {:induction false} FilterByTitleSelects(ts: seq<Task>, searchText: string)
    ensures SelectedBy(FilterByTitle(ts, searchText), ts, MatchPositions(ts, searchText))
    decreases |ts|
  {
    if ts != [] {
      FilterByTitleSelects(ts[..|ts| - 1], searchText);
    }
  }

  /** The list the user sees: everything when the search text is empty,
      otherwise the matching tasks. */
  function Displayed(ts: seq<Task>, searchText: string): seq<Task>
  {
    if searchText == [] then ts else FilterByTitle(ts, searchText)
  }

  /** Where each row of the displayed list sits in `ts`. */
  function DisplayPositions(ts: seq<Task>, searchText: string): seq<nat>
  {
    if searchText == [] then AllPositions(|ts|) else MatchPositions(ts, searchText)
  }

  /** The displayed list is the selection of `ts` at the display positions. */
  lemma DisplayedIsSelection(ts: seq<Task>, searchText: string)
    ensures SelectedBy(Displayed(ts, searchText), ts, DisplayPositions(ts, searchText))
  {
    if searchText == [] {
      SelectAll(ts);
    } else {
      FilterByTitleSelects(ts, searchText);
    }
  }

  /** A task is shown exactly when it is stored and its title matches. */
  lemma FilterByTitleMembers(ts: seq<Task>, searchText: string)
    ensures forall t :: t in FilterByTitle(ts, searchText) <==> t in ts && TitleMatches(t, searchText)
  {
  }

  /** Which tasks match depends on the titles alone, not on category,
      priority, completion, id or date. */
  lemma {:induction false} MatchPositionsOnlyReadTitles(ts: seq<Task>, us: seq<Task>, searchText: string)
    requires |ts| == |us|
    requires forall i :: 0 <= i < |ts| ==> ts[i].title == us[i].title
    ensures MatchPositions(ts, searchText) == MatchPositions(us, searchText)
    decreases |ts|
  {
    if ts != [] {
      var k := |ts| - 1;
      MatchPositionsOnlyReadTitles(ts[..k], us[..k], searchText);
    }
  }

  /** Filtering a list extended by one task. */
  lemma FilterByTitleSnoc(ts: seq<Task>, t: Task, searchText: string)
    ensures FilterByTitle(ts + [t], searchText) ==
            FilterByTitle(ts, searchText) + (if TitleMatches(t, searchText) then [t] else [])
  {
  }

  /** Deleting the stored tasks behind some rows of the filtered view removes
      exactly those rows from the view and keeps the other rows in order. */
  lemma {:induction false} FilterCommutesWithRemoval(ts: seq<Task>, searchText: string, offsets: set<nat>)
    ensures FilterByTitle(RemoveOffsets(ts, PositionsOf(MatchPositions(ts, searchText), offsets)), searchText)
            == RemoveOffsets(FilterByTitle(ts, searchText), offsets)
    decreases |ts|
  {
    if ts != [] {
      var k := |ts| - 1;
      var s, t := ts[..k], ts[k];
      assert ts == s + [t];
      var matches := TitleMatches(t, searchText);
      var ps := MatchPositions(s, searchText);
      assert MatchPositions(ts, searchText) == ps + (if matches then [k] else []);
      var stored := PositionsOf(MatchPositions(ts, searchText), offsets);
      var storedBefore := PositionsOf(ps, offsets);
      PositionsOfSnoc(ps, k, matches, offsets);
      RemoveOffsetsAgree(s, stored, storedBefore);
      var rest := RemoveOffsets(s, storedBefore);
      var shown := FilterByTitle(s, searchText);
      FilterByTitleSelects(s, searchText);
      assert |shown| == |ps|;
      FilterCommutesWithRemoval(s, searchText, offsets);
      RemoveOffsetsSnoc(s, t, stored);
      FilterByTitleSnoc(s, t, searchText);
      if !matches {
        assert RemoveOffsets(ts, stored) == rest + [t];
        FilterByTitleSnoc(rest, t, searchText);
        assert FilterByTitle(rest + [t], searchText) == FilterByTitle(rest, searchText);
        assert FilterByTitle(rest, searchText) == RemoveOffsets(shown, offsets);
        assert FilterByTitle(ts, searchText) == shown;
      } else if |ps| in offsets {
        assert RemoveOffsets(ts, stored) == rest;
        RemoveOffsetsSnoc(shown, t, offsets);
      } else {
        assert RemoveOffsets(ts, stored) == rest + [t];
        FilterByTitleSnoc(rest, t, searchText);
        RemoveOffsetsSnoc(shown, t, offsets);
      }
    }
  }

  /** The same for the displayed list, whether or not a search is active. */
  lemma DisplayedCommutesWithRemoval(ts: seq<Task>, searchText: string, offsets: set<nat>)
    ensures Displayed(RemoveOffsets(ts, PositionsOf(DisplayPositions(ts, searchText), offsets)), searchText)
            == RemoveOffsets(Displayed(ts, searchText), offsets)
  {
    if searchText == [] {
      var all := AllPositions(|ts|);
      forall i: nat | i < |ts| ensures i in PositionsOf(all, offsets) <==> i in offsets {
        if i in offsets {
          assert all[i] == i;
        }
      }
      RemoveOffsetsAgree(ts, PositionsOf(all, offsets), offsets);
    } else {
      FilterCommutesWithRemoval(ts, searchText, offsets);
    }
  }

  /** With no search active, deleting by offsets into the stored list, as
      the code does, is the same as first translating them as displayed
      offsets: the code as written and the corrected deletion agree. */
  lemma DeleteAgreesWhenNotSearching(ts: seq<Task>, offsets: set<nat>)
    ensures RemoveOffsets(ts, offsets) == RemoveOffsets(ts, PositionsOf(DisplayPositions(ts, []), offsets))
  {
    var all := AllPositions(|ts|);
    forall i: nat | i < |ts| ensures i in offsets <==> i in PositionsOf(all, offsets) {
      if i in offsets {
        assert all[i] == i;
      }
    }
    RemoveOffsetsAgree(ts, offsets, PositionsOf(all, offsets));
  }

  /** With a search active, applying the displayed offsets to the stored list
      deletes the wrong task: the user swipes away "milk", the only row shown,
      and the hidden "rent" task is deleted while "milk" stays on screen. */
  lemma DeleteWhileSearchingRemovesHiddenTask()
    ensures var rent := NewTask(0, "rent", Timestamp(0));
            var milk := NewTask(1, "milk", Timestamp(0));
            Displayed([rent, milk], "milk") == [milk] &&
            RemoveOffsets([rent, milk], {0}) == [milk] &&
            Displayed(RemoveOffsets([rent, milk], {0}), "milk") == [milk] &&
            RemoveOffsets(Displayed([rent, milk], "milk"), {0}) == []
  {
    var rent := NewTask(0, "rent", Timestamp(0));
    var milk := NewTask(1, "milk", Timestamp(0));
    assert Fold("milk") == "milk";
    assert Fold("rent") == "rent";
    assert "rent"[0] != "milk"[0];
    assert !("milk" <= "rent");
    assert Contains("rent", "milk") == Contains("ent", "milk");
    assert !TitleMatches(rent, "milk");
    assert TitleMatches(milk, "milk");
    FilterByTitleSnoc([rent], milk, "milk");
    FilterByTitleSnoc([], rent, "milk");
    assert [rent, milk] == [rent] + [milk];
    RemoveOffsetsSnoc([rent], milk, {0});
    RemoveOffsetsSnoc([], rent, {0});
    assert [rent] == [] + [rent];
    FilterByTitleSnoc([], milk, "milk");
    assert [milk] == [] + [milk];
    RemoveOffsetsSnoc([], milk, {0});
  }

  // ---------------------------------------------------------------------
  // Lookup and toggling by id

  /** `firstIndex(where: { $0.id == id })`. */
  function FirstIndexOfId(ts: seq<Task>, id: TaskId): (r: Option<nat>)
    ensures r.Some? ==> r.value < |ts| && ts[r.value].id == id &&
                        forall j :: 0 <= j < r.value ==> ts[j].id != id
    ensures r.None? ==> forall j :: 0 <= j < |ts| ==> ts[j].id != id
    decreases |ts|
  {
    if ts == [] then None
    else if ts[0].id == id then Some(0)
    else
      match FirstIndexOfId(ts[1..], id)
      case None => None
      case Some(i) => Some(i + 1)
  }

  /** The list after toggling the first task with the given id. */
  function ToggleById(ts: seq<Task>, id: TaskId): (r: seq<Task>)
    ensures |r| == |ts|
    ensures forall i :: 0 <= i < |ts| ==> r[i].(isCompleted := ts[i].isCompleted) == ts[i]
    ensures forall i :: 0 <= i < |ts| ==>
              (r[i].isCompleted != ts[i].isCompleted <==> FirstIndexOfId(ts, id) == Some(i))
  {
    match FirstIndexOfId(ts, id)
    case None => ts
    case Some(i) => ts[i := Toggled(ts[i])]
  }

  /** The first index of an id depends only on the ids. */
  lemma FirstIndexOfIdSameIds(ts: seq<Task>, us: seq<Task>, id: TaskId)
    requires |ts| == |us|
    requires forall i :: 0 <= i < |ts| ==> ts[i].id == us[i].id
    ensures FirstIndexOfId(ts, id) == FirstIndexOfId(us, id)
  {
  }

  /** Toggling the same id twice restores the list. */
  lemma ToggleByIdTwice(ts: seq<Task>, id: TaskId)
    ensures ToggleById(ToggleById(ts, id), id) == ts
  {
  }

  // ---------------------------------------------------------------------
  // Ids

  /** A number above every id in the list: where the fresh-id counter may
      start after loading it. */
  function IdBound(ts: seq<Task>): (b: nat)
    ensures forall t :: t in ts ==> t.id < b
    decreases |ts|
  {
    if ts == [] then 0
    else
      var rest := IdBound(ts[1..]);
      assert forall t :: t in ts ==> t == ts[0] || t in ts[1..];
      if ts[0].id < rest then rest else ts[0].id + 1
  }

  /** A selection from a list of distinct ids has distinct ids. */
  lemma SelectionKeepsIdsDistinct(r: seq<Task>, ts: seq<Task>, idx: seq<nat>)
    requires SelectedBy(r, ts, idx) && DistinctIds(ts)
    ensures DistinctIds(r)
  {
  }

  // ---------------------------------------------------------------------
  // The store

  class TaskViewModel {
    var tasks: seq<Task>
    var searchText: string
    /** The next fresh id; stands in for `UUID()`. */
    var nextId: TaskId
    /** The defaults database the list is saved in. */
    const defaults: UserDefaults

    /** Every stored id is below the fresh-id counter. */
    ghost predicate Valid()
      reads this
    {
      forall t :: t in tasks ==> t.id < nextId
    }

    /** `init()`: starts empty, then loads the saved list if there is one. */
    constructor (defaults: UserDefaults)
      ensures this.defaults == defaults && Valid()
      ensures searchText == []
      ensures tasks == match Restored(defaults.entries)
                       case Some(saved) => saved
                       case None => []
    {
      tasks := [];
      searchText := [];
      nextId := 0;
      this.defaults := defaults;
      new;
      LoadTasks();
    }

    /** `filteredTasks`: the whole list when the search text is empty,
        otherwise the tasks whose titles contain it, in stored order. */
    function FilteredTasks(): (r: seq<Task>)
      reads this
      ensures searchText == [] ==> r == tasks
      ensures SelectedBy(r, tasks, DisplayPositions(tasks, searchText))
      ensures searchText != [] ==>
                forall t :: t in r <==> t in tasks && TitleMatches(t, searchText)
    {
      DisplayedIsSelection(tasks, searchText);
      FilterByTitleMembers(tasks, searchText);
      Displayed(tasks, searchText)
    }

    /** `loadTasks()`: replaces the list by the saved one when the key is
        present and decodes; otherwise leaves it alone. */
    method LoadTasks()
      requires Valid()
      modifies this`tasks, this`nextId
      ensures Valid()
      ensures tasks == match Restored(defaults.entries)
                       case Some(saved) => saved
                       case None => old(tasks)
    {
      var restored := Restored(defaults.entries);
      if restored.Some? {
        tasks := restored.value;
        var bound := IdBound(tasks);
        if nextId < bound {
          nextId := bound;
        }
      }
    }

    /** `saveTasks()`: overwrites the saved list with the whole current list;
        every other key is left alone. */
    method SaveTasks()
      modifies defaults`entries
      ensures defaults.entries == old(defaults.entries)[TasksKey := Encode(tasks)]
    {
      defaults.entries := defaults.entries[TasksKey := Encode(tasks)];
    }

    /** `addTask(title:priority:category:)`; `now` is the creation time. */
    method AddTask(title: string, priority: Priority, category: string, now: Timestamp)
      requires Valid()
      modifies this`tasks, this`nextId, defaults`entries
      ensures Valid()
      ensures |tasks| == |old(tasks)| + 1 && tasks[..|old(tasks)|] == old(tasks)
      ensures var t := tasks[|old(tasks)|];
              t.title == title && t.priority == priority && t.category == category &&
              !t.isCompleted && t.createdAt == now &&
              forall u :: u in old(tasks) ==> u.id != t.id
      ensures DistinctIds(old(tasks)) ==> DistinctIds(tasks)
      ensures defaults.entries == old(defaults.entries)[TasksKey := Encode(tasks)]
    {
      var newTask := NewTask(nextId, title, now, priority, category);
      tasks := tasks + [newTask];
      nextId := nextId + 1;
      SaveTasks();
    }

    /** `toggleComplete(task:)`: flips the first task with the same id and
        saves; does nothing, not even saving, when no task has that id. */
    method ToggleComplete(task: Task)
      requires Valid()
      modifies this`tasks, defaults`entries
      ensures Valid()
      ensures tasks == ToggleById(old(tasks), task.id)
      ensures FirstIndexOfId(old(tasks), task.id).None? ==>
                tasks == old(tasks) && defaults.entries == old(defaults.entries)
      ensures FirstIndexOfId(old(tasks), task.id).Some? ==>
                defaults.entries == old(defaults.entries)[TasksKey := Encode(tasks)]
      ensures DistinctIds(old(tasks)) ==> DistinctIds(tasks)
    {
      var index := FirstIndexOfId(tasks, task.id);
      if index.Some? {
        var i := index.value;
        tasks := tasks[i := Toggled(tasks[i])];
        SaveTasks();
      }
    }

    /** `deleteTask(at:)` as written: the offsets are applied to the stored
        list. Out-of-range offsets trap in the source. */
    method DeleteTask(offsets: set<nat>)
      requires Valid()
      requires forall o :: o in offsets ==> o < |tasks|
      modifies this`tasks, defaults`entries
      ensures Valid()
      ensures tasks == RemoveOffsets(old(tasks), offsets)
      ensures |tasks| == |old(tasks)| - |offsets|
      ensures DistinctIds(old(tasks)) ==> DistinctIds(tasks)
      ensures defaults.entries == old(defaults.entries)[TasksKey := Encode(tasks)]
    {
      ghost var before := tasks;
      tasks := RemoveOffsets(tasks, offsets);
      RemoveOffsetsSelects(before, offsets);
      RemoveOffsetsLength(before, offsets);
      if DistinctIds(before) {
        SelectionKeepsIdsDistinct(tasks, before, KeptPositions(|before|, offsets));
      }
      SaveTasks();
    }

    /** Deletion by offsets into the displayed list, as the list view hands
        them over: each offset is translated to the stored position of that
        row first. Offsets beyond the displayed list are ignored. */
    method DeleteDisplayedTasks(offsets: set<nat>)
      requires Valid()
      modifies this`tasks, defaults`entries
      ensures Valid()
      ensures tasks == RemoveOffsets(old(tasks), PositionsOf(DisplayPositions(old(tasks), searchText), offsets))
      ensures FilteredTasks() == RemoveOffsets(old(FilteredTasks()), offsets)
      ensures DistinctIds(old(tasks)) ==> DistinctIds(tasks)
      ensures defaults.entries == old(defaults.entries)[TasksKey := Encode(tasks)]
    {
      ghost var before := tasks;
      var stored := PositionsOf(DisplayPositions(tasks, searchText), offsets);
      tasks := RemoveOffsets(tasks, stored);
      RemoveOffsetsSelects(before, stored);
      DisplayedCommutesWithRemoval(before, searchText, offsets);
      if DistinctIds(before) {
        SelectionKeepsIdsDistinct(tasks, before, KeptPositions(|before|, stored));
      }
      SaveTasks();
    }
  }
}
