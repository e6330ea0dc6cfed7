/** Client code exercising the store through its contracts alone. */
module Scenarios {
  import opened Optional
  import opened Text
  import opened Sequences
  import opened Models
  import opened Persistence
  import opened ViewModels

  /** Add "Buy milk", complete it, search for it, and restore it in a fresh
      store built on the same defaults. */
  method AddToggleSearchReload(now: Timestamp)
  {
    var defaults := new UserDefaults(map[]);
    var vm := new TaskViewModel(defaults);
    assert vm.tasks == [];
    vm.AddTask("Buy milk", Medium, "Shopping", now);
    assert |vm.tasks| == 1 && !vm.tasks[0].isCompleted;
    var milk := vm.tasks[0];
    vm.ToggleComplete(milk);
    assert vm.tasks[0].isCompleted;

    vm.searchText := "milk";
    BuyMilkMatchesMilk();
    var shown := vm.FilteredTasks();
    assert vm.tasks[0] in shown;

    var restored := new TaskViewModel(defaults);
    assert restored.tasks == vm.tasks;
  }

  /** "milk" occurs in "Buy milk" at position 4. */
  lemma BuyMilkMatchesMilk()
    ensures CaseInsensitiveContains("Buy milk", "milk")
  {
  }

  /** A slot holding data that does not decode yields an empty store. */
  method CorruptedSlot()
  {
    var defaults := new UserDefaults(map[TasksKey := Undecodable]);
    var vm := new TaskViewModel(defaults);
    assert vm.tasks == [];
  }

  /** Deleting position 0 of three unfiltered tasks keeps the other two, in
      order, and saves them. */
  method DeleteFirstOfThree(now: Timestamp)
  {
    var defaults := new UserDefaults(map[]);
    var vm := new TaskViewModel(defaults);
    vm.AddTask("a", Low, "Personal", now);
    vm.AddTask("b", Medium, "Personal", now);
    vm.AddTask("c", High, "Work", now);
    var before := vm.tasks;
    vm.DeleteTask({0});
    assert before == [before[0], before[1]] + [before[2]];
    RemoveOffsetsSnoc([before[0], before[1]], before[2], {0});
    RemoveOffsetsSnoc([before[0]], before[1], {0});
    assert vm.tasks == [before[1], before[2]];
    var reloaded := new TaskViewModel(defaults);
    assert |reloaded.tasks| == 2;
  }
}
