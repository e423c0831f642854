/**
 * The page: the task container's children, in document order, and the
 * storage slot "tasks". Each method is one handler of the page; a task or a
 * step is addressed by its position, which is what its DOM node amounts to.
 * A handler that changes a task ends by saving; toggleTask, a blocked
 * "Add Extra Step", a rejected rename and a double click on a label without
 * a rename handler save nothing.
 */
module TaskPage {
  import opened Wrappers
  import opened TaskModel

  /** The step divs `addTask` appends for the saved steps, one per record, in order. */
  method BuildSteps(records: seq<StepRecord>) returns (nodes: seq<StepNode>)
    ensures nodes == StepsFromRecords(records)
  {
    nodes := [];
    var k := 0;
    while k < |records|
      invariant k <= |records|
      invariant |nodes| == k
      invariant forall m :: 0 <= m < k ==> nodes[m] == StepFromRecord(records[m])
    {
      var r := records[k];
      nodes := nodes + [StepNode(r.name, r.checked, if r.checked then CheckMark else "", true, false)];
      k := k + 1;
    }
  }

  class Page {
    var tasks: seq<TaskNode>
    var storage: Option<Snapshot>

    ghost predicate Valid()
      reads this
    {
      ValidTasks(tasks)
    }

    /**
     * Page load: the task container starts empty and `loadTasks` runs on
     * whatever the storage holds.
     */
    constructor (stored: Option<Snapshot>)
      ensures Valid()
      ensures tasks == LoadedTasks(stored.GetOr([]))
      ensures stored.GetOr([]) == [] ==> storage == stored
      ensures stored.GetOr([]) != [] ==> storage == Some(SnapshotOf(tasks))
    {
      tasks := [];
      storage := stored;
      new;
      LoadTasks();
    }

    /** The walk `saveTasks` makes over every task and every step. */
    method CollectRecords() returns (records: Snapshot)
      ensures records == SnapshotOf(tasks)
    {
      records := [];
      var i := 0;
      while i < |tasks|
        invariant i <= |tasks|
        invariant |records| == i
        invariant forall m :: 0 <= m < i ==> records[m] == RecordOf(tasks[m])
      {
        var task := tasks[i];
        var steps: seq<StepRecord> := [];
        var j := 0;
        while j < |task.steps|
          invariant j <= |task.steps|
          invariant |steps| == j
          invariant forall m :: 0 <= m < j ==> steps[m] == StepRecordOf(task.steps[m])
        {
          steps := steps + [StepRecord(task.steps[j].name, task.steps[j].checked)];
          j := j + 1;
        }
        records := records + [TaskRecord(task.name, steps, task.addStepDisabled)];
        i := i + 1;
      }
    }

    /** Overwrites the whole stored collection with the current snapshot. */
    method SaveTasks()
      modifies this
      ensures tasks == old(tasks)
      ensures storage == Some(SnapshotOf(tasks))
    {
      var records := CollectRecords();
      storage := Some(records);
    }

    /** Click on a task header: show or hide its steps; nothing is saved. */
    method ToggleTask(i: nat)
      requires Valid() && i < |tasks|
      modifies this
      ensures Valid()
      ensures tasks == old(tasks)[i := Toggled(old(tasks[i]))]
      ensures tasks[i].hidden == !old(tasks[i].hidden)
      ensures tasks[i].arrow == ArrowFor(tasks[i].hidden)
      ensures storage == old(storage)
    {
      var t := tasks[i];
      if t.hidden {
        t := t.(hidden := false, arrow := ArrowUp);
      } else {
        t := t.(hidden := true, arrow := ArrowDown);
      }
      tasks := tasks[i := t];
    }

    /** Click on step j of task i: flips its check mark. */
    method MarkStep(i: nat, j: nat)
      requires Valid() && i < |tasks| && j < |tasks[i].steps|
      modifies this
      ensures Valid()
      ensures tasks == old(tasks)[i := WithStepMarked(old(tasks[i]), j)]
      ensures tasks[i].steps[j].checked == !old(tasks[i].steps[j].checked)
      ensures storage == Some(SnapshotOf(tasks))
    {
      MarkStepFlipsOnlyThatStep(tasks[i], j);
      var s := tasks[i].steps[j];
      var checked := !s.checked;
      s := s.(checked := checked, bubble := if checked then CheckMark else "");
      tasks := tasks[i := tasks[i].(steps := tasks[i].steps[j := s])];
      SaveTasks();
    }

    /**
     * Click on "Add Extra Step": nothing when the button is disabled or the
     * task was created locked; otherwise appends an unchecked "New Step".
     */
    method AddExtraStep(i: nat)
      requires Valid() && i < |tasks|
      modifies this
      ensures Valid()
      ensures tasks == old(tasks)[i := WithExtraStep(old(tasks[i]))]
      ensures AddStepBlocked(old(tasks[i])) ==> tasks == old(tasks) && storage == old(storage)
      ensures !AddStepBlocked(old(tasks[i])) ==>
        && tasks[i].steps == old(tasks[i].steps) + [ExtraStep]
        && storage == Some(SnapshotOf(tasks))
    {
      ExtraStepProperties(tasks[i]);
      if tasks[i].addStepDisabled {
        return;   // a disabled button fires no click
      }
      if tasks[i].createdLocked {
        return;
      }
      tasks := tasks[i := tasks[i].(steps := tasks[i].steps + [StepNode(NewStepName, false, "", true, true)])];
      SaveTasks();
    }

    /** `addTask(name, steps, locked)`: appends a new task node at the end and saves. */
    method AddTask(name: string, steps: seq<StepRecord>, locked: bool)
      requires Valid()
      modifies this
      ensures Valid()
      ensures tasks == old(tasks) + [NewTask(name, steps, locked)]
      ensures storage == Some(SnapshotOf(tasks))
    {
      NewTaskProperties(name, steps, locked);
      var stepNodes: seq<StepNode>;
      if |steps| > 0 {
        stepNodes := BuildSteps(steps);
      } else {
        stepNodes := [StepNode(DefaultStepName1, false, "", true, false),
                      StepNode(DefaultStepName2, false, "", true, false)];
        assert stepNodes == DefaultSteps();
      }
      var task := TaskNode(
        name := name,
        nameRename := true,
        arrow := ArrowDown,
        hidden := !locked,
        steps := stepNodes,
        createdLocked := locked,
        addStepDisabled := false,
        lockShown := true,
        modifyShown := locked);
      tasks := tasks + [task];
      SaveTasks();
    }

    /** The "Add Task" button: `addTask()` with its default arguments. */
    method AddDefaultTask()
      requires Valid()
      modifies this
      ensures Valid()
      ensures tasks == old(tasks) + [NewTask(DefaultTaskName, [], false)]
      ensures storage == Some(SnapshotOf(tasks))
    {
      AddTask(DefaultTaskName, [], false);
    }

    /** `lockTask(isLocked)` of task i, from "Set in Place" (true) or "Modify" (false). */
    method LockTask(i: nat, isLocked: bool)
      requires Valid() && i < |tasks|
      modifies this
      ensures Valid()
      ensures tasks == old(tasks)[i := WithLock(old(tasks[i]), isLocked)]
      ensures RecordOf(tasks[i]) == RecordOf(old(tasks[i])).(locked := isLocked)
      ensures storage == Some(SnapshotOf(tasks))
    {
      LockProperties(tasks[i], isLocked);
      var t := tasks[i];
      var steps: seq<StepNode> := [];
      var j := 0;
      while j < |t.steps|
        invariant j <= |t.steps|
        invariant |steps| == j
        invariant forall m :: 0 <= m < j ==> steps[m] == StepWithLock(t.steps[m], isLocked)
      {
        steps := steps + [t.steps[j].(spanRename := !isLocked)];
        j := j + 1;
      }
      assert steps == WithLock(t, isLocked).steps;
      t := t.(nameRename := !isLocked, steps := steps, addStepDisabled := isLocked,
              lockShown := !isLocked, modifyShown := isLocked);
      tasks := tasks[i := t];
      SaveTasks();
    }

    /** "Delete Task" of task i. */
    method DeleteTask(i: nat)
      requires Valid() && i < |tasks|
      modifies this
      ensures Valid()
      ensures tasks == Without(old(tasks), i)
      ensures storage == Some(SnapshotOf(tasks))
    {
      DeleteProperties(tasks, i);
      tasks := tasks[..i] + tasks[i + 1..];
      SaveTasks();
    }

    /** `renameElement` on the name span of task i, given what the prompt returned. */
    method RenameTask(i: nat, input: Option<string>)
      requires Valid() && i < |tasks|
      modifies this
      ensures Valid()
      ensures Accepted(input) ==>
        tasks == old(tasks)[i := WithName(old(tasks[i]), input.value)] && storage == Some(SnapshotOf(tasks))
      ensures !Accepted(input) ==> tasks == old(tasks) && storage == old(storage)
    {
      if input.Some? && JsString.Trim(input.value) != "" {
        tasks := tasks[i := WithName(tasks[i], input.value)];
        SaveTasks();
      }
    }

    /** `renameElement` on the label span of step j of task i. */
    method RenameStep(i: nat, j: nat, input: Option<string>)
      requires Valid() && i < |tasks| && j < |tasks[i].steps|
      modifies this
      ensures Valid()
      ensures Accepted(input) ==>
        tasks == old(tasks)[i := WithStepName(old(tasks[i]), j, input.value)] && storage == Some(SnapshotOf(tasks))
      ensures !Accepted(input) ==> tasks == old(tasks) && storage == old(storage)
    {
      if input.Some? && JsString.Trim(input.value) != "" {
        StepRenameKeepsValid(tasks[i], j, input.value);
        tasks := tasks[i := WithStepName(tasks[i], j, input.value)];
        SaveTasks();
      }
    }

    /** A double click on the name of task i: renames it only while the span has its handler. */
    method DoubleClickTaskName(i: nat, input: Option<string>)
      requires Valid() && i < |tasks|
      modifies this
      ensures Valid()
      ensures old(tasks[i].nameRename) && Accepted(input) ==>
        tasks == old(tasks)[i := WithName(old(tasks[i]), input.value)] && storage == Some(SnapshotOf(tasks))
      ensures !(old(tasks[i].nameRename) && Accepted(input)) ==> tasks == old(tasks) && storage == old(storage)
    {
      if tasks[i].nameRename {
        RenameTask(i, input);
      }
    }

    /** A double click on the label of step j of task i: renames it while a handler is attached. */
    method DoubleClickStep(i: nat, j: nat, input: Option<string>)
      requires Valid() && i < |tasks| && j < |tasks[i].steps|
      modifies this
      ensures Valid()
      ensures StepRenamable(old(tasks[i].steps[j])) && Accepted(input) ==>
        tasks == old(tasks)[i := WithStepName(old(tasks[i]), j, input.value)] && storage == Some(SnapshotOf(tasks))
      ensures !(StepRenamable(old(tasks[i].steps[j])) && Accepted(input)) ==>
        tasks == old(tasks) && storage == old(storage)
    {
      if tasks[i].steps[j].spanRename || tasks[i].steps[j].divRename {
        RenameStep(i, j, input);
      }
    }

    /**
     * `loadTasks`: one `addTask` per stored record, in stored order; absent
     * storage gives none. Storage is rewritten by each addTask, so it ends as
     * the snapshot of the loaded page unless nothing was loaded.
     */
    method LoadTasks()
      requires Valid()
      modifies this
      ensures Valid()
      ensures tasks == old(tasks) + LoadedTasks(old(storage).GetOr([]))
      ensures old(storage).GetOr([]) == [] ==> storage == old(storage)
      ensures old(storage).GetOr([]) != [] ==> storage == Some(SnapshotOf(tasks))
    {
      var records := storage.GetOr([]);
      ghost var before := tasks;
      var k := 0;
      while k < |records|
        invariant k <= |records|
        invariant Valid()
        invariant tasks == before + LoadedTasks(records[..k])
        invariant k == 0 ==> storage == old(storage)
        invariant k > 0 ==> storage == Some(SnapshotOf(tasks))
      {
        AddTask(records[k].name, records[k].steps, records[k].locked);
        assert LoadedTasks(records[..k + 1]) == LoadedTasks(records[..k]) + [NewTask(records[k].name, records[k].steps, records[k].locked)];
        k := k + 1;
      }
      assert records[..k] == records;
    }
  }

  /**
   * Create a task with its default steps, check its first step, reload the
   * page from what was stored and read the stored collection back.
   */
  method ReloadScenario() returns (saved: Snapshot)
    ensures saved == [TaskRecord(DefaultTaskName,
                                 [StepRecord(DefaultStepName1, true), StepRecord(DefaultStepName2, false)],
                                 false)]
  {
    var page := new Page(None);
    page.AddDefaultTask();
    page.MarkStep(0, 0);
    ghost var stored := SnapshotOf(page.tasks);
    assert |page.tasks| == 1;
    assert page.tasks[0].steps == [StepNode(DefaultStepName1, true, CheckMark, true, false),
                                   StepNode(DefaultStepName2, false, "", true, false)];
    assert StepRecordsOf(page.tasks[0].steps)
      == [StepRecord(DefaultStepName1, true), StepRecord(DefaultStepName2, false)];
    assert stored == [TaskRecord(DefaultTaskName,
                                 [StepRecord(DefaultStepName1, true), StepRecord(DefaultStepName2, false)],
                                 false)];
    var reloaded := new Page(page.storage);
    saved := reloaded.CollectRecords();
    LoadThenSave(stored);
  }

  /**
   * Lock a task and reload: the stored `locked` is lost, but a click on "Add
   * Extra Step" of the reloaded task still changes nothing, since it was
   * created locked.
   */
  method LockedReloadScenario() returns (saved: Snapshot, afterClick: Snapshot)
    ensures |saved| == 1 && !saved[0].locked
    ensures afterClick == saved
  {
    var page := new Page(None);
    page.AddDefaultTask();
    page.LockTask(0, true);
    var reloaded := new Page(page.storage);
    saved := reloaded.CollectRecords();
    reloaded.AddExtraStep(0);
    afterClick := reloaded.CollectRecords();
  }
}
