/**
 * The checklist's state as values: the records that are persisted under the
 * storage key "tasks", the in-memory task and step nodes that the page shows,
 * and one function per handler giving the node a handler leaves behind.
 * The page's DOM tree is the sequence of task nodes; a node's identity is its
 * position in that sequence.
 */
module TaskModel {
  import opened Wrappers
  import opened JsString

  const CheckMark: string := "\U{2714}"   // the bubble of a checked step
  const ArrowDown: string := "\U{25BC}"   // the arrow of a collapsed task
  const ArrowUp: string := "\U{25B2}"     // the arrow of an expanded task
  const DefaultTaskName: string := "New Task"
  const NewStepName: string := "New Step"
  const DefaultStepName1: string := "Step 1: Understand basic tags"
  const DefaultStepName2: string := "Step 2: Learn semantic elements"

  /** A persisted step: `{name, checked}`. */
  datatype StepRecord = StepRecord(name: string, checked: bool)

  /** A persisted task: `{name, steps, locked}`. */
  datatype TaskRecord = TaskRecord(name: string, steps: seq<StepRecord>, locked: bool)

  /** What `JSON.stringify` writes and `JSON.parse` reads back, in place of the JSON text. */
  type Snapshot = seq<TaskRecord>

  /**
   * A step div: its label, whether the bubble carries the class `checked`,
   * the bubble's text, whether the label span has a rename handler, and
   * whether the step div itself has one (only steps added by "Add Extra Step").
   */
  datatype StepNode = StepNode(
    name: string,
    checked: bool,
    bubble: string,
    spanRename: bool,
    divRename: bool)

  /**
   * A task div: the header's name span (text and rename handler) and arrow,
   * whether the steps container has the class `hidden`, its steps, the
   * `locked` argument its add-step handler captured at creation, the add-step
   * button's `disabled`, and whether the lock ("Set in Place") and modify
   * buttons are displayed.
   */
  datatype TaskNode = TaskNode(
    name: string,
    nameRename: bool,
    arrow: string,
    hidden: bool,
    steps: seq<StepNode>,
    createdLocked: bool,
    addStepDisabled: bool,
    lockShown: bool,
    modifyShown: bool)

  function BubbleFor(checked: bool): string {
    if checked then CheckMark else ""
  }

  function ArrowFor(hidden: bool): string {
    if hidden then ArrowDown else ArrowUp
  }

  /** A step's bubble shows the check mark exactly when it carries the class `checked`. */
  ghost predicate ValidStep(s: StepNode) {
    s.bubble == BubbleFor(s.checked)
  }

  /**
   * Every task has at least one step (steps are never removed) and consistent
   * bubbles, and its label spans have a rename handler exactly while its
   * add-step button is enabled: lockTask sets both together and nothing else
   * touches either.
   */
  ghost predicate ValidTask(t: TaskNode) {
    && |t.steps| > 0
    && (forall j :: 0 <= j < |t.steps| ==> ValidStep(t.steps[j]))
    && t.nameRename == !t.addStepDisabled
    && (forall j :: 0 <= j < |t.steps| ==> t.steps[j].spanRename == !t.addStepDisabled)
  }

  ghost predicate ValidTasks(ts: seq<TaskNode>) {
    forall i :: 0 <= i < |ts| ==> ValidTask(ts[i])
  }

  // ---------------------------------------------------------------- addTask

  /** The step div `addTask` builds for one saved step. */
  function StepFromRecord(r: StepRecord): StepNode {
    StepNode(r.name, r.checked, BubbleFor(r.checked), true, false)
  }

  function StepsFromRecords(rs: seq<StepRecord>): seq<StepNode> {
    seq(|rs|, k requires 0 <= k < |rs| => StepFromRecord(rs[k]))
  }

  /** The two unchecked steps a task gets when it is created without any. */
  const DefaultStepRecords: seq<StepRecord> :=
    [StepRecord(DefaultStepName1, false), StepRecord(DefaultStepName2, false)]

  function DefaultSteps(): seq<StepNode> {
    StepsFromRecords(DefaultStepRecords)
  }

  /** The task div `addTask(name, steps, locked)` appends. */
  function NewTask(name: string, steps: seq<StepRecord>, locked: bool): TaskNode {
    TaskNode(
      name := name,
      nameRename := true,
      arrow := ArrowDown,
      hidden := !locked,
      steps := if |steps| > 0 then StepsFromRecords(steps) else DefaultSteps(),
      createdLocked := locked,
      addStepDisabled := false,
      lockShown := true,
      modifyShown := locked)
  }

  /** The tasks `loadTasks` creates, one `addTask` per record in stored order. */
  function LoadedTasks(rs: Snapshot): seq<TaskNode> {
    seq(|rs|, k requires 0 <= k < |rs| => NewTask(rs[k].name, rs[k].steps, rs[k].locked))
  }

  // -------------------------------------------------------------- saveTasks

  function StepRecordOf(s: StepNode): StepRecord {
    StepRecord(s.name, s.checked)
  }

  function StepRecordsOf(ss: seq<StepNode>): seq<StepRecord> {
    seq(|ss|, j requires 0 <= j < |ss| => StepRecordOf(ss[j]))
  }

  /** What `saveTasks` reads off one task div; `locked` is the add-step button's `disabled`. */
  function RecordOf(t: TaskNode): TaskRecord {
    TaskRecord(t.name, StepRecordsOf(t.steps), t.addStepDisabled)
  }

  function SnapshotOf(ts: seq<TaskNode>): Snapshot {
    seq(|ts|, i requires 0 <= i < |ts| => RecordOf(ts[i]))
  }

  // ------------------------------------------------------------- toggleTask

  function Toggled(t: TaskNode): TaskNode {
    if t.hidden then t.(hidden := false, arrow := ArrowUp)
    else t.(hidden := true, arrow := ArrowDown)
  }

  // --------------------------------------------------------------- markStep

  function Flipped(s: StepNode): StepNode {
    s.(checked := !s.checked, bubble := BubbleFor(!s.checked))
  }

  function WithStepMarked(t: TaskNode, j: nat): TaskNode
    requires j < |t.steps|
  {
    t.(steps := t.steps[j := Flipped(t.steps[j])])
  }

  // ----------------------------------------------------------- addExtraStep

  /** The step div `addExtraStep` appends; its own div also gets a rename handler. */
  const ExtraStep: StepNode := StepNode(NewStepName, false, "", true, true)

  /**
   * A click on "Add Extra Step" does nothing when the button is disabled (it
   * does not fire) or when `locked` was true when the task was created.
   */
  predicate AddStepBlocked(t: TaskNode) {
    t.addStepDisabled || t.createdLocked
  }

  function WithExtraStep(t: TaskNode): TaskNode {
    if AddStepBlocked(t) then t else t.(steps := t.steps + [ExtraStep])
  }

  // --------------------------------------------------------------- lockTask

  function StepWithLock(s: StepNode, isLocked: bool): StepNode {
    s.(spanRename := !isLocked)
  }

  /** `lockTask(isLocked)`: every label span's handler, the add-step button and the two buttons. */
  function WithLock(t: TaskNode, isLocked: bool): TaskNode {
    t.(nameRename := !isLocked,
       steps := seq(|t.steps|, j requires 0 <= j < |t.steps| => StepWithLock(t.steps[j], isLocked)),
       addStepDisabled := isLocked,
       lockShown := !isLocked,
       modifyShown := isLocked)
  }

  // ---------------------------------------------------------- renameElement

  /** A double click on a step's label reaches renameElement through the span's or the div's handler. */
  predicate StepRenamable(s: StepNode) {
    s.spanRename || s.divRename
  }

  /** renameElement keeps an answer of the prompt that is present and not empty once trimmed. */
  predicate Accepted(input: Option<string>) {
    input.Some? && Trim(input.value) != ""
  }

  function WithName(t: TaskNode, name: string): TaskNode {
    t.(name := name)
  }

  function WithStepName(t: TaskNode, j: nat, name: string): TaskNode
    requires j < |t.steps|
  {
    t.(steps := t.steps[j := t.steps[j].(name := name)])
  }

  /** Renaming a step changes no flag, bubble or handler, so validity is kept. */
  lemma StepRenameKeepsValid(t: TaskNode, j: nat, name: string)
    requires ValidTask(t) && j < |t.steps|
    ensures ValidTask(WithStepName(t, j, name))
  {
  }

  // ------------------------------------------------------------ delete task

  function Without(ts: seq<TaskNode>, i: nat): seq<TaskNode>
    requires i < |ts|
  {
    ts[..i] + ts[i + 1..]
  }

  // ============================================================== properties

  /** markStep flips that step's flag and bubble, leaves every other step alone, and undoes itself. */
  lemma MarkStepFlipsOnlyThatStep(t: TaskNode, j: nat)
    requires ValidTask(t) && j < |t.steps|
    ensures |WithStepMarked(t, j).steps| == |t.steps|
    ensures WithStepMarked(t, j).steps[j].checked == !t.steps[j].checked
    ensures WithStepMarked(t, j).steps[j].bubble == CheckMark <==> WithStepMarked(t, j).steps[j].checked
    ensures forall k :: 0 <= k < |t.steps| && k != j ==> WithStepMarked(t, j).steps[k] == t.steps[k]
    ensures ValidTask(WithStepMarked(t, j))
    ensures WithStepMarked(WithStepMarked(t, j), j) == t
  {
  }

  /**
   * toggleTask flips `hidden` and leaves the arrow agreeing with it; toggling
   * twice restores the task exactly when its arrow already agreed, which a task
   * created locked (steps shown, arrow ▼) does not.
   */
  lemma ToggleProperties(t: TaskNode)
    ensures Toggled(t).hidden == !t.hidden
    ensures Toggled(t).arrow == ArrowUp <==> !Toggled(t).hidden
    ensures Toggled(t).(hidden := t.hidden, arrow := t.arrow) == t
    ensures Toggled(Toggled(t)).hidden == t.hidden
    ensures Toggled(Toggled(t)) == t <==> t.arrow == ArrowFor(t.hidden)
  {
  }

  lemma NewLockedTaskArrowDisagrees(name: string, steps: seq<StepRecord>)
    ensures !NewTask(name, steps, true).hidden && NewTask(name, steps, true).arrow == ArrowDown
    ensures Toggled(Toggled(NewTask(name, steps, true))) != NewTask(name, steps, true)
  {
  }

  /** What `addTask` builds: the steps given, in order, or the two default steps. */
  lemma NewTaskProperties(name: string, steps: seq<StepRecord>, locked: bool)
    ensures NewTask(name, steps, locked).name == name
    ensures ValidTask(NewTask(name, steps, locked))
    ensures |steps| > 0 ==> StepRecordsOf(NewTask(name, steps, locked).steps) == steps
    ensures steps == [] ==>
      StepRecordsOf(NewTask(name, steps, locked).steps) == DefaultStepRecords
    ensures NewTask(name, steps, locked).hidden <==> !locked
    ensures NewTask(name, steps, locked).arrow == ArrowDown
    ensures AddStepBlocked(NewTask(name, steps, locked)) <==> locked
    ensures NewTask(name, steps, locked).modifyShown == locked
    ensures NewTask(name, steps, locked).nameRename
    ensures forall j :: 0 <= j < |NewTask(name, steps, locked).steps| ==>
      NewTask(name, steps, locked).steps[j].spanRename && !NewTask(name, steps, locked).steps[j].divRename
    ensures !RecordOf(NewTask(name, steps, locked)).locked
  {
  }

  /** Reading a step list back off the step divs `addTask` built gives the list itself. */
  lemma StepsRoundTrip(rs: seq<StepRecord>)
    ensures |StepsFromRecords(rs)| == |rs|
    ensures StepRecordsOf(StepsFromRecords(rs)) == rs
    ensures forall k :: 0 <= k < |rs| ==> ValidStep(StepsFromRecords(rs)[k])
  {
  }

  /** addExtraStep: blocked, nothing changes; otherwise exactly one unchecked "New Step" at the end. */
  lemma ExtraStepProperties(t: TaskNode)
    requires ValidTask(t)
    ensures AddStepBlocked(t) ==> WithExtraStep(t) == t
    ensures !AddStepBlocked(t) ==>
      && WithExtraStep(t).steps[..|t.steps|] == t.steps
      && WithExtraStep(t).steps[|t.steps|..] == [ExtraStep]
      && WithExtraStep(t).(steps := t.steps) == t
    ensures ExtraStep.name == NewStepName && !ExtraStep.checked
    ensures ValidTask(WithExtraStep(t))
  {
  }

  /**
   * lockTask sets `disabled`, swaps the two buttons, removes or restores the
   * label spans' rename handlers, and changes no name or checked flag. The
   * rename handler on an extra step's own div is kept.
   */
  lemma LockProperties(t: TaskNode, isLocked: bool)
    requires ValidTask(t)
    ensures WithLock(t, isLocked).addStepDisabled == isLocked
    ensures WithLock(t, isLocked).lockShown == !isLocked && WithLock(t, isLocked).modifyShown == isLocked
    ensures WithLock(t, isLocked).nameRename == !isLocked
    ensures |WithLock(t, isLocked).steps| == |t.steps|
    ensures forall j :: 0 <= j < |t.steps| ==>
      && WithLock(t, isLocked).steps[j].spanRename == !isLocked
      && WithLock(t, isLocked).steps[j].divRename == t.steps[j].divRename
    ensures RecordOf(WithLock(t, isLocked)) == RecordOf(t).(locked := isLocked)
    ensures isLocked ==> AddStepBlocked(WithLock(t, isLocked))
    ensures t.createdLocked ==> AddStepBlocked(WithLock(t, false))
    ensures ValidTask(WithLock(t, isLocked))
  {
  }

  /**
   * Locking leaves a double click on a label without effect, except on the
   * steps added by "Add Extra Step", whose div keeps its own rename handler;
   * unlocking makes every label renamable again.
   */
  lemma LockAndRenaming(t: TaskNode)
    ensures !WithLock(t, true).nameRename && WithLock(t, false).nameRename
    ensures forall j :: 0 <= j < |t.steps| ==>
      (StepRenamable(WithLock(t, true).steps[j]) <==> t.steps[j].divRename)
    ensures forall j :: 0 <= j < |t.steps| ==> StepRenamable(WithLock(t, false).steps[j])
  {
  }

  /**
   * On any valid task whose add-step button is disabled, a double click on a
   * label renames nothing but the steps added by "Add Extra Step".
   */
  lemma DisabledTaskRefusesRename(t: TaskNode)
    requires ValidTask(t) && t.addStepDisabled
    ensures !t.nameRename
    ensures forall j :: 0 <= j < |t.steps| ==> (StepRenamable(t.steps[j]) <==> t.steps[j].divRename)
  {
  }

  /** A rename is accepted exactly when the input is present and not all white space. */
  lemma AcceptedIff(input: Option<string>)
    ensures Accepted(input) <==> input.Some? && !AllWhitespace(input.value)
    ensures Accepted(input) ==> input.value != ""
  {
  }

  /**
   * A name that is not all white space, with white space of any length around
   * it, is accepted; renameElement then keeps it as typed, untrimmed.
   */
  lemma RenameKeepsSpaces(before: string, core: string, after: string)
    requires AllWhitespace(before) && AllWhitespace(after) && !AllWhitespace(core)
    ensures Accepted(Some(before + core + after))
  {
    var s := before + core + after;
    var k :| 0 <= k < |core| && !IsWhitespace(core[k]);
    assert s[|before| + k] == core[k];
    AcceptedIff(Some(s));
  }

  /** A prompt answered with spaces and tabs only, and a cancelled prompt, are refused. */
  lemma RenameRefusesBlank(s: string)
    requires forall k :: 0 <= k < |s| ==> s[k] == ' ' || s[k] == '\t'
    ensures !Accepted(Some(s)) && !Accepted(None)
  {
    assert AllWhitespace(s);
    AcceptedIff(Some(s));
  }

  /** Deleting removes exactly the i-th task and keeps the others in order. */
  lemma DeleteProperties(ts: seq<TaskNode>, i: nat)
    requires i < |ts|
    ensures |Without(ts, i)| == |ts| - 1
    ensures forall k :: 0 <= k < i ==> Without(ts, i)[k] == ts[k]
    ensures forall k :: i <= k < |ts| - 1 ==> Without(ts, i)[k] == ts[k + 1]
    ensures ValidTasks(ts) ==> ValidTasks(Without(ts, i))
  {
  }

  /** saveTasks: one record per task, in order, each step as `{name, checked}`. */
  lemma SnapshotProperties(ts: seq<TaskNode>)
    ensures |SnapshotOf(ts)| == |ts|
    ensures forall i :: 0 <= i < |ts| ==>
      && SnapshotOf(ts)[i].name == ts[i].name
      && SnapshotOf(ts)[i].locked == ts[i].addStepDisabled
      && |SnapshotOf(ts)[i].steps| == |ts[i].steps|
    ensures forall i, j :: 0 <= i < |ts| && 0 <= j < |ts[i].steps| ==>
      SnapshotOf(ts)[i].steps[j] == StepRecord(ts[i].steps[j].name, ts[i].steps[j].checked)
  {
  }

  /** The record loading keeps of a stored one: its steps (or the defaults), and `locked` cleared. */
  function ReloadedRecord(r: TaskRecord): TaskRecord {
    TaskRecord(
      r.name,
      if |r.steps| > 0 then r.steps else DefaultStepRecords,
      false)
  }

  /**
   * loadTasks followed by saveTasks: names and steps (order, names, checked
   * flags) come back, a record without steps gets the defaults, and every
   * `locked` comes back false, because addTask never disables the button.
   */
  lemma LoadThenSave(rs: Snapshot)
    ensures |SnapshotOf(LoadedTasks(rs))| == |rs|
    ensures forall k :: 0 <= k < |rs| ==> SnapshotOf(LoadedTasks(rs))[k] == ReloadedRecord(rs[k])
    ensures ValidTasks(LoadedTasks(rs))
  {
  }

  /**
   * Saving, reloading and saving again reproduces the snapshot with every
   * `locked` flag false: names, step order and checked flags round-trip.
   */
  lemma ReloadRoundTrip(ts: seq<TaskNode>)
    requires ValidTasks(ts)
    ensures SnapshotOf(LoadedTasks(SnapshotOf(ts)))
      == seq(|ts|, i requires 0 <= i < |ts| => SnapshotOf(ts)[i].(locked := false))
  {
    var rs := SnapshotOf(ts);
    LoadThenSave(rs);
    forall i | 0 <= i < |ts| ensures ReloadedRecord(rs[i]) == rs[i].(locked := false) {
      assert ValidTask(ts[i]);
    }
  }
}
