# Task tracker checklist, modelled in Dafny

`script.js` is a browser checklist. Each task is a named list of steps that can be checked off. A task can be expanded or collapsed, renamed, extended with a "New Step", locked ("Set in Place") or unlocked ("Modify"), and deleted. After each change to a task the page writes a snapshot of every task to the browser storage key `tasks`. Expanding or collapsing a task is not saved. On page load it rebuilds the tasks from that snapshot.

The model replaces the DOM tree with an explicit value. That value is a sequence of task nodes in document order (`TaskModel.TaskNode`, with steps `TaskModel.StepNode`). A node keeps everything the handlers read or write:

- the name;
- whether the label spans have a rename handler;
- the arrow glyph;
- whether the steps are `hidden`;
- whether each bubble carries `checked`, and the bubble's text;
- the `locked` argument that the add-step handler captured when the task was created;
- the add-step button's `disabled` flag;
- whether the lock and modify buttons are displayed.

The storage slot is `Option<Snapshot>`. A snapshot is the sequence of `{name, steps: [{name, checked}], locked}` records that the JSON text encodes. `None` means nothing is stored.

Modules:

- `Wrappers`: `Option`.
- `JsString`: the trimming done by `String.prototype.trim`, with ECMAScript's WhiteSpace and LineTerminator characters.
- `TaskModel`: records, nodes, one specification function per handler, and the lemmas about them.
- `TaskPage`: class `Page`. Its fields `tasks` and `storage` are updated in place by one method per handler. Each method's `ensures` ties the new state to the specification functions. `CollectRecords`, `BuildSteps`, `LockTask` and `LoadTasks` keep the loops of the source.

A page handler addresses a task (and a step) by its position, which is what its DOM node amounts to here.

`Page.Valid()` holds after every handler. Each task has at least one step, and each bubble agrees with its `checked` flag. The task's name span and step spans have a rename handler exactly while its add-step button is enabled. So a task whose button is disabled cannot be renamed, except through an extra step's own div handler (`TaskModel.DisabledTaskRefusesRename`).

Some behaviours of the code are easy to miss. The model keeps them as written:

- An unlocked task starts collapsed (`hidden`). A task created locked starts with its steps shown. Both start with the arrow `▼`, so a task created locked shows `▼` while its steps are visible. Its arrow only agrees with its visibility after the first toggle (`TaskModel.NewLockedTaskArrowDisagrees`).
- `locked` does not survive a reload. `addTask` never sets the add-step button's `disabled`, and `saveTasks` persists that flag. The save at the end of each `addTask` during loading therefore stores every task with `locked: false` (`TaskModel.LoadThenSave`, `TaskPage.LockedReloadScenario`). In that session the reloaded task still refuses "Add Extra Step", because its handler captured `locked = true`. "Modify" does not lift that block (`TaskModel.LockProperties`).
- Locking removes the rename handler from every label span. A step added by "Add Extra Step" keeps the rename handler on its own div, so it can still be renamed while the task is locked (`TaskModel.LockAndRenaming`).
- Corrupt stored JSON makes `JSON.parse` throw. It does not give an empty list. This model starts from an already parsed snapshot (see "Left out").

## Model

| member | source | states |
|---|---|---|
| JsString.TrimStart | script.js:140 | trimming the front leaves a suffix that is empty or starts with a non-white-space character, and everything removed is white space |
| JsString.TrimEnd | script.js:140 | trimming the back leaves a prefix that is empty or ends with a non-white-space character, and everything removed is white space |
| JsString.TrimEmptyIffAllWhitespace | script.js:140 | `trim()` gives the empty string exactly when every character is white space |
| TaskModel.AcceptedIff | script.js:138-144 | a rename is accepted iff the prompt returned a value that is not all white space; an accepted name is never empty |
| TaskModel.RenameKeepsSpaces | script.js:140 | any text that is not all white space, padded with white space of any length on either side, is accepted (`Page.RenameTask` and `Page.RenameStep` then keep it as typed, untrimmed) |
| TaskModel.RenameRefusesBlank | script.js:140 | any input made only of spaces and tabs (the empty string included) is refused, and so is a cancelled prompt |
| TaskModel.MarkStepFlipsOnlyThatStep | script.js:18-22 | marking flips exactly that step's `checked`, the bubble shows `✔` iff checked, other steps are untouched, and marking twice restores the task |
| TaskModel.ToggleProperties | script.js:6-16 | toggling flips `hidden` and changes nothing but `hidden` and the arrow; afterwards the arrow is `▲` iff the steps are shown; toggling twice restores `hidden`, and the whole task exactly when its arrow already agreed with `hidden` |
| TaskModel.NewLockedTaskArrowDisagrees | script.js:48-55 | a task created locked shows its steps with arrow `▼`, so toggling it twice does not restore it |
| TaskModel.NewTaskProperties | script.js:39-105 | a new task keeps the given steps in order with their names and flags, or gets exactly the two unchecked default steps; it is hidden iff created unlocked; its arrow is `▼`; add-step is blocked iff created locked; the modify button shows iff locked; renaming is enabled on every label; it is saved as not locked |
| TaskModel.StepsRoundTrip | script.js:58-68 | the step divs built from saved steps read back as exactly those steps, with bubbles that agree with `checked` |
| TaskModel.ExtraStepProperties | script.js:25-37 | when add-step is blocked nothing changes; otherwise exactly one unchecked "New Step" is appended and the existing steps and all other fields are kept |
| TaskModel.LockProperties | script.js:107-116 | locking with `b` sets `disabled = b`, shows the lock button iff `!b` and the modify button iff `b`, and sets every label span's rename handler to `!b`; it keeps the div rename handlers, every name and every checked flag; after `b = true` add-step is blocked, and a task created locked stays blocked after unlocking |
| TaskModel.DisabledTaskRefusesRename | script.js:107-112 | on a valid task with add-step disabled, the name cannot be renamed, and a step label only when it has an extra step's div handler |
| TaskModel.LockAndRenaming | script.js:107-111 | after locking, the task name cannot be renamed and a step label only through an extra step's div handler; after unlocking, every label can be renamed |
| TaskModel.DeleteProperties | script.js:122-125 | deleting task i removes exactly that task; the tasks before and after it keep their relative order |
| TaskModel.SnapshotProperties | script.js:147-160 | the snapshot has one record per task in display order, with the task's name, its steps in order as `{name, checked}`, and `locked` equal to the add-step button's `disabled` |
| TaskModel.LoadThenSave | script.js:164-170 | loading a snapshot and saving it again gives back each name and step list, the two default steps for a record without steps, and `locked: false` everywhere |
| TaskModel.ReloadRoundTrip | script.js:147-170 | save, reload and save again reproduces every name, step order and checked flag of the page, with every `locked` flag cleared |
| TaskPage.BuildSteps | script.js:58-68 | the loop over saved steps builds one step div per record, in order |
| TaskPage.Page.constructor | script.js:2-4 | on page load the container is empty and `loadTasks` runs: the tasks are those loaded from the stored records in order; storage is unchanged when nothing was stored, and otherwise holds the loaded page's snapshot |
| TaskPage.Page.CollectRecords | script.js:148-160 | the nested walk over tasks and steps returns the snapshot of the current tasks |
| TaskPage.Page.SaveTasks | script.js:147-162 | the stored collection is overwritten with the snapshot of the tasks; the tasks do not change |
| TaskPage.Page.ToggleTask | script.js:6-16 | only task i is toggled; `hidden` flips, the arrow agrees with it, and nothing is saved |
| TaskPage.Page.MarkStep | script.js:18-23 | only step j of task i is flipped, and the new state is saved |
| TaskPage.Page.AddExtraStep | script.js:25-37 | with the button disabled or the task created locked, neither the tasks nor storage change; otherwise task i gets the "New Step" at the end and the page is saved |
| TaskPage.Page.AddTask | script.js:39-136 | the new task is appended after all existing tasks, and the page is saved |
| TaskPage.Page.AddDefaultTask | script.js:173 | the "Add Task" button appends a "New Task" with the two default steps, created unlocked |
| TaskPage.Page.LockTask | script.js:107-116 | only task i changes, as locking specifies; the saved record differs only in `locked`, now `isLocked`; the page is saved |
| TaskPage.Page.DeleteTask | script.js:122-125 | task i is removed, the others keep their order, and the page is saved |
| TaskPage.Page.RenameTask | script.js:138-144 | an accepted input becomes task i's name exactly as typed and is saved; a refused input changes neither the tasks nor storage |
| TaskPage.Page.RenameStep | script.js:138-144 | an accepted input becomes the name of step j of task i exactly as typed and is saved; a refused input changes nothing |
| TaskPage.Page.DoubleClickTaskName | script.js:49 | a double click renames the task only while its name span has a rename handler |
| TaskPage.Page.DoubleClickStep | script.js:30-34 | a double click renames a step only while its span or its div has a rename handler |
| TaskPage.Page.LoadTasks | script.js:165-170 | the stored records (none when storage is absent) are appended as new tasks in stored order; storage is left alone when there is nothing to load, and otherwise holds the loaded page's snapshot |
| TaskPage.ReloadScenario | script.js:147-170 | creating a default task, checking its first step and reloading gives one record, named "New Task", whose first step is checked, whose second is not, and which is not locked |
| TaskPage.LockedReloadScenario | script.js:99-116 | a task locked and then reloaded is stored as not locked, yet a click on its "Add Extra Step" leaves the page's snapshot unchanged |

## Left out

- DOM construction, `innerHTML` templates, CSS classes and styles. The visible state is modelled as booleans and strings. Names are opaque strings, so the HTML parsing of names placed into `innerHTML` (script.js:49, script.js:65) is not modelled. In the source, the name round trip of `TaskModel.ReloadRoundTrip` therefore holds only for names the HTML parser reads back as the same text: a name such as `<b>x</b>` comes back as `x`, and `a &amp; b` as `a & b`.
- Event wiring, bubbling and `stopPropagation`. A double click on an extra step's label fires both the span's and the div's handler, which opens two prompts; the model does one rename. The two clicks of a double click on a task header also toggle the task twice. The two clicks of a double click on a step label run `markStep` twice, which restores the flag and saves twice. None of these is modelled.
- `localStorage` and JSON. Storage is an `Option` of an already parsed snapshot. Malformed JSON, which makes `JSON.parse` throw, is therefore outside the model. Stored records always have all three fields, so the default arguments `addTask` would use for a missing name or missing steps are never exercised.
- JavaScript strings are UTF-16 and may hold a lone surrogate. A Dafny `string` holds Unicode scalar values only, so names with a lone surrogate are outside the model.
- The blocking `prompt`. Its result is a parameter: `None` for a cancel, `Some(text)` otherwise.
- Which code points Unicode places in category Zs depends on the Unicode version. The model fixes the list of the current standard.
- The display values `'inline'` and `'none'` are booleans. `addTask` never sets the lock button's display, so a new task shows it, even a locked one.
- A deleted task's handlers cannot be reached. The model addresses tasks by position, so stale references do not exist in it.
