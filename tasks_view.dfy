/** The task list controller (`TasksComponent`) as a reducer: every user
    action and every server reply is a function from the view state before
    it to the view state after it, together with the service call it issues.
    The class in module TasksComponent performs the same steps on its
    fields and is proved to agree with these functions. */
module TasksView {
  import opened Common
  import opened JsStrings
  import opened TaskModel

  // ---------------------------------------------------------------------------
  // The task collection
  // ---------------------------------------------------------------------------

  /** The key two titles are compared by: `title.trim().toLowerCase()`,
      which equals `title.toLowerCase().trim()`. */
  function TitleKey(title: string): (k: string)
    ensures k == Trim(ToLower(title))
    ensures |k| <= |title|
  {
    LowerCommutesWithTrim(title);
    ToLower(Trim(title))
  }

  /** The test `isTitleDuplicate` applies to each loaded task: same key,
      and an id different from the excluded one (an absent id equals an
      absent exclusion). */
  predicate Clashes(t: Task, title: string, excludeId: Option<int>) {
    TitleKey(t.title) == TitleKey(title) && t.id != excludeId
  }

  /** `isTitleDuplicate(title, excludeTaskId)`: some loaded task clashes. */
  function IsTitleDuplicate(tasks: seq<Task>, title: string, excludeId: Option<int>): (r: bool)
    ensures r <==> exists i :: 0 <= i < |tasks| && Clashes(tasks[i], title, excludeId)
  {
    if tasks == [] then false
    else
      var rest := IsTitleDuplicate(tasks[1..], title, excludeId);
      assert forall i :: 1 <= i < |tasks| ==> tasks[i] == tasks[1..][i - 1];
      Clashes(tasks[0], title, excludeId) || rest
  }

  /** Without an excluded id, a task that has no id itself never counts. */
  lemma DuplicateWithoutExclusion(tasks: seq<Task>, title: string)
    ensures IsTitleDuplicate(tasks, title, None) <==>
      exists i :: 0 <= i < |tasks| && tasks[i].id.Some? && TitleKey(tasks[i].title) == TitleKey(title)
  {
  }

  /** `tasks.findIndex(t => t.id === id)`: the first position holding that
      id, or -1 when there is none. */
  function FindIndex(tasks: seq<Task>, id: Option<int>): (r: int)
    ensures -1 <= r < |tasks|
    ensures r == -1 <==> forall j :: 0 <= j < |tasks| ==> tasks[j].id != id
    ensures r >= 0 ==> tasks[r].id == id && forall j :: 0 <= j < r ==> tasks[j].id != id
  {
    if tasks == [] then -1
    else if tasks[0].id == id then 0
    else
      var k := FindIndex(tasks[1..], id);
      if k == -1 then -1 else k + 1
  }

  /** `const i = findIndex(...); if (i !== -1) tasks[i] = t`: the first
      entry with the id is replaced by `t`; nothing else changes. */
  function ReplaceFirst(tasks: seq<Task>, id: Option<int>, t: Task): (r: seq<Task>)
    ensures |r| == |tasks|
    ensures var i := FindIndex(tasks, id);
      && (i >= 0 ==> r[i] == t)
      && (forall j :: 0 <= j < |tasks| && j != i ==> r[j] == tasks[j])
  {
    var i := FindIndex(tasks, id);
    if i != -1 then tasks[i := t] else tasks
  }

  /** `tasks.filter(task => task.id !== id)`: exactly the entries with a
      different id survive. */
  function RemoveId(tasks: seq<Task>, id: Option<int>): (r: seq<Task>)
    ensures |r| <= |tasks|
    ensures forall t :: t in r <==> t in tasks && t.id != id
  {
    if tasks == [] then []
    else if tasks[0].id != id then [tasks[0]] + RemoveId(tasks[1..], id)
    else RemoveId(tasks[1..], id)
  }

  /** Filtering works piecewise, so the survivors keep their order. */
  lemma {:induction false} RemoveIdAppend(a: seq<Task>, b: seq<Task>, id: Option<int>)
    ensures RemoveId(a + b, id) == RemoveId(a, id) + RemoveId(b, id)
  {
    if a == [] {
      assert a + b == b;
    } else {
      assert (a + b)[0] == a[0];
      assert (a + b)[1..] == a[1..] + b;
      RemoveIdAppend(a[1..], b, id);
      if a[0].id != id {
        calc {
          RemoveId(a + b, id);
          [a[0]] + RemoveId(a[1..] + b, id);
          [a[0]] + (RemoveId(a[1..], id) + RemoveId(b, id));
          ([a[0]] + RemoveId(a[1..], id)) + RemoveId(b, id);
        }
      }
    }
  }

  /** Filtering out an id nobody has changes nothing. */
  lemma {:induction false} RemoveIdAbsent(tasks: seq<Task>, id: Option<int>)
    requires forall j :: 0 <= j < |tasks| ==> tasks[j].id != id
    ensures RemoveId(tasks, id) == tasks
  {
    if tasks != [] {
      RemoveIdAbsent(tasks[1..], id);
    }
  }

  // ---------------------------------------------------------------------------
  // The view state and the calls it issues
  // ---------------------------------------------------------------------------

  /** The component's fields. */
  datatype View = View(
    tasks: seq<Task>,
    loading: bool,
    errorMessage: string,
    newTask: Task,
    showAddForm: bool,
    showDeleteModal: bool,
    editingTask: Option<Task>,
    taskToDelete: Option<Task>)

  /** The task-service call an action issues, if any. */
  datatype Call =
    | NoCall
    | ListCall
    | UpdateCall(id: Option<int>, task: Task)
    | CreateCall(task: Task)
    | DeleteCall(deleteId: int)

  /** A view state together with the call issued on the way to it. */
  datatype Step = Step(view: View, call: Call)

  const MaxTitleLength := 200
  const LoadFailed := "Failed to load tasks. Please try again."
  const TitleRequired := "Task title is required"
  const TitleTooLong := "Task title cannot exceed 200 characters"
  const DuplicateTitle := "A task with this title already exists"
  const UpdateFailed := "Failed to update task. Please try again."
  const CreateFailed := "Failed to create task. Please try again."
  const DeleteFailedDefault := "Failed to delete task. Please try again."
  const StatusUpdateFailed := "Failed to update task status. Please try again."

  /** The fields as the component is constructed. */
  function Initial(): View {
    View([], true, "", EmptyDraft, false, false, None, None)
  }

  // ---------------------------------------------------------------------------
  // Loading
  // ---------------------------------------------------------------------------

  /** `loadTasks`: raise `loading`, clear the error message, list the tasks. */
  function LoadTasks(v: View): Step {
    Step(v.(loading := true, errorMessage := ""), ListCall)
  }

  /** The list reply replaces the collection wholesale. */
  function OnLoadOk(v: View, tasks: seq<Task>): View {
    v.(tasks := tasks, loading := false)
  }

  function OnLoadErr(v: View): View {
    v.(errorMessage := LoadFailed, loading := false)
  }

  /** Loading the same list twice in a row leaves the same view. */
  lemma LoadIdempotent(v: View, tasks: seq<Task>)
    ensures var once := OnLoadOk(LoadTasks(v).view, tasks);
      OnLoadOk(LoadTasks(once).view, tasks) == once
  {
  }

  // ---------------------------------------------------------------------------
  // The add/edit form
  // ---------------------------------------------------------------------------

  /** `toggleAddForm`: opening the form starts a blank, non-editing draft. */
  function ToggleAddForm(v: View): View {
    if !v.showAddForm then v.(showAddForm := true, newTask := EmptyDraft, editingTask := None)
    else v.(showAddForm := false)
  }

  /** `startEditing`: the draft and the edited task are copies of `t`. */
  function StartEditing(v: View, t: Task): View {
    v.(editingTask := Some(t), newTask := t, showAddForm := true)
  }

  /** The immediate effect of `showTemporaryError`; the timer that clears
      the message later is not modelled. */
  function ShowTemporaryError(v: View, message: string): View {
    v.(errorMessage := message)
  }

  /** The draft after `createTask` has passed the length checks: title and
      description trimmed, an absent description made empty first. */
  function TrimmedDraft(draft: Task): Task {
    draft.(title := Trim(draft.title), description := Some(Trim(draft.description.GetOr(""))))
  }

  /** The edited task's id, absent when not editing: the duplicate check
      excludes it and the update reply looks it up. */
  function EditedId(v: View): Option<int> {
    if v.editingTask.Some? then v.editingTask.value.id else None
  }

  /** `createTask`: validate locally, then issue an update (when editing) or
      a create with the trimmed draft. */
  function CreateTask(v: View): Step {
    var title := Trim(v.newTask.title);
    if title == "" then Step(ShowTemporaryError(v, TitleRequired), NoCall)
    else if |title| > MaxTitleLength then Step(ShowTemporaryError(v, TitleTooLong), NoCall)
    else
      var v1 := v.(newTask := TrimmedDraft(v.newTask));
      if IsTitleDuplicate(v.tasks, title, EditedId(v)) then
        Step(ShowTemporaryError(v1, DuplicateTitle), NoCall)
      else
        var v2 := v1.(loading := true, errorMessage := "");
        if v.editingTask.Some? then Step(v2, UpdateCall(v.editingTask.value.id, v1.newTask))
        else Step(v2, CreateCall(v1.newTask))
  }

  /** The update reply. Its handler reads `this.editingTask!.id` inside the
      `findIndex` callback, so with no edited task and a non-empty list it
      throws before changing anything; otherwise the first entry with the
      edited id becomes the server's task, the form is toggled and the list
      reloaded. */
  function OnUpdateOk(v: View, updated: Task): Step {
    if v.editingTask.None? && v.tasks != [] then Step(v, NoCall)
    else
      var v1 := v.(tasks := ReplaceFirst(v.tasks, EditedId(v), updated), loading := false);
      LoadTasks(ToggleAddForm(v1))
  }

  function OnUpdateErr(v: View): Step {
    LoadTasks(v.(errorMessage := UpdateFailed, loading := false))
  }

  function OnCreateOk(v: View): Step {
    LoadTasks(v.(loading := false, showAddForm := false, newTask := EmptyDraft))
  }

  function OnCreateErr(v: View): View {
    v.(errorMessage := CreateFailed, loading := false)
  }

  // ---------------------------------------------------------------------------
  // Deleting
  // ---------------------------------------------------------------------------

  function OpenDeleteModal(v: View, t: Task): View {
    v.(taskToDelete := Some(t), showDeleteModal := true)
  }

  function CancelDelete(v: View): View {
    v.(taskToDelete := None, showDeleteModal := false)
  }

  /** `this.taskToDelete?.id`. */
  function DeleteTarget(v: View): Option<int> {
    if v.taskToDelete.Some? then v.taskToDelete.value.id else None
  }

  /** `!this.taskToDelete?.id`: no target, no id, or the falsy id 0. */
  predicate NoDeleteTarget(v: View) {
    DeleteTarget(v).None? || DeleteTarget(v).value == 0
  }

  /** `confirmDelete`: with a truthy target id, raise `loading`, clear the
      message and delete; otherwise do nothing. */
  function ConfirmDelete(v: View): Step {
    if NoDeleteTarget(v) then Step(v, NoCall)
    else Step(v.(loading := true, errorMessage := ""), DeleteCall(DeleteTarget(v).value))
  }

  /** The delete reply: drop every entry with the target id (read when the
      reply arrives), close the modal and reload. */
  function OnDeleteOk(v: View): Step {
    var v1 := v.(tasks := RemoveId(v.tasks, DeleteTarget(v)), loading := false,
                 showDeleteModal := false, taskToDelete := None);
    LoadTasks(v1)
  }

  /** The delete failure: show the thrown string (or a fallback), close the
      modal and reload. */
  function OnDeleteErr(v: View, error: Thrown): Step {
    var message := if error.ThrownString? then error.text else DeleteFailedDefault;
    LoadTasks(v.(errorMessage := message, loading := false, showDeleteModal := false, taskToDelete := None))
  }

  // ---------------------------------------------------------------------------
  // Toggling a task's status
  // ---------------------------------------------------------------------------

  /** The task with its status flipped, as sent to the server. */
  function Toggled(t: Task): (u: Task)
    ensures u.id == t.id && u.title == t.title && u.description == t.description
    ensures u.status == Flip(t.status)
  {
    t.(status := Flip(t.status))
  }

  /** `toggleTaskStatus`: flip the status of the first entry with the task's
      id right away, then send the flipped task. */
  function ToggleTaskStatus(v: View, t: Task): Step {
    Step(v.(tasks := ReplaceFirst(v.tasks, t.id, Toggled(t))), UpdateCall(t.id, Toggled(t)))
  }

  /** The toggle reply: the entry becomes the server's task, then reload. */
  function OnToggleOk(v: View, t: Task, response: Task): Step {
    LoadTasks(v.(tasks := ReplaceFirst(v.tasks, t.id, response)))
  }

  function OnToggleErr(v: View): Step {
    LoadTasks(v.(errorMessage := StatusUpdateFailed))
  }

  // ---------------------------------------------------------------------------
  // Pasting into a bounded field
  // ---------------------------------------------------------------------------

  datatype Field = TitleField | DescriptionField

  /** What a paste computes: the new field value, where the cursor goes, and
      whether the pasted text had to be cut. */
  datatype PasteOutcome = PasteOutcome(value: string, cursor: nat, warning: bool)

  /** The value/cursor computation of `handlePaste`, for the selection
      `start..end` of `current`. */
  function Paste(current: string, pasted: string, start: nat, end: nat, maxLength: nat): PasteOutcome {
    var inserted := Prefix(pasted, maxLength);
    var combined := Prefix(current, start) + inserted + SuffixFrom(current, end);
    PasteOutcome(Prefix(combined, maxLength), start + |inserted|, |pasted| > maxLength)
  }

  /** `this.newTask[field] || ''`. */
  function FieldValue(t: Task, field: Field): string {
    match field
    case TitleField => t.title
    case DescriptionField => t.description.GetOr("")
  }

  function WithField(t: Task, field: Field, value: string): Task {
    match field
    case TitleField => t.(title := value)
    case DescriptionField => t.(description := Some(value))
  }

  function TrimWarning(maxLength: nat): string {
    "Pasted text was trimmed to " + NatToString(maxLength) + " characters"
  }

  /** A view state together with the cursor position a paste restores. */
  datatype PasteStep = PasteStep(view: View, cursor: nat)

  /** `handlePaste`: write the clipped value into the draft and warn when
      the pasted text was cut. */
  function HandlePaste(v: View, field: Field, pasted: string, start: nat, end: nat, maxLength: nat): PasteStep {
    var p := Paste(FieldValue(v.newTask, field), pasted, start, end, maxLength);
    var v1 := v.(newTask := WithField(v.newTask, field, p.value));
    PasteStep(if p.warning then ShowTemporaryError(v1, TrimWarning(maxLength)) else v1, p.cursor)
  }
}

/** What the task list controller promises: the properties of the
    reducer in module TasksView. */
module TasksViewProperties {
  import opened Common
  import opened JsStrings
  import opened TaskModel
  import opened TasksView

  // ---------------------------------------------------------------------------
  // Creating and updating
  // ---------------------------------------------------------------------------

  /** A blank title is rejected: no call, only the message changes. */
  lemma CreateRejectsBlankTitle(v: View)
    requires Trim(v.newTask.title) == ""
    ensures CreateTask(v) == Step(v.(errorMessage := TitleRequired), NoCall)
  {
  }

  /** A title longer than 200 characters after trimming is rejected: no
      call, only the message changes. */
  lemma CreateRejectsLongTitle(v: View)
    requires |Trim(v.newTask.title)| > MaxTitleLength
    ensures CreateTask(v) == Step(v.(errorMessage := TitleTooLong), NoCall)
  {
  }

  /** A duplicate title is rejected without a call, but only after the
      draft has been rewritten with its trimmed title and description. */
  lemma CreateRejectsDuplicate(v: View)
    requires Trim(v.newTask.title) != "" && |Trim(v.newTask.title)| <= MaxTitleLength
    requires IsTitleDuplicate(v.tasks, Trim(v.newTask.title), EditedId(v))
    ensures CreateTask(v) == Step(v.(newTask := TrimmedDraft(v.newTask), errorMessage := DuplicateTitle), NoCall)
  {
  }

  /** A draft that passes every check is sent, trimmed: as an update of the
      edited task's id when editing, as a create otherwise. */
  lemma CreateIssuesCall(v: View)
    requires Trim(v.newTask.title) != "" && |Trim(v.newTask.title)| <= MaxTitleLength
    requires !IsTitleDuplicate(v.tasks, Trim(v.newTask.title), EditedId(v))
    ensures var d := TrimmedDraft(v.newTask);
      && CreateTask(v).view == v.(newTask := d, loading := true, errorMessage := "")
      && CreateTask(v).call == if v.editingTask.Some? then UpdateCall(v.editingTask.value.id, d) else CreateCall(d)
  {
  }

  /** Whatever the draft, `createTask` leaves the collection alone, and
      whatever it sends carries a trimmed, non-blank title of at most 200
      characters that clashes with no loaded task. */
  lemma CreateSendsOnlyValidTitles(v: View)
    ensures CreateTask(v).view.tasks == v.tasks
    ensures var c := CreateTask(v).call;
      c.NoCall? || c.UpdateCall? || c.CreateCall?
    ensures var c := CreateTask(v).call;
      (c.UpdateCall? || c.CreateCall?) ==>
        && c.task.title != "" && |c.task.title| <= MaxTitleLength
        && Trim(c.task.title) == c.task.title
        && !IsTitleDuplicate(v.tasks, c.task.title, EditedId(v))
  {
    var title := Trim(v.newTask.title);
    if title == "" {
      CreateRejectsBlankTitle(v);
    } else if |title| > MaxTitleLength {
      CreateRejectsLongTitle(v);
    } else if IsTitleDuplicate(v.tasks, title, EditedId(v)) {
      CreateRejectsDuplicate(v);
    } else {
      CreateIssuesCall(v);
      TrimIdempotent(v.newTask.title);
    }
  }

  /** Opening the form starts a blank draft that is not an edit, closing it
      changes only the flag, and `startEditing` opens the form on a copy of
      the task whose id the next `createTask` will update. */
  lemma FormModes(v: View, t: Task)
    ensures !v.showAddForm ==>
      var o := ToggleAddForm(v);
      o.showAddForm && o.newTask == EmptyDraft && EditedId(o).None?
    ensures v.showAddForm ==> ToggleAddForm(v) == v.(showAddForm := false)
    ensures var e := StartEditing(v, t);
      e.showAddForm && e.newTask == t && EditedId(e) == t.id
  {
  }

  /** Trimming a draft that has already been trimmed changes nothing. */
  lemma TrimmedDraftIdempotent(draft: Task)
    ensures TrimmedDraft(TrimmedDraft(draft)) == TrimmedDraft(draft)
  {
    TrimIdempotent(draft.title);
    TrimIdempotent(draft.description.GetOr(""));
  }

  /** The update reply replaces only the first entry with the edited id,
      toggles the form and issues a reload (which clears the message). */
  lemma UpdateOkReplacesEditedEntry(v: View, updated: Task)
    requires v.editingTask.Some?
    ensures var s := OnUpdateOk(v, updated);
      var i := FindIndex(v.tasks, v.editingTask.value.id);
      && |s.view.tasks| == |v.tasks|
      && (i >= 0 ==> s.view.tasks[i] == updated)
      && (i == -1 ==> s.view.tasks == v.tasks)
      && (forall j :: 0 <= j < |v.tasks| && j != i ==> s.view.tasks[j] == v.tasks[j])
      && s.view.showAddForm == !v.showAddForm
      && s.view.loading && s.view.errorMessage == "" && s.call == ListCall
  {
  }

  /** The create reply closes the form, resets the draft and reloads. */
  lemma CreateOkResetsForm(v: View)
    ensures OnCreateOk(v) == Step(v.(showAddForm := false, newTask := EmptyDraft, loading := true, errorMessage := ""), ListCall)
  {
  }

  /** The update, status and delete failures each set a message and then
      reload, and the reload clears it at once; only the create failure,
      which does not reload, keeps its message. */
  lemma FailureMessagesClearedByReload(v: View, error: Thrown)
    ensures OnUpdateErr(v) == Step(v.(loading := true, errorMessage := ""), ListCall)
    ensures OnToggleErr(v) == Step(v.(loading := true, errorMessage := ""), ListCall)
    ensures OnDeleteErr(v, error).view.errorMessage == ""
    ensures OnCreateErr(v) == v.(errorMessage := CreateFailed, loading := false)
  {
  }

  // ---------------------------------------------------------------------------
  // Deleting
  // ---------------------------------------------------------------------------

  /** Without a target, or with an absent or zero id, nothing happens. */
  lemma ConfirmDeleteWithoutTarget(v: View)
    requires v.taskToDelete.None? || v.taskToDelete.value.id.None? || v.taskToDelete.value.id.value == 0
    ensures ConfirmDelete(v) == Step(v, NoCall)
  {
  }

  /** With a truthy target id, the delete of that id is issued. */
  lemma ConfirmDeleteIssuesCall(v: View)
    requires v.taskToDelete.Some? && v.taskToDelete.value.id.Some? && v.taskToDelete.value.id.value != 0
    ensures ConfirmDelete(v) == Step(v.(loading := true, errorMessage := ""), DeleteCall(v.taskToDelete.value.id.value))
  {
  }

  /** A successful delete drops exactly the entries with the target id,
      keeping the others in order, closes the modal and reloads. */
  lemma DeleteOkRemovesTarget(v: View)
    ensures var s := OnDeleteOk(v);
      && s.view.tasks == RemoveId(v.tasks, DeleteTarget(v))
      && (forall t :: t in s.view.tasks <==> t in v.tasks && t.id != DeleteTarget(v))
      && !s.view.showDeleteModal && s.view.taskToDelete.None?
      && s.view.loading && s.call == ListCall
  {
  }

  /** The modal records the task it was opened for; cancelling closes it
      and forgets the target, whatever was opened before. */
  lemma CancelUndoesOpen(v: View, t: Task)
    ensures OpenDeleteModal(v, t).showDeleteModal && DeleteTarget(OpenDeleteModal(v, t)) == t.id
    ensures CancelDelete(OpenDeleteModal(v, t)) == CancelDelete(v)
    ensures var c := CancelDelete(v); !c.showDeleteModal && NoDeleteTarget(c)
  {
  }

  /** A failed delete leaves the collection alone, closes the modal and
      reloads. */
  lemma DeleteErrClosesModal(v: View, error: Thrown)
    ensures OnDeleteErr(v, error) ==
      Step(v.(loading := true, errorMessage := "", showDeleteModal := false, taskToDelete := None), ListCall)
  {
  }

  // ---------------------------------------------------------------------------
  // Toggling
  // ---------------------------------------------------------------------------

  /** The optimistic toggle puts the flipped copy of `t` at the first entry
      with its id (so a listed task changes only its status), leaves every
      other entry and field alone, and sends the flipped task. */
  lemma ToggleFlipsFirstEntry(v: View, t: Task)
    ensures var s := ToggleTaskStatus(v, t);
      var i := FindIndex(v.tasks, t.id);
      && |s.view.tasks| == |v.tasks|
      && (i >= 0 ==> s.view.tasks[i] == Toggled(t))
      && (i >= 0 && v.tasks[i] == t ==> s.view.tasks[i] == v.tasks[i].(status := Flip(v.tasks[i].status)))
      && (forall j :: 0 <= j < |v.tasks| && j != i ==> s.view.tasks[j] == v.tasks[j])
      && s.view == v.(tasks := s.view.tasks)
      && s.call == UpdateCall(t.id, Toggled(t))
  {
  }

  /** The toggle reply writes the server's task at the first entry with the
      toggled id, leaves every other entry and field alone, and reloads. */
  lemma ToggleOkWritesResponse(v: View, t: Task, response: Task)
    ensures var s := OnToggleOk(v, t, response);
      var i := FindIndex(v.tasks, t.id);
      && |s.view.tasks| == |v.tasks|
      && (i >= 0 ==> s.view.tasks[i] == response)
      && (i == -1 ==> s.view.tasks == v.tasks)
      && (forall j :: 0 <= j < |v.tasks| && j != i ==> s.view.tasks[j] == v.tasks[j])
      && s.view == v.(tasks := s.view.tasks, loading := true, errorMessage := "")
      && s.call == ListCall
  {
  }

  /** Toggling a listed task and then toggling what is now shown for it
      restores the view exactly. */
  lemma ToggleTwiceRestores(v: View, t: Task)
    requires FindIndex(v.tasks, t.id) >= 0 && v.tasks[FindIndex(v.tasks, t.id)] == t
    ensures var once := ToggleTaskStatus(v, t);
      && ToggleTaskStatus(once.view, Toggled(t)).view == v
      && ToggleTaskStatus(once.view, Toggled(t)).call == UpdateCall(t.id, t)
  {
    var i := FindIndex(v.tasks, t.id);
    var once := ToggleTaskStatus(v, t).view.tasks;
    assert once == v.tasks[i := Toggled(t)];
    assert FindIndex(once, t.id) == i;
    FlipInvolution(t.status);
    assert Toggled(Toggled(t)) == t;
    assert once[i := t] == v.tasks;
  }

  // ---------------------------------------------------------------------------
  // Pasting
  // ---------------------------------------------------------------------------

  /** For a selection inside the current value, the new value is the first
      `maxLength` characters of before-selection + clipped paste +
      after-selection; the cursor lands after the inserted text; a warning
      is raised exactly when the paste was cut. */
  lemma PasteClips(current: string, pasted: string, start: nat, end: nat, maxLength: nat)
    requires start <= end <= |current|
    ensures var p := Paste(current, pasted, start, end, maxLength);
      && p.value == Prefix(current[..start] + Prefix(pasted, maxLength) + current[end..], maxLength)
      && |p.value| <= maxLength
      && p.cursor == start + |Prefix(pasted, maxLength)|
      && (p.warning <==> |pasted| > maxLength)
  {
  }

  /** Pasting into an empty field yields the clipped paste itself; a paste
      longer than the bound yields exactly its first `maxLength` characters,
      with a warning. */
  lemma PasteIntoEmpty(pasted: string, maxLength: nat)
    ensures Paste("", pasted, 0, 0, maxLength).value == Prefix(pasted, maxLength)
    ensures |pasted| > maxLength ==>
      var p := Paste("", pasted, 0, 0, maxLength);
      |p.value| == maxLength && p.value == pasted[..maxLength] && p.warning
  {
  }

  /** The paste warning names the bound in decimal: between its fixed
      words stand digits that denote `maxLength`. */
  lemma TrimWarningNamesBound(maxLength: nat)
    ensures var w := TrimWarning(maxLength);
      && |w| >= 38
      && (forall k :: 27 <= k < |w| - 11 ==> '0' <= w[k] <= '9')
      && DigitsValue(w[27..|w| - 11]) == maxLength
  {
    var w := TrimWarning(maxLength);
    assert w[27..|w| - 11] == NatToString(maxLength);
  }

  /** `handlePaste` writes the field it was given, leaves the other field
      and the rest of the view alone, and sets the warning message exactly
      when the paste was cut. */
  lemma HandlePasteWritesField(v: View, field: Field, pasted: string, start: nat, end: nat, maxLength: nat)
    ensures var s := HandlePaste(v, field, pasted, start, end, maxLength);
      var p := Paste(FieldValue(v.newTask, field), pasted, start, end, maxLength);
      && FieldValue(s.view.newTask, field) == p.value
      && s.view.newTask.id == v.newTask.id && s.view.newTask.status == v.newTask.status
      && (field == TitleField ==> s.view.newTask.description == v.newTask.description)
      && (field == DescriptionField ==> s.view.newTask.title == v.newTask.title)
      && s.view.errorMessage == (if |pasted| > maxLength then TrimWarning(maxLength) else v.errorMessage)
      && s.view == v.(newTask := s.view.newTask, errorMessage := s.view.errorMessage)
      && s.cursor == start + |Prefix(pasted, maxLength)|
  {
  }

  // ---------------------------------------------------------------------------
  // A scenario
  // ---------------------------------------------------------------------------

  lemma BuyMilkTrimmed()
    ensures Trim("  Buy milk  ") == "Buy milk"
  {
    assert "  Buy milk  " == "  " + "Buy milk" + "  ";
    TrimPadded("  ", "Buy milk", "  ");
  }

  lemma BuyMilkUntouched(s: string)
    requires s == "Buy milk" || s == "buy milk"
    ensures Trim(s) == s
  {
    assert s == "" + s + "";
    TrimPadded("", s, "");
  }

  lemma BuyMilkLowered(s: string)
    requires s == "Buy milk" || s == "buy milk"
    ensures ToLower(s) == "buy milk"
  {
    assert forall k :: 0 <= k < 8 ==> ToLower(s)[k] == "buy milk"[k];
  }

  lemma BuyMilkSameKey()
    ensures TitleKey("Buy milk") == TitleKey("buy milk")
  {
    BuyMilkUntouched("Buy milk");
    BuyMilkUntouched("buy milk");
    BuyMilkLowered("Buy milk");
    BuyMilkLowered("buy milk");
  }

  /** Creating "  Buy milk  " sends "Buy milk". */
  lemma BuyMilkCreated(v: View)
    requires v.editingTask.None? && v.newTask.title == "  Buy milk  "
    requires !IsTitleDuplicate(v.tasks, "Buy milk", None)
    ensures CreateTask(v).call.CreateCall? && CreateTask(v).call.task.title == "Buy milk"
  {
    BuyMilkTrimmed();
    assert EditedId(v) == None;
    CreateIssuesCall(v);
  }

  /** Once the list holds "Buy milk" under an id, a create of "buy milk"
      is rejected as a duplicate. */
  lemma BuyMilkRejectedAgain(w: View, i: nat, draft: string)
    requires i < |w.tasks| && w.tasks[i].id.Some? && w.tasks[i].title == "Buy milk"
    requires w.editingTask.None? && w.newTask.title == draft && draft == "buy milk"
    ensures CreateTask(w).call == NoCall && CreateTask(w).view.errorMessage == DuplicateTitle
  {
    BuyMilkUntouched(draft);
    BuyMilkSameKey();
    KeyClash(w.tasks, i, draft);
    CreateRejectsDuplicate(w);
  }

  lemma KeyClash(tasks: seq<Task>, i: nat, title: string)
    requires i < |tasks| && tasks[i].id.Some? && TitleKey(tasks[i].title) == TitleKey(title)
    ensures IsTitleDuplicate(tasks, title, None)
  {
    assert Clashes(tasks[i], title, None);
  }
}
