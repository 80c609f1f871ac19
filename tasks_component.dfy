/** The task list controller as the object it is: `TasksComponent` with
    its view-state fields. Every method changes the fields step by step as
    the component does, and its contract states the new fields (and the
    service call issued) as the matching step of the reducer in module
    TasksView, whose properties module TasksViewProperties proves. */
module TasksComponent {
  import opened Common
  import opened JsStrings
  import opened TaskModel
  import opened TasksView
  import TasksViewProperties
  import AuthService

  class TasksComponent {
    var tasks: seq<Task>
    var loading: bool
    var errorMessage: string
    var newTask: Task
    var showAddForm: bool
    var showDeleteModal: bool
    var editingTask: Option<Task>
    var taskToDelete: Option<Task>

    /** The fields as one value. */
    function State(): View
      reads this
    {
      View(tasks, loading, errorMessage, newTask, showAddForm, showDeleteModal, editingTask, taskToDelete)
    }

    constructor ()
      ensures State() == Initial()
    {
      tasks := [];
      loading := true;
      errorMessage := "";
      newTask := EmptyDraft;
      showAddForm := false;
      showDeleteModal := false;
      editingTask := None;
      taskToDelete := None;
    }

    /** `ngOnInit`: the first load. */
    method NgOnInit() returns (call: Call)
      modifies this
      ensures Step(State(), call) == TasksView.LoadTasks(old(State()))
    {
      call := LoadTasks();
    }

    method LoadTasks() returns (call: Call)
      modifies this
      ensures Step(State(), call) == TasksView.LoadTasks(old(State()))
    {
      loading := true;
      errorMessage := "";
      call := ListCall;
    }

    method OnLoadOk(loaded: seq<Task>)
      modifies this
      ensures State() == TasksView.OnLoadOk(old(State()), loaded)
    {
      tasks := loaded;
      loading := false;
    }

    method OnLoadErr()
      modifies this
      ensures State() == TasksView.OnLoadErr(old(State()))
    {
      errorMessage := LoadFailed;
      loading := false;
    }

    method ToggleAddForm()
      modifies this
      ensures State() == TasksView.ToggleAddForm(old(State()))
    {
      showAddForm := !showAddForm;
      if showAddForm {
        newTask := EmptyDraft;
        editingTask := None;
      }
    }

    method StartEditing(t: Task)
      modifies this
      ensures State() == TasksView.StartEditing(old(State()), t)
    {
      editingTask := Some(t);
      newTask := t;
      showAddForm := true;
    }

    method ShowTemporaryError(message: string)
      modifies this
      ensures State() == TasksView.ShowTemporaryError(old(State()), message)
    {
      errorMessage := message;
    }

    method CreateTask() returns (call: Call)
      modifies this
      ensures Step(State(), call) == TasksView.CreateTask(old(State()))
    {
      ghost var v := State();
      var trimmedTitle := Trim(newTask.title);
      if trimmedTitle == "" {
        TasksViewProperties.CreateRejectsBlankTitle(v);
        ShowTemporaryError(TitleRequired);
        return NoCall;
      }
      if |trimmedTitle| > MaxTitleLength {
        TasksViewProperties.CreateRejectsLongTitle(v);
        ShowTemporaryError(TitleTooLong);
        return NoCall;
      }
      call := SubmitDraft(trimmedTitle);
    }

    /** The second half of `createTask`, run once the title has passed the
        length checks: trim the draft in place, refuse a duplicate title,
        otherwise issue the call. It is a method of its own only to keep the
        proof of `CreateTask` small. */
    method SubmitDraft(trimmedTitle: string) returns (call: Call)
      requires trimmedTitle == Trim(newTask.title)
      requires trimmedTitle != "" && |trimmedTitle| <= MaxTitleLength
      modifies this
      ensures Step(State(), call) == TasksView.CreateTask(old(State()))
    {
      ghost var v := State();
      var draft := newTask.(description := Some(newTask.description.GetOr("")));
      var trimmedDescription := Trim(draft.description.value);
      newTask := draft.(title := trimmedTitle, description := Some(trimmedDescription));
      ghost var d := newTask;
      assert d == TrimmedDraft(v.newTask);
      var excludeId := if editingTask.Some? then editingTask.value.id else None;
      assert excludeId == EditedId(v);
      var duplicate := IsTitleDuplicate(tasks, trimmedTitle, excludeId);
      if duplicate {
        TasksViewProperties.CreateRejectsDuplicate(v);
        ShowTemporaryError(DuplicateTitle);
        assert State() == v.(newTask := d, errorMessage := DuplicateTitle);
        return NoCall;
      }
      loading := true;
      errorMessage := "";
      if editingTask.Some? {
        call := UpdateCall(editingTask.value.id, newTask);
      } else {
        call := CreateCall(newTask);
      }
      assert State() == v.(newTask := d, loading := true, errorMessage := "");
      TasksViewProperties.CreateIssuesCall(v);
    }

    /** The update reply; with no edited task and a non-empty list the
        `findIndex` callback throws and nothing changes. */
    method OnUpdateOk(updated: Task) returns (call: Call)
      modifies this
      ensures Step(State(), call) == TasksView.OnUpdateOk(old(State()), updated)
    {
      if editingTask.None? && tasks != [] {
        return NoCall;
      }
      var index := FindIndex(tasks, if editingTask.Some? then editingTask.value.id else None);
      if index != -1 {
        tasks := tasks[index := updated];
      }
      loading := false;
      ToggleAddForm();
      call := LoadTasks();
    }

    method OnUpdateErr() returns (call: Call)
      modifies this
      ensures Step(State(), call) == TasksView.OnUpdateErr(old(State()))
    {
      errorMessage := UpdateFailed;
      loading := false;
      call := LoadTasks();
    }

    /** The create reply; the created task itself is not used. */
    method OnCreateOk(created: Task) returns (call: Call)
      modifies this
      ensures Step(State(), call) == TasksView.OnCreateOk(old(State()))
    {
      loading := false;
      showAddForm := false;
      newTask := EmptyDraft;
      call := LoadTasks();
    }

    method OnCreateErr()
      modifies this
      ensures State() == TasksView.OnCreateErr(old(State()))
    {
      errorMessage := CreateFailed;
      loading := false;
    }

    method OpenDeleteModal(t: Task)
      modifies this
      ensures State() == TasksView.OpenDeleteModal(old(State()), t)
    {
      taskToDelete := Some(t);
      showDeleteModal := true;
    }

    method CancelDelete()
      modifies this
      ensures State() == TasksView.CancelDelete(old(State()))
    {
      taskToDelete := None;
      showDeleteModal := false;
    }

    method ConfirmDelete() returns (call: Call)
      modifies this
      ensures Step(State(), call) == TasksView.ConfirmDelete(old(State()))
    {
      if taskToDelete.None? || taskToDelete.value.id.None? || taskToDelete.value.id.value == 0 {
        return NoCall;
      }
      loading := true;
      errorMessage := "";
      call := DeleteCall(taskToDelete.value.id.value);
    }

    /** The delete reply; the id filtered out is the target's when the reply
        arrives. */
    method OnDeleteOk() returns (call: Call)
      modifies this
      ensures Step(State(), call) == TasksView.OnDeleteOk(old(State()))
    {
      tasks := RemoveId(tasks, if taskToDelete.Some? then taskToDelete.value.id else None);
      loading := false;
      showDeleteModal := false;
      taskToDelete := None;
      call := LoadTasks();
    }

    method OnDeleteErr(error: Thrown) returns (call: Call)
      modifies this
      ensures Step(State(), call) == TasksView.OnDeleteErr(old(State()), error)
    {
      errorMessage := if error.ThrownString? then error.text else DeleteFailedDefault;
      loading := false;
      showDeleteModal := false;
      taskToDelete := None;
      call := LoadTasks();
    }

    method ToggleTaskStatus(t: Task) returns (call: Call)
      modifies this
      ensures Step(State(), call) == TasksView.ToggleTaskStatus(old(State()), t)
    {
      var updatedTask := t.(status := if t.status == PENDING then COMPLETED else PENDING);
      var taskIndex := FindIndex(tasks, t.id);
      if taskIndex != -1 {
        tasks := tasks[taskIndex := updatedTask];
      }
      call := UpdateCall(t.id, updatedTask);
    }

    /** The toggle reply; `t` is the task the call was issued for. */
    method OnToggleOk(t: Task, response: Task) returns (call: Call)
      modifies this
      ensures Step(State(), call) == TasksView.OnToggleOk(old(State()), t, response)
    {
      var index := FindIndex(tasks, t.id);
      if index != -1 {
        tasks := tasks[index := response];
      }
      call := LoadTasks();
    }

    method OnToggleErr() returns (call: Call)
      modifies this
      ensures Step(State(), call) == TasksView.OnToggleErr(old(State()))
    {
      errorMessage := StatusUpdateFailed;
      call := LoadTasks();
    }

    /** `handlePaste` for the selection `start..end` of `field`; returns the
        cursor position the deferred `setSelectionRange` restores. */
    method HandlePaste(field: Field, pasted: string, start: nat, end: nat, maxLength: nat) returns (cursor: nat)
      modifies this
      ensures PasteStep(State(), cursor) == TasksView.HandlePaste(old(State()), field, pasted, start, end, maxLength)
    {
      var trimmedText := Prefix(pasted, maxLength);
      var currentValue := FieldValue(newTask, field);
      var newValue := Prefix(currentValue, start) + trimmedText + SuffixFrom(currentValue, end);
      newTask := WithField(newTask, field, Prefix(newValue, maxLength));
      cursor := start + |trimmedText|;
      if |pasted| > maxLength {
        ShowTemporaryError(TrimWarning(maxLength));
      }
    }

    /** `logout` on the task page: the stored credential is removed (the
        navigation to the login page is not modelled). */
    method Logout(auth: AuthService.AuthService)
      modifies auth
      ensures auth.store == None && !auth.IsLoggedIn()
    {
      auth.Logout();
    }
  }

  /** A session: load two tasks, toggle one twice, delete the other. */
  method ToggleAndDeleteScenario(a: Task, b: Task)
    requires a.id == Some(1) && b.id == Some(2)
  {
    var c := new TasksComponent();
    var call := c.NgOnInit();
    assert call == ListCall && c.loading;
    c.OnLoadOk([a, b]);
    assert FindIndex(c.tasks, a.id) == 0;
    TasksViewProperties.ToggleTwiceRestores(c.State(), a);
    ghost var before := c.State();
    call := c.ToggleTaskStatus(a);
    assert c.tasks[0].status != a.status;
    call := c.ToggleTaskStatus(Toggled(a));
    assert c.State() == before;
    c.OpenDeleteModal(b);
    call := c.ConfirmDelete();
    assert call == DeleteCall(2);
    call := c.OnDeleteOk();
    assert c.tasks == RemoveId([a, b], Some(2));
    assert c.tasks == [a];
    assert !c.showDeleteModal && call == ListCall;
  }
}
