/** Properties that span the task client and the task list: what the list
    shows for a failed delete. */
module Flows {
  import opened Common
  import opened Http
  import TaskService
  import TasksView

  /** A failed delete reaches the component as the client's mapped string
      (for a 404, the not-found text whatever the body says), yet the
      component's reload clears it in the same step, so the list ends with
      no error message, the modal closed and a reload issued. */
  lemma DeleteFailureNotShown(v: TasksView.View, e: HttpError)
    ensures e.status == 404 ==> TaskService.DeleteFailed(e) == TaskService.NotFoundMessage
    ensures var s := TasksView.OnDeleteErr(v, ThrownString(TaskService.DeleteFailed(e)));
      && s.view.errorMessage == "" && s.view.tasks == v.tasks
      && !s.view.showDeleteModal && s.view.taskToDelete.None?
      && s.call == TasksView.ListCall
  {
    if e.status == 404 {
      TaskService.DeleteNotFoundIgnoresBody(e);
    }
  }
}
