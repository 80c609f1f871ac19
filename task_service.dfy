/** The error and success mappings of the task client (`TaskService`).
    The HTTP calls themselves are transport; only what each call turns a
    reply into is modelled here. */
module TaskService {
  import opened Common
  import opened Http

  /** What a successful delete emits. */
  datatype DeleteResponse = DeleteResponse(message: string)

  const DeletedMessage := "Task deleted successfully"
  const NotFoundMessage := "Task not found or already deleted"
  const DeleteFallback := "Failed to delete task"
  const ServerFallback := "Server error"

  /** A successful delete maps whatever the server sent to the same
      confirmation. */
  function DeleteSucceeded<B>(response: B): (r: DeleteResponse)
    ensures r.message == DeletedMessage
  {
    DeleteResponse(DeletedMessage)
  }

  /** The string a failed delete throws: 404 always reads as not found;
      otherwise the body's message when non-empty, else a fallback. */
  function DeleteFailed(e: HttpError): (r: string)
  {
    if e.status == 404 then NotFoundMessage
    else FirstNonEmpty([BodyMessage(e.error)], DeleteFallback)
  }

  /** The string every other call (list, get, create, update) throws: the
      first non-empty of the body's message, the response's message, and
      a fixed fallback. */
  function HandleError(e: HttpError): (r: string)
  {
    FirstNonEmpty([BodyMessage(e.error), Some(e.message)], ServerFallback)
  }

  /** A 404 reads as not found whatever the body says. */
  lemma DeleteNotFoundIgnoresBody(e: HttpError)
    requires e.status == 404
    ensures DeleteFailed(e) == NotFoundMessage
  {
  }

  /** Any other failed delete surfaces the body's message exactly when it is
      present and non-empty. */
  lemma DeleteFailedOtherwise(e: HttpError)
    requires e.status != 404
    ensures Truthy(BodyMessage(e.error)) ==> DeleteFailed(e) == BodyMessage(e.error).value
    ensures !Truthy(BodyMessage(e.error)) ==> DeleteFailed(e) == DeleteFallback
  {
    assert !Truthy(BodyMessage(e.error)) ==> forall i :: 0 <= i < 1 ==> !Truthy([BodyMessage(e.error)][i]);
  }

  /** The fallback chain of the generic handler, link by link. */
  lemma HandleErrorChain(e: HttpError)
    ensures Truthy(BodyMessage(e.error)) ==> HandleError(e) == BodyMessage(e.error).value
    ensures !Truthy(BodyMessage(e.error)) && e.message != "" ==> HandleError(e) == e.message
    ensures !Truthy(BodyMessage(e.error)) && e.message == "" ==> HandleError(e) == ServerFallback
  {
    var c := [BodyMessage(e.error), Some(e.message)];
    if !Truthy(c[0]) {
      assert c[1..] == [Some(e.message)];
      assert HandleError(e) == FirstNonEmpty([Some(e.message)], ServerFallback);
      assert [Some(e.message)][1..] == [];
    }
  }

  /** Whatever went wrong, the user is shown a non-empty message. */
  lemma {:induction false} MappedErrorsNonEmpty(e: HttpError)
    ensures DeleteFailed(e) != ""
    ensures HandleError(e) != ""
  {
    if e.status != 404 {
      DeleteFailedOtherwise(e);
    }
    HandleErrorChain(e);
  }
}
