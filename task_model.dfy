/** The task record exchanged with the backend and edited in the form. */
module TaskModel {
  import opened Common

  datatype Status = PENDING | COMPLETED

  /** A task: the id is assigned by the server, so a draft has none; the
      description is optional. */
  datatype Task = Task(id: Option<int>, title: string, description: Option<string>, status: Status)

  /** The blank draft the form starts from and is reset to. */
  const EmptyDraft: Task := Task(None, "", Some(""), PENDING)

  /** The status a toggle moves to: PENDING and COMPLETED swap. */
  function Flip(s: Status): (r: Status)
    ensures r != s
  {
    if s == PENDING then COMPLETED else PENDING
  }

  /** Flipping twice restores the status. */
  lemma FlipInvolution(s: Status)
    ensures Flip(Flip(s)) == s
  {
  }
}
