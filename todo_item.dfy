/**
 * `TodoItem`: an entry of the agent's todo list; an item is finished once
 * its status is `completed` or `cancelled`.
 */
module Todos {
  const Completed := "completed"
  const Cancelled := "cancelled"

  datatype TodoItem = TodoItem(content: string, status: string, priority: string, id: string)
  {
    /** `isCompleted`. */
    predicate IsCompleted()
      ensures IsCompleted() ==> status == Completed || status == Cancelled
    {
      status == Completed || status == Cancelled
    }
  }

  // ---------------------------------------------------------------------------
  // Properties

  lemma CompletedIsDone(t: TodoItem)
    requires t.status == "completed"
    ensures t.IsCompleted()
  {
  }

  lemma CancelledIsDone(t: TodoItem)
    requires t.status == "cancelled"
    ensures t.IsCompleted()
  {
  }

  /** Every other status, `pending` and `in_progress` among them, is open. */
  lemma OtherStatusOpen(t: TodoItem)
    requires t.status != Completed && t.status != Cancelled
    ensures !t.IsCompleted()
  {
  }

  lemma PendingAndInProgressOpen(t: TodoItem)
    requires t.status == "pending" || t.status == "in_progress"
    ensures !t.IsCompleted()
  {
    assert "pending" != Completed && "pending" != Cancelled by {
      assert "pending"[0] != Completed[0] && "pending"[0] != Cancelled[0];
    }
    assert "in_progress" != Completed && "in_progress" != Cancelled by {
      assert "in_progress"[0] != Completed[0] && "in_progress"[0] != Cancelled[0];
    }
  }

  /** Completion depends on the status alone, never on content, priority or id. */
  lemma CompletionDependsOnStatusOnly(t: TodoItem, u: TodoItem)
    requires t.status == u.status
    ensures t.IsCompleted() == u.IsCompleted()
  {
  }
}
