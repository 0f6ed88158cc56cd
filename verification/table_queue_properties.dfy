/** Properties relating several calls of the table queue's admission logic:
    what the lock decision does and does not depend on, how the namespace
    lock moves a queue between blocked and available, and two concrete
    scenarios: a create procedure queued, then blocked and released by the
    namespace lock; and one edit procedure on the namespace place-holder
    table and on an ordinary table. */
module TableQueueProperties {
  import opened Wrappers
  import opened TableOperation
  import opened TableQueue

  /** Apart from edits, the table a procedure targets never changes its lock
      requirement. */
  lemma OnlyEditsDependOnTable(op: TableOperationType, t1: TableName, t2: TableName)
    requires op != Edit
    ensures RequireTableExclusiveLock(TableProcedureInfo(op, t1))
         == RequireTableExclusiveLock(TableProcedureInfo(op, t2))
  {
  }

  /** An edit needs the shared lock on exactly one table, the namespace
      place-holder, and the exclusive lock on every other. */
  lemma EditSharedOnlyOnNamespaceTable(t: TableName)
    ensures RequireTableExclusiveLock(TableProcedureInfo(Edit, t)) == Success(false)
        <==> t == DummyNamespaceTableName
    ensures RequireTableExclusiveLock(TableProcedureInfo(Edit, t)) == Success(true)
        <==> t != DummyNamespaceTableName
  {
  }

  /** The classifier answers with a boolean exactly for the named operation
      types; it never answers for an unknown one. */
  lemma UnknownTypeNeverClassified(info: TableProcedureInfo)
    ensures (exists b :: RequireTableExclusiveLock(info) == Success(b))
        <==> !info.operationType.Unknown?
  {
  }

  /** The queue's decision depends on nothing but the procedure's table
      capability: neither the queue's contents, its namespace lock nor the
      procedure id matter. It follows directly from the contract of
      `RequireExclusiveLock` and is kept to state the fact on its own. */
  lemma RequireExclusiveLockDependsOnlyOnCapability(
    q1: QueueSnapshot, q2: QueueSnapshot, p1: Procedure, p2: Procedure)
    requires p1.tableInfo == p2.tableInfo && p1.tableInfo.Some?
    ensures RequireExclusiveLock(q1, p1) == RequireExclusiveLock(q2, p2)
  {
  }

  /** Availability is a function of two observations only: whether the queue
      is empty and whether the namespace holds its exclusive lock. */
  lemma AvailabilityDependsOnlyOnEmptinessAndNamespace(q1: QueueSnapshot, q2: QueueSnapshot)
    requires IsEmpty(q1) == IsEmpty(q2)
    requires q1.namespaceExclusive == q2.namespaceExclusive
    ensures IsAvailable(q1) == IsAvailable(q2)
  {
  }

  /** Acquiring the namespace's exclusive lock blocks a non-empty queue and
      releasing it makes the queue available again; neither touches the
      queue's contents. */
  lemma NamespaceLockTogglesAvailability(q: QueueSnapshot)
    requires !IsEmpty(q)
    ensures var locked := q.(namespaceExclusive := true);
            StateOf(locked) == Blocked && !IsAvailable(locked)
    ensures var free := q.(namespaceExclusive := false);
            StateOf(free) == Available && IsAvailable(free)
  {
  }

  /** An empty queue is never available, whatever the namespace lock. */
  lemma EmptyQueueNeverAvailable(q: QueueSnapshot)
    requires IsEmpty(q)
    ensures !IsAvailable(q.(namespaceExclusive := true))
    ensures !IsAvailable(q.(namespaceExclusive := false))
  {
  }

  /** A create procedure on an ordinary table: an empty queue is not
      available; once the procedure is queued it is, the procedure needs the
      exclusive lock, and the namespace lock alone blocks and unblocks the
      queue. */
  lemma CreateProcedureScenario()
    ensures var t := TableName("default", "t");
            var p := Procedure(1, Some(TableProcedureInfo(Create, t)));
            var empty := QueueSnapshot(t, [], false);
            var queued := empty.(pending := [p]);
            && !IsAvailable(empty)
            && IsAvailable(queued)
            && RequireExclusiveLock(queued, p) == Success(true)
            && !IsAvailable(queued.(namespaceExclusive := true))
            && IsAvailable(queued.(namespaceExclusive := true).(namespaceExclusive := false))
  {
  }

  /** The same edit procedure takes the shared lock on the namespace
      place-holder table and the exclusive lock on an ordinary table. */
  lemma EditProcedureScenario()
    ensures var t := TableName("default", "t");
            var onNamespace := Procedure(2, Some(TableProcedureInfo(Edit, DummyNamespaceTableName)));
            var onTable := Procedure(2, Some(TableProcedureInfo(Edit, t)));
            && RequireExclusiveLock(QueueSnapshot(DummyNamespaceTableName, [onNamespace], false), onNamespace)
               == Success(false)
            && RequireExclusiveLock(QueueSnapshot(t, [onTable], false), onTable)
               == Success(true)
  {
  }
}
