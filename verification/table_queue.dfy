/** The admission-control logic of the per-table procedure queue: whether the
    queue may hand out its next procedure, and whether a procedure needs an
    exclusive or a shared lock on its table. */
module TableQueue {
  import opened Wrappers
  import opened TableOperation

  /** A scheduled unit of work. `tableInfo` is present exactly when the
      procedure implements the table-procedure capability. */
  datatype Procedure = Procedure(procId: int, tableInfo: Option<TableProcedureInfo>)

  /** The fatal errors of the lock-requirement decision. */
  datatype LockError =
    | UnexpectedType(operationType: TableOperationType)  // the policy has no case for it
    | NotTableProcedure(procId: int)                      // the cast to the capability fails

  /** A point-in-time view of one table queue: its table, the procedures
      waiting in it, and the exclusive-lock flag read from the enclosing
      namespace's lock status. */
  datatype QueueSnapshot = QueueSnapshot(
    tableName: TableName,
    pending: seq<Procedure>,
    namespaceExclusive: bool)

  /** The base queue's emptiness test. */
  predicate IsEmpty(q: QueueSnapshot) {
    |q.pending| == 0
  }

  /** The three availability states a table queue moves between. */
  datatype Availability = Empty | Blocked | Available

  /** The state of a queue: empty, waiting behind its namespace's exclusive
      lock, or ready to dispatch. */
  function StateOf(q: QueueSnapshot): (s: Availability)
    ensures s == Empty <==> |q.pending| == 0
    ensures s == Blocked <==> |q.pending| > 0 && q.namespaceExclusive
    ensures s == Available <==> |q.pending| > 0 && !q.namespaceExclusive
  {
    if |q.pending| == 0 then Empty
    else if q.namespaceExclusive then Blocked
    else Available
  }

  /** Whether the scheduler may take the next procedure from this queue. */
  predicate IsAvailable(q: QueueSnapshot)
    ensures IsAvailable(q) <==> StateOf(q) == Available
    ensures IsAvailable(q) <==> |q.pending| > 0 && !q.namespaceExclusive
  {
    !IsEmpty(q) && !q.namespaceExclusive
  }

  /** Whether a table procedure needs the table's exclusive lock (true) or
      can run under its shared lock (false); an operation type the policy
      does not name is an error rather than a default. */
  function RequireTableExclusiveLock(info: TableProcedureInfo): (r: Result<bool, LockError>)
    ensures info.operationType in StructuralKinds ==> r == Success(true)
    ensures info.operationType == Edit ==>
              r == Success(info.tableName != DummyNamespaceTableName)
    ensures info.operationType in ReadKinds + RegionKinds ==> r == Success(false)
    ensures r.Failure? <==> info.operationType !in KnownKinds
    ensures r.Failure? ==> r.error == UnexpectedType(info.operationType)
  {
    match info.operationType
    case Create | Delete | Disable | Snapshot | Enable =>
      Success(true)
    case Edit =>
      // concurrent edits of the namespace records are allowed
      Success(info.tableName != DummyNamespaceTableName)
    case Read | Flush =>
      Success(false)
    case RegionSplit | RegionMerge | RegionAssign | RegionUnassign | RegionEdit
       | RegionGc | MergedRegionsGc | RegionSnapshot | RegionTruncate =>
      // region operations share the table lock and lock the region itself
      Success(false)
    case Unknown(_) =>
      Failure(UnexpectedType(info.operationType))
  }

  /** The queue's lock requirement for a procedure: the table policy applied
      to the procedure's own operation type and table, whatever the queue
      holds; a procedure without the table capability is an error. */
  function RequireExclusiveLock(q: QueueSnapshot, p: Procedure): (r: Result<bool, LockError>)
    ensures p.tableInfo.None? ==> r == Failure(NotTableProcedure(p.procId))
    ensures p.tableInfo.Some? ==> r == RequireTableExclusiveLock(p.tableInfo.value)
  {
    match p.tableInfo
    case None => Failure(NotTableProcedure(p.procId))
    case Some(info) => RequireTableExclusiveLock(info)
  }
}
