# HBase table queue admission control, in Dafny

This project models the admission-control logic of HBase's per-table
procedure queue (`TableQueue` in the master's procedure scheduler). It has two parts:

- **Availability.** A table queue may hand out its next procedure only when it
  is non-empty and the enclosing namespace does not hold an exclusive lock.
  `isAvailable` reads the namespace's lock status afresh on every call.
  The model takes one snapshot of the queue per call. It does the same for
  the namespace's exclusive-lock flag.
- **Lock requirement.** `requireTableExclusiveLock` classifies a table
  procedure by its operation type. Structural operations (create, delete,
  disable, snapshot, enable) need the exclusive table lock. An edit needs it
  unless it targets the namespace place-holder table. Reads, flushes and the
  nine region-scoped operations run under the shared table lock. Any other
  operation type is an error. `requireExclusiveLock` casts a procedure to the
  table capability and delegates to the classifier.

Files:

- `wrappers.dfy`: `Option` and `Result`.
- `table_operation.dfy`: table names, the namespace place-holder table name,
  the operation-type enumeration and its four policy groups. An extra
  `Unknown(code)` constructor stands for a constant the policy does not handle.
- `table_queue.dfy`: the queue snapshot, its three availability states,
  `IsAvailable`, `RequireTableExclusiveLock` and `RequireExclusiveLock`.
- `lock_policy.dfy`: the same policy written as a table of rows. A proof
  shows that the classifier agrees with a lookup in that table for every
  procedure.
- `table_queue_properties.dfy`: lemmas relating several calls, plus two
  concrete scenarios.

The namespace place-holder name is `TableProcedureInterface.DUMMY_NAMESPACE_TABLE_NAME`.
That interface is not part of this model. The name is modelled as
`hbase:namespace`, the value of HBase's `TableName.NAMESPACE_TABLE_NAME`.
No proof depends on which fixed name it is.

The nine region-scoped operation types are `REGION_SPLIT`, `REGION_MERGE`,
`REGION_ASSIGN`, `REGION_UNASSIGN`, `REGION_EDIT`, `REGION_GC`,
`MERGED_REGIONS_GC`, `REGION_SNAPSHOT` and `REGION_TRUNCATE`. `FLUSH` is
classified together with `READ`.

## Model

| member | source | states |
|---|---|---|
| TableQueue.RequireTableExclusiveLock | hbase-server/src/main/java/org/apache/hadoop/hbase/master/procedure/TableQueue.java:50-80 | Create, delete, disable, snapshot and enable need the exclusive lock on any table. An edit needs it exactly when the table is not the namespace place-holder. Read, flush and the nine region operations need only the shared lock on any table. The result is an error, naming the operation type, exactly when the type is outside the named constants. |
| TableQueue.IsAvailable | hbase-server/src/main/java/org/apache/hadoop/hbase/master/procedure/TableQueue.java:37-40 | The queue is available iff its state is Available. Equivalently, it is available iff it holds a pending procedure and the namespace has no exclusive lock. |
| TableQueue.StateOf | hbase-server/src/main/java/org/apache/hadoop/hbase/master/procedure/TableQueue.java:38-39 | Classifies a queue as Empty, Blocked or Available. Empty holds exactly when nothing is pending. Blocked holds exactly when something is pending and the namespace holds its exclusive lock. Available holds exactly when something is pending and the namespace does not hold it. |
| TableQueue.RequireExclusiveLock | hbase-server/src/main/java/org/apache/hadoop/hbase/master/procedure/TableQueue.java:42-45 | A procedure without the table capability yields the cast error. Any other procedure gets the classifier's answer for its own operation type and table. |
| TableOperation.KnownKindsAreTheDeclaredConstants | hbase-server/src/main/java/org/apache/hadoop/hbase/master/procedure/TableQueue.java:51-79 | The four case groups together cover exactly the seventeen declared operation types. No type belongs to two groups. |
| LockPolicy.Lookup | hbase-server/src/main/java/org/apache/hadoop/hbase/master/procedure/TableQueue.java:51-79 | Looking up an operation type in a policy table fails iff no row names it. Otherwise the result is the rule of a row that names it, and no earlier row names it. |
| LockPolicy.LookupFindsRow | hbase-server/src/main/java/org/apache/hadoop/hbase/master/procedure/TableQueue.java:51-79 | In a table whose rows do not overlap, the lookup returns the rule of the row that names the operation type, wherever that row stands. |
| LockPolicy.ClassifierAgreesWithPolicy | hbase-server/src/main/java/org/apache/hadoop/hbase/master/procedure/TableQueue.java:50-80 | For every procedure, the classifier gives the same result as the declarative policy table: the same lock for every named type and the same error for every other. |
| TableQueueProperties.OnlyEditsDependOnTable | hbase-server/src/main/java/org/apache/hadoop/hbase/master/procedure/TableQueue.java:50-80 | For every operation type except edit, the lock requirement is the same for every pair of tables. |
| TableQueueProperties.EditSharedOnlyOnNamespaceTable | hbase-server/src/main/java/org/apache/hadoop/hbase/master/procedure/TableQueue.java:58-60 | An edit gets the shared lock iff it targets the namespace place-holder table. It gets the exclusive lock iff it targets any other table. |
| TableQueueProperties.UnknownTypeNeverClassified | hbase-server/src/main/java/org/apache/hadoop/hbase/master/procedure/TableQueue.java:76-79 | The classifier returns some boolean iff the operation type is one of the named constants. It never silently defaults for an unknown type. |
| TableQueueProperties.RequireExclusiveLockDependsOnlyOnCapability | hbase-server/src/main/java/org/apache/hadoop/hbase/master/procedure/TableQueue.java:43-45 | Two table procedures with the same operation type and table get the same answer, whatever queue is asked. Contents, namespace lock and procedure id play no part. |
| TableQueueProperties.AvailabilityDependsOnlyOnEmptinessAndNamespace | hbase-server/src/main/java/org/apache/hadoop/hbase/master/procedure/TableQueue.java:38-40 | Two queues that agree on emptiness and on the namespace lock flag agree on availability. |
| TableQueueProperties.NamespaceLockTogglesAvailability | hbase-server/src/main/java/org/apache/hadoop/hbase/master/procedure/TableQueue.java:38-40 | For a non-empty queue, the namespace's exclusive lock alone moves the queue between Blocked and Available. The pending procedures stay unchanged. |
| TableQueueProperties.EmptyQueueNeverAvailable | hbase-server/src/main/java/org/apache/hadoop/hbase/master/procedure/TableQueue.java:39 | An empty queue is unavailable whether or not the namespace is locked. |
| TableQueueProperties.CreateProcedureScenario | hbase-server/src/main/java/org/apache/hadoop/hbase/master/procedure/TableQueue.java:37-57 | An empty queue is not available. With a create procedure queued it is available, and that procedure needs the exclusive lock. A namespace lock blocks the queue, and releasing the lock unblocks it. |
| TableQueueProperties.EditProcedureScenario | hbase-server/src/main/java/org/apache/hadoop/hbase/master/procedure/TableQueue.java:58-60 | The same edit takes the shared lock on the namespace place-holder table and the exclusive lock on an ordinary table. |

## Left out

- `toString` (lines 82-86) is left out. It is diagnostic text built with commons-lang3 and has no behaviour to prove.
- The constructor (lines 31-35) and the base `Queue` class are not part of this model. The queue's priority is not read by these operations, so the snapshot does not carry it. Priority ordering, add and poll are left out. Emptiness is modelled as an empty pending sequence.
- The table's own `LockStatus`, passed to the base class, is not used by these operations and is left out. `LockStatus` is not part of this model. Of the namespace's lock status, only the observed `hasExclusiveLock` flag is kept.
- Concurrency is left out. Other threads may change the namespace lock between two polls. The model treats each call as a read of one snapshot, so staleness and retry are the scheduler's concern.
- The `ClassCastException` of line 44 is modelled as a `NotTableProcedure` error for a procedure without the table capability. Java's exception machinery is not modelled.
- A null procedure, a null operation type, or a null table name on the EDIT path (line 60) would each raise a `NullPointerException` in Java. None of them can be expressed in the model, so they are left out.
- `TableName.equals` is modelled as structural equality of namespace and qualifier. `TableName` itself is not part of this model.
