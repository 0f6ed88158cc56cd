/** Table names and the kinds of operation a table procedure declares. */
module TableOperation {

  /** A fully qualified table name. Two names are equal exactly when their
      namespace and qualifier are equal, as with HBase's TableName.equals. */
  datatype TableName = TableName(namespace: string, qualifier: string)

  /** The place-holder name under which namespace procedures take their
      table-level locks (TableProcedureInterface.DUMMY_NAMESPACE_TABLE_NAME,
      which equals TableName.NAMESPACE_TABLE_NAME, "hbase:namespace"). */
  const DummyNamespaceTableName: TableName := TableName("hbase", "namespace")

  /** The operation type a table procedure declares. The seventeen named
      constructors are the constants of TableOperationType; `Unknown` stands
      for a constant added to the enumeration later and not yet handled by
      the lock policy. */
  datatype TableOperationType =
    | Create | Delete | Disable | Edit | Enable | Read | Snapshot | Flush
    | RegionEdit | RegionSplit | RegionMerge | RegionAssign | RegionUnassign
    | RegionGc | MergedRegionsGc | RegionSnapshot | RegionTruncate
    | Unknown(code: nat)

  /** Whole-table structural changes. */
  const StructuralKinds: set<TableOperationType> :=
    {Create, Delete, Disable, Snapshot, Enable}

  /** Operations that only read the table or flush its memstores. */
  const ReadKinds: set<TableOperationType> := {Read, Flush}

  /** Operations scoped to one or more regions of the table. */
  const RegionKinds: set<TableOperationType> :=
    {RegionSplit, RegionMerge, RegionAssign, RegionUnassign, RegionEdit,
     RegionGc, MergedRegionsGc, RegionSnapshot, RegionTruncate}

  /** Every operation type the lock policy names. */
  const KnownKinds: set<TableOperationType> :=
    StructuralKinds + {Edit} + ReadKinds + RegionKinds

  /** The policy names exactly the declared constants: only `Unknown` is
      outside it, and the four groups do not overlap. */
  lemma KnownKindsAreTheDeclaredConstants(op: TableOperationType)
    ensures op in KnownKinds <==> !op.Unknown?
    ensures !(op in StructuralKinds && op == Edit)
    ensures !(op in StructuralKinds && op in ReadKinds + RegionKinds)
    ensures !(op == Edit && op in ReadKinds + RegionKinds)
    ensures !(op in ReadKinds && op in RegionKinds)
  {
  }

  /** What a procedure exposes when it implements TableProcedureInterface. */
  datatype TableProcedureInfo =
    TableProcedureInfo(operationType: TableOperationType, tableName: TableName)
}
