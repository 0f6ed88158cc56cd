/** The table lock policy written as data: one row per case group of the
    classifier, each naming its operation types and the lock rule they share.
    The classifier is proved to agree with a lookup in this table, so the
    table is an independent statement of the policy. */
module LockPolicy {
  import opened Wrappers
  import opened TableOperation
  import opened TableQueue

  /** The lock a group of operation types takes on its table. */
  datatype LockRule = Exclusive | ExclusiveUnlessNamespaceTable | Shared

  datatype PolicyRow = PolicyRow(kinds: set<TableOperationType>, rule: LockRule)

  /** The policy: structural operations are exclusive, edits are exclusive
      except on the namespace place-holder table, reads, flushes and region
      operations are shared. */
  const Policy: seq<PolicyRow> := [
    PolicyRow(StructuralKinds, Exclusive),
    PolicyRow({Edit}, ExclusiveUnlessNamespaceTable),
    PolicyRow(ReadKinds, Shared),
    PolicyRow(RegionKinds, Shared)
  ]

  /** No operation type is claimed by two rows, as no case label may appear
      twice in one switch. */
  ghost predicate Disjoint(rows: seq<PolicyRow>) {
    forall i, j :: 0 <= i < j < |rows| ==> rows[i].kinds !! rows[j].kinds
  }

  /** Whether a rule demands the exclusive lock on `table`. */
  function Apply(rule: LockRule, table: TableName): bool {
    match rule
    case Exclusive => true
    case ExclusiveUnlessNamespaceTable => table != DummyNamespaceTableName
    case Shared => false
  }

  /** The rule of the first row that names `op`, if any row does. */
  function Lookup(rows: seq<PolicyRow>, op: TableOperationType): (r: Option<LockRule>)
    ensures r.None? <==> forall i :: 0 <= i < |rows| ==> op !in rows[i].kinds
    ensures r.Some? ==>
              exists i :: 0 <= i < |rows| && op in rows[i].kinds && rows[i].rule == r.value
                          && forall j :: 0 <= j < i ==> op !in rows[j].kinds
  {
    if |rows| == 0 then None
    else if op in rows[0].kinds then Some(rows[0].rule)
    else
      var r := Lookup(rows[1..], op);
      assert forall i :: 1 <= i < |rows| ==> rows[i] == rows[1..][i - 1];
      r
  }

  /** In a table without overlapping rows, looking up an operation type finds
      the rule of the one row that names it, wherever that row stands: the
      row `Lookup` reports can be no other. */
  lemma LookupFindsRow(rows: seq<PolicyRow>, i: nat, op: TableOperationType)
    requires Disjoint(rows)
    requires i < |rows| && op in rows[i].kinds
    ensures Lookup(rows, op) == Some(rows[i].rule)
  {
  }

  lemma PolicyIsDisjoint()
    ensures Disjoint(Policy)
  {
  }

  /** The classification the policy table prescribes. */
  function ClassifyByPolicy(info: TableProcedureInfo): Result<bool, LockError> {
    match Lookup(Policy, info.operationType)
    case None => Failure(UnexpectedType(info.operationType))
    case Some(rule) => Success(Apply(rule, info.tableName))
  }

  /** The classifier and the policy table agree on every procedure: same
      lock for every named operation type, same error for every other. */
  lemma ClassifierAgreesWithPolicy(info: TableProcedureInfo)
    ensures RequireTableExclusiveLock(info) == ClassifyByPolicy(info)
  {
    PolicyIsDisjoint();
    var op := info.operationType;
    if op in StructuralKinds {
      LookupFindsRow(Policy, 0, op);
    } else if op == Edit {
      LookupFindsRow(Policy, 1, op);
    } else if op in ReadKinds {
      LookupFindsRow(Policy, 2, op);
    } else if op in RegionKinds {
      LookupFindsRow(Policy, 3, op);
    } else {
      assert Lookup(Policy, op).None?;
    }
  }
}
