/**
 * Table schema derivation and provisioning: gsi_name, Backend.table_schema_call
 * and Backend.ensure_table. The boto Table / Table.create calls are modelled by
 * the arguments they receive (a TableCall value).
 */
module TableLifecycle {
  import opened Wrappers
  import opened Descriptors

  const GsiSuffix: string := "_gsiindex"

  /** gsi_name: the name of the global secondary index for a class's index name. */
  function GsiName(indexName: string): (r: string)
    ensures |r| == |indexName| + |GsiSuffix|
    ensures r[..|indexName|] == indexName
    ensures r[|indexName|..] == GsiSuffix
  {
    indexName + GsiSuffix
  }

  /** Distinct index names get distinct index tables. */
  lemma GsiNameInjective(a: string, b: string)
    ensures GsiName(a) == GsiName(b) <==> a == b
  {
    if GsiName(a) == GsiName(b) {
      assert |a| == |b|;
      assert a == GsiName(a)[..|a|] == GsiName(b)[..|b|] == b;
    }
  }

  datatype HashKey = HashKey(name: string)

  /** boto's GlobalIncludeIndex(name, parts=..., includes=...). */
  datatype GlobalIncludeIndex = GlobalIncludeIndex(name: string, parts: seq<HashKey>, includes: seq<string>)

  /** The callable table_schema_call is given: the Table constructor or Table.create. */
  datatype Target = TableConstructor | TableCreate

  /** A call target(table_name, schema=..., global_indexes=...); the connection is left out. */
  datatype TableCall = TableCall(
    target: Target,
    tableName: string,
    schema: seq<HashKey>,
    globalIndexes: Option<seq<GlobalIncludeIndex>>)

  /** The index definition derived from one index name. */
  function IndexDef(name: string): GlobalIncludeIndex {
    GlobalIncludeIndex(GsiName(name), [HashKey(name)], ["value"])
  }

  /** The call table_schema_call makes, defined declaratively. */
  function TableSpec<F, O>(target: Target, cls: ClassDescriptor<F, O>): TableCall {
    var names := cls.indexNames;
    var defs := seq(|names|, i requires 0 <= i < |names| => IndexDef(names[i]));
    TableCall(target, cls.tableName, [HashKey("id")], if defs == [] then None else Some(defs))
  }

  /**
   * The derived schema: the class's table name, hash key id, and one index per
   * index name in the same order, named by gsi_name, hashed on the name and
   * projecting value; no index list at all when there are no index names.
   */
  lemma TableSpecShape<F, O>(target: Target, cls: ClassDescriptor<F, O>)
    ensures TableSpec(target, cls).target == target
    ensures TableSpec(target, cls).tableName == cls.tableName
    ensures TableSpec(target, cls).schema == [HashKey("id")]
    ensures TableSpec(target, cls).globalIndexes.None? <==> cls.indexNames == []
    ensures TableSpec(target, cls).globalIndexes.Some? ==>
      var defs := TableSpec(target, cls).globalIndexes.value;
      |defs| == |cls.indexNames| &&
      forall i :: 0 <= i < |defs| ==>
        defs[i].name == GsiName(cls.indexNames[i]) &&
        defs[i].parts == [HashKey(cls.indexNames[i])] &&
        defs[i].includes == ["value"]
  {
  }

  /** Two index definitions share a name exactly when their index names are equal. */
  lemma IndexDefNamesDistinct<F, O>(target: Target, cls: ClassDescriptor<F, O>, i: nat, j: nat)
    requires TableSpec(target, cls).globalIndexes.Some?
    requires i < |cls.indexNames| && j < |cls.indexNames|
    ensures |TableSpec(target, cls).globalIndexes.value| == |cls.indexNames|
    ensures TableSpec(target, cls).globalIndexes.value[i].name == TableSpec(target, cls).globalIndexes.value[j].name
            <==> cls.indexNames[i] == cls.indexNames[j]
  {
    GsiNameInjective(cls.indexNames[i], cls.indexNames[j]);
  }

  /** Backend.table_schema_call: build the index definitions in a loop, then call target. */
  method TableSchemaCall<F, O>(target: Target, cls: ClassDescriptor<F, O>) returns (call: TableCall)
    ensures call == TableSpec(target, cls)
  {
    var names := cls.indexNames;
    var indexDefs: seq<GlobalIncludeIndex> := [];
    for i := 0 to |names|
      invariant |indexDefs| == i
      invariant forall j :: 0 <= j < i ==> indexDefs[j] == IndexDef(names[j])
    {
      indexDefs := indexDefs + [IndexDef(names[i])];
    }
    assert indexDefs == seq(|names|, i requires 0 <= i < |names| => IndexDef(names[i]));
    call := TableCall(target, cls.tableName, [HashKey("id")], if indexDefs == [] then None else Some(indexDefs));
  }

  /**
   * How describe_table ended. In boto, ResourceNotFoundException and every other
   * DynamoDB service error (throttling, validation, internal errors) are
   * JSONResponseErrors, so a throttled or rejected describe is JsonResponseError;
   * OtherError stands only for failures outside the service's JSON responses,
   * such as a broken connection.
   */
  datatype DescribeOutcome =
    | Described
    | ResourceNotFound
    | JsonResponseError
    | OtherError(name: string)

  /** What ensure_table did. */
  datatype Provisioning =
    | NoAction
    | Created(call: TableCall)
    | Raised(error: string)

  /**
   * ensure_table's decision: create (with the derived schema) when describe
   * reported ResourceNotFoundException or JSONResponseError, do nothing when the
   * table was described, and let any other error escape without a create.
   */
  predicate ProvisionDecision<F, O>(cls: ClassDescriptor<F, O>, describe: DescribeOutcome, o: Provisioning) {
    match describe
    case Described => o == NoAction
    case ResourceNotFound => o == Created(TableSpec(TableCreate, cls))
    case JsonResponseError => o == Created(TableSpec(TableCreate, cls))
    case OtherError(e) => o == Raised(e)
  }

  /** Backend.ensure_table, given the outcome of describe_table. */
  method EnsureTable<F, O>(cls: ClassDescriptor<F, O>, describe: DescribeOutcome) returns (o: Provisioning)
    ensures o.Created? <==> describe.ResourceNotFound? || describe.JsonResponseError?
    ensures ProvisionDecision(cls, describe, o)
  {
    var tableExists := true;
    match describe {
      case Described =>
      case ResourceNotFound =>
        tableExists := false;
      case JsonResponseError =>
        tableExists := false;
      case OtherError(e) =>
        return Raised(e);
    }
    if !tableExists {
      var table := TableSchemaCall(TableCreate, cls);
      return Created(table);
    }
    return NoAction;
  }

  /** A store that answers describe_table truthfully from the tables it holds. */
  function Probe(tables: map<string, TableCall>, name: string): DescribeOutcome {
    if name in tables then Described else ResourceNotFound
  }

  /** The tables after a provisioning outcome. */
  function Apply(tables: map<string, TableCall>, o: Provisioning): map<string, TableCall> {
    if o.Created? then tables[o.call.tableName := o.call] else tables
  }

  /**
   * Against a store that answers describe truthfully, ensure_table is idempotent:
   * after the first call the table exists (with the derived schema if it was
   * created then), and a second call creates nothing.
   */
  lemma EnsureTableIdempotent<F, O>(cls: ClassDescriptor<F, O>, tables: map<string, TableCall>, first: Provisioning, second: Provisioning)
    requires ProvisionDecision(cls, Probe(tables, cls.tableName), first)
    requires ProvisionDecision(cls, Probe(Apply(tables, first), cls.tableName), second)
    ensures cls.tableName in Apply(tables, first)
    ensures cls.tableName in tables ==> first == NoAction && Apply(tables, first) == tables
    ensures cls.tableName !in tables ==> Apply(tables, first) == tables[cls.tableName := TableSpec(TableCreate, cls)]
    ensures second == NoAction && Apply(Apply(tables, first), second) == Apply(tables, first)
  {
  }
}
