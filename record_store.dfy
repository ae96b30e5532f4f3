/**
 * The read and write operations of Backend: save, find_one, find_all and
 * find_by_index. DynamoDB itself is a Store value whose lookup, scan and query
 * answers are given; save's result is the item it writes.
 */
module RecordStore {
  import opened Wrappers
  import opened DynamoMappings
  import opened Descriptors
  import opened TableLifecycle

  /** An instance of a persisted class: its id, which save may assign, and the rest of its state. */
  class Instance<F> {
    var id: string
    const fields: F

    constructor (id: string, fields: F)
      ensures this.id == id && this.fields == fields
    {
      this.id := id;
      this.fields := fields;
    }
  }

  /** What uuid() returns: uuid4().hex, 32 lower-case hexadecimal digits. */
  predicate IsUuidHex(s: string) {
    |s| == 32 && forall i :: 0 <= i < |s| ==> s[i] in "0123456789abcdef"
  }

  /** `index_vals.get(key, '')`: an index the object does not report reads as the empty string. */
  function IndexValueFor(vals: map<string, IndexValue>, key: string): IndexValue {
    if key in vals then vals[key] else Some("")
  }

  /**
   * The stored_data dict save builds, defined declaratively: id and value, then
   * one encoded column per index name. The columns share one dict, so an index
   * named "id" or "value" replaces that entry.
   */
  function StoredRow(id: string, data: Blob, vals: map<string, IndexValue>, names: seq<string>): Row {
    map k | k in (set n | n in names) + {"id", "value"} ::
      if k in names then MapIndexVal(IndexValueFor(vals, k))
      else if k == "id" then id
      else data
  }

  /**
   * The stored row has exactly the attributes id, value and one per index name;
   * each index column holds map_index_val(indexes().get(name, '')); id and value
   * hold the object's id and to_data() unless an index of that name replaced them.
   */
  lemma StoredRowShape(id: string, data: Blob, vals: map<string, IndexValue>, names: seq<string>)
    ensures StoredRow(id, data, vals, names).Keys == (set n | n in names) + {"id", "value"}
    ensures forall k :: k in names ==> StoredRow(id, data, vals, names)[k] == MapIndexVal(IndexValueFor(vals, k))
    ensures "id" !in names ==> StoredRow(id, data, vals, names)["id"] == id
    ensures "value" !in names ==> StoredRow(id, data, vals, names)["value"] == data
    ensures forall k :: k in StoredRow(id, data, vals, names) ==> StoredRow(id, data, vals, names)[k] != "" || k == "id" || k == "value"
  {
  }

  /**
   * An index missing from indexes() is stored as the empty-string sentinel; an
   * explicit None is stored as the None sentinel; the two never coincide.
   */
  lemma MissingAndNoneIndexColumns(id: string, data: Blob, vals: map<string, IndexValue>, names: seq<string>, k: string)
    requires k in names
    ensures k !in vals ==> StoredRow(id, data, vals, names)[k] == EmptyStrVal
    ensures k in vals && vals[k].None? ==> StoredRow(id, data, vals, names)[k] == NoneVal
    ensures StoredRow(id, data, vals, names)[k] == NoneVal ==> k in vals
  {
    SentinelsDistinct();
  }

  /**
   * A declared index named "id" replaces the primary key in the stored row:
   * with no reported value it is stored as the empty-string sentinel, not the id.
   */
  lemma IndexNamedIdReplacesKey(id: string, data: Blob)
    requires id != EmptyStrVal
    ensures StoredRow(id, data, map[], ["id"])["id"] == EmptyStrVal
    ensures StoredRow(id, data, map[], ["id"])["id"] != id
  {
  }

  /** Adding one index name to the list adds (or replaces) exactly that column. */
  lemma StoredRowSnoc(id: string, data: Blob, vals: map<string, IndexValue>, names: seq<string>, key: string)
    ensures StoredRow(id, data, vals, names + [key]) ==
      StoredRow(id, data, vals, names)[key := MapIndexVal(IndexValueFor(vals, key))]
  {
    var longer := StoredRow(id, data, vals, names + [key]);
    var updated := StoredRow(id, data, vals, names)[key := MapIndexVal(IndexValueFor(vals, key))];
    assert (set n | n in names + [key]) == (set n | n in names) + {key};
    assert longer.Keys == updated.Keys;
    forall k | k in longer
      ensures longer[k] == updated[k]
    {
      if k != key {
        assert (k in names + [key]) == (k in names);
      }
    }
  }

  /** The stored_data loop of save: start from id and value, then add one column per index name. */
  method BuildStoredData(id: string, data: Blob, vals: map<string, IndexValue>, names: seq<string>) returns (row: Row)
    ensures row == StoredRow(id, data, vals, names)
  {
    row := map["id" := id, "value" := data];
    assert row == StoredRow(id, data, vals, []);
    for i := 0 to |names|
      invariant row == StoredRow(id, data, vals, names[..i])
    {
      var key := names[i];
      var val := IndexValueFor(vals, key);
      row := row[key := MapIndexVal(val)];
      StoredRowSnoc(id, data, vals, names[..i], key);
      assert names[..i + 1] == names[..i] + [key];
    }
    assert names[..|names|] == names;
  }

  /** The item save writes: its table handle, its data, and overwrite=True. */
  datatype PutItem = PutItem(table: TableCall, data: Row, overwrite: bool)

  /**
   * Backend.save: keep a non-empty id, otherwise assign the fresh id, then write
   * the stored row (built after the id is assigned) with overwrite.
   */
  method Save<F, O>(cls: ClassDescriptor<F, O>, obj: Instance<F>, freshId: string) returns (put: PutItem)
    requires IsUuidHex(freshId)
    modifies obj
    ensures obj.id == (if old(obj.id) == "" then freshId else old(obj.id))
    ensures obj.id != ""
    ensures put.table == TableSpec(TableConstructor, cls)
    ensures put.data == StoredRow(obj.id, cls.toData(obj.id, obj.fields), cls.indexes(obj.id, obj.fields), cls.indexNames)
    ensures put.overwrite
  {
    if obj.id == "" {
      obj.id := freshId;
    }
    var data := BuildStoredData(obj.id, cls.toData(obj.id, obj.fields), cls.indexes(obj.id, obj.fields), cls.indexNames);
    var table := TableSchemaCall(TableConstructor, cls);
    put := PutItem(table, data, true);
  }

  /** How a lookup on the table ended: an item (or None), ItemNotFound, or another error. */
  datatype LookupOutcome =
    | Returned(item: Option<Row>)
    | ItemNotFoundRaised
    | LookupRaised(name: string)

  /** The equality query find_by_index issues: index=..., <name>__eq=... */
  datatype IndexQuery = IndexQuery(index: string, conditionKey: string, conditionValue: string)

  /** DynamoDB's answers, as seen through a table handle. */
  datatype Store = Store(
    lookup: (TableCall, string) -> LookupOutcome,
    scan: TableCall -> seq<Row>,
    query: (TableCall, IndexQuery) -> seq<Row>)

  /** A store error other than ItemNotFound, which escapes find_one. */
  datatype BackendError = StoreError(name: string)

  /** `item[key]` on a boto Item: the attribute's value, or None when it is absent. */
  function ItemGet(item: Row, key: string): Option<string> {
    if key in item then Some(item[key]) else None
  }

  /** Backend.find_one. A returned item is falsy when it is None or holds no attributes. */
  function FindOne<F, O>(cls: ClassDescriptor<F, O>, store: Store, id: string): Result<Option<O>, BackendError> {
    match store.lookup(TableSpec(TableConstructor, cls), id)
    case LookupRaised(e) => Failure(StoreError(e))
    case ItemNotFoundRaised => Success(None)
    case Returned(item) =>
      if item.None? || item.value == map[] then Success(None)
      else Success(Some(cls.fromData(ItemGet(item.value, "value"))))
  }

  /**
   * find_one maps ItemNotFound and a falsy result to None, lets other errors
   * escape, and otherwise rebuilds the object from the item's value (None when
   * the item has no value attribute).
   */
  lemma FindOneOutcomes<F, O>(cls: ClassDescriptor<F, O>, store: Store, id: string)
    ensures var l := store.lookup(TableSpec(TableConstructor, cls), id);
      (FindOne(cls, store, id) == Success(None) <==>
         l.ItemNotFoundRaised? || (l.Returned? && (l.item.None? || l.item.value == map[]))) &&
      (FindOne(cls, store, id).Failure? <==> l.LookupRaised?) &&
      (l.LookupRaised? ==> FindOne(cls, store, id) == Failure(StoreError(l.name))) &&
      (l.Returned? && l.item.Some? && "value" in l.item.value ==>
         FindOne(cls, store, id) == Success(Some(cls.fromData(Some(l.item.value["value"]))))) &&
      (l.Returned? && l.item.Some? && l.item.value != map[] && "value" !in l.item.value ==>
         FindOne(cls, store, id) == Success(Some(cls.fromData(None))))
  {
  }

  /**
   * Save then find_one: when the lookup returns the row save wrote and no index
   * is named value, find_one rebuilds the object from what to_data produced.
   */
  lemma SaveThenFindOne<F, O>(cls: ClassDescriptor<F, O>, store: Store, id: string, fields: F)
    requires "value" !in cls.indexNames
    requires store.lookup(TableSpec(TableConstructor, cls), id) ==
      Returned(Some(StoredRow(id, cls.toData(id, fields), cls.indexes(id, fields), cls.indexNames)))
    ensures FindOne(cls, store, id) == Success(Some(cls.fromData(Some(cls.toData(id, fields)))))
  {
    var row := StoredRow(id, cls.toData(id, fields), cls.indexes(id, fields), cls.indexNames);
    assert "value" in row;
  }

  /**
   * When an index is named value, its encoded column replaced to_data() in the
   * saved row, and find_one rebuilds the object from that encoded index value.
   */
  lemma SaveThenFindOneIndexNamedValue<F, O>(cls: ClassDescriptor<F, O>, store: Store, id: string, fields: F)
    requires "value" in cls.indexNames
    requires store.lookup(TableSpec(TableConstructor, cls), id) ==
      Returned(Some(StoredRow(id, cls.toData(id, fields), cls.indexes(id, fields), cls.indexNames)))
    ensures FindOne(cls, store, id) ==
      Success(Some(cls.fromData(Some(MapIndexVal(IndexValueFor(cls.indexes(id, fields), "value"))))))
  {
    var row := StoredRow(id, cls.toData(id, fields), cls.indexes(id, fields), cls.indexNames);
    assert "value" in row;
  }

  /** The results of the find loops: one from_data(row['value']) per row, in row order. */
  function Reconstructed<O>(fromData: Option<Blob> -> O, rows: seq<Row>): seq<O> {
    seq(|rows|, j requires 0 <= j < |rows| => fromData(ItemGet(rows[j], "value")))
  }

  /** The loop shared by find_all and find_by_index. */
  method FromRows<F, O>(cls: ClassDescriptor<F, O>, rows: seq<Row>) returns (finalResults: seq<O>)
    ensures |finalResults| == |rows|
    ensures forall j :: 0 <= j < |rows| && "value" in rows[j] ==> finalResults[j] == cls.fromData(Some(rows[j]["value"]))
    ensures forall j :: 0 <= j < |rows| && "value" !in rows[j] ==> finalResults[j] == cls.fromData(None)
    ensures finalResults == Reconstructed(cls.fromData, rows)
  {
    finalResults := [];
    for i := 0 to |rows|
      invariant |finalResults| == i
      invariant forall j :: 0 <= j < i ==> finalResults[j] == cls.fromData(ItemGet(rows[j], "value"))
    {
      var obj := cls.fromData(ItemGet(rows[i], "value"));
      finalResults := finalResults + [obj];
    }
  }

  /** Backend.find_all: scan the class's table and rebuild every row. */
  method FindAll<F, O>(cls: ClassDescriptor<F, O>, store: Store) returns (r: seq<O>)
    ensures r == Reconstructed(cls.fromData, store.scan(TableSpec(TableConstructor, cls)))
  {
    var table := TableSchemaCall(TableConstructor, cls);
    r := FromRows(cls, store.scan(table));
  }

  /**
   * Backend.find_by_index: query the index table gsi_name(index_name) for rows
   * whose column equals map_index_val(value), and rebuild every row. The index
   * name is not checked against the class's declared indexes.
   */
  method FindByIndex<F, O>(cls: ClassDescriptor<F, O>, store: Store, indexName: string, value: IndexValue)
    returns (r: seq<O>)
    ensures r == Reconstructed(cls.fromData,
      store.query(TableSpec(TableConstructor, cls), IndexQuery(GsiName(indexName), indexName + "__eq", MapIndexVal(value))))
  {
    var queryArgs := IndexQuery(GsiName(indexName), indexName + "__eq", MapIndexVal(value));
    var table := TableSchemaCall(TableConstructor, cls);
    r := FromRows(cls, store.query(table, queryArgs));
  }

  /**
   * An equality query on an encoded index column selects a saved row exactly
   * when the object's raw index value equals the queried value, as long as
   * neither is literally a sentinel string: None, the empty string and genuine
   * strings are told apart.
   */
  lemma IndexColumnMatches(id: string, data: Blob, vals: map<string, IndexValue>, names: seq<string>, k: string, q: IndexValue)
    requires k in names
    requires !(IndexValueFor(vals, k).Some? && IsSentinel(IndexValueFor(vals, k).value))
    requires !(q.Some? && IsSentinel(q.value))
    ensures StoredRow(id, data, vals, names)[k] == MapIndexVal(q) <==> IndexValueFor(vals, k) == q
  {
    MapIndexValInjective(IndexValueFor(vals, k), q);
  }

  /**
   * Widgets with index "color": A is red, B is None, C is the empty string.
   * Querying with None, "" and "red" matches exactly B, C and A respectively.
   */
  lemma WidgetsScenario(a: Blob, b: Blob, c: Blob)
    ensures var rowA := StoredRow("A", a, map["color" := Some("red")], ["color"]);
      var rowB := StoredRow("B", b, map["color" := None], ["color"]);
      var rowC := StoredRow("C", c, map["color" := Some("")], ["color"]);
      (rowB["color"] == MapIndexVal(None) && rowA["color"] != MapIndexVal(None) && rowC["color"] != MapIndexVal(None)) &&
      (rowC["color"] == MapIndexVal(Some("")) && rowA["color"] != MapIndexVal(Some("")) && rowB["color"] != MapIndexVal(Some(""))) &&
      (rowA["color"] == MapIndexVal(Some("red")) && rowB["color"] != MapIndexVal(Some("red")) && rowC["color"] != MapIndexVal(Some("red")))
  {
    var vals := [map["color" := Some("red")], map["color" := None], map["color" := Some("")]];
    var raws := [Some("red"), None, Some("")];
    assert !IsSentinel("red");
    forall i, j | 0 <= i < 3 && 0 <= j < 3
      ensures StoredRow("", "", vals[i], ["color"])["color"] == MapIndexVal(raws[j]) <==> i == j
    {
      IndexColumnMatches("", "", vals[i], ["color"], "color", raws[j]);
    }
    assert StoredRow("A", a, vals[0], ["color"])["color"] == StoredRow("", "", vals[0], ["color"])["color"];
    assert StoredRow("B", b, vals[1], ["color"])["color"] == StoredRow("", "", vals[1], ["color"])["color"];
    assert StoredRow("C", c, vals[2], ["color"])["color"] == StoredRow("", "", vals[2], ["color"])["color"];
  }

  /**
   * Because a missing index reads as '', querying with the empty string also
   * matches objects that report no value for that index.
   */
  lemma MissingIndexMatchesEmptyQuery(id: string, data: Blob, vals: map<string, IndexValue>, names: seq<string>, k: string)
    requires k in names && k !in vals
    ensures StoredRow(id, data, vals, names)[k] == MapIndexVal(Some(""))
  {
  }
}
