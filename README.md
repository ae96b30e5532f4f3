# gludb DynamoDB backend — verified model

A Dafny model of the deterministic core of gludb's DynamoDB backend
(`gludb/backends/dynamodb.py`): the index-value codec that replaces `None` and
empty strings (which DynamoDB refuses as key values) by two sentinel strings,
the derivation of a class's table schema (hash key `id` plus one global
secondary index per declared index name), the provisioning decision of
`ensure_table`, the row `save` writes, and the way `find_one`, `find_all` and
`find_by_index` turn DynamoDB's answers into objects.

Layout:

- `wrappers.dfy` — `Option` (Python's `None`) and `Result` (an exception that escapes).
- `dynamo_mappings.dfy` — module `DynamoMappings`: the sentinels, `map_index_val`, `unmap_stored_val` and their round-trip lemmas.
- `descriptors.dfy` — module `Descriptors`: a persisted class as the backend sees it (table name, index names, and its `to_data`, `from_data`, `indexes` as function-valued fields the backend calls but does not define).
- `table_lifecycle.dfy` — module `TableLifecycle`: the module-level `gsi_name` and the `Backend` methods `table_schema_call` and `ensure_table`.
- `record_store.dfy` — module `RecordStore`: the `Backend` methods `save`, `find_one`, `find_all` and `find_by_index`.

The source's `Backend` class has no state, so its methods are module-level members here, split between the two modules above.

Boundaries: every boto call is modelled by its arguments or its answer. A call
to `Table(...)` or `Table.create(...)` is a `TableCall` value (which of the two,
the table name, the schema and the global indexes). DynamoDB's answers to
`lookup`, `scan` and `query_2` are the function fields of a `Store` value, and
the outcome of `describe_table` is a `DescribeOutcome` parameter. `save`
returns the item it writes. The id that `uuid()` would produce is a parameter
satisfying `IsUuidHex` (32 lower-case hex digits).

`find_by_index` does not check the index name against the class's declared
indexes, so there is no undeclared-index error. The sentinels are ordinary
strings, so a raw value equal to one of them collides (`SentinelCollision`).
Rows are boto `Item`s: reading an attribute an item lacks gives `None`, so a
row without `value` is handed to `from_data` as `None`.

## Model

| member | source | states |
|---|---|---|
| `DynamoMappings.MapIndexVal` | gludb/backends/dynamodb.py:63-72 | the stored value is never empty; a non-sentinel result is exactly the raw string; a sentinel results exactly from None, the empty string or a raw sentinel string |
| `DynamoMappings.UnmapStoredVal` | gludb/backends/dynamodb.py:75-84 | None exactly for the None sentinel; the empty string exactly for the empty-string sentinel (or an empty input); otherwise the stored string itself |
| `DynamoMappings.SentinelsDistinct` | gludb/backends/dynamodb.py:59-60 | the two sentinels are distinct and non-empty |
| `DynamoMappings.MapIndexValCases` | gludb/backends/dynamodb.py:65-72 | None maps to the None sentinel, the empty string to the empty-string sentinel, anything else to itself |
| `DynamoMappings.RoundTrip` | gludb/backends/dynamodb.py:63-84 | unmap(map(v)) == v holds exactly when v is not literally one of the two sentinel strings |
| `DynamoMappings.SentinelCollision` | gludb/backends/dynamodb.py:59-72 | a raw value equal to a sentinel is stored like None or like the empty string and the round trip loses it |
| `DynamoMappings.MapIndexValInjective` | gludb/backends/dynamodb.py:63-72 | away from the sentinel strings, two raw values share a stored form iff they are equal |
| `DynamoMappings.UnmapThenMap` | gludb/backends/dynamodb.py:63-84 | map(unmap(s)) == s for every non-empty stored string |
| `TableLifecycle.GsiName` | gludb/backends/dynamodb.py:46-49 | the result is the index name followed by `_gsiindex` |
| `TableLifecycle.GsiNameInjective` | gludb/backends/dynamodb.py:46-49 | distinct index names give distinct index-table names |
| `TableLifecycle.TableSpecShape` | gludb/backends/dynamodb.py:96-114 | the call gets the class's table name, schema `[HashKey('id')]`, one index per index name in order, named by gsi_name, hashed on the name and including `value`; no index list when there are no names |
| `TableLifecycle.IndexDefNamesDistinct` | gludb/backends/dynamodb.py:101-107 | two derived index definitions share a name iff their index names are equal |
| `TableLifecycle.TableSchemaCall` | gludb/backends/dynamodb.py:96-114 | the loop builds exactly the declaratively derived call |
| `TableLifecycle.EnsureTable` | gludb/backends/dynamodb.py:116-132 | a create (with the derived schema) is issued iff describe raised ResourceNotFoundException or JSONResponseError; nothing happens when the table is described; any other error escapes without a create |
| `TableLifecycle.EnsureTableIdempotent` | gludb/backends/dynamodb.py:116-132 | against a store that answers describe truthfully, the table exists after one call, with the derived schema if it was created, and a second call creates nothing |
| `RecordStore.StoredRowShape` | gludb/backends/dynamodb.py:178-186 | the row holds exactly id, value and one column per index name; each index column is map_index_val(indexes().get(name, '')); id and value hold obj.id and to_data() unless an index of that name replaces them |
| `RecordStore.MissingAndNoneIndexColumns` | gludb/backends/dynamodb.py:183-186 | an index missing from indexes() is stored as the empty-string sentinel, an explicit None as the None sentinel |
| `RecordStore.IndexNamedIdReplacesKey` | gludb/backends/dynamodb.py:178-186 | an index named `id` overwrites the primary key in the row |
| `RecordStore.StoredRowSnoc` | gludb/backends/dynamodb.py:184-186 | one more index name adds or replaces exactly that column |
| `RecordStore.BuildStoredData` | gludb/backends/dynamodb.py:178-186 | the loop builds exactly the declaratively defined stored row |
| `RecordStore.Save` | gludb/backends/dynamodb.py:174-191 | a non-empty id is kept, an empty one replaced by the fresh id, so the id is non-empty afterwards; the item written is the stored row for that id, on the class's table, with overwrite |
| `RecordStore.FindOneOutcomes` | gludb/backends/dynamodb.py:139-150 | None exactly when lookup raised ItemNotFound or returned a falsy item; any other lookup error escapes; otherwise from_data(item['value']), which is from_data(None) when the item has no value attribute |
| `RecordStore.SaveThenFindOne` | gludb/backends/dynamodb.py:139-191 | when lookup returns the row save wrote and no index is named `value`, find_one gives from_data(to_data()) |
| `RecordStore.SaveThenFindOneIndexNamedValue` | gludb/backends/dynamodb.py:139-191 | when an index is named `value`, find_one on the saved row gives from_data of that index's encoded value instead |
| `RecordStore.FromRows` | gludb/backends/dynamodb.py:155-159 | exactly one from_data(row['value']) per row, in row order; a row without value gives from_data(None) |
| `RecordStore.FindAll` | gludb/backends/dynamodb.py:152-159 | the result is the rebuilt scan of the class's own table |
| `RecordStore.FindByIndex` | gludb/backends/dynamodb.py:161-172 | queries index gsi_name(index_name) with index_name__eq = map_index_val(value) on the class's table and rebuilds every returned row |
| `RecordStore.IndexColumnMatches` | gludb/backends/dynamodb.py:161-186 | an encoded index column equals the encoded query iff the raw values are equal (neither being a sentinel string) |
| `RecordStore.WidgetsScenario` | gludb/backends/dynamodb.py:161-186 | with index color: querying None, '' and 'red' matches exactly the widget stored with None, '' and 'red' |
| `RecordStore.MissingIndexMatchesEmptyQuery` | gludb/backends/dynamodb.py:183-186 | an object reporting no value for an index matches a query for the empty string |

## Left out

- `get_conn` (gludb/backends/dynamodb.py:23-43): endpoint selection from the environment and connection construction are configuration and I/O; the `connection=` argument of every table call is omitted.
- `delete_table` (gludb/backends/dynamodb.py:87-89): a maintenance call into boto with no logic of its own.
- `get_class_table` (gludb/backends/dynamodb.py:134-137) is `TableSchemaCall(TableConstructor, ...)` and is used as such by the find methods and `Save`.
- DynamoDB itself: the results of `lookup`, `scan` and `query_2`, and what `Item.save` and `Table.create` do, are given or returned, never computed; errors raised by `scan`, `query_2`, `Table.create` and `Item.save` are not modelled.
- Exceptions raised by the class's own `to_data`, `from_data`, `indexes`, `index_names` and `get_table_name`: these are total functions in the model, so such an exception (which escapes `save` and the finds unchanged, and aborts a find loop partway) does not appear.
- `uuid()` randomness: the fresh id is a parameter; its uniqueness is probabilistic and not modelled.
- Python `str()` on arbitrary objects: a raw index value is `None` or already its string form.
- `index_names()` or `indexes()` returning `None` (`or []`, `or {}`): the descriptor holds the already-defaulted list and dict.
- An object id of `None`: ids are strings, and the empty string stands for every falsy id.
- The `assert` statements on library return values (gludb/backends/dynamodb.py:122 and :132).
- Truthiness of a boto item is modelled as "None or no attributes".
