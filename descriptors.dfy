/**
 * What the backend needs from a persisted class: its table name, its ordered
 * index names, and the class's own to_data / from_data / indexes operations,
 * which the backend calls but does not define (here: function-valued fields).
 */
module Descriptors {
  import opened Wrappers
  import opened DynamoMappings

  /** The opaque serialised object that to_data produces and from_data consumes. */
  type Blob = string

  /** A DynamoDB item as the backend writes and reads it: attribute name to value. */
  type Row = map<string, string>

  /**
   * F is the state of an object apart from its id; O is what from_data builds.
   * from_data is handed `item['value']`, which on a boto Item is None when the
   * item has no value attribute, hence its Option argument.
   * to_data and indexes see the id too, since save assigns the id before calling them.
   * indexNames is `index_names() or []`; indexes is `indexes() or {}`.
   */
  datatype ClassDescriptor<!F, O> = ClassDescriptor(
    tableName: string,
    indexNames: seq<string>,
    toData: (string, F) -> Blob,
    indexes: (string, F) -> map<string, IndexValue>,
    fromData: Option<Blob> -> O)
}
