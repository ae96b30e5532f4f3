/**
 * The index-value codec of the DynamoDB backend (class DynamoMappings).
 * DynamoDB refuses None and the empty string as key values, so index values
 * are mapped to two reserved sentinel strings before they are stored or queried.
 */
module DynamoMappings {
  import opened Wrappers

  /** Stored in place of a None index value. */
  const NoneVal: string := "<{[None>}]"

  /** Stored in place of an index value whose string form is empty. */
  const EmptyStrVal: string := "<{[''>}]"

  /**
   * A raw index value as an object's indexes() reports it: None, or the
   * value's string form (what Python's str() gives for it).
   */
  type IndexValue = Option<string>

  predicate IsSentinel(s: string) {
    s == NoneVal || s == EmptyStrVal
  }

  /** map_index_val: transform an index value so that DynamoDB accepts it as a key. */
  function MapIndexVal(v: IndexValue): (r: string)
    // DynamoDB never sees an empty key
    ensures r != ""
    // a stored value that is not a sentinel is the raw string itself
    ensures !IsSentinel(r) ==> v == Some(r)
    // a sentinel comes from None, from the empty string, or from a raw value that is itself a sentinel
    ensures IsSentinel(r) <==> (v.None? || v.value == "" || IsSentinel(v.value))
  {
    match v
    case None => NoneVal
    case Some(s) => if s == "" then EmptyStrVal else s
  }

  /** unmap_stored_val: the intended inverse of MapIndexVal. */
  function UnmapStoredVal(s: string): (v: IndexValue)
    ensures v.None? <==> s == NoneVal
    ensures v == Some("") <==> (s == EmptyStrVal || s == "")
    ensures v.Some? ==> v.value == s || s == EmptyStrVal
  {
    if s == NoneVal then None
    else if s == EmptyStrVal then Some("")
    else Some(s)
  }

  /** The two sentinels are distinct, non-empty strings. */
  lemma SentinelsDistinct()
    ensures NoneVal != EmptyStrVal
    ensures NoneVal != "" && EmptyStrVal != ""
  {
  }

  /** The three cases of map_index_val. */
  lemma MapIndexValCases(v: IndexValue)
    ensures v.None? ==> MapIndexVal(v) == NoneVal
    ensures v == Some("") ==> MapIndexVal(v) == EmptyStrVal
    ensures v.Some? && v.value != "" ==> MapIndexVal(v) == v.value
  {
  }

  /**
   * unmap_stored_val undoes map_index_val exactly for the values that are not
   * literally one of the sentinels: None, the empty string, and every other string.
   */
  lemma RoundTrip(v: IndexValue)
    ensures UnmapStoredVal(MapIndexVal(v)) == v <==> !(v.Some? && IsSentinel(v.value))
  {
    SentinelsDistinct();
    match v
    case None =>
    case Some(s) =>
      if s == "" {
        assert MapIndexVal(v) == EmptyStrVal;
      } else if s == NoneVal {
        assert UnmapStoredVal(MapIndexVal(v)) == None;
      } else if s == EmptyStrVal {
        assert UnmapStoredVal(MapIndexVal(v)) == Some("");
      }
  }

  /**
   * The sentinels are ordinary strings: a raw value equal to one collides with
   * None or with the empty string, and the round trip loses it.
   */
  lemma SentinelCollision()
    ensures MapIndexVal(Some(NoneVal)) == MapIndexVal(None)
    ensures MapIndexVal(Some(EmptyStrVal)) == MapIndexVal(Some(""))
    ensures UnmapStoredVal(MapIndexVal(Some(NoneVal))) == None
    ensures UnmapStoredVal(MapIndexVal(Some(EmptyStrVal))) == Some("")
  {
    SentinelsDistinct();
  }

  /**
   * Away from the sentinel strings the codec is injective: two raw values get
   * the same stored form exactly when they are equal. This keeps None, the empty
   * string and every other string apart.
   */
  lemma MapIndexValInjective(a: IndexValue, b: IndexValue)
    requires !(a.Some? && IsSentinel(a.value))
    requires !(b.Some? && IsSentinel(b.value))
    ensures MapIndexVal(a) == MapIndexVal(b) <==> a == b
  {
    RoundTrip(a);
    RoundTrip(b);
  }

  /**
   * Mapping after unmapping gives back every stored value map_index_val can
   * produce, i.e. every non-empty string.
   */
  lemma UnmapThenMap(s: string)
    ensures s != "" ==> MapIndexVal(UnmapStoredVal(s)) == s
    ensures s == "" ==> MapIndexVal(UnmapStoredVal(s)) == EmptyStrVal
  {
    SentinelsDistinct();
  }
}
