/**
 The tombstone test is written four times in SQL and once in Go. SQL evaluates it in three-valued
 logic; a WHERE clause keeps a row only when its condition is TRUE. This module states each version
 as its source writes it, proves the SQL versions exact complements of each other, and finds exactly
 the metadata for which the Go version agrees with them.
 */
module Tombstone {
  import opened Wrappers
  import opened Json
  import opened Model

  /******* SQL's three-valued logic *******/

  datatype Truth = Yes | No | Unknown

  function Not(a: Truth): Truth {
    match a
    case Yes => No
    case No => Yes
    case Unknown => Unknown
  }

  function And(a: Truth, b: Truth): Truth {
    if a.No? || b.No? then No else if a.Yes? && b.Yes? then Yes else Unknown
  }

  function Or(a: Truth, b: Truth): Truth {
    Not(And(Not(a), Not(b)))
  }

  function IsNull<T>(x: Option<T>): Truth {
    if x.None? then Yes else No
  }

  /** SQL `=`: unknown as soon as one side is NULL. */
  function Equal<T(==)>(x: Option<T>, y: Option<T>): Truth {
    if x.None? || y.None? then Unknown else if x == y then Yes else No
  }

  /** Does a WHERE clause with this condition keep the row? */
  predicate Keeps(condition: Truth) {
    condition.Yes?
  }

  /******* The four SQL spellings *******/

  /** Compaction and revival: deletion_timestamp IS NOT NULL
      AND (metadata->'finalizers' IS NULL OR metadata->'finalizers' = '[]'). */
  predicate IsTombstone(deletionTs: Option<Time>, metadata: Json) {
    var finalizers := Arrow(metadata, "finalizers");
    Keeps(And(Not(IsNull(deletionTs)), Or(IsNull(finalizers), Equal(finalizers, Some(EMPTY_ARRAY)))))
  }

  /** List: deletion_timestamp IS NULL OR metadata->'finalizers' != '[]'. */
  predicate ListShows(deletionTs: Option<Time>, metadata: Json) {
    var finalizers := Arrow(metadata, "finalizers");
    Keeps(Or(IsNull(deletionTs), Not(Equal(finalizers, Some(EMPTY_ARRAY)))))
  }

  /** The client's current-row read: deletion_timestamp IS NULL
      OR (metadata->'finalizers' IS NOT NULL AND metadata->'finalizers' != '[]'). */
  predicate CurrentReadShows(deletionTs: Option<Time>, metadata: Json) {
    var finalizers := Arrow(metadata, "finalizers");
    Keeps(Or(IsNull(deletionTs),
             And(Not(IsNull(finalizers)), Not(Equal(finalizers, Some(EMPTY_ARRAY))))))
  }

  /** Although `x != '[]'` is not the negation of `x IS NULL OR x = '[]'` for a missing key, the WHERE
      clauses around them are exact complements, for every JSON metadata whatever its shape. */
  lemma SqlTestsAreComplements(deletionTs: Option<Time>, metadata: Json)
    ensures ListShows(deletionTs, metadata) <==> !IsTombstone(deletionTs, metadata)
    ensures CurrentReadShows(deletionTs, metadata) <==> !IsTombstone(deletionTs, metadata)
    ensures IsTombstone(deletionTs, metadata) <==>
            && deletionTs.Some?
            && Arrow(metadata, "finalizers") in {None, Some(EMPTY_ARRAY)}
  {
  }

  /******* The Go test *******/

  /** What json.Unmarshal makes of a []string field: its length, or None for a decoding error.
      A JSON null leaves the field, or the element, at its zero value without an error. */
  function StringsLength(field: Option<Json>): Option<nat> {
    match field
    case None => Some(0)
    case Some(JsonNull) => Some(0)
    case Some(JsonArray(items)) =>
      if forall i | 0 <= i < |items| :: items[i].JsonString? || items[i].JsonNull? then Some(|items|) else None
    case Some(_) => None
  }

  predicate DecodesAsStringMap(field: Option<Json>) {
    match field
    case None => true
    case Some(JsonNull) => true
    case Some(JsonObject(fields)) => forall k | k in fields :: fields[k].JsonString? || fields[k].JsonNull?
    case Some(_) => false
  }

  /** The int64 a `generation` field decodes to, or None for a decoding error. */
  function DecodeInt64(field: Option<Json>): Option<Int64> {
    match field
    case None => Some(0)
    case Some(JsonNull) => Some(0)
    case Some(JsonNumber(n)) => if -INT64_LIMIT <= n < INT64_LIMIT then Some(n) else None
    case Some(_) => None
  }

  predicate DecodesAsObjects(field: Option<Json>) {
    match field
    case None => true
    case Some(JsonNull) => true
    case Some(JsonArray(items)) => forall i | 0 <= i < |items| :: items[i].JsonObject? || items[i].JsonNull?
    case Some(_) => false
  }

  /** Do the fields of storedMetadata other than the finalizers decode? */
  predicate RestDecodes(metadata: Json) {
    && (metadata.JsonObject? || metadata.JsonNull?)
    && DecodesAsStringMap(Arrow(metadata, "labels"))
    && DecodesAsStringMap(Arrow(metadata, "annotations"))
    && DecodesAsObjects(Arrow(metadata, "ownerReferences"))
    && DecodeInt64(Arrow(metadata, "generation")).Some?
  }

  /** Go's hasFinalizers: any decoding error, in any field, reads as "no finalizers". */
  predicate HasFinalizers(metadata: Json) {
    var length := StringsLength(Arrow(metadata, "finalizers"));
    RestDecodes(metadata) && length.Some? && length.value > 0
  }

  /** What the Go test comes to, field by field. */
  lemma HasFinalizersExactly(metadata: Json)
    ensures HasFinalizers(metadata) <==>
              && metadata.JsonObject?
              && var f := metadata.fields;
                 && (forall k | k in {"labels", "annotations"} && k in f ::
                       f[k].JsonNull?
                       || (f[k].JsonObject? && forall l | l in f[k].fields ::
                             f[k].fields[l].JsonString? || f[k].fields[l].JsonNull?))
                 && ("ownerReferences" in f && !f["ownerReferences"].JsonNull? ==>
                       var refs := f["ownerReferences"];
                       refs.JsonArray? && forall i | 0 <= i < |refs.items| :: refs.items[i].JsonObject? || refs.items[i].JsonNull?)
                 && ("generation" in f && !f["generation"].JsonNull? ==>
                       f["generation"].JsonNumber? && -INT64_LIMIT <= f["generation"].n < INT64_LIMIT)
                 && "finalizers" in f && f["finalizers"].JsonArray? && f["finalizers"].items != []
                 && forall i | 0 <= i < |f["finalizers"].items| ::
                      f["finalizers"].items[i].JsonString? || f["finalizers"].items[i].JsonNull?
  {
    if metadata.JsonObject? {
      assert DecodesAsStringMap(Arrow(metadata, "labels")) <==>
             ("labels" in metadata.fields ==> DecodesAsStringMap(Some(metadata.fields["labels"])));
      assert DecodesAsStringMap(Arrow(metadata, "annotations")) <==>
             ("annotations" in metadata.fields ==> DecodesAsStringMap(Some(metadata.fields["annotations"])));
    }
  }

  predicate IsFullyDeleted(deletionTs: Option<Time>, metadata: Json) {
    deletionTs.Some? && !HasFinalizers(metadata)
  }

  /** Go's currentGeneration: any decoding error reads as generation 0. */
  function CurrentGeneration(metadata: Json): Int64 {
    if RestDecodes(metadata) && StringsLength(Arrow(metadata, "finalizers")).Some?
    then DecodeInt64(Arrow(metadata, "generation")).value
    else 0
  }

  /** Metadata on which the two languages read the finalizers the same way. */
  predicate ReadsAlike(metadata: Json) {
    var finalizers := Arrow(metadata, "finalizers");
    || finalizers in {None, Some(EMPTY_ARRAY)}
    || (&& RestDecodes(metadata)
        && finalizers.value.JsonArray?
        && StringsLength(finalizers).Some?)
  }

  /** The Go test and the SQL test agree on a row exactly when the row is not deleted or its
      metadata reads alike. `"finalizers": null` on a deleted row is the smallest disagreement:
      List shows the row, the watch reports it deleted. */
  lemma GoAgreesExactly(deletionTs: Option<Time>, metadata: Json)
    ensures IsFullyDeleted(deletionTs, metadata) == IsTombstone(deletionTs, metadata)
            <==> deletionTs.None? || ReadsAlike(metadata)
  {
    var finalizers := Arrow(metadata, "finalizers");
    if finalizers.Some? && finalizers.value.JsonArray? && finalizers.value != EMPTY_ARRAY {
      assert |finalizers.value.items| > 0;
    }
  }

  /******* What the client itself stores *******/

  datatype StoredMetadata = StoredMetadata(
    labels: map<string, string>,
    annotations: map<string, string>,
    ownerReferences: seq<map<string, Json>>,
    finalizers: seq<string>,
    generation: Int64)

  function StringMap(m: map<string, string>): Json {
    JsonObject(map k | k in m :: JsonString(m[k]))
  }

  function StringArray(items: seq<string>): Json {
    JsonArray(seq(|items|, i requires 0 <= i < |items| => JsonString(items[i])))
  }

  function ObjectArray(items: seq<map<string, Json>>): Json {
    JsonArray(seq(|items|, i requires 0 <= i < |items| => JsonObject(items[i])))
  }

  /** Adds a field to an object, unless it is empty and so omitted. */
  function With(fields: map<string, Json>, key: string, present: bool, value: Json): map<string, Json> {
    if present then fields[key := value] else fields
  }

  /** json.Marshal of storedMetadata, every field marked omitempty. */
  function Encode(sm: StoredMetadata): Json {
    var f0 := With(map[], "labels", sm.labels != map[], StringMap(sm.labels));
    var f1 := With(f0, "annotations", sm.annotations != map[], StringMap(sm.annotations));
    var f2 := With(f1, "ownerReferences", sm.ownerReferences != [], ObjectArray(sm.ownerReferences));
    var f3 := With(f2, "finalizers", sm.finalizers != [], StringArray(sm.finalizers));
    JsonObject(With(f3, "generation", sm.generation != 0, JsonNumber(sm.generation)))
  }

  lemma EncodedFields(sm: StoredMetadata)
    ensures var m := Encode(sm);
            && m.JsonObject?
            && Arrow(m, "labels") == (if sm.labels == map[] then None else Some(StringMap(sm.labels)))
            && Arrow(m, "annotations") == (if sm.annotations == map[] then None else Some(StringMap(sm.annotations)))
            && Arrow(m, "ownerReferences")
               == (if sm.ownerReferences == [] then None else Some(ObjectArray(sm.ownerReferences)))
            && Arrow(m, "finalizers") == (if sm.finalizers == [] then None else Some(StringArray(sm.finalizers)))
            && Arrow(m, "generation") == (if sm.generation == 0 then None else Some(JsonNumber(sm.generation)))
  {
  }

  lemma EncodedDecodes(sm: StoredMetadata)
    ensures RestDecodes(Encode(sm))
    ensures StringsLength(Arrow(Encode(sm), "finalizers")) == Some(|sm.finalizers|)
    ensures DecodeInt64(Arrow(Encode(sm), "generation")) == Some(sm.generation)
  {
    EncodedFields(sm);
    assert DecodesAsStringMap(Some(StringMap(sm.labels))) && DecodesAsStringMap(Some(StringMap(sm.annotations)));
    assert DecodesAsObjects(Some(ObjectArray(sm.ownerReferences)));
    assert StringsLength(Some(StringArray(sm.finalizers))) == Some(|sm.finalizers|);
  }

  /** Everything the client writes decodes back: the finalizers it wrote are the finalizers both
      languages see, and the generation survives. */
  lemma ClientMetadataReadsAlike(sm: StoredMetadata)
    ensures ReadsAlike(Encode(sm))
    ensures HasFinalizers(Encode(sm)) <==> sm.finalizers != []
    ensures CurrentGeneration(Encode(sm)) == sm.generation
  {
    EncodedFields(sm);
    EncodedDecodes(sm);
  }
}
