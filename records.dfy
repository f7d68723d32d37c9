/**
 * Records fetched from the search index, and the projection of one search hit
 * onto the report fields (cmds/dumpindextoexcel.js, the body of the `forEach`
 * in `internals.fetchResults`).
 */
module Records {

  import opened Wrappers

  /** A JavaScript property value as the exporter sees it: `undefined`, or a value
      the backend returned, carried as its text. */
  datatype Value = Undefined | Str(text: string)

  /** A plain JavaScript object used as a record: property name to value. */
  type Record = map<string, Value>

  /** Reading property `key` of an object: `undefined` when the object has no such property. */
  function Lookup(r: Record, key: string): Value
  {
    if key in r then r[key] else Undefined
  }

  /** One search hit; `fields` is `None` when the backend sent no `fields` object (null or undefined). */
  datatype Hit = Hit(fields: Option<Record>)

  /** The record pushed for one hit: every report field mapped to the hit's value
      for it, or the empty object when the hit has no fields. */
  function Projection(reportFields: seq<string>, hit: Hit): Record
  {
    match hit.fields
    case None => map[]
    case Some(found) => map f | f in reportFields :: Lookup(found, f)
  }

  /**
   * Builds the record for one hit as the source does, field by field.
   * A hit without fields yields `{}`; otherwise the keys are exactly the report
   * fields and each value is the hit's own value for that field (possibly undefined).
   */
  method ProjectHit(reportFields: seq<string>, hit: Hit) returns (res: Record)
    ensures hit.fields.None? ==> res == map[]
    ensures hit.fields.Some? ==> forall f :: f in res <==> f in reportFields
    ensures hit.fields.Some? ==> forall f :: f in res ==> res[f] == Lookup(hit.fields.value, f)
    ensures res == Projection(reportFields, hit)
  {
    res := map[];
    if hit.fields.Some? {
      var found := hit.fields.value;
      var i := 0;
      while i < |reportFields|
        invariant 0 <= i <= |reportFields|
        invariant forall f :: f in res <==> f in reportFields[..i]
        invariant forall f :: f in res ==> res[f] == Lookup(found, f)
      {
        res := res[reportFields[i] := Lookup(found, reportFields[i])];
        i := i + 1;
      }
      assert reportFields[..i] == reportFields;
    }
  }

  /** A record that came from a hit without fields reads `undefined` for every field. */
  lemma FieldlessHitReadsUndefined(reportFields: seq<string>, f: string)
    ensures Lookup(Projection(reportFields, Hit(None)), f) == Undefined
  {
  }

  /** A record that came from a hit with fields reads, for each report field, the hit's value. */
  lemma ProjectedFieldReadsHitValue(reportFields: seq<string>, found: Record, i: nat)
    requires i < |reportFields|
    ensures Lookup(Projection(reportFields, Hit(Some(found))), reportFields[i]) == Lookup(found, reportFields[i])
  {
  }

}
