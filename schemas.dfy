/**
 * The committed schema (an ordered list of named, typed fields) and the
 * rows that conform to it.
 */
module Schemas {
  import opened Text
  import opened Values

  /** One entry of the schema list: `{'name': ..., 'type': ...}`. */
  datatype Field = Field(name: string, ftype: FieldType)

  type Schema = seq<Field>

  /** A stored row: field name to typed value. */
  type Row = map<string, Value>

  /** `[s['name'] for s in schema]`: the column names in schema order. */
  function Names(schema: Schema): (r: seq<string>)
    ensures |r| == |schema|
    ensures forall i :: 0 <= i < |schema| ==> r[i] == schema[i].name
  {
    seq(|schema|, i requires 0 <= i < |schema| => schema[i].name)
  }

  function NameSet(schema: Schema): set<string> {
    set i | 0 <= i < |schema| :: schema[i].name
  }

  /** A name is in the name set exactly when it is in the list of names. */
  lemma NameSetNames(schema: Schema, x: string)
    ensures x in NameSet(schema) <==> x in Names(schema)
  {
    if x in Names(schema) {
      var i :| 0 <= i < |schema| && Names(schema)[i] == x;
      assert schema[i].name == x;
    }
  }

  /** Adding a field adds its name. */
  lemma NameSetAppend(schema: Schema, f: Field)
    ensures NameSet(schema + [f]) == NameSet(schema) + {f.name}
  {
    NameSetSnoc(schema + [f]);
    assert (schema + [f])[..|schema|] == schema;
  }

  lemma NameSetSnoc(schema: Schema)
    requires schema != []
    ensures NameSet(schema) == NameSet(schema[..|schema| - 1]) + {schema[|schema| - 1].name}
  {
    var n := |schema| - 1;
    forall x | x in NameSet(schema) ensures x in NameSet(schema[..n]) + {schema[n].name} {
      var i :| 0 <= i < |schema| && schema[i].name == x;
      if i < n { assert schema[..n][i].name == x; }
    }
    forall x | x in NameSet(schema[..n]) ensures x in NameSet(schema) {
      var i :| 0 <= i < n && schema[..n][i].name == x;
      assert schema[i].name == x;
    }
  }

  /** No string occurs twice. */
  predicate Distinct(xs: seq<string>) {
    forall i, j :: 0 <= i < j < |xs| ==> xs[i] != xs[j]
  }

  /** No two fields share a name. */
  predicate DistinctNames(schema: Schema) {
    Distinct(Names(schema))
  }

  /** What a successful "Save schema" guarantees: names are stripped, non-empty and distinct. */
  predicate WellFormed(schema: Schema) {
    DistinctNames(schema)
    && forall i :: 0 <= i < |schema| ==> schema[i].name != "" && Strip(schema[i].name) == schema[i].name
  }

  /** A row holds exactly the schema's names, each with a value its field's type allows. */
  predicate Conforms(row: Row, schema: Schema) {
    row.Keys == NameSet(schema)
    && forall i :: 0 <= i < |schema| ==> schema[i].name in row && Fits(row[schema[i].name], schema[i].ftype)
  }
}
