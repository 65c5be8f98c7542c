/**
 * `validate_and_cast`: checking one raw row against the schema, field by
 * field in schema order, stopping at the first field that fails to cast.
 */
module Validation {
  import opened Outcomes
  import opened Values
  import opened Schemas

  /** A row as submitted: field name to raw value (other keys may be present). */
  type RawRow = map<string, Raw>

  /** The field that failed and the type it was being cast to. */
  datatype CastError = CastError(field: string, ftype: FieldType)

  /** The message the source reports, without the parser's own exception text. */
  function CastMessage(e: CastError): string {
    "Error casting field '" + e.field + "' to " + TypeName(e.ftype)
  }

  /** Text ending in one type name cannot also end in another. */
  lemma TypeNameSuffix(a: string, t1: FieldType, b: string, t2: FieldType)
    requires a + TypeName(t1) == b + TypeName(t2)
    ensures t1 == t2 && a == b
  {
    var m := a + TypeName(t1);
    var k1, k2 := TypeName(t1), TypeName(t2);
    assert m[|m| - 1] == k1[|k1| - 1] == k2[|k2| - 1];
    if |k1| >= 6 && |k2| >= 6 {
      assert m[|m| - 6] == k1[|k1| - 6] == k2[|k2| - 6];
    }
    assert a == m[..|a|] == b;
  }

  /** Different cast errors give different messages: a message names its field and its type. */
  lemma CastMessageInjective(e1: CastError, e2: CastError)
    requires CastMessage(e1) == CastMessage(e2)
    ensures e1 == e2
  {
    var p1 := "Error casting field '" + e1.field + "' to ";
    var p2 := "Error casting field '" + e2.field + "' to ";
    assert CastMessage(e1) == p1 + TypeName(e1.ftype);
    assert CastMessage(e2) == p2 + TypeName(e2.ftype);
    TypeNameSuffix(p1, e1.ftype, p2, e2.ftype);
    assert e1.field == p1[21..|p1| - 5] == e2.field;
  }

  /** `row_dict.get(name, None)`. */
  function Lookup(raw: RawRow, name: string): Raw {
    if name in raw then raw[name] else RawNone
  }

  /** Whether the cast of field `i` of the schema fails on `raw`. */
  predicate FailsAt(schema: Schema, raw: RawRow, p: Parsers, i: nat)
    requires i < |schema|
  {
    Cast(schema[i].ftype, Lookup(raw, schema[i].name), p).None?
  }

  /**
   * The outcome of validating `raw` against `schema`: the fields are cast in
   * order into `out`, and the first failing field ends it with that field's error.
   */
  function CastAll(schema: Schema, raw: RawRow, p: Parsers): Result<Row, CastError>
    decreases |schema|
  {
    if schema == [] then Ok(map[])
    else
      var f := schema[|schema| - 1];
      match CastAll(schema[..|schema| - 1], raw, p)
      case Err(e) => Err(e)
      case Ok(out) =>
        match Cast(f.ftype, Lookup(raw, f.name), p)
        case None => Err(CastError(f.name, f.ftype))
        case Some(v) => Ok(out[f.name := v])
  }

  /** An error on a prefix of the schema is the error on the whole schema. */
  lemma {:induction false} ErrorPersists(schema: Schema, raw: RawRow, p: Parsers, k: nat)
    requires k <= |schema| && CastAll(schema[..k], raw, p).Err?
    ensures CastAll(schema, raw, p) == CastAll(schema[..k], raw, p)
  {
    if k < |schema| {
      var n := |schema| - 1;
      assert schema[..n][..k] == schema[..k];
      ErrorPersists(schema[..n], raw, p, k);
    } else {
      assert schema[..k] == schema;
    }
  }

  /**
   * `validate_and_cast(row_dict)` against `schema`, returning the cast row or
   * the error of the first field that failed.
   */
  method ValidateAndCast(schema: Schema, raw: RawRow, p: Parsers) returns (res: Result<Row, CastError>)
    ensures res == CastAll(schema, raw, p)
  {
    var out: Row := map[];
    var i := 0;
    while i < |schema|
      invariant 0 <= i <= |schema|
      invariant CastAll(schema[..i], raw, p) == Ok(out)
    {
      var name, ftype := schema[i].name, schema[i].ftype;
      assert schema[..i + 1][..i] == schema[..i];
      var val := Lookup(raw, name);
      if val.RawStr? && Text.Strip(val.s) == "" {
        val := RawNone;
      }
      if val.RawNone? {
        out := out[name := Null];
      } else if ftype == Number {
        var x := if val.RawStr? then p.number(val.s) else None;
        if x.None? {
          ErrorPersists(schema, raw, p, i + 1);
          return Err(CastError(name, ftype));
        }
        out := out[name := Num(x.value)];
      } else if ftype == Date {
        if val.RawDate? {
          out := out[name := Day(val.d)];
        } else {
          var d := p.date(val.s);
          if d.None? {
            ErrorPersists(schema, raw, p, i + 1);
            return Err(CastError(name, ftype));
          }
          out := out[name := Day(d.value)];
        }
      } else {
        out := out[name := Text(Show(val))];
      }
      i := i + 1;
    }
    assert schema[..i] == schema;
    res := Ok(out);
  }

  /** Dropping the last field changes no earlier field's outcome. */
  lemma FailsAtPrefix(schema: Schema, raw: RawRow, p: Parsers)
    requires schema != []
    ensures forall i :: 0 <= i < |schema| - 1 ==>
      (FailsAt(schema[..|schema| - 1], raw, p, i) <==> FailsAt(schema, raw, p, i))
  {
  }

  /** Validation succeeds exactly when every field of the schema casts. */
  lemma {:induction false} SucceedsIff(schema: Schema, raw: RawRow, p: Parsers)
    ensures CastAll(schema, raw, p).Ok? <==> forall i :: 0 <= i < |schema| ==> !FailsAt(schema, raw, p, i)
  {
    if schema != [] {
      var n := |schema| - 1;
      SucceedsIff(schema[..n], raw, p);
      FailsAtPrefix(schema, raw, p);
      if CastAll(schema[..n], raw, p).Ok? {
        assert CastAll(schema, raw, p).Ok? <==> !FailsAt(schema, raw, p, n);
      } else {
        var i :| 0 <= i < n && FailsAt(schema[..n], raw, p, i);
        assert FailsAt(schema, raw, p, i);
      }
    }
  }

  /**
   * Fail-fast: a failed validation reports the first failing field in schema
   * order, with that field's name and type; every field before it casts.
   */
  lemma {:induction false} FailFast(schema: Schema, raw: RawRow, p: Parsers, e: CastError)
    requires CastAll(schema, raw, p) == Err(e)
    ensures exists i :: (0 <= i < |schema| && FailsAt(schema, raw, p, i)
      && (forall j :: 0 <= j < i ==> !FailsAt(schema, raw, p, j))
      && e == CastError(schema[i].name, schema[i].ftype))
  {
    var n := |schema| - 1;
    FailsAtPrefix(schema, raw, p);
    if CastAll(schema[..n], raw, p).Err? {
      FailFast(schema[..n], raw, p, e);
      var i :| 0 <= i < n && FailsAt(schema[..n], raw, p, i)
        && (forall j :: 0 <= j < i ==> !FailsAt(schema[..n], raw, p, j))
        && e == CastError(schema[..n][i].name, schema[..n][i].ftype);
      assert FailsAt(schema, raw, p, i);
    } else {
      SucceedsIff(schema[..n], raw, p);
      assert FailsAt(schema, raw, p, n);
    }
  }

  /** The keys of a validated row are the schema's names. */
  lemma {:induction false} CastAllKeys(schema: Schema, raw: RawRow, p: Parsers, out: Row)
    requires CastAll(schema, raw, p) == Ok(out)
    ensures out.Keys == NameSet(schema)
  {
    if schema != [] {
      var n := |schema| - 1;
      var prev := CastAll(schema[..n], raw, p).value;
      CastAllKeys(schema[..n], raw, p, prev);
      NameSetSnoc(schema);
    }
  }

  /** With distinct names, each field of a validated row holds that field's cast. */
  lemma {:induction false} CastAllFields(schema: Schema, raw: RawRow, p: Parsers, out: Row)
    requires DistinctNames(schema) && CastAll(schema, raw, p) == Ok(out)
    ensures forall i :: 0 <= i < |schema| ==>
      schema[i].name in out && Cast(schema[i].ftype, Lookup(raw, schema[i].name), p) == Some(out[schema[i].name])
  {
    if schema != [] {
      var n := |schema| - 1;
      var f := schema[n];
      var prev := CastAll(schema[..n], raw, p).value;
      CastAllFields(schema[..n], raw, p, prev);
      forall i | 0 <= i < n
        ensures schema[i].name in out
        ensures Cast(schema[i].ftype, Lookup(raw, schema[i].name), p) == Some(out[schema[i].name])
      {
        assert schema[..n][i] == schema[i];
        assert schema[i].name != f.name;
      }
    }
  }

  /**
   * A validated row has exactly the schema's names as keys (keys of the raw
   * row that are not in the schema are dropped), each holding its field's cast.
   */
  lemma ValidatedRow(schema: Schema, raw: RawRow, p: Parsers, out: Row)
    requires DistinctNames(schema) && CastAll(schema, raw, p) == Ok(out)
    ensures Conforms(out, schema)
    ensures forall i :: 0 <= i < |schema| ==>
      Cast(schema[i].ftype, Lookup(raw, schema[i].name), p) == Some(out[schema[i].name])
  {
    CastAllKeys(schema, raw, p, out);
    CastAllFields(schema, raw, p, out);
  }

  /** Keys outside the schema play no part: validating the row cut down to the schema's names gives the same outcome. */
  lemma {:induction false} ExtraKeysIgnored(schema: Schema, raw: RawRow, keep: set<string>, p: Parsers)
    requires NameSet(schema) <= keep
    ensures CastAll(schema, map k | k in raw && k in keep :: raw[k], p) == CastAll(schema, raw, p)
  {
    if schema != [] {
      var n := |schema| - 1;
      NameSetSnoc(schema);
      ExtraKeysIgnored(schema[..n], raw, keep, p);
      assert schema[n].name in keep;
    }
  }

  /**
   * Example: with schema `age: number, joined: date`, a row whose
   * age the number parser rejects fails on `age`, whatever the date.
   */
  lemma RejectedAgeExample(p: Parsers, joined: string)
    requires p.number("thirty").None?
    ensures CastAll([Field("age", Number), Field("joined", Date)],
                    map["age" := RawStr("thirty"), "joined" := RawStr(joined)], p)
            == Err(CastError("age", Number))
  {
    var schema := [Field("age", Number), Field("joined", Date)];
    assert schema[..1] == [Field("age", Number)];
    assert schema[..1][..0] == [];
    assert !Text.IsSpace("thirty"[0]);
  }
}
