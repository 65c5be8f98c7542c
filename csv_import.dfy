/**
 * Bulk import of an uploaded CSV file, given as its header and its data
 * rows already read: the header check, then per-row validation with
 * partial success.
 */
module CsvImport {
  import opened Outcomes
  import opened Values
  import opened Schemas
  import opened Validation

  /** A CSV file as read: the column names of the first line, then one map per data line. */
  datatype CsvTable = CsvTable(header: seq<string>, data: seq<RawRow>)

  /** `[c for c in expected_cols if c not in df_new.columns]`, in schema order. */
  function MissingColumns(expected: seq<string>, header: seq<string>): (r: seq<string>)
    ensures |r| <= |expected|
    ensures forall c :: c in r <==> c in expected && c !in header
  {
    if expected == [] then []
    else
      var n := |expected| - 1;
      var c := expected[n];
      assert forall x :: x in expected <==> x in expected[..n] || x == c by {
        assert expected == expected[..n] + [c];
      }
      MissingColumns(expected[..n], header) + (if c in header then [] else [c])
  }

  /** `df_new[expected_cols]` then `r.to_dict()`: a data row cut down to the schema's columns. */
  function Project(raw: RawRow, cols: seq<string>): (r: RawRow)
    ensures r.Keys == raw.Keys * set c | c in cols
    ensures forall k :: k in r ==> r[k] == raw[k]
  {
    map k | k in raw && k in cols :: raw[k]
  }

  /**
   * Validating every data row on its own: the rows that cast, in file order,
   * and the error of each row that does not.
   */
  function Sift(schema: Schema, data: seq<RawRow>, p: Parsers): (r: (seq<Row>, seq<CastError>))
    ensures |r.0| + |r.1| == |data|
  {
    if data == [] then ([], [])
    else
      var n := |data| - 1;
      SiftStep(schema, Sift(schema, data[..n], p), data[n], p)
  }

  /** The outcome of sifting one more data row after `prev`. */
  function SiftStep(schema: Schema, prev: (seq<Row>, seq<CastError>), row: RawRow, p: Parsers): (seq<Row>, seq<CastError>) {
    match CastAll(schema, Project(row, Names(schema)), p)
    case Ok(r) => (prev.0 + [r], prev.1)
    case Err(e) => (prev.0, prev.1 + [e])
  }

  /** The outcome of one import: the report the page shows and the rows appended to the table. */
  datatype ImportReport =
    | MissingColumnsError(missing: seq<string>)
    | Imported(added: nat, skipped: nat, shown: seq<string>)

  /** `bad_rows`: the message of each skipped row, in file order. */
  function Messages(errors: seq<CastError>): (r: seq<string>)
    ensures |r| == |errors|
  {
    seq(|errors|, i requires 0 <= i < |errors| => CastMessage(errors[i]))
  }

  /** Recording one more error appends its message. */
  lemma MessagesSnoc(errors: seq<CastError>, e: CastError)
    ensures Messages(errors + [e]) == Messages(errors) + [CastMessage(e)]
  {
  }

  /** `bad_rows[:5]`: the first five entries, or all of them when there are fewer. */
  function FirstFive<T>(xs: seq<T>): (r: seq<T>)
    ensures r <= xs
    ensures |r| == if |xs| <= 5 then |xs| else 5
  {
    if |xs| <= 5 then xs else xs[..5]
  }

  /** The report for importing `csv` against `schema`. */
  function ImportReportOf(schema: Schema, csv: CsvTable, p: Parsers): ImportReport {
    var missing := MissingColumns(Names(schema), csv.header);
    if missing != [] then MissingColumnsError(missing)
    else
      var (good, bad) := Sift(schema, csv.data, p);
      Imported(|good|, |bad|, FirstFive(Messages(bad)))
  }

  /** The rows importing `csv` against `schema` appends, in file order. */
  function ImportedRows(schema: Schema, csv: CsvTable, p: Parsers): seq<Row> {
    if MissingColumns(Names(schema), csv.header) != [] then [] else Sift(schema, csv.data, p).0
  }

  /**
   * A missing schema column aborts the whole import and names exactly the
   * schema columns absent from the header; otherwise every data row is
   * accounted for as added or skipped, the count added is the number of rows
   * appended, and at most five errors, the first ones, are reported.
   */
  lemma ImportAccounting(schema: Schema, csv: CsvTable, p: Parsers)
    ensures var report := ImportReportOf(schema, csv, p);
      (report.MissingColumnsError? <==> exists i :: 0 <= i < |schema| && schema[i].name !in csv.header)
      && (report.MissingColumnsError? ==>
            ImportedRows(schema, csv, p) == []
            && forall c :: c in report.missing <==> c in NameSet(schema) && c !in csv.header)
      && (report.Imported? ==>
            report.added + report.skipped == |csv.data|
            && report.added == |ImportedRows(schema, csv, p)|
            && |report.shown| == (if report.skipped <= 5 then report.skipped else 5)
            && forall i :: 0 <= i < |report.shown| ==>
                 report.shown[i] == CastMessage(Sift(schema, csv.data, p).1[i]))
  {
    MissingIff(schema, csv.header);
    ShownMessages(Sift(schema, csv.data, p).1);
  }

  /** Some schema column is missing exactly when the missing list is non-empty, and it lists exactly those columns. */
  lemma MissingIff(schema: Schema, header: seq<string>)
    ensures var missing := MissingColumns(Names(schema), header);
      (missing != [] <==> exists i :: 0 <= i < |schema| && schema[i].name !in header)
      && forall c :: c in missing <==> c in NameSet(schema) && c !in header
  {
    var missing := MissingColumns(Names(schema), header);
    forall c ensures c in missing <==> c in NameSet(schema) && c !in header {
      NameSetNames(schema, c);
    }
    if exists i :: 0 <= i < |schema| && schema[i].name !in header {
      var i :| 0 <= i < |schema| && schema[i].name !in header;
      assert schema[i].name in missing;
    }
    if missing != [] {
      var c := missing[0];
      assert c in missing;
      var i :| 0 <= i < |schema| && Names(schema)[i] == c;
      assert schema[i].name !in header;
    }
  }

  /** The messages shown are those of the first five errors, or of all of them when there are five or fewer. */
  lemma ShownMessages(errors: seq<CastError>)
    ensures var shown := FirstFive(Messages(errors));
      |shown| == (if |errors| <= 5 then |errors| else 5)
      && forall i :: 0 <= i < |shown| ==> shown[i] == CastMessage(errors[i])
  {
  }

  lemma SiftSnoc(schema: Schema, data: seq<RawRow>, row: RawRow, p: Parsers)
    ensures Sift(schema, data + [row], p) == SiftStep(schema, Sift(schema, data, p), row, p)
  {
    assert (data + [row])[..|data|] == data;
  }

  /** Sifting the first `i + 1` data rows is sifting the first `i`, then row `i`. */
  lemma SiftNext(schema: Schema, data: seq<RawRow>, i: nat, p: Parsers)
    requires i < |data|
    ensures Sift(schema, data[..i + 1], p) == SiftStep(schema, Sift(schema, data[..i], p), data[i], p)
  {
    assert data[..i + 1] == data[..i] + [data[i]];
    SiftSnoc(schema, data[..i], data[i], p);
  }

  /**
   * Each data row is validated on its own: importing two batches one after
   * the other sifts the same as importing them together.
   */
  lemma {:induction false} SiftAppend(schema: Schema, a: seq<RawRow>, b: seq<RawRow>, p: Parsers)
    ensures Sift(schema, a + b, p) == (Sift(schema, a, p).0 + Sift(schema, b, p).0,
                                       Sift(schema, a, p).1 + Sift(schema, b, p).1)
  {
    var sa := Sift(schema, a, p);
    if b == [] {
      assert a + b == a;
      assert sa.0 + [] == sa.0 && sa.1 + [] == sa.1;
    } else {
      var n := |b| - 1;
      var row := b[n];
      assert a + b == (a + b[..n]) + [row];
      assert b == b[..n] + [row];
      SiftSnoc(schema, a + b[..n], row, p);
      SiftSnoc(schema, b[..n], row, p);
      SiftAppend(schema, a, b[..n], p);
      var sb := Sift(schema, b[..n], p);
      match CastAll(schema, Project(row, Names(schema)), p)
      case Ok(r) =>
        assert sa.0 + sb.0 + [r] == sa.0 + (sb.0 + [r]);
      case Err(e) =>
        assert sa.1 + sb.1 + [e] == sa.1 + (sb.1 + [e]);
    }
  }

  /** One data row sifts to its own validation outcome. */
  lemma SiftOne(schema: Schema, row: RawRow, p: Parsers)
    ensures Sift(schema, [row], p) ==
      match CastAll(schema, Project(row, Names(schema)), p)
      case Ok(r) => ([r], [])
      case Err(e) => ([], [e])
  {
    assert [row][..0] == [];
    var empty: seq<Row>, none: seq<CastError> := [], [];
    assert Sift(schema, [], p) == (empty, none);
    match CastAll(schema, Project(row, Names(schema)), p)
    case Ok(r) => assert empty + [r] == [r];
    case Err(e) => assert none + [e] == [e];
  }

  /** When every data row validates, all of them are added, in file order, and none is skipped. */
  lemma {:induction false} SiftAllValid(schema: Schema, data: seq<RawRow>, p: Parsers)
    requires forall i :: 0 <= i < |data| ==> CastAll(schema, Project(data[i], Names(schema)), p).Ok?
    ensures Sift(schema, data, p).1 == []
    ensures |Sift(schema, data, p).0| == |data|
    ensures forall i :: 0 <= i < |data| ==>
      Ok(Sift(schema, data, p).0[i]) == CastAll(schema, Project(data[i], Names(schema)), p)
  {
    if data != [] {
      var n := |data| - 1;
      var prev := Sift(schema, data[..n], p);
      assert forall i :: 0 <= i < n ==> data[..n][i] == data[i];
      SiftAllValid(schema, data[..n], p);
      var row := CastAll(schema, Project(data[n], Names(schema)), p).value;
      assert Sift(schema, data, p) == (prev.0 + [row], prev.1);
    }
  }

  /** Every imported row conforms to the schema. */
  lemma {:induction false} SiftConforms(schema: Schema, data: seq<RawRow>, p: Parsers)
    requires DistinctNames(schema)
    ensures forall r :: r in Sift(schema, data, p).0 ==> Conforms(r, schema)
  {
    if data != [] {
      var n := |data| - 1;
      SiftConforms(schema, data[..n], p);
      match CastAll(schema, Project(data[n], Names(schema)), p)
      case Ok(row) =>
        ValidatedRow(schema, Project(data[n], Names(schema)), p, row);
      case Err(_) =>
    }
  }

  /** Columns beyond the schema's play no part in whether a row validates or what it casts to. */
  lemma ProjectionKeepsOutcome(schema: Schema, raw: RawRow, p: Parsers)
    ensures CastAll(schema, Project(raw, Names(schema)), p) == CastAll(schema, raw, p)
  {
    var cols := set c | c in Names(schema);
    forall x | x in NameSet(schema) ensures x in cols {
      NameSetNames(schema, x);
    }
    assert Project(raw, Names(schema)) == map k | k in raw && k in cols :: raw[k];
    ExtraKeysIgnored(schema, raw, cols, p);
  }
}
