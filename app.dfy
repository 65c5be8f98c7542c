/**
 * The page's session state and the commands its buttons run: choosing the
 * number of variables, "Create fields", editing the draft, "Save schema",
 * "Reset schema and data", "Clear data", "Add row" and the CSV upload.
 */
module App {
  import opened Outcomes
  import opened Values
  import opened Schemas
  import opened Validation
  import opened SchemaCommit
  import opened CsvImport
  import opened DataTable

  /**
   * The session's state: the committed schema, the stored rows, the number
   * of variables chosen, and the draft (`temp_fields`), whose `name_{i}` and
   * `type_{i}` entries are kept here as two maps keyed by `i`.
   */
  class Session {
    var schema: Schema
    var rows: seq<Row>
    var numVars: nat
    var tempNames: map<nat, string>
    var tempTypes: map<nat, FieldType>
    /** The number and date parsers every cast uses. */
    const parsers: Parsers

    /**
     * The session invariant: the variable count stays within the widget's
     * bounds, the schema is well formed, and every stored row has exactly the
     * schema's names, each with a value of its field's type.
     */
    ghost predicate Valid()
      reads this
    {
      1 <= numVars <= 50 && WellFormed(schema) && forall r :: r in rows ==> Conforms(r, schema)
    }

    /** `init_state()`: no schema, no rows, three variables, an empty draft. */
    constructor (parsers: Parsers)
      ensures Valid()
      ensures schema == [] && rows == [] && numVars == 3
      ensures tempNames == map[] && tempTypes == map[] && this.parsers == parsers
    {
      schema := [];
      rows := [];
      numVars := 3;
      tempNames := map[];
      tempTypes := map[];
      this.parsers := parsers;
    }

    /** The "How many variables?" input (bounded 1 to 50 by the widget). */
    method SetNumVars(n: nat)
      requires Valid() && 1 <= n <= 50
      modifies this
      ensures Valid() && numVars == n
      ensures schema == old(schema) && rows == old(rows)
      ensures tempNames == old(tempNames) && tempTypes == old(tempTypes)
    {
      if n != numVars {
        numVars := n;
      }
    }

    /** "Create fields": a fresh draft of `numVars` slots, each named `''` with type 'short text'. */
    method CreateFields()
      requires Valid()
      modifies this
      ensures Valid()
      ensures IsBlankDraft(tempNames, tempTypes, numVars)
      ensures schema == old(schema) && rows == old(rows) && numVars == old(numVars)
    {
      tempNames := map[];
      tempTypes := map[];
      var i: nat := 0;
      while i < numVars
        invariant i <= numVars
        invariant IsBlankDraft(tempNames, tempTypes, i)
        invariant schema == old(schema) && rows == old(rows) && numVars == old(numVars)
      {
        tempNames := tempNames[i := ""];
        tempTypes := tempTypes[i := ShortText];
        i := i + 1;
      }
    }

    /** Editing draft slot `i` in the name and type widgets. */
    method EditDraft(i: nat, name: string, ftype: FieldType)
      requires Valid()
      modifies this
      ensures Valid()
      ensures tempNames == old(tempNames)[i := name] && tempTypes == old(tempTypes)[i := ftype]
      ensures schema == old(schema) && rows == old(rows) && numVars == old(numVars)
    {
      if i !in tempNames || tempNames[i] != name || i !in tempTypes || tempTypes[i] != ftype {
        tempNames := tempNames[i := name];
        tempTypes := tempTypes[i := ftype];
      }
    }

    /**
     * "Save schema": on success the scanned draft becomes the schema and the
     * rows and the draft are emptied (even when the schema is unchanged); on
     * failure the error is returned and nothing changes.
     */
    method SaveSchema() returns (err: Option<SchemaError>)
      requires Valid()
      modifies this
      ensures Valid() && numVars == old(numVars)
      ensures match Scan(Draft(old(tempNames), old(tempTypes), old(numVars)))
        case Ok(s) =>
          err == None && schema == s && rows == [] && tempNames == map[] && tempTypes == map[]
        case Err(e) =>
          err == Some(e) && schema == old(schema) && rows == old(rows)
          && tempNames == old(tempNames) && tempTypes == old(tempTypes)
    {
      var res := CollectSchema(tempNames, tempTypes, numVars);
      match res
      case Err(e) =>
        err := Some(e);
      case Ok(s) =>
        SavedSchemaWellFormed(tempNames, tempTypes, numVars, s);
        schema := s;
        rows := [];
        tempNames := map[];
        tempTypes := map[];
        err := None;
    }

    /** "Reset schema and data": no schema and no rows; the draft is left as it is. */
    method ResetSchemaAndData()
      requires Valid()
      modifies this
      ensures Valid()
      ensures schema == [] && rows == []
      ensures numVars == old(numVars) && tempNames == old(tempNames) && tempTypes == old(tempTypes)
    {
      schema := [];
      rows := [];
    }

    /** "Clear data (keep schema)". */
    method ClearData()
      requires Valid()
      modifies this
      ensures Valid()
      ensures rows == [] && schema == old(schema)
      ensures numVars == old(numVars) && tempNames == old(tempNames) && tempTypes == old(tempTypes)
    {
      rows := [];
    }

    /**
     * "Add row": the submitted values are validated; a valid row is appended
     * at the end, an invalid one appends nothing and its error is returned.
     */
    method AddRow(raw: RawRow) returns (res: Result<Row, CastError>)
      requires Valid()
      modifies this
      ensures Valid()
      ensures res == CastAll(schema, raw, parsers)
      ensures rows == if res.Ok? then old(rows) + [res.value] else old(rows)
      ensures schema == old(schema) && numVars == old(numVars)
      ensures tempNames == old(tempNames) && tempTypes == old(tempTypes)
    {
      res := ValidateAndCast(schema, raw, parsers);
      if res.Ok? {
        ValidatedRow(schema, raw, parsers, res.value);
        rows := rows + [res.value];
      }
    }

    /**
     * The CSV upload: nothing is added when a schema column is missing from
     * the header; otherwise each data row is validated on its own and the
     * valid ones are appended in file order.
     */
    method ImportCsv(csv: CsvTable) returns (report: ImportReport)
      requires Valid()
      modifies this
      ensures Valid()
      ensures report == ImportReportOf(schema, csv, parsers)
      ensures rows == old(rows) + ImportedRows(schema, csv, parsers)
      ensures schema == old(schema) && numVars == old(numVars)
      ensures tempNames == old(tempNames) && tempTypes == old(tempTypes)
    {
      var expected := Names(schema);
      var missing := MissingColumns(expected, csv.header);
      if missing != [] {
        report := MissingColumnsError(missing);
        assert rows == old(rows) + [];
        return;
      }
      var sch := schema;
      var badRows: seq<string> := [];
      var added: nat := 0;
      ghost var done: seq<Row>, errors: seq<CastError> := [], [];
      var i := 0;
      while i < |csv.data|
        invariant 0 <= i <= |csv.data|
        invariant (done, errors) == Sift(sch, csv.data[..i], parsers)
        invariant rows == old(rows) + done
        invariant badRows == Messages(errors)
        invariant added == |done|
        invariant forall r :: r in rows ==> Conforms(r, sch)
        invariant schema == sch && numVars == old(numVars)
        invariant tempNames == old(tempNames) && tempTypes == old(tempTypes)
      {
        var rowDict := Project(csv.data[i], expected);
        var res := ValidateAndCast(sch, rowDict, parsers);
        SiftNext(sch, csv.data, i, parsers);
        if res.Err? {
          assert SiftStep(sch, (done, errors), csv.data[i], parsers) == (done, errors + [res.error]);
          MessagesSnoc(errors, res.error);
          badRows := badRows + [CastMessage(res.error)];
          errors := errors + [res.error];
        } else {
          assert SiftStep(sch, (done, errors), csv.data[i], parsers) == (done + [res.value], errors);
          ValidatedRow(sch, rowDict, parsers, res.value);
          rows := rows + [res.value];
          done := done + [res.value];
          added := added + 1;
        }
        i := i + 1;
      }
      assert csv.data[..i] == csv.data;
      report := Imported(added, |badRows|, FirstFive(badRows));
    }

    /** `schema_to_dataframe()`: the table shown and offered for download. */
    function CurrentTable(): (t: Table)
      reads this
      requires Valid()
      ensures schema == [] ==> t == Table([], [])
      ensures schema != [] ==> t.columns == Names(schema) && |t.cells| == |rows|
      ensures schema != [] ==> forall i :: 0 <= i < |rows| ==> |t.cells[i]| == |t.columns|
      ensures schema != [] ==> forall i :: 0 <= i < |rows| ==> RowOf(t.columns, t.cells[i]) == rows[i]
    {
      if schema == [] then ToTable(schema, rows)
      else TableKeepsRows(schema, rows); ToTable(schema, rows)
    }
  }

  /** A draft of exactly the slots `0 .. n-1`, each named `''` with type 'short text'. */
  ghost predicate IsBlankDraft(names: map<nat, string>, types: map<nat, FieldType>, n: nat) {
    (forall i: nat :: i in names <==> i < n) && (forall i: nat :: i in types <==> i < n)
    && (forall i :: i in names ==> names[i] == "") && (forall i :: i in types ==> types[i] == ShortText)
  }

  /** Saving right after "Create fields" fails on the first slot, whose name is empty. */
  lemma FreshDraftNotSavable(names: map<nat, string>, types: map<nat, FieldType>, n: nat)
    requires 1 <= n && IsBlankDraft(names, types, n)
    ensures Scan(Draft(names, types, n)) == Err(EmptyName(1))
  {
    var d := Draft(names, types, n);
    assert d[0].name == "";
    assert d[..1][..0] == [];
    assert Scan(d[..1]) == Err(EmptyName(1));
    ScanErrorPersists(d, 1);
  }
}
