/** `schema_to_dataframe`: the stored rows laid out as a table whose columns follow schema order. */
module DataTable {
  import opened Values
  import opened Schemas

  /** A table: column names, then one list of cells per row, in column order. */
  datatype Table = Table(columns: seq<string>, cells: seq<seq<Value>>)

  /** The cell a row gives a column: its value, or an empty cell when the row lacks the key. */
  function Cell(row: Row, col: string): Value {
    if col in row then row[col] else Null
  }

  /**
   * The table of `rows` under `schema`: no columns and no rows when there is
   * no schema, else one column per field in schema order and one line per row.
   */
  function ToTable(schema: Schema, rows: seq<Row>): (t: Table)
    ensures schema == [] ==> t == Table([], [])
    ensures schema != [] ==> t.columns == Names(schema) && |t.cells| == |rows|
    ensures schema != [] ==> forall i :: 0 <= i < |rows| ==> |t.cells[i]| == |schema|
  {
    if schema == [] then Table([], [])
    else
      var cols := Names(schema);
      Table(cols, seq(|rows|, i requires 0 <= i < |rows| =>
                        seq(|cols|, j requires 0 <= j < |cols| => Cell(rows[i], cols[j]))))
  }

  /** A table line read back as a row: each column name with its cell. */
  function RowOf(cols: seq<string>, vals: seq<Value>): Row
    requires |cols| == |vals|
  {
    if cols == [] then map[]
    else
      var n := |cols| - 1;
      RowOf(cols[..n], vals[..n])[cols[n] := vals[n]]
  }

  /** A line read back has exactly the columns as keys. */
  lemma {:induction false} RowOfKeys(cols: seq<string>, vals: seq<Value>)
    requires |cols| == |vals|
    ensures RowOf(cols, vals).Keys == set c | c in cols
  {
    if cols != [] {
      var n := |cols| - 1;
      RowOfKeys(cols[..n], vals[..n]);
      assert cols == cols[..n] + [cols[n]];
    }
  }

  /** With distinct column names, a line read back maps each column to its own cell and nothing else. */
  lemma {:induction false} RowOfSpec(cols: seq<string>, vals: seq<Value>)
    requires |cols| == |vals| && Distinct(cols)
    ensures RowOf(cols, vals).Keys == set c | c in cols
    ensures forall j :: 0 <= j < |cols| ==> RowOf(cols, vals)[cols[j]] == vals[j]
  {
    RowOfKeys(cols, vals);
    if cols != [] {
      var n := |cols| - 1;
      RowOfSpec(cols[..n], vals[..n]);
      forall j | 0 <= j < n ensures RowOf(cols, vals)[cols[j]] == vals[j] {
        assert cols[..n][j] == cols[j] && vals[..n][j] == vals[j];
      }
    }
  }

  /** One line of the table, for a row that conforms to the schema, reads back as that row. */
  lemma LineKeepsRow(schema: Schema, r: Row)
    requires DistinctNames(schema) && Conforms(r, schema)
    ensures var cols := Names(schema);
      RowOf(cols, seq(|cols|, j requires 0 <= j < |cols| => Cell(r, cols[j]))) == r
  {
    var cols := Names(schema);
    var line := seq(|cols|, j requires 0 <= j < |cols| => Cell(r, cols[j]));
    assert Distinct(cols);
    RowOfSpec(cols, line);
    var back := RowOf(cols, line);
    assert (set c | c in cols) == NameSet(schema) by {
      forall x ensures x in cols <==> x in NameSet(schema) {
        NameSetNames(schema, x);
      }
    }
    forall x | x in back ensures back[x] == r[x] {
      var j :| 0 <= j < |cols| && cols[j] == x;
      assert line[j] == Cell(r, cols[j]);
    }
  }

  /**
   * The table loses nothing: for rows that conform to a (non-empty) schema,
   * every line of the table reads back as the row it was made from.
   */
  lemma TableKeepsRows(schema: Schema, rows: seq<Row>)
    requires schema != [] && DistinctNames(schema)
    requires forall r :: r in rows ==> Conforms(r, schema)
    ensures forall i :: 0 <= i < |rows| ==>
      RowOf(ToTable(schema, rows).columns, ToTable(schema, rows).cells[i]) == rows[i]
  {
    var t := ToTable(schema, rows);
    var cols := Names(schema);
    forall i | 0 <= i < |rows| ensures RowOf(t.columns, t.cells[i]) == rows[i] {
      LineKeepsRow(schema, rows[i]);
      assert t.cells[i] == seq(|cols|, j requires 0 <= j < |cols| => Cell(rows[i], cols[j]));
    }
  }
}
