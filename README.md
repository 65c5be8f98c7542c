# Statistics data-entry app: a verified model of its core

The app (`data_apk.py`) is a single-page Streamlit app. The user first picks
how many variables to collect (1 to 50), presses "Create fields", then names
each variable and gives it a type: short text, long text, number or date.
"Save schema" commits the names and types as the schema. After that, rows of
data are entered through a form or uploaded in bulk as a CSV file. Every
incoming row goes through `validate_and_cast`, which checks and converts
each field against the schema; the data collected so far is shown as a
table.

This project models the core in Dafny:

- the per-field cast and the whole-row validation in `validate_and_cast`;
- the "Save schema" scan, which rejects an empty or duplicate name;
- the commands that change the session: choosing the number of variables,
  "Create fields", editing the draft, "Save schema", "Reset schema and
  data", "Clear data", "Add row" and the CSV upload;
- the column order of the table built by `schema_to_dataframe`.

Modules:

- `Outcomes`: Option and Result.
- `Text`: Python's whitespace test and `str.strip()`, and decimal numerals.
- `Values`: field types, raw and typed values, calendar dates and their
  `str()` form, and the per-field `Cast`.
- `Schemas`: fields, schemas, rows, and what a well-formed schema and a
  conforming row are.
- `Validation`: `CastAll`, which specifies validation, and the loop
  `ValidateAndCast`.
- `SchemaCommit`: `Scan`, which specifies the "Save schema" check, and the
  loop `CollectSchema`.
- `CsvImport`: the header check, projection onto the schema's columns, and
  per-row sifting with partial success.
- `DataTable`: `schema_to_dataframe`.
- `App`: the session state as a class, `Session`, with one method per
  command.

Validation and the schema scan are loops in the source. Each is modelled as
a method with a loop that is proved equal to a specification function
(`CastAll` and `Scan`). That function recurses over ever longer prefixes of
the schema, so a loop invariant can name it directly. The properties the app
relies on are proved as lemmas about those functions. `Session.Valid()` is
the invariant every command keeps: the variable count is in range, the
schema is well formed (names are non-empty, already stripped and distinct),
and every stored row has exactly the schema's names, each holding a value of
its field's type.

Parsing a number (`float(val)`) and parsing a date
(`pd.to_datetime(val).date()`) are not modelled. The session holds them as a
parameter, `Parsers`: two total functions that return `None` where the
Python call raises. `Values.ParseIsoDate` is an independent reference reader
for the `YYYY-MM-DD` text that `str(date)` writes.

## Model

| member | source | states |
|---|---|---|
| Values.Cast | data_apk.py:56-73 | A missing value, or a string that is blank after `strip()`, becomes null. A text field keeps `str(val)`. A date field passes a date through and parses a string. A number field parses a string and rejects a date. Only number and date fields can fail, and any value produced has the field's type. |
| Values.BlankCastsToNull | data_apk.py:56-62 | A whitespace-only string, or a missing key, becomes null for every field type. |
| Values.IsoDateRoundTrip | data_apk.py:73 | The `str()` text of a valid date is 10 characters long and reads back as the same date. |
| Values.TextDateCastsBack | data_apk.py:68-73 | A date stored in a text field becomes its `YYYY-MM-DD` text. Given a date parser that reads such text, casting that text into a date field gives the original date back. This is a fact about one field; the CSV export and re-import are not modelled. |
| Validation.ValidateAndCast | data_apk.py:48-76 | The loop returns exactly `CastAll`: the row of casts in schema order, or the error of the first field that fails. |
| Validation.ErrorPersists | data_apk.py:74-75 | Once a prefix of the schema fails, the whole validation returns that error; later fields cannot change it. |
| Validation.SucceedsIff | data_apk.py:53-76 | Validation succeeds if and only if every field of the schema casts. |
| Validation.FailFast | data_apk.py:63-75 | A failure names a field that fails, with its name and type, and every earlier field casts. |
| Validation.CastAllKeys | data_apk.py:52-73 | A validated row's keys are exactly the schema's names. |
| Validation.ValidatedRow | data_apk.py:52-76 | With distinct names, a validated row conforms to the schema, and each field holds that field's own cast. |
| Validation.ExtraKeysIgnored | data_apk.py:56 | Keys of the submitted row that are not schema names have no effect on the outcome. |
| Validation.RejectedAgeExample | data_apk.py:63-75 | Example: with a number parser that rejects `"thirty"`, the row `{age: "thirty", joined: <any text>}` fails on `age` as a number, whatever the date. |
| Validation.CastMessageInjective | data_apk.py:75 | Different cast errors give different messages: the message (without the parser's exception text) determines the field name and the type. |
| SchemaCommit.SchemaMessageInjective | data_apk.py:141-148 | The two error messages never coincide for different errors. |
| SchemaCommit.DraftNames | data_apk.py:139-141 | Every draft name is already stripped, and it is empty exactly when the name typed into its slot (`''` if the slot is missing) is all whitespace. |
| SchemaCommit.CollectSchema | data_apk.py:134-150 | The loop returns exactly `Scan` of the draft, which is either the draft itself or the first empty or duplicate name. |
| SchemaCommit.ScanSuccess | data_apk.py:138-150 | On success the new schema is the draft, in slot order. |
| SchemaCommit.ScanSucceedsIff | data_apk.py:138-150 | The scan succeeds if and only if every name is non-empty and all names are distinct. |
| SchemaCommit.ScanFailure | data_apk.py:141-148 | On failure the error is that of the first bad slot: its 1-based number if the name is empty, or the name that repeats an earlier one. |
| SchemaCommit.ScanErrorPersists | data_apk.py:141-148 | After an error is found, the `break` makes the slots after it irrelevant. |
| SchemaCommit.SavedSchemaWellFormed | data_apk.py:139-150 | A saved schema is well formed (non-empty, stripped, distinct names) and has one field per draft slot. |
| CsvImport.MissingColumns | data_apk.py:217 | The missing columns are exactly the schema names absent from the header, with no more of them than there are schema names. |
| CsvImport.Sift | data_apk.py:225-234 | Each data row is either added or skipped. |
| CsvImport.FirstFive | data_apk.py:236 | The result is a prefix of the list: all of it when it has five entries or fewer, and exactly its first five otherwise. |
| CsvImport.ImportAccounting | data_apk.py:216-237 | The import aborts exactly when a schema column is missing; an aborted import adds nothing and names the missing columns. Otherwise added plus skipped equals the number of data rows, and added equals the number of rows appended. The messages shown are exactly the first five skipped rows' messages (all of them if five or fewer), in file order. |
| CsvImport.SiftSnoc | data_apk.py:227-234 | One more data row adds one row or one error and leaves the earlier outcome unchanged. |
| CsvImport.SiftAppend | data_apk.py:227-234 | Rows are validated independently: importing two files one after the other gives the same result as importing them joined. |
| CsvImport.SiftOne | data_apk.py:228-234 | A one-row file adds that row's cast or records its error. |
| CsvImport.SiftAllValid | data_apk.py:227-234 | If every row validates, all rows are added in file order and none is skipped. |
| CsvImport.SiftConforms | data_apk.py:229-233 | Every imported row conforms to the schema. |
| CsvImport.ProjectionKeepsOutcome | data_apk.py:223-229 | Cutting a row down to the schema's columns does not change its validation outcome. |
| DataTable.RowOfKeys | data_apk.py:45 | A table line read back by column has exactly the columns as keys. |
| DataTable.RowOfSpec | data_apk.py:45 | With distinct columns, each column maps to its own cell. |
| DataTable.LineKeepsRow | data_apk.py:44-45 | The table line made from a conforming row reads back as that row. |
| DataTable.TableKeepsRows | data_apk.py:41-45 | Every line of the table reads back as the stored row it came from. |
| App.Session.constructor | data_apk.py:30-38 | The initial state has no schema, no rows, three variables and an empty draft. |
| App.Session.SetNumVars | data_apk.py:96-98 | The variable count becomes `n`, which is between 1 and 50, and nothing else changes. |
| App.Session.CreateFields | data_apk.py:103-108 | The draft becomes exactly `numVars` slots, each named `''` with type short text. |
| App.Session.EditDraft | data_apk.py:126-129 | Slot `i` of the draft gets the new name and type, and nothing else changes. |
| App.Session.SaveSchema | data_apk.py:132-157 | On success the scanned draft becomes the schema, and the rows and draft are emptied. On failure the error is returned and nothing changes. |
| App.Session.ResetSchemaAndData | data_apk.py:170-172 | The schema and rows are emptied; the variable count and the draft are kept. |
| App.Session.ClearData | data_apk.py:175-176 | The rows are emptied and the schema is kept. |
| App.Session.AddRow | data_apk.py:201-206 | The result is the validation outcome. A valid row is appended at the end, and an invalid one leaves the rows unchanged. |
| App.Session.ImportCsv | data_apk.py:213-237 | The report is `ImportReportOf`, and the rows become the old rows followed by the imported ones, in file order. |
| App.Session.CurrentTable | data_apk.py:41-45 | With no schema the table is empty, with no columns and no lines. Otherwise the columns are the schema names in schema order, there is one line per stored row, and each line reads back as its row. |
| App.FreshDraftNotSavable | data_apk.py:103-108 | Saving straight after "Create fields" fails because variable #1's name is empty. |
| Text.StripEmptyIff | data_apk.py:58 | `strip()` gives `''` exactly when every character is whitespace. |
| Text.StripInfix | data_apk.py:139 | `strip()` removes whitespace only, and only at the two ends: the input is the stripped text with a run of whitespace before it and one after it. Together with `Strip`'s own contract (no whitespace left at either end), this pins it to Python's `str.strip()`. |
| Text.StripIdempotent | data_apk.py:139 | Stripping twice is the same as stripping once. |
| Text.ReadPadNat | data_apk.py:73 | A zero-padded numeral reads back as its number; this is used for the year, month and day of a date. |

## Left out

- The Streamlit UI is left out: widgets, layout, messages, `st.rerun()`, the
  developer-link expander, and the schema table at 162-165. Each button is a
  method of `Session`.
- The guard at 162, which shows the reset, clear, add and upload commands
  only when a schema exists, is not required by the methods. They behave the
  same way on an empty schema.
- Persistence of `st.session_state` across reruns is left out; the `Session`
  object plays its part.
- `pd.read_csv` is left out. A CSV file arrives already read, as its header
  and a map per data row (`CsvTable`). The "Error reading CSV" path
  (239-240) is therefore not modelled. The unused `extra` list (218) is left
  out.
- Pandas type inference and NaN are left out: every CSV cell is a string.
  pandas would turn numeric columns into floats and empty cells into NaN,
  and NaN in a text field would become `"nan"` (its `str()`) rather than
  null.
- The behaviour of `float()` and `pd.to_datetime()` is a parameter, not a
  model. Numbers are mathematical reals, so float64 rounding, `inf` and
  `nan` are not captured.
- The exception text `{e}` in the cast error message is left out.
  `CastError` keeps the field name and type, and `CastMessage` is the
  message up to the type name. With the exception text appended, two
  different errors could produce the same message, so
  `Validation.CastMessageInjective` holds only for the message without it.
- `df.to_csv` and the download button are left out; the table is modelled
  up to its columns and cells.
- `Values.Cast`: a value of any other Python type (such as an int from
  pandas) is not modelled. A raw value is a string, a date, or absent.
- The type selectbox can only offer the four types, so the `index(...)`
  lookup at 125 cannot fail in the model.
- App.Session.ResetSchemaAndData: the source (170-173) does not clear
  `temp_fields`, and the model follows the code: reset keeps the draft, and
  a blank draft needs "Create fields".
