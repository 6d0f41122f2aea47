# SimpleSQLite, modelled in Dafny

SimpleSQLite is a typed layer over the SQLite engine. It has four parts:

- `Value`: a closed sum of text, double, data, int and null.
- `Row`: an immutable map from column name to `Value`, with typed getters.
- `RowSet`: a forward cursor over a statement's results. It decodes each cell by its storage class and caches the result's column names.
- `Statement`: a prepared statement that binds parameters by position, runs, reads, and finalizes exactly once.

This project models those four parts and proves what they promise.

The SQLite engine is foreign code, so the model replaces it with an abstract handle (`Engine.Handle`):

- a fixed sequence of result rows, each cell a storage-class code with its payloads;
- the result's column names, as raw octets;
- a cursor, and the current row;
- a map from parameter positions to bound values;
- a set of positions at which every bind call fails;
- a released flag;
- two ghost counters: how many times the handle was stepped, and how many times its metadata was read.

Modules, one per concern:

- `Wrappers`: Option and Result.
- `Failures`: the thrown errors. `Reading` is `RowSet.Error.reading`, `Binding` is `Statement.Error.binding`, and `IsFinalized` is `Statement.Error.isFinalized`.
- `Utf8`: the UTF-8 of RFC 3629. `Decode` accepts exactly the octet sequences of the table in section 4. It is proved to be the inverse of `Encode` in both directions.
- `Values`: `Value.swift`.
- `Rows`: `Row.swift`. A `Column` type is modelled by its naming function `C -> string`, as in `Column.swift`.
- `Engine`: the abstract handle.
- `RowSets`: `RowSet.swift`, as a class with the cached `columnNames` field.
- `Statements`: `Statement.swift`, as a class with the `isFinalized` field.
- `Scenarios`: the scenarios of the library's tests.

Only `bind` and `run` check `isFinalized`; `scalar`, `row` and `rows` go straight to the handle, so the model has no guard there either.

## Model

| member | source | states |
|---|---|---|
| Values.Bool | Sources/SimpleSQLite/Value.swift:10-12 | a boolean is stored as an int, 1 exactly for true and 0 for false |
| Values.AsString | Sources/SimpleSQLite/Value.swift:14-20 | present exactly for the string variant, and then its payload |
| Values.AsDouble | Sources/SimpleSQLite/Value.swift:22-28 | present exactly for the double variant (no coercion from int), and then its payload |
| Values.AsBool | Sources/SimpleSQLite/Value.swift:30-36 | present exactly for the int variant; true exactly for int 1, so 0, 2 and -1 all read as false |
| Values.AsData | Sources/SimpleSQLite/Value.swift:38-44 | present exactly for the data variant, and then its payload |
| Values.AsInt | Sources/SimpleSQLite/Value.swift:46-52 | present exactly for the int variant, and then its payload |
| Values.IsNull | Sources/SimpleSQLite/Value.swift:54-56 | `isNull` holds exactly when none of the four payload extractors answers |
| Values.BoolRoundTrip | Sources/SimpleSQLite/Value.swift:10-52 | `asBool` recovers the boolean `bool(_:)` stored; `asInt` sees 1 or 0 |
| Values.IntAndBoolAgree | Sources/SimpleSQLite/Value.swift:30-52 | `asInt` and `asBool` succeed on the same values, and `asBool` is `asInt == 1` |
| Values.ExtractorsPartition | Sources/SimpleSQLite/Value.swift:3-56 | `isNull` holds exactly for null; null answers no extractor; any other value answers exactly one of string/double/data/int |
| Rows.Get | Sources/SimpleSQLite/Row.swift:11-13 | `row[column]` is the value stored under the column's name, absent exactly when that name is not a key |
| Rows.StringFor | Sources/SimpleSQLite/Row.swift:16-18 | present exactly when the name is a key AND its value is a string; a missing key and a wrong variant both give absent |
| Rows.DataFor | Sources/SimpleSQLite/Row.swift:21-23 | as StringFor, for data |
| Rows.DoubleFor | Sources/SimpleSQLite/Row.swift:26-28 | as StringFor, for double |
| Rows.BoolFor | Sources/SimpleSQLite/Row.swift:31-33 | present exactly when the stored value is an int, and then true exactly for int 1 |
| Rows.IntFor | Sources/SimpleSQLite/Row.swift:36-38 | as StringFor, for int |
| Rows.GettersComposeLookup | Sources/SimpleSQLite/Row.swift:16-38 | every typed getter is the subscript followed by the matching Value extractor |
| Rows.SameNameSameValue | Sources/SimpleSQLite/Row.swift:11-13 | two column identifiers with the same name read the same stored value |
| Rows.AliasedColumnLookup | Sources/SimpleSQLite/Column.swift:7-21 | with the raw value as name, `age` reads the value stored under "animalAge" |
| Utf8.DecodeEncode | Sources/SimpleSQLite/RowSet.swift:87-95 | every string survives UTF-8 encoding followed by decoding |
| Utf8.EncodeDecode | Sources/SimpleSQLite/RowSet.swift:87-95 | every octet sequence well-formed under RFC 3629 survives the model's `Decode` followed by `Encode` |
| RowSets.DecodeCell | Sources/SimpleSQLite/RowSet.swift:74-101 | INTEGER gives int, FLOAT gives double, BLOB gives the bytes verbatim, NULL gives null; TEXT gives the string the bytes spell, or null when they are not UTF-8; any other class fails with `reading` |
| RowSets.ReadBackStored | Sources/SimpleSQLite/RowSet.swift:74-101 | a value of any variant, in the cell a column without converting affinity keeps for it, decodes back to itself |
| RowSets.DecodeNames | Sources/SimpleSQLite/RowSet.swift:58-72 | succeeds exactly when every engine column name is UTF-8, and is then the decoded names in order; otherwise `reading` |
| RowSets.DecodeRow | Sources/SimpleSQLite/RowSet.swift:49-53 | the row fails with `reading` exactly when some column's cell fails to decode |
| RowSets.DecodeRowContents | Sources/SimpleSQLite/RowSet.swift:49-53 | a decoded row has exactly the column names as keys; each holds the value of the LAST column with that name |
| RowSets.DecodeRowKeys | Sources/SimpleSQLite/RowSet.swift:49-53 | the keys of a decoded row are exactly the column names |
| RowSets.DecodeRowLast | Sources/SimpleSQLite/RowSet.swift:49-53 | column i's decoded value is stored under its name when no later column shares the name |
| RowSets.DecodeAll | Sources/SimpleSQLite/RowSet.swift:32-42 | all rows decode exactly when each does, giving one Row per result row in order |
| RowSets.DecodeAllOf | Sources/SimpleSQLite/RowSet.swift:32-42 | rows that decode one by one, collected in order, are exactly the result of decoding them all |
| RowSets.RowSet.constructor | Sources/SimpleSQLite/RowSet.swift:14-16 | a new cursor has read no column names |
| RowSets.RowSet.ReadSingleValue | Sources/SimpleSQLite/RowSet.swift:18-24 | steps once; absent without a row, else column 0 decoded; column names neither read nor cached |
| RowSets.RowSet.ReadColumnNames | Sources/SimpleSQLite/RowSet.swift:58-72 | queries the metadata once, answers the decoded names or `reading`, and caches them on success |
| RowSets.RowSet.ReadRow | Sources/SimpleSQLite/RowSet.swift:26-30 | metadata is read only when nothing is cached; a names error throws without stepping; else exactly one step, giving absent or the decoded row |
| RowSets.RowSet.ReadAllRows | Sources/SimpleSQLite/RowSet.swift:32-42 | never absent on success: one Row per remaining row in step order, one step per row plus the final one; or `reading` at the first row that fails, one step per row up to it, with the later rows still pending; bindings and the released flag are outside its frame |
| RowSets.RowSet.DrainWith | Sources/SimpleSQLite/RowSet.swift:35-41 | the `while let` loop drains the cursor: the decoded rows, or stops at the first failing row |
| RowSets.RowSet.ReadRowWith | Sources/SimpleSQLite/RowSet.swift:44-56 | exactly one step; absent without a row, else each name at index i maps to column i's value, or `reading` |
| Statements.FirstRejected | Sources/SimpleSQLite/Statement.swift:37-52 | the first position in 1..n the engine rejects: every earlier position is accepted |
| Statements.Assigned | Sources/SimpleSQLite/Statement.swift:35-52 | positions 1..n hold values[0..n), all other bindings unchanged |
| Statements.Statement.constructor | Sources/SimpleSQLite/Statement.swift:20-24 | a new statement is not finalized and owns a live handle |
| Statements.Statement.BindValue | Sources/SimpleSQLite/Statement.swift:92-132 | the variant's engine bind call: binds at the position exactly when the engine accepts it, else `binding` with nothing bound |
| Statements.Statement.Bind | Sources/SimpleSQLite/Statement.swift:30-55 | finalized: `isFinalized`, nothing bound; else values[k] bound at k+1 and the statement returned; at the first rejected position p, `binding` with 1..p-1 bound and nothing after |
| Statements.Statement.Run | Sources/SimpleSQLite/Statement.swift:57-63 | finalized: `isFinalized`, handle untouched; else exactly one step, and success whatever the step answered |
| Statements.Statement.Scalar | Sources/SimpleSQLite/Statement.swift:65-71 | one step; column 0 of the next row or absent; no finalized check (after finalize: absent) |
| Statements.Statement.Row | Sources/SimpleSQLite/Statement.swift:73-75 | reads the names, then one step giving the next decoded row; no finalized check |
| Statements.Statement.Rows | Sources/SimpleSQLite/Statement.swift:77-79 | always a fresh cursor over the same handle, with nothing stepped or read |
| Statements.Statement.Finalize | Sources/SimpleSQLite/Statement.swift:81-90 | the first call clears the bindings, releases the handle and sets the flag; later calls change nothing |
| Scenarios.PlanetRowReadsBack | Tests/SimpleSQLiteTests/SimpleSQLiteTests.swift:52-68 | a planet inserted with int, string, double and bool parameters reads back through `int/string/double/bool(for:)` |
| Scenarios.CountScenario | Tests/SimpleSQLiteTests/SimpleSQLiteTests.swift:40-50 | a one-row `COUNT(*)` result holding int 8 answers int 8 through `scalar`; a second scalar finds no row |
| Scenarios.LifecycleScenario | Sources/SimpleSQLite/Statement.swift:30-90 | after finalizing twice, `bind` and `run` fail with `isFinalized`, and `scalar` (no finalized check) finds no row on the released handle |

A `Row` is a datatype value, so its map is fixed when it is built (`Row.swift:4-8`). No member is needed to state this.

## Left out

- `Database.swift`: opening and closing the file, `sqlite3_prepare_v2` and the engine's error string. These are foreign calls. Its four entry points are prepare, then `Statement.Bind`, then the Statement operation.
- The SQLite engine itself is `Engine.Handle`. Its rows do not depend on the bindings or the SQL text. Step errors are the handle's `endResult`. The auto-reset of `sqlite3_step` after DONE is not modelled: later steps keep answering `endResult`.
- A released handle: the engine's behaviour is undefined there. The model answers `Misuse` to a step and delivers no row. This is how `scalar`, `row` and `rows` after `finalize` are stated.
- `deinit`: the finalize and close driven by ARC are not modelled. Only the explicit, idempotent `finalize` is.
- `Statement.Error.execute`, `Statement.Error.reading` and `RowSet.Error.isFinalized` are never thrown, so they are not modelled.
- Double payloads are kept as their bit pattern and compared structurally. Swift's `==` on `Double` makes NaN unequal to itself, so `Value`'s equality differs from the model on NaN payloads and on signed zeros (`.double(0.0) == .double(-0.0)` in Swift, two bit patterns here).
- Swift `String` is a sequence of Unicode scalars here. Swift compares strings by canonical equivalence, which is not modelled.
- Statements.Statement.BindValue: text is handed to the engine as a NUL-terminated C string of length -1. The engine keeps only the part before the first U+0000. The model binds the whole string.
- Column names are C strings from `sqlite3_column_name`. The model takes their octets without the terminator.
- TEXT cells and column names are decoded by the RFC 3629 codec of `Utf8`. The Foundation initializers the code calls (`String(data:encoding:)`, `String(cString:encoding:)`) are not part of this model; in particular their handling of a leading byte-order mark (EF BB BF) is not modelled, and the model keeps U+FEFF as text.
- The BLOB path reads its bytes through `sqlite3_column_text`. The model takes "the column's bytes", the same octets.
- Int32 limits: `position` in `bind` and the blob length passed as `Int32(value.count)` trap past 2^31 - 1. Parameter counts and blob sizes in the model are unbounded.
- RowSets.RowSet: the cursor holds the statement's engine handle (`statement.sqliteStatement`, the only part of the statement it uses) rather than the Statement object.
- Swift's single-cursor rule (two RowSets must not be advanced interleaved over one statement) is not enforced. Two `RowSet` objects over one handle share its cursor in the model too.
- RowSets.ReadBackStored: `StoredCell` stands for a column with no converting type affinity and a non-NaN double. SQLite stores a NaN bound with `sqlite3_bind_double` as NULL, an affinity may convert a value (text "12" in an INTEGER column reads back as int 12), and a REAL column may return -0.0 as +0.0; none of these is modelled.
