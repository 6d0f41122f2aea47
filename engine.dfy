/** An abstract stand-in for the SQLite prepared-statement handle the core
    drives. The engine is foreign code; only the behaviour the core relies on
    is modelled: a forward cursor over a fixed sequence of result rows, the
    result's column names, positional bindings with a set of positions the
    engine rejects, and release. */
module Engine {
  import opened Values
  import opened Utf8

  /** The storage-class codes `sqlite3_column_type` reports. */
  const IntegerClass := 1
  const FloatClass := 2
  const TextClass := 3
  const BlobClass := 4
  const NullClass := 5

  /** One column of the current row: the storage-class code and the payloads
      the typed column accessors (`sqlite3_column_int64`, `_double`, `_text`
      with `_bytes`) return for it. */
  datatype Cell = Cell(storageClass: int, integer: Int64, number: Float64, bytes: Bytes)

  const NullCell := Cell(NullClass, 0, Float64(0), [])

  /** Column `i` of a row; an index past the row's width reads as NULL. */
  function CellAt(cells: seq<Cell>, i: nat): Cell
  {
    if i < |cells| then cells[i] else NullCell
  }

  /** The cell the engine reports for a column that holds a bound value, in
      a column with no converting type affinity: each variant keeps its
      storage class, text is kept as its UTF-8 octets. */
  function StoredCell(v: Value): Cell
  {
    match v
    case String(s) => Cell(TextClass, 0, Float64(0), Encode(s))
    case Double(d) => Cell(FloatClass, 0, d, [])
    case Data(b) => Cell(BlobClass, 0, Float64(0), b)
    case Int(n) => Cell(IntegerClass, n, Float64(0), [])
    case Null => NullCell
  }

  /** What `sqlite3_step` answers: SQLITE_ROW, SQLITE_DONE, an execution
      error, or a misuse code for a released handle. */
  datatype StepResult = RowReady | Done | Failed | Misuse

  class Handle {
    /** The result's column names, as the octets of their C strings. */
    const names: seq<Bytes>
    const rows: seq<seq<Cell>>
    /** What a step answers once every row has been delivered. */
    const endResult: StepResult
    /** Parameter positions at which every bind call fails. */
    const rejected: set<int>

    /** How many rows have been delivered. */
    var cursor: nat
    /** Whether the last step delivered a row (the column accessors read it). */
    var onRow: bool
    var bindings: map<int, Value>
    var released: bool

    /** How many times the handle was stepped, and its metadata queried. */
    ghost var steps: nat
    ghost var metadataReads: nat

    ghost predicate Valid()
      reads this
    {
      cursor <= |rows| && (onRow ==> 0 < cursor) && (released ==> !onRow)
      && endResult in {Done, Failed}
    }

    constructor (names: seq<Bytes>, rows: seq<seq<Cell>>, endResult: StepResult, rejected: set<int>)
      requires endResult in {Done, Failed}
      ensures Valid()
      ensures this.names == names && this.rows == rows && this.endResult == endResult && this.rejected == rejected
      ensures cursor == 0 && !onRow && bindings == map[] && !released
      ensures steps == 0 && metadataReads == 0
    {
      this.names, this.rows, this.endResult, this.rejected := names, rows, endResult, rejected;
      cursor, onRow, bindings, released := 0, false, map[], false;
      steps, metadataReads := 0, 0;
    }

    /** The rows later steps will still deliver. */
    ghost function Remaining(): seq<seq<Cell>>
      reads this
      requires Valid()
    {
      if released then [] else rows[cursor..]
    }

    /** The row the column accessors read: the one the last step delivered. */
    function CurrentRow(): seq<Cell>
      reads this
      requires Valid()
    {
      if onRow then rows[cursor - 1] else []
    }

    function ColumnCell(i: nat): Cell
      reads this
      requires Valid()
    {
      CellAt(CurrentRow(), i)
    }

    function ColumnName(i: nat): Bytes
      requires i < |names|
    {
      names[i]
    }

    method ColumnCount() returns (n: nat)
      requires Valid()
      modifies this`metadataReads
      ensures Valid() && n == |names| && metadataReads == old(metadataReads) + 1
    {
      n := |names|;
      metadataReads := metadataReads + 1;
    }

    method Step() returns (r: StepResult)
      requires Valid()
      modifies this`cursor, this`onRow, this`steps
      ensures SteppedOnce(this) && metadataReads == old(metadataReads)
      ensures r == RowReady <==> old(Remaining()) != []
      ensures old(Remaining()) == [] ==> r == if released then Misuse else endResult
    {
      steps := steps + 1;
      if released {
        r := Misuse;
      } else if cursor < |rows| {
        cursor, onRow := cursor + 1, true;
        r := RowReady;
      } else {
        onRow := false;
        r := endResult;
      }
    }

    method BindText(position: int, text: string) returns (ok: bool)
      requires Valid() && !released
      modifies this`bindings
      ensures Valid() && Bound(this, position, String(text), ok)
    {
      ok := Attach(position, String(text));
    }

    method BindDouble(position: int, number: Float64) returns (ok: bool)
      requires Valid() && !released
      modifies this`bindings
      ensures Valid() && Bound(this, position, Double(number), ok)
    {
      ok := Attach(position, Double(number));
    }

    method BindInt64(position: int, integer: Int64) returns (ok: bool)
      requires Valid() && !released
      modifies this`bindings
      ensures Valid() && Bound(this, position, Int(integer), ok)
    {
      ok := Attach(position, Int(integer));
    }

    method BindBlob(position: int, bytes: Bytes) returns (ok: bool)
      requires Valid() && !released
      modifies this`bindings
      ensures Valid() && Bound(this, position, Data(bytes), ok)
    {
      ok := Attach(position, Data(bytes));
    }

    method BindNull(position: int) returns (ok: bool)
      requires Valid() && !released
      modifies this`bindings
      ensures Valid() && Bound(this, position, Null, ok)
    {
      ok := Attach(position, Null);
    }

    method Attach(position: int, v: Value) returns (ok: bool)
      requires Valid() && !released
      modifies this`bindings
      ensures Valid() && Bound(this, position, v, ok)
    {
      ok := position !in rejected;
      if ok {
        bindings := bindings[position := v];
      }
    }

    method ClearBindings()
      requires Valid() && !released
      modifies this`bindings
      ensures Valid() && bindings == map[]
    {
      bindings := map[];
    }

    method Release()
      requires Valid() && !released
      modifies this`released, this`onRow
      ensures Valid() && released
    {
      released, onRow := true, false;
    }
  }

  /** One step of the cursor: the next remaining row becomes the current row,
      or, with none left, there is no current row. Nothing else changes. */
  twostate predicate SteppedOnce(h: Handle)
    reads h
  {
    && old(h.Valid()) && h.Valid()
    && h.steps == old(h.steps) + 1
    && h.bindings == old(h.bindings) && h.released == old(h.released)
    && if old(h.Remaining()) == [] then
         !h.onRow && h.Remaining() == []
       else
         h.onRow && h.CurrentRow() == old(h.Remaining())[0] && h.Remaining() == old(h.Remaining())[1..]
  }

  /** A bind call succeeds exactly at a position the engine accepts, and then
      records the value there; a failed call records nothing. */
  twostate predicate Bound(h: Handle, position: int, v: Value, ok: bool)
    reads h
  {
    && (ok <==> position !in h.rejected)
    && h.bindings == if ok then old(h.bindings)[position := v] else old(h.bindings)
  }
}
