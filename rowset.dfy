/** The forward cursor that decodes a statement's result rows
    (Sources/SimpleSQLite/RowSet.swift). */
module RowSets {
  import opened Wrappers
  import opened Failures
  import opened Utf8
  import opened Values
  import opened Rows
  import opened Engine

  /** `readValue(forColumn:)`: the Value for a cell, chosen by its storage
      class. Text that is not well-formed UTF-8 silently becomes null; an
      unknown storage class is a reading error. */
  function DecodeCell(c: Cell): (r: Result<Value, Error>)
    ensures r.Failure? <==> c.storageClass !in {IntegerClass, FloatClass, TextClass, BlobClass, NullClass}
    ensures r.Failure? ==> r.error == Reading
    ensures r.Success? && r.value.Int? <==> c.storageClass == IntegerClass
    ensures r.Success? && r.value.Double? <==> c.storageClass == FloatClass
    ensures r.Success? && r.value.Data? <==> c.storageClass == BlobClass
    ensures r.Success? && r.value.String? <==> c.storageClass == TextClass && Utf8.Valid(c.bytes)
    ensures r.Success? && r.value.Null? <==>
      c.storageClass == NullClass || (c.storageClass == TextClass && !Utf8.Valid(c.bytes))
    ensures r.Success? && r.value.Int? ==> r.value.integer == c.integer
    ensures r.Success? && r.value.Double? ==> r.value.number == c.number
    ensures r.Success? && r.value.Data? ==> r.value.bytes == c.bytes
    ensures r.Success? && r.value.String? ==> Encode(r.value.text) == c.bytes
  {
    if c.storageClass == IntegerClass then Success(Int(c.integer))
    else if c.storageClass == FloatClass then Success(Double(c.number))
    else if c.storageClass == BlobClass then Success(Data(c.bytes))
    else if c.storageClass == TextClass then
      match Utf8.Decode(c.bytes)
      case Some(s) => EncodeDecode(c.bytes); Success(String(s))
      case None => Success(Null)
    else if c.storageClass == NullClass then Success(Null)
    else Failure(Reading)
  }

  /** A value bound as a parameter and selected back reads as itself. */
  lemma ReadBackStored(v: Value)
    ensures DecodeCell(StoredCell(v)) == Success(v)
  {
    if v.String? {
      DecodeEncode(v.text);
    }
  }

  /** The column names the engine reports, each decoded from UTF-8; a name
      that is not well-formed makes the whole list a reading error. */
  function DecodeNames(raw: seq<Bytes>): (r: Result<seq<string>, Error>)
    ensures r.Success? <==> forall i :: 0 <= i < |raw| ==> Utf8.Valid(raw[i])
    ensures r.Failure? ==> r.error == Reading
    ensures r.Success? ==> |r.value| == |raw|
    ensures r.Success? ==> forall i :: 0 <= i < |raw| ==> Utf8.Decode(raw[i]) == Some(r.value[i])
    decreases |raw|
  {
    if raw == [] then Success([])
    else
      var n := |raw| - 1;
      match DecodeNames(raw[..n])
      case Failure(e) => Failure(e)
      case Success(names) =>
        match Utf8.Decode(raw[n])
        case None => Failure(Reading)
        case Some(name) => Success(names + [name])
  }

  /** The row map for the current cells: columns are decoded left to right
      and stored under their names, so a later column overwrites an earlier
      one of the same name; the first undecodable column fails the row. */
  function DecodeRow(columns: seq<string>, cells: seq<Cell>): (r: Result<map<string, Value>, Error>)
    ensures r.Failure? <==> exists i :: 0 <= i < |columns| && DecodeCell(CellAt(cells, i)).Failure?
    ensures r.Failure? ==> r.error == Reading
    decreases |columns|
  {
    if columns == [] then Success(map[])
    else
      var n := |columns| - 1;
      match DecodeRow(columns[..n], cells)
      case Failure(e) => Failure(e)
      case Success(m) =>
        match DecodeCell(CellAt(cells, n))
        case Failure(e) => Failure(e)
        case Success(v) => Success(m[columns[n] := v])
  }

  /** One more column: the row of the shorter prefix, with the last column's
      value stored under its name. */
  lemma DecodeRowStep(columns: seq<string>, cells: seq<Cell>)
    requires columns != [] && DecodeRow(columns, cells).Success?
    ensures DecodeRow(columns[..|columns| - 1], cells).Success?
    ensures DecodeCell(CellAt(cells, |columns| - 1)).Success?
    ensures DecodeRow(columns, cells).value ==
      DecodeRow(columns[..|columns| - 1], cells).value[columns[|columns| - 1] := DecodeCell(CellAt(cells, |columns| - 1)).value]
  {
  }

  /** The keys of a decoded row are exactly the column names. */
  lemma {:induction false} DecodeRowKeys(columns: seq<string>, cells: seq<Cell>)
    requires DecodeRow(columns, cells).Success?
    ensures forall k :: k in DecodeRow(columns, cells).value <==> k in columns
    decreases |columns|
  {
    if columns != [] {
      var n := |columns| - 1;
      DecodeRowStep(columns, cells);
      DecodeRowKeys(columns[..n], cells);
      assert columns == columns[..n] + [columns[n]];
    }
  }

  /** Column `i`, when no later column shares its name, is the value under
      that name. */
  lemma {:induction false} DecodeRowLast(columns: seq<string>, cells: seq<Cell>, i: nat)
    requires DecodeRow(columns, cells).Success?
    requires i < |columns| && columns[i] !in columns[i + 1..]
    ensures columns[i] in DecodeRow(columns, cells).value
    ensures DecodeRow(columns, cells).value[columns[i]] == DecodeCell(CellAt(cells, i)).value
    decreases |columns|
  {
    var n := |columns| - 1;
    DecodeRowStep(columns, cells);
    if i < n {
      assert columns[n] == columns[i + 1..][n - 1 - i];
      assert columns[..n][i + 1..] == columns[i + 1..n];
      assert columns[i + 1..n] <= columns[i + 1..];
      DecodeRowLast(columns[..n], cells, i);
    }
  }

  /** A decoded row has exactly the column names as keys, and each name holds
      the value of the LAST column that carries it. */
  lemma DecodeRowContents(columns: seq<string>, cells: seq<Cell>)
    requires DecodeRow(columns, cells).Success?
    ensures forall k :: k in DecodeRow(columns, cells).value <==> k in columns
    ensures forall i :: 0 <= i < |columns| && columns[i] !in columns[i + 1..] ==>
      DecodeRow(columns, cells).value[columns[i]] == DecodeCell(CellAt(cells, i)).value
  {
    DecodeRowKeys(columns, cells);
    forall i | 0 <= i < |columns| && columns[i] !in columns[i + 1..]
      ensures DecodeRow(columns, cells).value[columns[i]] == DecodeCell(CellAt(cells, i)).value
    {
      DecodeRowLast(columns, cells, i);
    }
  }

  /** Every row decoded, in step order, or the first row's reading error. */
  function DecodeAll(columns: seq<string>, rows: seq<seq<Cell>>): (r: Result<seq<Row>, Error>)
    ensures r.Success? <==> forall i :: 0 <= i < |rows| ==> DecodeRow(columns, rows[i]).Success?
    ensures r.Failure? ==> r.error == Reading
    ensures r.Success? ==> |r.value| == |rows|
    ensures r.Success? ==> forall i :: 0 <= i < |rows| ==> r.value[i] == Row(DecodeRow(columns, rows[i]).value)
  {
    if rows == [] then Success([])
    else
      match DecodeRow(columns, rows[0])
      case Failure(e) => Failure(e)
      case Success(m) =>
        match DecodeAll(columns, rows[1..])
        case Failure(e) => Failure(e)
        case Success(rest) => Success([Row(m)] + rest)
  }

  /** Rows that decode one by one are what decoding them all gives. */
  lemma DecodeAllOf(columns: seq<string>, rows: seq<seq<Cell>>, decoded: seq<Row>)
    requires Drained(columns, rows, decoded) && |decoded| == |rows|
    ensures DecodeAll(columns, rows) == Success(decoded)
  {
    assert DecodeAll(columns, rows).Success?;
    assert DecodeAll(columns, rows).value == decoded;
  }

  /** The rows read so far are the first rows of `remaining`, each decoded. */
  ghost predicate Drained(columns: seq<string>, remaining: seq<seq<Cell>>, rows: seq<Row>)
  {
    && |rows| <= |remaining|
    && forall i :: 0 <= i < |rows| ==>
         DecodeRow(columns, remaining[i]).Success? && rows[i] == Row(DecodeRow(columns, remaining[i]).value)
  }

  /** Draining that meets an undecodable row after `rows` stops there. */
  lemma DrainStops(columns: seq<string>, remaining: seq<seq<Cell>>, rows: seq<Row>)
    requires Drained(columns, remaining, rows) && |rows| < |remaining|
    requires DecodeRow(columns, remaining[|rows|]).Failure?
    ensures DecodeAll(columns, remaining).Failure?
    ensures RowFailed(columns, remaining, remaining[|rows| + 1..])
  {
  }

  /** What reading one row answers, given the rows still to come. */
  function NextRow(columns: seq<string>, remaining: seq<seq<Cell>>): Result<Option<Row>, Error>
  {
    if remaining == [] then Success(None)
    else
      match DecodeRow(columns, remaining[0])
      case Failure(e) => Failure(e)
      case Success(m) => Success(Some(Row(m)))
  }

  /** What reading a single value answers: column 0 of the next row. */
  function NextValue(remaining: seq<seq<Cell>>): Result<Option<Value>, Error>
  {
    if remaining == [] then Success(None)
    else
      match DecodeCell(CellAt(remaining[0], 0))
      case Failure(e) => Failure(e)
      case Success(v) => Success(Some(v))
  }

  class RowSet {
    /** The borrowed statement's engine handle. */
    const handle: Handle
    /** The result's column names, once read. */
    var columnNames: Option<seq<string>>

    /** A cached list is always what the engine reports. */
    ghost predicate Valid()
      reads this, handle
    {
      handle.Valid() && (columnNames.Some? ==> DecodeNames(handle.names) == Success(columnNames.value))
    }

    constructor (handle: Handle)
      requires handle.Valid()
      ensures Valid() && this.handle == handle && columnNames == None
    {
      this.handle := handle;
      columnNames := None;
    }

    /** Steps once and decodes column 0 only; the column names are neither
        read nor cached. */
    method ReadSingleValue() returns (r: Result<Option<Value>, Error>)
      requires Valid()
      modifies handle
      ensures Valid() && SteppedOnce(handle) && handle.metadataReads == old(handle.metadataReads)
      ensures r == NextValue(old(handle.Remaining()))
    {
      var code := handle.Step();
      if code != RowReady {
        return Success(None);
      }
      var value := DecodeCell(handle.ColumnCell(0));
      if value.Failure? {
        return Failure(value.error);
      }
      return Success(Some(value.value));
    }

    /** Reads the first row's column names from the engine and caches them. */
    method ReadColumnNames() returns (r: Result<seq<string>, Error>)
      requires Valid()
      modifies this, handle`metadataReads
      ensures Valid() && handle.metadataReads == old(handle.metadataReads) + 1
      ensures r == DecodeNames(handle.names)
      ensures columnNames == if r.Success? then Some(r.value) else old(columnNames)
    {
      var count := handle.ColumnCount();
      var names: seq<string> := [];
      for i := 0 to count
        invariant DecodeNames(handle.names[..i]) == Success(names)
      {
        var name := Utf8.Decode(handle.ColumnName(i));
        if name.None? {
          assert !Utf8.Valid(handle.names[i]);
          return Failure(Reading);
        }
        assert handle.names[..i + 1][..i] == handle.names[..i];
        names := names + [name.value];
      }
      assert handle.names[..count] == handle.names;
      columnNames := Some(names);
      return Success(names);
    }

    /** `readRow()`: the cached column names, or the engine's on the first
        call; then one step, decoded into a Row. */
    method ReadRow() returns (r: Result<Option<Row>, Error>)
      requires Valid()
      modifies this, handle
      ensures Valid()
      ensures handle.metadataReads == old(handle.metadataReads) + if old(columnNames).None? then 1 else 0
      ensures old(columnNames).Some? ==> columnNames == old(columnNames)
      ensures DecodeNames(handle.names).Failure? ==>
        r == Failure(Reading) && columnNames == None && NotStepped(handle)
      ensures DecodeNames(handle.names).Success? ==>
        var names := DecodeNames(handle.names).value;
        columnNames == Some(names) && SteppedOnce(handle) && r == NextRow(names, old(handle.Remaining()))
    {
      var columns: seq<string>;
      if columnNames.Some? {
        columns := columnNames.value;
      } else {
        var read := ReadColumnNames();
        if read.Failure? {
          return Failure(read.error);
        }
        columns := read.value;
      }
      r := ReadRowWith(columns);
    }

    /** `readAllRows(columns:)`: every remaining row, in step order, until the
        first step that delivers no row; never absent on success. */
    method ReadAllRows() returns (r: Result<Option<seq<Row>>, Error>)
      requires Valid()
      modifies this, handle`cursor, handle`onRow, handle`steps, handle`metadataReads
      ensures Valid()
      ensures handle.metadataReads == old(handle.metadataReads) + if old(columnNames).None? then 1 else 0
      ensures old(columnNames).Some? ==> columnNames == old(columnNames)
      ensures DecodeNames(handle.names).Failure? ==>
        r == Failure(Reading) && columnNames == None && NotStepped(handle)
      ensures DecodeNames(handle.names).Success? ==>
        var names := DecodeNames(handle.names).value;
        var all := DecodeAll(names, old(handle.Remaining()));
        && columnNames == Some(names)
        && (r.Success? <==> all.Success?)
        && (r.Success? ==> r.value == Some(all.value) && handle.Remaining() == []
                           && handle.steps == old(handle.steps) + |old(handle.Remaining())| + 1)
        && (r.Failure? ==> RowFailed(names, old(handle.Remaining()), handle.Remaining()) && r.error == Reading
                           && handle.steps == old(handle.steps) + |old(handle.Remaining())| - |handle.Remaining()|)
    {
      var columns: seq<string>;
      if columnNames.Some? {
        columns := columnNames.value;
      } else {
        var read := ReadColumnNames();
        if read.Failure? {
          return Failure(read.error);
        }
        columns := read.value;
      }
      var rows := DrainWith(columns);
      if rows.Failure? {
        return Failure(rows.error);
      }
      return Success(Some(rows.value));
    }

    /** The loop of `readAllRows(columns:)`: read rows with the given names
        until a step delivers none, appending each; a reading error ends it. */
    method DrainWith(columns: seq<string>) returns (r: Result<seq<Row>, Error>)
      requires Valid()
      modifies handle`cursor, handle`onRow, handle`steps
      ensures Valid()
      ensures r.Success? <==> DecodeAll(columns, old(handle.Remaining())).Success?
      ensures r.Success? ==> r == DecodeAll(columns, old(handle.Remaining())) && handle.Remaining() == []
      ensures r.Success? ==> handle.steps == old(handle.steps) + |old(handle.Remaining())| + 1
      ensures r.Failure? ==> r.error == Reading && RowFailed(columns, old(handle.Remaining()), handle.Remaining())
      ensures r.Failure? ==> handle.steps == old(handle.steps) + |old(handle.Remaining())| - |handle.Remaining()|
    {
      ghost var remaining := handle.Remaining();
      var rows: seq<Row> := [];
      while true
        invariant Valid() && handle.bindings == old(handle.bindings) && handle.released == old(handle.released)
        invariant Drained(columns, remaining, rows) && handle.Remaining() == remaining[|rows|..]
        invariant handle.steps == old(handle.steps) + |rows|
        decreases |handle.Remaining()|
      {
        ghost var before := handle.Remaining();
        var next := ReadRowWith(columns);
        if next != Success(None) {
          assert before[0] == remaining[|rows|] && before[1..] == remaining[|rows| + 1..];
        }
        match next
        case Failure(e) =>
          DrainStops(columns, remaining, rows);
          return Failure(e);
        case Success(None) =>
          break;
        case Success(Some(row)) =>
          rows := rows + [row];
      }
      DecodeAllOf(columns, remaining, rows);
      return Success(rows);
    }

    /** The private `readRow(columns:)`: one step; with a row delivered, each
        column index is decoded and stored under the name at that index. */
    method ReadRowWith(columns: seq<string>) returns (r: Result<Option<Row>, Error>)
      requires Valid()
      modifies handle`cursor, handle`onRow, handle`steps
      ensures Valid() && SteppedOnce(handle)
      ensures r == NextRow(columns, old(handle.Remaining()))
    {
      var code := handle.Step();
      if code != RowReady {
        return Success(None);
      }
      var row: map<string, Value> := map[];
      for i := 0 to |columns|
        invariant DecodeRow(columns[..i], handle.CurrentRow()) == Success(row)
      {
        var value := DecodeCell(handle.ColumnCell(i));
        if value.Failure? {
          assert DecodeRow(columns, handle.CurrentRow()).Failure?;
          return Failure(value.error);
        }
        assert columns[..i + 1][..i] == columns[..i];
        row := row[columns[i] := value.value];
      }
      assert columns[..|columns|] == columns;
      return Success(Some(Row(row)));
    }
  }

  /** Nothing the engine's cursor shows has moved. */
  twostate predicate NotStepped(h: Handle)
    reads h
  {
    && h.steps == old(h.steps) && h.cursor == old(h.cursor) && h.onRow == old(h.onRow)
    && h.bindings == old(h.bindings) && h.released == old(h.released)
  }

  /** Draining stopped at a row that failed to decode: every row before it
      decoded, and the rows after it are still to come. */
  ghost predicate RowFailed(columns: seq<string>, before: seq<seq<Cell>>, after: seq<seq<Cell>>)
  {
    && |after| < |before|
    && var k := |before| - |after| - 1;
    && after == before[k + 1..]
    && DecodeRow(columns, before[k]).Failure?
    && forall i :: 0 <= i < k ==> DecodeRow(columns, before[i]).Success?
  }
}
