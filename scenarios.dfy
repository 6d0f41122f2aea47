/** The scenarios of the library's own tests
    (Tests/SimpleSQLiteTests/SimpleSQLiteTests.swift), stated over the model:
    a planet row inserted with typed parameters reads back through the
    typed getters, and a statement's lifecycle around `scalar`. */
module Scenarios {
  import opened Wrappers
  import opened Failures
  import opened Utf8
  import opened Values
  import opened Rows
  import opened Engine
  import opened RowSets
  import opened Statements

  datatype PlanetColumn = Id | Name | Distance | Habitable

  function PlanetColumnName(c: PlanetColumn): string
  {
    match c
    case Id => "id"
    case Name => "name"
    case Distance => "distance"
    case Habitable => "habitable"
  }

  const PlanetColumns: seq<string> := ["id", "name", "distance", "habitable"]

  /** The cells `SELECT * FROM planet` reports for a planet inserted with the
      parameters [.int(id), .string(name), .double(distance), .bool(habitable)]. */
  function PlanetCells(id: Int64, name: string, distance: Float64, habitable: bool): seq<Cell>
  {
    [StoredCell(Int(id)), StoredCell(String(name)), StoredCell(Double(distance)), StoredCell(Bool(habitable))]
  }

  /** Every inserted planet reads back field by field, the boolean through
      its 0/1 integer. */
  lemma {:induction false} PlanetRowReadsBack(id: Int64, name: string, distance: Float64, habitable: bool)
    ensures DecodeRow(PlanetColumns, PlanetCells(id, name, distance, habitable)).Success?
    ensures
      var row := Row(DecodeRow(PlanetColumns, PlanetCells(id, name, distance, habitable)).value);
      && IntFor(row, PlanetColumnName, PlanetColumn.Id) == Some(id)
      && StringFor(row, PlanetColumnName, PlanetColumn.Name) == Some(name)
      && DoubleFor(row, PlanetColumnName, Distance) == Some(distance)
      && BoolFor(row, PlanetColumnName, Habitable) == Some(habitable)
  {
    var cells := PlanetCells(id, name, distance, habitable);
    ReadBackStored(Int(id));
    ReadBackStored(String(name));
    ReadBackStored(Double(distance));
    ReadBackStored(Bool(habitable));
    assert forall i :: 0 <= i < 4 ==> CellAt(cells, i) == cells[i];
    assert PlanetColumns[1..] == ["name", "distance", "habitable"];
    assert PlanetColumns[2..] == ["distance", "habitable"];
    assert PlanetColumns[3..] == ["habitable"];
    DecodeRowLast(PlanetColumns, cells, 0);
    DecodeRowLast(PlanetColumns, cells, 1);
    DecodeRowLast(PlanetColumns, cells, 2);
    DecodeRowLast(PlanetColumns, cells, 3);
  }

  /** `SELECT COUNT(*)` over the eight planets, as the one-row result the
      engine reports for it: the scalar is 8, and a second scalar finds no
      row. */
  method CountScenario() returns (count: Result<Option<Value>, Error>, again: Result<Option<Value>, Error>)
    ensures count == Success(Some(Int(8)))
    ensures again == Success(None)
  {
    var result := [[StoredCell(Int(8))]];
    ReadBackStored(Int(8));
    assert NextValue(result) == Success(Some(Int(8)));
    var handle := new Handle([Encode("COUNT(*)")], result, Done, {});
    var statement := new Statement(handle);
    assert handle.Remaining() == result;
    count := statement.Scalar();
    assert handle.Remaining() == [];
    again := statement.Scalar();
  }

  /** A statement's lifecycle: finalizing twice is harmless; afterwards
      binding and running are refused, and a scalar, which has no finalized
      check, finds no row even though the result had one. */
  method LifecycleScenario() returns (bound: Result<Statement, Error>, ran: Result<(), Error>,
                                      late: Result<Option<Value>, Error>)
    ensures bound == Failure(IsFinalized) && ran == Failure(IsFinalized)
    ensures late == Success(None)
  {
    var handle := new Handle([Encode("COUNT(*)")], [[StoredCell(Int(8))]], Done, {});
    var statement := new Statement(handle);
    statement.Finalize();
    statement.Finalize();
    bound := statement.Bind([Int(1)]);
    ran := statement.Run();
    late := statement.Scalar();
  }
}
