/** An immutable decoded result row (Sources/SimpleSQLite/Row.swift) and the
    column naming contract it is indexed by (Sources/SimpleSQLite/Column.swift).

    A `Column` type is modelled by its naming function `name: C -> string`;
    a Row is looked up by the name of the column, never by the identifier. */
module Rows {
  import opened Wrappers
  import opened Values

  /** `values` is fixed when the Row is built: a datatype value never changes. */
  datatype Row = Row(values: map<string, Value>)

  /** `row[column]`: the stored value under the column's name, if any. */
  function Get<C>(row: Row, name: C -> string, column: C): (r: Option<Value>)
    ensures r.Some? <==> name(column) in row.values
    ensures r.Some? ==> row.values[name(column)] == r.value
  {
    if name(column) in row.values then Some(row.values[name(column)]) else None
  }

  /** The typed getters: absent if the name is not a key OR the stored value
      is another variant; the two cases are not told apart. */
  function StringFor<C>(row: Row, name: C -> string, column: C): (r: Option<string>)
    ensures r.Some? <==> name(column) in row.values && row.values[name(column)].String?
    ensures r.Some? ==> row.values[name(column)] == String(r.value)
  {
    match Get(row, name, column)
    case Some(v) => AsString(v)
    case None => None
  }

  function DataFor<C>(row: Row, name: C -> string, column: C): (r: Option<Bytes>)
    ensures r.Some? <==> name(column) in row.values && row.values[name(column)].Data?
    ensures r.Some? ==> row.values[name(column)] == Data(r.value)
  {
    match Get(row, name, column)
    case Some(v) => AsData(v)
    case None => None
  }

  function DoubleFor<C>(row: Row, name: C -> string, column: C): (r: Option<Float64>)
    ensures r.Some? <==> name(column) in row.values && row.values[name(column)].Double?
    ensures r.Some? ==> row.values[name(column)] == Double(r.value)
  {
    match Get(row, name, column)
    case Some(v) => AsDouble(v)
    case None => None
  }

  function BoolFor<C>(row: Row, name: C -> string, column: C): (r: Option<bool>)
    ensures r.Some? <==> name(column) in row.values && row.values[name(column)].Int?
    ensures r.Some? ==> (r.value <==> row.values[name(column)] == Int(1))
  {
    match Get(row, name, column)
    case Some(v) => AsBool(v)
    case None => None
  }

  function IntFor<C>(row: Row, name: C -> string, column: C): (r: Option<Int64>)
    ensures r.Some? <==> name(column) in row.values && row.values[name(column)].Int?
    ensures r.Some? ==> row.values[name(column)] == Int(r.value)
  {
    match Get(row, name, column)
    case Some(v) => AsInt(v)
    case None => None
  }

  /** Each typed getter is the lookup followed by the matching extractor. */
  lemma GettersComposeLookup<C>(row: Row, name: C -> string, column: C)
    ensures Get(row, name, column).None? ==>
      StringFor(row, name, column).None? && DataFor(row, name, column).None?
      && DoubleFor(row, name, column).None? && BoolFor(row, name, column).None?
      && IntFor(row, name, column).None?
    ensures Get(row, name, column).Some? ==>
      var v := Get(row, name, column).value;
      StringFor(row, name, column) == AsString(v) && DataFor(row, name, column) == AsData(v)
      && DoubleFor(row, name, column) == AsDouble(v) && BoolFor(row, name, column) == AsBool(v)
      && IntFor(row, name, column) == AsInt(v)
  {
  }

  /** Two identifiers, of the same or of different column types, that carry
      the same name read the same stored value. */
  lemma SameNameSameValue<C, D>(row: Row, name: C -> string, c: C, name': D -> string, d: D)
    requires name(c) == name'(d)
    ensures Get(row, name, c) == Get(row, name', d)
  {
  }

  /** The documented example of a string-backed column enumeration: its
      `name` is the raw value, which for `age` is "animalAge". */
  datatype AnimalColumn = Id | Name | Age

  function AnimalColumnName(c: AnimalColumn): string
  {
    match c
    case Id => "id"
    case Name => "name"
    case Age => "animalAge"
  }

  /** Looking up `age` reads the value stored under "animalAge". */
  lemma AliasedColumnLookup(row: Row)
    ensures Get(row, AnimalColumnName, Age) == Get(row, (s: string) => s, "animalAge")
    ensures Get(row, AnimalColumnName, Id) == Get(row, (s: string) => s, "id")
  {
  }
}
