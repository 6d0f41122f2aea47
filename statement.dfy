/** A prepared statement and its lifecycle: bind, run, read, finalize
    (Sources/SimpleSQLite/Statement.swift). */
module Statements {
  import opened Wrappers
  import opened Failures
  import opened Values
  import opened Rows
  import opened Engine
  import opened RowSets

  /** The first parameter position among 1..count that the engine rejects. */
  function FirstRejected(count: nat, rejected: set<int>): (r: Option<nat>)
    ensures r.Some? ==> 1 <= r.value <= count && r.value in rejected
    ensures r.Some? ==> forall p :: 1 <= p < r.value ==> p !in rejected
    ensures r.None? ==> forall p :: 1 <= p <= count ==> p !in rejected
  {
    if count == 0 then None
    else
      match FirstRejected(count - 1, rejected)
      case Some(p) => Some(p)
      case None => if count in rejected then Some(count) else None
  }

  /** `bindings` after values[0..n) were bound at positions 1..n. */
  function Assigned(bindings: map<int, Value>, values: seq<Value>, n: nat): (r: map<int, Value>)
    requires n <= |values|
    ensures forall p :: p in r <==> p in bindings || 1 <= p <= n
    ensures forall p :: 1 <= p <= n ==> r[p] == values[p - 1]
    ensures forall p :: p in bindings && !(1 <= p <= n) ==> r[p] == bindings[p]
  {
    if n == 0 then bindings else Assigned(bindings, values, n - 1)[n := values[n - 1]]
  }

  class Statement {
    const handle: Handle
    var isFinalized: bool

    /** The flag says whether the handle has been released. */
    ghost predicate Valid()
      reads this, handle
    {
      handle.Valid() && (isFinalized <==> handle.released)
    }

    constructor (handle: Handle)
      requires handle.Valid() && !handle.released
      ensures Valid() && this.handle == handle && !isFinalized
    {
      this.handle := handle;
      isFinalized := false;
    }

    /** The private per-variant `bind`/`bindNull`: the engine's bind call for
        the value's storage class; a rejected call is a binding error. */
    method BindValue(value: Value, position: int) returns (r: Result<(), Error>)
      requires Valid() && !isFinalized
      modifies handle`bindings
      ensures Valid()
      ensures r.Success? <==> position !in handle.rejected
      ensures r.Failure? ==> r.error == Binding
      ensures handle.bindings == if r.Success? then old(handle.bindings)[position := value] else old(handle.bindings)
    {
      var ok: bool;
      match value {
        case Double(d) => ok := handle.BindDouble(position, d);
        case String(s) => ok := handle.BindText(position, s);
        case Int(n) => ok := handle.BindInt64(position, n);
        case Data(b) => ok := handle.BindBlob(position, b);
        case Null => ok := handle.BindNull(position);
      }
      r := if ok then Success(()) else Failure(Binding);
    }

    /** `bind(parameters:)`: values[k] goes to position k + 1, in order, and
        the statement itself is returned. The first rejected position stops
        the binding: the positions before it stay bound, later ones are not
        attempted. A finalized statement is refused before anything is bound. */
    method Bind(values: seq<Value>) returns (r: Result<Statement, Error>)
      requires Valid()
      modifies handle`bindings
      ensures Valid()
      ensures old(isFinalized) ==> r == Failure(IsFinalized) && handle.bindings == old(handle.bindings)
      ensures !old(isFinalized) ==>
        match FirstRejected(|values|, handle.rejected)
        case None => r == Success(this) && handle.bindings == Assigned(old(handle.bindings), values, |values|)
        case Some(p) => r == Failure(Binding) && handle.bindings == Assigned(old(handle.bindings), values, p - 1)
    {
      if isFinalized {
        return Failure(IsFinalized);
      }
      var position := 1;
      for k := 0 to |values|
        invariant Valid() && position == k + 1
        invariant forall p :: 1 <= p <= k ==> p !in handle.rejected
        invariant handle.bindings == Assigned(old(handle.bindings), values, k)
      {
        var bound := BindValue(values[k], position);
        if bound.Failure? {
          assert FirstRejected(|values|, handle.rejected) == Some(position);
          return Failure(bound.error);
        }
        position := position + 1;
      }
      return Success(this);
    }

    /** `run()`: one step whose answer is discarded, so an execution error
        is not reported. A finalized statement is refused. */
    method Run() returns (r: Result<(), Error>)
      requires Valid()
      modifies handle
      ensures Valid()
      ensures old(isFinalized) ==> r == Failure(IsFinalized) && unchanged(handle)
      ensures !old(isFinalized) ==>
        r == Success(()) && SteppedOnce(handle) && handle.metadataReads == old(handle.metadataReads)
    {
      if isFinalized {
        return Failure(IsFinalized);
      }
      var _ := handle.Step();
      return Success(());
    }

    /** `scalar()`: column 0 of the next row, through a fresh RowSet. There
        is no finalized check: on a released handle the step delivers no row. */
    method Scalar() returns (r: Result<Option<Value>, Error>)
      requires Valid()
      modifies handle
      ensures Valid() && SteppedOnce(handle) && handle.metadataReads == old(handle.metadataReads)
      ensures r == NextValue(old(handle.Remaining()))
      ensures old(isFinalized) ==> r == Success(None)
    {
      var rowSet := new RowSet(handle);
      r := rowSet.ReadSingleValue();
    }

    /** `row(columns:)`: the next row through a fresh RowSet, which reads the
        column names first. There is no finalized check. */
    method Row() returns (r: Result<Option<Rows.Row>, Error>)
      requires Valid()
      modifies handle
      ensures Valid() && handle.metadataReads == old(handle.metadataReads) + 1
      ensures DecodeNames(handle.names).Failure? ==> r == Failure(Reading) && NotStepped(handle)
      ensures DecodeNames(handle.names).Success? ==>
        SteppedOnce(handle) && r == NextRow(DecodeNames(handle.names).value, old(handle.Remaining()))
      ensures old(isFinalized) ==> r.Success? ==> r == Success(None)
    {
      var rowSet := new RowSet(handle);
      r := rowSet.ReadRow();
    }

    /** `rows(columns:)`: a fresh cursor for the caller to drive; nothing is
        stepped or read, and the result is never absent. */
    method Rows() returns (r: Option<RowSet>)
      requires Valid()
      ensures r.Some? && fresh(r.value) && r.value.Valid()
      ensures r.value.handle == handle && r.value.columnNames == None
    {
      var rowSet := new RowSet(handle);
      return Some(rowSet);
    }

    /** `finalize()`: the first call clears the bindings and releases the
        handle; every later call does nothing at all. */
    method Finalize()
      requires Valid()
      modifies this, handle
      ensures Valid() && isFinalized
      ensures old(isFinalized) ==> unchanged(this) && unchanged(handle)
      ensures !old(isFinalized) ==>
        && handle.released && handle.bindings == map[]
        && handle.cursor == old(handle.cursor) && handle.steps == old(handle.steps)
        && handle.metadataReads == old(handle.metadataReads)
    {
      if isFinalized {
        return;
      }
      handle.ClearBindings();
      handle.Release();
      isFinalized := true;
    }
  }
}
