/** `Statement`: a block fetch steers every bound buffer to element i and fetches row i into it. */
module Statements {
  import opened Options
  import opened Datums
  import opened ServerChain
  import opened Pager
  import opened PagerInvariant
  import opened AppBuffers
  import opened Renderer
  import opened Slots
  import opened RowReading
  import opened DataQueries
  import opened BlockFetch

  lemma SameElement(bindings: Bindings, i: nat, j: nat)
    ensures Element(Element(bindings, i), j) == Element(bindings, j)
  {
  }

  lemma AllRows(rows: seq<Row>)
    ensures Rest(rows, 0) == rows
  {
  }

  lemma FirstMemory(m: string, bindings: Bindings, rows: seq<Row>, n: nat)
    requires BlockFits(bindings, n, |m|)
    ensures BlockFits(bindings, 0, |m|) && MemoryAfter(m, bindings, rows, 0) == m
  {
  }

  class Statement {
    var currentQuery: DataQuery?
    var columnBindings: Bindings
    /** The binding offset the application points to, if any. */
    var columnBindOffset: Option<nat>
    var rowArraySize: nat
    /** The application's row counter and row status array, if it gave any. */
    var rowsFetched: Option<nat>
    var rowStatuses: array?<RowStatus>

    ghost predicate Valid()
      reads this, currentQuery, if currentQuery == null then {} else {currentQuery.cursor}
    {
      && (currentQuery != null ==> currentQuery.Valid())
      && (rowStatuses != null ==> rowStatuses.Length >= rowArraySize)
    }

    /** The rows of the open query not fetched yet. */
    ghost function Left(): seq<Row>
      reads this, currentQuery
    {
      if currentQuery == null then [] else currentQuery.Left()
    }

    /** `SetByteOffset` for every bound column. */
    method SetByteOffsets()
      modifies this`columnBindings
      ensures columnBindings == Shifted(old(columnBindings), columnBindOffset)
    {
      if columnBindOffset.Some? {
        columnBindings := map k | k in columnBindings :: columnBindings[k].(byteOffset := columnBindOffset.value);
      }
    }

    /** Element `i`: `SetElementOffset` for every bound column, then one fetch. */
    method FetchElement(i: nat, mem: array<char>, ghost more: nat) returns (res: SqlResult)
      requires Valid() && currentQuery != null && currentQuery.Serves(more + 1)
      requires AllFit(Element(columnBindings, i), mem.Length)
      modifies this`columnBindings, currentQuery, currentQuery.cursor, mem
      ensures Valid() && columnBindings == Element(old(columnBindings), i)
      ensures Left() == Rest(old(Left()), 1)
      ensures res == RowResult(old(Left()), columnBindings, old(currentQuery.Failing()), 0)
      ensures mem[..] ==
        if old(Left()) == [] then old(mem[..]) else ReadRow(old(mem[..]), columnBindings, old(Left())[0], 1).0
      ensures currentQuery.Failing() == (old(currentQuery.Failing()) && old(Left()) != [])
      ensures currentQuery.Serves(more)
      ensures var now := currentQuery.cursor; now == old(currentQuery.cursor) || now == null || fresh(now)
    {
      hide Inv, Flat, TailEnd, Reaches, EmptyLaterPage, ReadRow, AllFit, Readable;
      columnBindings := map k | k in columnBindings :: columnBindings[k].(elementOffset := i);
      currentQuery.ServesLive(more + 1);
      if Left() != [] { ReadsIff(mem[..], columnBindings, Left()[0]); }
      res := currentQuery.FetchNextRow(columnBindings, mem);
    }

    /** The loop of `InternalFetchRow`. */
    method FetchElements(mem: array<char>) returns (fetched: nat, errors: nat)
      requires Valid() && currentQuery != null && BlockFits(columnBindings, rowArraySize, mem.Length)
      requires currentQuery.Serves(rowArraySize)
      modifies this`columnBindings, rowStatuses, currentQuery, currentQuery.cursor, mem
      ensures Valid() && Left() == Rest(old(Left()), rowArraySize)
      ensures mem[..] == MemoryAfter(old(mem[..]), old(columnBindings), old(Left()), rowArraySize)
      ensures rowStatuses != null ==> forall i: nat | i < rowArraySize ::
        rowStatuses[i] == SqlResultToRowResult(RowResult(old(Left()), old(columnBindings), old(currentQuery.Failing()), i))
      ensures fetched == CountOf(old(Left()), old(columnBindings), old(currentQuery.Failing()), rowArraySize, Success)
      ensures errors == CountOf(old(Left()), old(columnBindings), old(currentQuery.Failing()), rowArraySize, Error)
    {
      hide Inv, Flat, TailEnd, Reaches, EmptyLaterPage, MemoryAfter, RowResult, BlockFits, AllFit, Readable, Rest,
        Element, ReadRow, DataQuery.Serves, DataQuery.Failing, DataQuery.Left, DataQuery.Running;
      ghost var bindings, rows, failing := columnBindings, Left(), currentQuery.Failing();
      fetched, errors := 0, 0;
      FirstMemory(mem[..], bindings, rows, rowArraySize);
      AllRows(rows);
      for i := 0 to rowArraySize
        invariant Valid() && currentQuery.Serves(rowArraySize - i)
        invariant BlockFits(bindings, i, mem.Length) && mem[..] == MemoryAfter(old(mem[..]), bindings, rows, i)
        invariant Left() == Rest(rows, i) && currentQuery.Failing() == (failing && i <= |rows|)
        invariant Element(columnBindings, i) == Element(bindings, i)
        invariant fetched == CountOf(rows, bindings, failing, i, Success)
        invariant errors == CountOf(rows, bindings, failing, i, Error)
        invariant rowStatuses != null ==> forall j: nat | j < i ::
          rowStatuses[j] == SqlResultToRowResult(RowResult(rows, bindings, failing, j))
        invariant var now := currentQuery.cursor; now == old(currentQuery.cursor) || now == null || fresh(now)
      {
        NextMemory(old(mem[..]), bindings, rows, i, rowArraySize);
        NextElement(rows, bindings, failing, i);
        var result := FetchElement(i, mem, rowArraySize - i - 1);
        SameElement(bindings, i, i + 1);
        if result == Success || result == SuccessWithInfo {
          fetched := fetched + 1;
        } else if result != NoData {
          errors := errors + 1;
        }
        if rowStatuses != null {
          rowStatuses[i] := SqlResultToRowResult(result);
        }
      }
    }

    /**
     `InternalFetchRow`: a block of `rowArraySize` fetches. Element i gets the i-th row that was left, its
     status says so, and the rows that were read are counted.
     */
    method InternalFetchRow(mem: array<char>) returns (res: SqlResult)
      requires Valid() && BlockFits(Shifted(columnBindings, columnBindOffset), rowArraySize, mem.Length)
      requires currentQuery != null ==> currentQuery.Serves(rowArraySize)
      modifies this`columnBindings, this`rowsFetched, rowStatuses, mem
      modifies currentQuery, if currentQuery == null then {} else {currentQuery.cursor}
      ensures currentQuery == null ==>
        && res == Error && mem[..] == old(mem[..]) && columnBindings == old(columnBindings)
        && rowsFetched == (if old(rowsFetched).Some? then Some(0) else None)
        && (rowStatuses != null ==> rowStatuses[..] == old(rowStatuses[..]))
      ensures currentQuery != null ==>
        var n, rows, failing := rowArraySize, old(Left()), old(currentQuery.Failing());
        var bindings := Shifted(old(columnBindings), columnBindOffset);
        && Valid() && Left() == Rest(rows, n)
        && mem[..] == MemoryAfter(old(mem[..]), bindings, rows, n)
        && (rowStatuses != null ==> forall i: nat | i < n :: Marks(rowStatuses[i], rows, bindings, failing, i))
        && rowsFetched == (if old(rowsFetched).Some? then Some(|Good(rows, bindings, n)|) else None)
        && Reports(res, Good(rows, bindings, n), Bad(rows, bindings, failing, n))
    {
      hide Inv, Flat, TailEnd, Reaches, EmptyLaterPage, MemoryAfter, RowResult, BlockFits, AllFit, Readable,
        Marks, Reports, Good, Bad, CountOf, BlockResult, SqlResultToRowResult, DataQuery.Serves, DataQuery.Failing;
      if rowsFetched.Some? {
        rowsFetched := Some(0);
      }
      if currentQuery == null {
        return Error;
      }
      SetByteOffsets();
      ghost var rows, bindings, failing := Left(), columnBindings, currentQuery.Failing();
      var fetched, errors := FetchElements(mem);
      if rowsFetched.Some? {
        rowsFetched := Some(fetched);
      }
      res := BlockResult(fetched, errors);
      BlockReports(rows, bindings, failing, rowArraySize);
      if rowStatuses != null {
        forall i: nat | i < rowArraySize ensures Marks(rowStatuses[i], rows, bindings, failing, i) {
          MarksElement(rows, bindings, failing, i);
        }
      }
    }
  }
}
