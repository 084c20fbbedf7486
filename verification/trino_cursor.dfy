/** `TrinoCursor`: walks the rows of one page. */
module TrinoCursors {
  import opened Datums
  import opened Pager

  class TrinoCursor {
    const rowVec: seq<Row>
    var rowIndex: nat
    var curPos: nat

    /** The rowIndex trails the position by one. */
    ghost predicate Valid()
      reads this
    {
      rowIndex == if curPos == 0 then 0 else curPos - 1
    }

    function View(): PageCursor
      reads this
    {
      PageCursor(rowVec, curPos)
    }

    constructor (rows: seq<Row>)
      ensures Valid() && View() == PageCursor(rows, 0)
    {
      rowVec := rows;
      rowIndex, curPos := 0, 0;
    }

    method Increment() returns (hasRow: bool)
      requires Valid()
      modifies this
      ensures Valid() && curPos == old(curPos) + 1
      ensures hasRow == Pager.HasData(View())
    {
      if curPos > 0 {
        rowIndex := rowIndex + 1;
      }
      curPos := curPos + 1;
      hasRow := curPos <= |rowVec|;
    }
  }
}
