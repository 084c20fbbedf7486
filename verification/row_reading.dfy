/** Reading one row into the bound columns: the column loop of `DataQuery::FetchNextRow`. */
module RowReading {
  import opened Options
  import opened Datums
  import opened AppBuffers
  import opened Renderer
  import opened Slots

  predicate AllFit(bindings: Bindings, size: nat) {
    forall k | k in bindings :: Fits(bindings[k], size)
  }

  /** Columns `i`, `i + 1`, ... read in order; a failing column stops the loop. */
  function ReadRow(m: string, bindings: Bindings, row: Row, i: nat): (r: (string, bool))
    requires AllFit(bindings, |m|) && 1 <= i <= |row| + 1
    ensures |r.0| == |m|
    decreases |row| + 1 - i
  {
    if i == |row| + 1 then (m, true)
    else if i !in bindings then ReadRow(m, bindings, row, i + 1)
    else
      var cell := ReadCell(m, bindings[i], row[i - 1]);
      if cell.1.Failed? then (cell.0, false) else ReadRow(cell.0, bindings, row, i + 1)
  }

  method ReadColumns(mem: array<char>, bindings: Bindings, row: Row) returns (ok: bool)
    requires AllFit(bindings, mem.Length)
    modifies mem
    ensures (mem[..], ok) == ReadRow(old(mem[..]), bindings, row, 1)
  {
    for i := 1 to |row| + 1
      invariant ReadRow(old(mem[..]), bindings, row, 1) == ReadRow(mem[..], bindings, row, i)
    {
      if i in bindings {
        var res := ParseDatum(row[i - 1], mem, bindings[i]);
        if res.Failed? {
          return false;
        }
      }
    }
    ok := true;
  }

  /** Every bound column of the row has a value kind. */
  predicate Readable(bindings: Bindings, row: Row) {
    forall k | k in bindings && 1 <= k <= |row| :: !row[k - 1].Unset?
  }

  lemma {:induction false} ReadableIff(m: string, bindings: Bindings, row: Row, i: nat)
    requires AllFit(bindings, |m|) && 1 <= i <= |row| + 1
    ensures ReadRow(m, bindings, row, i).1 <==> forall k | k in bindings && i <= k <= |row| :: !row[k - 1].Unset?
    decreases |row| + 1 - i
  {
    hide Text, PutString;
    if i <= |row| {
      if i !in bindings {
        ReadableIff(m, bindings, row, i + 1);
      } else {
        var cell := ReadCell(m, bindings[i], row[i - 1]);
        NeverFails(m, bindings[i], row[i - 1]);
        if !cell.1.Failed? {
          ReadableIff(cell.0, bindings, row, i + 1);
        }
      }
    }
  }

  /** A row is read without error exactly when it is readable, whatever memory holds. */
  lemma ReadsIff(m: string, bindings: Bindings, row: Row)
    requires AllFit(bindings, |m|)
    ensures ReadRow(m, bindings, row, 1).1 <==> Readable(bindings, row)
  {
    ReadableIff(m, bindings, row, 1);
  }

  lemma NeverFails(m: string, b: AppBuffer, d: Datum)
    requires Fits(b, |m|)
    ensures ReadCell(m, b, d).1.Failed? <==> d.Unset?
  {
    hide Text, ReadNumber, CStr, Store;
  }

  ghost predicate SlotsApart(bindings: Bindings) {
    && (forall k | k in bindings :: Apart(bindings[k]))
    && (forall k, l, at | k in bindings && l in bindings && k != l ::
          !(InSlot(bindings[k], at) && InSlot(bindings[l], at)))
  }

  /** Nothing outside the slots of the row changes. */
  lemma {:induction false} RowFrame(m: string, bindings: Bindings, row: Row, i: nat, at: nat)
    requires AllFit(bindings, |m|) && 1 <= i <= |row| + 1 && at < |m|
    requires forall k | k in bindings && i <= k :: !InSlot(bindings[k], at)
    ensures ReadRow(m, bindings, row, i).0[at] == m[at]
    decreases |row| + 1 - i
  {
    hide ReadCell, InSlot;
    if i <= |row| {
      if i !in bindings {
        RowFrame(m, bindings, row, i + 1, at);
      } else {
        var cell := ReadCell(m, bindings[i], row[i - 1]);
        PutStaysInSlot(m, bindings[i], row[i - 1], at);
        if !cell.1.Failed? {
          RowFrame(cell.0, bindings, row, i + 1, at);
        }
      }
    }
  }

  /** A row that was read is what its slots hold. */
  lemma {:induction false} RowHeld(m: string, bindings: Bindings, row: Row, i: nat, k: nat)
    requires AllFit(bindings, |m|) && SlotsApart(bindings) && 1 <= i <= k <= |row| && k in bindings
    requires ReadRow(m, bindings, row, i).1
    ensures HoldsCell(ReadRow(m, bindings, row, i).0, bindings[k], row[k - 1])
    decreases |row| + 1 - i
  {
    hide ReadCell, InSlot, HoldsCell, Apart;
    if i !in bindings {
      RowHeld(m, bindings, row, i + 1, k);
    } else {
      var cell := ReadCell(m, bindings[i], row[i - 1]);
      if i < k {
        RowHeld(cell.0, bindings, row, i + 1, k);
      } else {
        PutHolds(m, bindings[k], row[k - 1]);
        var after := ReadRow(cell.0, bindings, row, i + 1).0;
        forall at | 0 <= at < |m| && InSlot(bindings[k], at) ensures cell.0[at] == after[at] {
          RowFrame(cell.0, bindings, row, i + 1, at);
        }
        HoldsFrame(cell.0, after, bindings[k], row[k - 1]);
      }
    }
  }
}
