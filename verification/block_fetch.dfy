/**
 What one block fetch does, as functions of the rows still to come: which rows go to which element,
 which status each element gets, and what the application's arrays hold afterwards.
 */
module BlockFetch {
  import opened Options
  import opened Datums
  import opened Pager
  import opened AppBuffers
  import opened Renderer
  import opened Slots
  import opened RowReading

  datatype RowStatus = RowSuccess | RowSuccessWithInfo | RowError | NoRow

  /** `SqlResultToRowResult` */
  function SqlResultToRowResult(value: SqlResult): RowStatus {
    match value
    case NoData => NoRow
    case Success => RowSuccess
    case SuccessWithInfo => RowSuccessWithInfo
    case Error => RowError
  }

  /** Every bound buffer moved to the binding offset, when there is one, and to element `i`. */
  function Shifted(bindings: Bindings, offset: Option<nat>): Bindings {
    map k | k in bindings :: if offset.Some? then bindings[k].(byteOffset := offset.value) else bindings[k]
  }

  function Element(bindings: Bindings, i: nat): Bindings {
    map k | k in bindings :: bindings[k].(elementOffset := i)
  }

  ghost predicate BlockFits(bindings: Bindings, n: nat, size: nat) {
    forall i: nat | i < n :: AllFit(Element(bindings, i), size)
  }

  /** What the fetch for element `i` reports; `failing` is whether the rows end in a failed request. */
  function RowResult(rows: seq<Row>, bindings: Bindings, failing: bool, i: nat): SqlResult {
    if i < |rows| then (if Readable(bindings, rows[i]) then Success else Error)
    else if i == |rows| && failing then Error
    else NoData
  }

  /** How many of the first `n` elements report `r`. */
  function CountOf(rows: seq<Row>, bindings: Bindings, failing: bool, n: nat, r: SqlResult): nat {
    if n == 0 then 0
    else CountOf(rows, bindings, failing, n - 1, r) + if RowResult(rows, bindings, failing, n - 1) == r then 1 else 0
  }

  /** What a block fetch returns. */
  function BlockResult(fetched: nat, errors: nat): SqlResult {
    if fetched > 0 then (if errors == 0 then Success else SuccessWithInfo)
    else if errors == 0 then NoData
    else Error
  }

  /** The rows of a block of `n` and the rows left after it. */
  function Taken(rows: seq<Row>, n: nat): seq<Row> {
    if n <= |rows| then rows[..n] else rows
  }

  function Rest(rows: seq<Row>, n: nat): seq<Row> {
    if n <= |rows| then rows[n..] else []
  }

  /** Memory after the first `n` rows have been read into elements 0 to n - 1. */
  ghost function BlockMemory(m: string, bindings: Bindings, rows: seq<Row>, n: nat): (r: string)
    requires n <= |rows| && BlockFits(bindings, n, |m|)
    ensures |r| == |m|
  {
    if n == 0 then m
    else
      assert BlockFits(bindings, n - 1, |m|);
      ReadRow(BlockMemory(m, bindings, rows, n - 1), Element(bindings, n - 1), rows[n - 1], 1).0
  }

  // ---- One element after the other. ----

  /** The fetch for element `i` sees the rows that are left. */
  lemma NextElement(rows: seq<Row>, bindings: Bindings, failing: bool, i: nat)
    ensures Rest(Rest(rows, i), 1) == Rest(rows, i + 1)
    ensures RowResult(Rest(rows, i), Element(bindings, i), failing && i <= |rows|, 0) == RowResult(rows, bindings, failing, i)
    ensures !RowResult(rows, bindings, failing, i).SuccessWithInfo?
    ensures Rest(rows, i) != [] <==> i < |rows|
  {
    if i < |rows| {
      assert Readable(Element(bindings, i), rows[i]) == Readable(bindings, rows[i]) by {
        assert forall k :: k in Element(bindings, i) <==> k in bindings;
      }
    }
  }

  /** Memory after the first `n` elements of a block, however many rows there are. */
  ghost function MemoryAfter(m: string, bindings: Bindings, rows: seq<Row>, n: nat): string
    requires BlockFits(bindings, n, |m|)
  {
    var k := Min(n, |rows|);
    assert BlockFits(bindings, k, |m|);
    BlockMemory(m, bindings, rows, k)
  }

  lemma NextMemory(m: string, bindings: Bindings, rows: seq<Row>, i: nat, n: nat)
    requires BlockFits(bindings, n, |m|) && i < n
    ensures BlockFits(bindings, i, |m|) && BlockFits(bindings, i + 1, |m|)
    ensures |MemoryAfter(m, bindings, rows, i)| == |m| && AllFit(Element(bindings, i), |m|)
    ensures MemoryAfter(m, bindings, rows, i + 1) ==
      if Rest(rows, i) == [] then MemoryAfter(m, bindings, rows, i)
      else ReadRow(MemoryAfter(m, bindings, rows, i), Element(bindings, i), Rest(rows, i)[0], 1).0
  {
    hide AllFit, ReadRow;
  }

  // ---- The application's arrays after a block. ----

  lemma ElementOfLayout(bindings: Bindings, offset: nat, n: nat, size: nat, i: nat)
    requires Layout(bindings, offset, n, size) && i < n
    ensures AllFit(Element(Shifted(bindings, Some(offset)), i), size)
    ensures SlotsApart(Element(Shifted(bindings, Some(offset)), i))
  {
    hide ArraysFit, Apart, Fits, InSlot, InDataArray, InLenArray, ElementSize;
    var at := Element(Shifted(bindings, Some(offset)), i);
    forall k | k in bindings ensures Fits(at[k], size) && Apart(at[k]) {
      SlotInArrays(bindings[k], offset, n, size, i);
    }
    forall k, l, p | k in bindings && l in bindings && k != l
      ensures !(InSlot(at[k], p) && InSlot(at[l], p))
    {
      SlotWithin(bindings[k], offset, n, size, i, p);
      SlotWithin(bindings[l], offset, n, size, i, p);
    }
  }

  lemma SlotWithin(b: AppBuffer, offset: nat, n: nat, size: nat, i: nat, p: int)
    requires ArraysFit(b, offset, n, size) && i < n
    ensures InSlot(At(b, offset, i), p) ==> InArrays(b, offset, n, p)
  {
    hide ArraysFit, InDataArray, InLenArray, InData, InLen;
    SlotInArrays(b, offset, n, size, i);
  }

  lemma LayoutFits(bindings: Bindings, offset: nat, n: nat, size: nat)
    requires Layout(bindings, offset, n, size)
    ensures BlockFits(Shifted(bindings, Some(offset)), n, size)
  {
    hide Layout, AllFit;
    forall i: nat | i < n ensures AllFit(Element(Shifted(bindings, Some(offset)), i), size) {
      ElementOfLayout(bindings, offset, n, size, i);
    }
  }

  /** Reading a row into one element leaves the slots of the other elements alone. */
  lemma OtherElements(bindings: Bindings, offset: nat, n: nat, size: nat, i: nat, j: nat, k: nat, p: int)
    requires Layout(bindings, offset, n, size) && i < n && j < n && i != j && k in bindings
    requires InSlot(At(bindings[k], offset, i), p)
    ensures forall l | l in bindings :: !InSlot(At(bindings[l], offset, j), p)
  {
    hide ArraysFit, InSlot, InArrays;
    forall l | l in bindings ensures !InSlot(At(bindings[l], offset, j), p) {
      if l == k {
        ElementsApart(bindings[k], offset, n, size, i, j, p);
      } else {
        SlotWithin(bindings[k], offset, n, size, i, p);
        SlotWithin(bindings[l], offset, n, size, j, p);
      }
    }
  }

  /**
   After a block fetch the slot of element `j` holds row `j`, whatever was read into the other elements and
   however many rows there were.
   */
  lemma BlockHeld(m: string, bindings: Bindings, offset: nat, rows: seq<Row>, n: nat, j: nat, k: nat)
    requires Layout(bindings, offset, n, |m|) && j < n && j < |rows|
    requires k in bindings && 1 <= k <= |rows[j]| && Readable(bindings, rows[j])
    ensures BlockFits(Shifted(bindings, Some(offset)), n, |m|)
    ensures HoldsCell(MemoryAfter(m, Shifted(bindings, Some(offset)), rows, n), At(bindings[k], offset, j), rows[j][k - 1])
  {
    hide HoldsCell, Layout, AllFit, Readable;
    LayoutFits(bindings, offset, n, |m|);
    HeldSince(m, bindings, offset, rows, n, Min(n, |rows|), j, k);
  }

  /** Without a binding offset, and with buffers that have none of their own, the offset is 0. */
  lemma NoOffset(bindings: Bindings)
    requires forall k | k in bindings :: bindings[k].byteOffset == 0
    ensures Shifted(bindings, None) == Shifted(bindings, Some(0)) == bindings
  {
  }

  lemma {:induction false} HeldSince(
      m: string, bindings: Bindings, offset: nat, rows: seq<Row>, n: nat, i: nat, j: nat, k: nat)
    requires Layout(bindings, offset, n, |m|) && j < i <= n && i <= |rows|
    requires BlockFits(Shifted(bindings, Some(offset)), n, |m|)
    requires k in bindings && 1 <= k <= |rows[j]| && Readable(bindings, rows[j])
    ensures BlockFits(Shifted(bindings, Some(offset)), i, |m|)
    ensures HoldsCell(BlockMemory(m, Shifted(bindings, Some(offset)), rows, i), At(bindings[k], offset, j), rows[j][k - 1])
    decreases i
  {
    hide Layout, HoldsCell, InSlot, ReadRow, SlotsApart, AllFit;
    var shifted := Shifted(bindings, Some(offset));
    assert BlockFits(shifted, i - 1, |m|);
    var before := BlockMemory(m, shifted, rows, i - 1);
    var here := Element(shifted, i - 1);
    assert AllFit(here, |m|);
    ElementOfLayout(bindings, offset, n, |m|, i - 1);
    var after := ReadRow(before, here, rows[i - 1], 1).0;
    assert here[k] == At(bindings[k], offset, i - 1);
    if j == i - 1 {
      ReadableIff(before, here, rows[j], 1);
      RowHeld(before, here, rows[j], 1, k);
    } else {
      HeldSince(m, bindings, offset, rows, n, i - 1, j, k);
      forall p | 0 <= p < |m| && InSlot(At(bindings[k], offset, j), p) ensures before[p] == after[p] {
        OtherElements(bindings, offset, n, |m|, j, i - 1, k, p);
        forall l | l in here ensures !InSlot(here[l], p) {
          assert here[l] == At(bindings[l], offset, i - 1);
        }
        RowFrame(before, here, rows[i - 1], 1, p);
      }
      HoldsFrame(before, after, At(bindings[k], offset, j), rows[j][k - 1]);
    }
  }

  // ---- Block after block. ----

  /** The rows left after `k` blocks of `n`. */
  function AfterBlocks(rows: seq<Row>, n: nat, k: nat): seq<Row> {
    if k == 0 then rows else Rest(AfterBlocks(rows, n, k - 1), n)
  }

  lemma {:induction false} BlocksRest(rows: seq<Row>, n: nat, k: nat)
    ensures AfterBlocks(rows, n, k) == Rest(rows, n * k)
    decreases k
  {
    if k > 0 {
      BlocksRest(rows, n, k - 1);
      Distribute(n, k - 1, 1);
    }
  }

  // ---- What a block reports. ----

  /** The elements of a block of `n` that get a row that can be read, and those that get an error. */
  ghost function Good(rows: seq<Row>, bindings: Bindings, n: nat): set<nat> {
    set i: nat | i < n && i < |rows| && Readable(bindings, rows[i])
  }

  ghost function Bad(rows: seq<Row>, bindings: Bindings, failing: bool, n: nat): set<nat> {
    set i: nat | i < n && ((i < |rows| && !Readable(bindings, rows[i])) || (i == |rows| && failing))
  }

  /** What element `i` of a block reports. */
  ghost predicate Marks(status: RowStatus, rows: seq<Row>, bindings: Bindings, failing: bool, i: nat) {
    && (status.RowSuccess? <==> i < |rows| && Readable(bindings, rows[i]))
    && (status.RowError? <==> (i < |rows| && !Readable(bindings, rows[i])) || (i == |rows| && failing))
    && (status.NoRow? <==> i > |rows| || (i == |rows| && !failing))
  }

  /** What the block as a whole reports: by whether it has rows, and by whether it has errors. */
  ghost predicate Reports(res: SqlResult, good: set<nat>, bad: set<nat>) {
    && (res.Success? <==> good != {} && bad == {})
    && (res.SuccessWithInfo? <==> good != {} && bad != {})
    && (res.Error? <==> good == {} && bad != {})
    && (res.NoData? <==> good == {} && bad == {})
  }

  lemma MarksElement(rows: seq<Row>, bindings: Bindings, failing: bool, i: nat)
    ensures Marks(SqlResultToRowResult(RowResult(rows, bindings, failing, i)), rows, bindings, failing, i)
  {
    hide Readable;
  }

  lemma GoodMore(rows: seq<Row>, bindings: Bindings, failing: bool, n: nat)
    ensures Good(rows, bindings, 0) == {} && n !in Good(rows, bindings, n)
    ensures Good(rows, bindings, n + 1) ==
      if RowResult(rows, bindings, failing, n) == Success then Good(rows, bindings, n) + {n} else Good(rows, bindings, n)
  {
    hide Readable;
  }

  lemma BadMore(rows: seq<Row>, bindings: Bindings, failing: bool, n: nat)
    ensures Bad(rows, bindings, failing, 0) == {} && n !in Bad(rows, bindings, failing, n)
    ensures Bad(rows, bindings, failing, n + 1) ==
      if RowResult(rows, bindings, failing, n) == Error then Bad(rows, bindings, failing, n) + {n}
      else Bad(rows, bindings, failing, n)
  {
    hide Readable;
  }

  lemma {:induction false} Counts(rows: seq<Row>, bindings: Bindings, failing: bool, n: nat)
    ensures CountOf(rows, bindings, failing, n, Success) == |Good(rows, bindings, n)|
    ensures CountOf(rows, bindings, failing, n, Error) == |Bad(rows, bindings, failing, n)|
    decreases n
  {
    hide Good, Bad, RowResult;
    if n == 0 {
      GoodMore(rows, bindings, failing, 0);
      BadMore(rows, bindings, failing, 0);
    } else {
      Counts(rows, bindings, failing, n - 1);
      GoodMore(rows, bindings, failing, n - 1);
      BadMore(rows, bindings, failing, n - 1);
    }
  }

  /** The counters of a block are the numbers of its good and bad elements, and its result follows from them. */
  lemma BlockReports(rows: seq<Row>, bindings: Bindings, failing: bool, n: nat)
    ensures var fetched, errors :=
      CountOf(rows, bindings, failing, n, Success), CountOf(rows, bindings, failing, n, Error);
      && fetched == |Good(rows, bindings, n)| && errors == |Bad(rows, bindings, failing, n)|
      && Reports(BlockResult(fetched, errors), Good(rows, bindings, n), Bad(rows, bindings, failing, n))
  {
    hide Good, Bad, CountOf;
    Counts(rows, bindings, failing, n);
  }

  lemma {:induction false} FirstOnes(s: set<nat>, k: nat)
    requires forall i: nat :: i in s <==> i < k
    ensures |s| == k
    decreases k
  {
    if k == 0 {
      assert s == {};
    } else {
      FirstOnes(s - {k - 1}, k - 1);
    }
  }

  lemma AllGood(rows: seq<Row>, bindings: Bindings, n: nat)
    requires forall i | 0 <= i < |rows| :: Readable(bindings, rows[i])
    ensures |Good(rows, bindings, n)| == |Taken(rows, n)| && Bad(rows, bindings, false, n) == {}
    ensures forall i: nat :: i in Good(rows, bindings, n) <==> i < |Taken(rows, n)|
  {
    hide Readable;
    FirstOnes(Good(rows, bindings, n), |Taken(rows, n)|);
  }

  /**
   Chunking: of a result of readable rows that ends without failure, the k-th block of `n` delivers exactly
   the rows from n (k - 1) up to n k. Its first elements are good, as many as there are rows, none is bad, and it
   is empty exactly when there is no row left; and so for every later block.
   */
  lemma Chunking(rows: seq<Row>, bindings: Bindings, n: nat, k: nat)
    requires n >= 1 && k >= 1
    requires forall row | row in rows :: Readable(bindings, row)
    ensures var left := AfterBlocks(rows, n, k - 1);
      && Taken(left, n) == Rest(Taken(rows, n * k), n * (k - 1))
      && |Good(left, bindings, n)| == |Taken(left, n)|
      && (forall i: nat :: i in Good(left, bindings, n) <==> i < |Taken(left, n)|)
      && Bad(left, bindings, false, n) == {}
      && (Good(left, bindings, n) == {} <==> n * (k - 1) >= |rows|)
  {
    hide Readable, Good, Bad;
    var left := AfterBlocks(rows, n, k - 1);
    BlocksRest(rows, n, k - 1);
    Distribute(n, k - 1, 1);
    forall i | 0 <= i < |left| ensures Readable(bindings, left[i]) {
      assert left[i] in rows;
    }
    AllGood(left, bindings, n);
    assert left != [] ==> 0 in Good(left, bindings, n);
  }
}
