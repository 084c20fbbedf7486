/**
 `getMatchedDatabases` and `getMatchedTables`: a list of names is fetched through a `DataQuery` of its own,
 row by row into a character buffer.
 */
module CatalogLists {
  import opened Options
  import opened Datums
  import opened ServerChain
  import opened Pager
  import opened PagerInvariant
  import opened AppBuffers
  import opened Renderer
  import opened Slots
  import opened RowReading
  import opened DataQueries

  const STRING_BUFFER_SIZE: nat := 2048

  /** What the buffer keeps of a name. */
  function Clip(text: string): (r: string)
    ensures |r| < STRING_BUFFER_SIZE && NUL !in r
  {
    var t := CStr(text);
    if |t| < STRING_BUFFER_SIZE then t else t[..STRING_BUFFER_SIZE - 1]
  }

  /** A row whose first column has no value kind ends the fetch loop. */
  predicate Unreadable(row: Row) {
    row != [] && row[0].Unset?
  }

  /** The name in the buffer after a row: a row that puts nothing leaves the one before. */
  function NameAfter(stale: string, row: Row): string {
    if row == [] || (row[0].RowOf? && !row[0].isSet) then stale else Clip(Text(row[0]))
  }

  /** The names the fetch loop collects. */
  function Names(rows: seq<Row>, stale: string): (names: seq<string>)
    ensures |names| <= |rows|
  {
    if rows == [] || Unreadable(rows[0]) then []
    else [NameAfter(stale, rows[0])] + Names(rows[1..], NameAfter(stale, rows[0]))
  }

  /** Every row gives a name exactly when every row is readable. */
  lemma {:induction false} AllNamesIff(rows: seq<Row>, stale: string)
    ensures |Names(rows, stale)| == |rows| <==> forall row | row in rows :: !Unreadable(row)
    decreases rows
  {
    hide NameAfter, Unreadable;
    if rows != [] {
      AllNamesIff(rows[1..], NameAfter(stale, rows[0]));
      assert forall row :: row in rows <==> row == rows[0] || row in rows[1..];
    }
  }

  /** The names of text rows are their texts, clipped. */
  lemma {:induction false} TextNames(rows: seq<Row>, stale: string, i: nat)
    requires i < |rows| && forall j | 0 <= j < |rows| :: rows[j] != [] && rows[j][0].Scalar?
    ensures |Names(rows, stale)| == |rows|
    ensures var text := CStr(rows[i][0].text);
      Names(rows, stale)[i] == if |text| < 2048 then text else text[..2047]
    decreases rows
  {
    hide CStr;
    assert rows[0] != [] && rows[0][0].Scalar?;
    if |rows| > 1 { TextNames(rows[1..], NameAfter(stale, rows[0]), if i > 0 then i - 1 else 0); }
  }

  /** What a SHOW statement comes to. */
  datatype Listing = Listed(names: seq<string>) | NothingFound | ListFailed

  /** The list behind a page chain. Whatever ends the fetch loop ends the list, and is not reported. */
  ghost function ListingOf(chain: seq<Outcome>): Listing {
    if Flat(chain) == [] then (if TailEnd(chain, FirstPage(chain, 0)).Failed? then ListFailed else NothingFound)
    else Listed(Names(Flat(chain), ""))
  }

  /** The server's answer is complete: every page answered, every row in reach, every name readable. */
  ghost predicate Complete(chain: seq<Outcome>) {
    && |chain| > 0 && chain[|chain| - 1].Page?
    && !Gap(chain, FirstPage(chain, 0))
    && forall row | row in RowsBefore(chain, |chain|) :: !Unreadable(row)
  }

  /**
   A list that is reported as a success has one name for every row of the server, and hides no failure, exactly
   when the answer is complete. A failed page, rows behind an empty page and an unreadable row cut it short.
   */
  lemma WholeListIff(chain: seq<Outcome>)
    requires IsChain(chain) && ListingOf(chain).Listed?
    ensures |ListNames(ListingOf(chain))| == |RowsBefore(chain, |chain|)| && chain[|chain| - 1].Page? <==> Complete(chain)
  {
    hide Flat, Gap, FirstPage, RowsBefore, TailEnd;
    EverythingIff(chain);
    AllNamesIff(Flat(chain), "");
    var all := RowsBefore(chain, |chain|);
    if |Names(Flat(chain), "")| == |all| { assert Flat(chain) == all; }
  }

  /** A page fails behind the first: the list is cut short and reported as a success. */
  lemma FailureIsSilent(text: string)
    ensures var c := [Page([[Scalar(text)]], Some(1)), Failure];
      IsChain(c) && ListResult(ListingOf(c)) == Success && !Complete(c)
  {
    var c := [Page([[Scalar(text)]], Some(1)), Failure];
    assert Tail(c, 1) == [] && Tail(c, 0) == [[Scalar(text)]];
    assert FirstPage(c, 0) == 0;
  }

  /** So are the rows behind an empty page. */
  lemma GapIsSilent(row: Row)
    requires !Unreadable(row)
    ensures var c := [Page([row], Some(1)), Page([], Some(2)), Page([row], None)];
      ListResult(ListingOf(c)) == Success && !Complete(c) && |ListNames(ListingOf(c))| == 1
  {
    hide RowsBefore, Tail, Flat;
    var c := [Page([row], Some(1)), Page([], Some(2)), Page([row], None)];
    RowsBehindEmptyPage(row);
    EverythingIff(c);
    assert [row][1..] == [] && |Names([row], "")| == 1;
  }

  /** A list can be reported as a success and be empty: when the first row is unreadable. */
  lemma EmptyListIff(chain: seq<Outcome>)
    ensures ListingOf(chain) == Listed([]) <==> Flat(chain) != [] && Unreadable(Flat(chain)[0])
  {
    hide Flat;
  }

  function ListResult(l: Listing): SqlResult {
    match l
    case Listed(_) => Success
    case NothingFound => SuccessWithInfo
    case ListFailed => Error
  }

  function ListNames(l: Listing): seq<string> {
    if l.Listed? then l.names else []
  }

  /** The buffer of the only bound column, at some stack address. */
  predicate IsNameBuffer(b: AppBuffer, base: nat) {
    && b.kind.CharText? && b.data == Some(base) && b.buflen == STRING_BUFFER_SIZE && b.reslen.None?
    && b.byteOffset == b.elementOffset == 0
  }

  lemma {:induction false} NothingBound(m: string, bindings: Bindings, row: Row, i: nat)
    requires AllFit(bindings, |m|) && 1 <= i <= |row| + 1 && forall k | k in bindings :: k < i || k > |row|
    ensures ReadRow(m, bindings, row, i) == (m, true)
    decreases |row| + 1 - i
  {
    if i <= |row| { NothingBound(m, bindings, row, i + 1); }
  }

  lemma BufferAt(b: AppBuffer, base: nat)
    requires IsNameBuffer(b, base)
    ensures DataAt(b) == base && Fits(b, base + STRING_BUFFER_SIZE) && AllFit(map[1 := b], base + STRING_BUFFER_SIZE)
  {
  }

  /** After a row has been read the buffer holds the C string of its name, or still that of the row before. */
  lemma NameIsRead(m: string, b: AppBuffer, base: nat, row: Row)
    requires IsNameBuffer(b, base) && |m| == base + STRING_BUFFER_SIZE
    ensures AllFit(map[1 := b], |m|)
    ensures ReadRow(m, map[1 := b], row, 1).1 <==> !Unreadable(row)
    ensures !Unreadable(row) ==> CStr(ReadRow(m, map[1 := b], row, 1).0[base..]) == NameAfter(CStr(m[base..]), row)
  {
    hide CStr, Poke, Fits, AllFit, DataAt, Text, PutString, Clip;
    BufferAt(b, base);
    if row == [] {
      NothingBound(m, map[1 := b], row, 1);
    } else {
      var text := Text(row[0]);
      TextIsPut(m, b, base, text);
      NullText();
      var cell := ReadCell(m, b, row[0]);
      NothingBound(cell.0, map[1 := b], row, 2);
      CStrIs(Poke(m, base, Clip(text) + [NUL])[base..], |Clip(text)|);
    }
  }

  lemma NullText()
    ensures Text(Null) == "-"
  {
  }

  lemma TextIsPut(m: string, b: AppBuffer, base: nat, text: string)
    requires IsNameBuffer(b, base) && |m| == base + STRING_BUFFER_SIZE && Fits(b, |m|)
    ensures PutString(m, b, text) ==
      (Poke(m, base, Clip(text) + [NUL]), if |CStr(text)| < STRING_BUFFER_SIZE then Done else TextTruncated)
    ensures var after := Poke(m, base, Clip(text) + [NUL])[base..];
      after[..|Clip(text)|] == Clip(text) && after[|Clip(text)|] == NUL
  {
    hide CStr, Fits, DataAt;
    BufferAt(b, base);
    assert TextImage(b, text) == Clip(text) + [NUL];
  }

  /** One fetch, and the name it leaves in the buffer. */
  method FetchName(q: DataQuery, buffer: array<char>, buf: AppBuffer, base: nat, ghost rows: seq<Row>)
    returns (res: SqlResult, name: string)
    requires q.Valid() && q.Live() && q.Left() == rows
    requires IsNameBuffer(buf, base) && buffer.Length == base + STRING_BUFFER_SIZE
    modifies q, q.cursor, buffer
    ensures q.Valid()
    ensures res == Success <==> rows != [] && !Unreadable(rows[0])
    ensures res == Success ==>
      && name == CStr(buffer[..][base..]) == NameAfter(old(CStr(buffer[..][base..])), rows[0])
      && q.Live() && q.Left() == rows[1..]
    ensures var now := q.cursor; now == old(q.cursor) || now == null || fresh(now)
  {
    hide Inv, Flat, TailEnd, Reaches, ReadRow, DataQuery.Live, DataQuery.Left, DataQuery.Running, DataQuery.Failing,
      NameAfter, Unreadable, AllFit, Fits, CStr;
    BufferAt(buf, base);
    if rows != [] { NameIsRead(buffer[..], buf, base, rows[0]); }
    res := q.FetchNextRow(map[1 := buf], buffer);
    name := "";
    if res == Success {
      var n := StrLen(buffer[..][base..]);
      name := buffer[..][base..][..n];
    }
  }

  /** The fetch loop: it ends with the rows or at the first row that cannot be read. */
  method FetchNames(q: DataQuery, ghost rows: seq<Row>) returns (names: seq<string>)
    requires q.Valid() && q.Live() && q.Left() == rows
    modifies q, q.cursor
    ensures names == Names(rows, "")
  {
    hide Inv, Flat, TailEnd, Reaches, DataQuery.Live, DataQuery.Left, DataQuery.Running, Names, NameAfter, Unreadable, CStr;
    var base: nat :| 0 <= base;
    var buffer := new char[base + STRING_BUFFER_SIZE](_ => NUL);
    var buf := AppBuffer(CharText, Some(base), STRING_BUFFER_SIZE, None, 0, 0);
    CStrIs(buffer[..][base..], 0);
    names := [];
    ghost var left, stale := rows, "";
    var res, name := FetchName(q, buffer, buf, base, rows);
    while res == Success
      invariant q.Valid() && (res == Success <==> left != [] && !Unreadable(left[0]))
      invariant names + Names(left, stale) == Names(rows, "")
      invariant res == Success ==>
        && q.Live() && q.Left() == left[1..]
        && name == CStr(buffer[..][base..]) == NameAfter(stale, left[0])
      invariant var now := q.cursor; now == old(q.cursor) || now == null || fresh(now)
      decreases |left|
    {
      FirstName(left, stale);
      assert names + ([name] + Names(left[1..], name)) == (names + [name]) + Names(left[1..], name);
      names := names + [name];
      left, stale := left[1..], name;
      res, name := FetchName(q, buffer, buf, base, left);
    }
    NoNames(left, stale);
  }

  lemma FirstName(rows: seq<Row>, stale: string)
    requires rows != [] && !Unreadable(rows[0])
    ensures Names(rows, stale) == [NameAfter(stale, rows[0])] + Names(rows[1..], NameAfter(stale, rows[0]))
  {
  }

  lemma NoNames(rows: seq<Row>, stale: string)
    requires rows == [] || Unreadable(rows[0])
    ensures Names(rows, stale) == []
  {
  }

  /** `getMatchedDatabases`, `getMatchedTables`: run the statement and fetch its names. */
  method GetMatched(chain: seq<Outcome>) returns (res: SqlResult, names: seq<string>)
    requires IsChain(chain)
    ensures res == ListResult(ListingOf(chain)) && names == ListNames(ListingOf(chain))
  {
    hide Inv, Flat, TailEnd, Reaches, Names;
    names := [];
    var dataQuery := new DataQuery(chain);
    BeforeExecute(dataQuery);
    var result := dataQuery.Execute();
    if result == NoData {
      return SuccessWithInfo, [];
    }
    if result != Success {
      return result, [];
    }
    names := FetchNames(dataQuery, Flat(chain));
    res := Success;
  }

  lemma BeforeExecute(q: DataQuery)
    requires q.Now() == Init
    ensures !q.executed
  {
  }
}
