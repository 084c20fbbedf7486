/**
 What a column query lists: the tables of a table query are described one after the other. Again the two
 modes mirror each other.
 */
module ColumnQueries {
  import opened Options
  import opened Pager
  import opened AppBuffers
  import opened ConfigText
  import opened CatalogLists
  import opened TableQueries

  datatype ColumnMeta = ColumnMeta(
    catalogName: Option<string>, schemaName: Option<string>, tableName: string, columnName: string, position: int)

  /** A database and one of its tables. */
  type TableName = (string, string)

  /** The result, the columns collected, and the tables that were described. */
  datatype Described = Described(res: SqlResult, columns: seq<ColumnMeta>, tables: seq<TableName>)

  function Describe(database: string, table: string): string {
    "describe \"" + database + "\".\"" + table + "\""
  }

  ghost function ColumnNames(server: Server, database: string, table: string): Listing {
    ListingOf(server(Describe(database, table)))
  }

  /** A column name passes through a buffer of 2048 bytes of wide characters. */
  const WIDE_ROOM: nat := 1023

  function Narrow(name: string): string {
    if |name| <= WIDE_ROOM then name else name[..WIDE_ROOM]
  }

  predicate Wanted(column: string, name: string) {
    column == "%" || column == name
  }

  function ColumnEntry(asSchema: bool, t: TableName, name: string, position: int): ColumnMeta {
    ColumnMeta(if asSchema then None else Some(t.0), if asSchema then Some(t.0) else None, t.1, name, position)
  }

  /** The wanted columns of a table, numbered from `from` on. */
  function ColumnEntries(asSchema: bool, t: TableName, names: seq<string>, column: string, from: int): (r: seq<ColumnMeta>)
    ensures forall k | 0 <= k < |r| :: r[k].position == from + k && Wanted(column, r[k].columnName)
    decreases names
  {
    if names == [] then []
    else if Wanted(column, Narrow(names[0])) then
      [ColumnEntry(asSchema, t, Narrow(names[0]), from)] + ColumnEntries(asSchema, t, names[1..], column, from + 1)
    else ColumnEntries(asSchema, t, names[1..], column, from)
  }

  /** How many of the first `n` columns are wanted. */
  function WantedBefore(names: seq<string>, column: string, n: nat): nat
    requires n <= |names|
  {
    if n == 0 then 0 else WantedBefore(names, column, n - 1) + if Wanted(column, Narrow(names[n - 1])) then 1 else 0
  }

  lemma {:induction false} WantedRest(names: seq<string>, column: string, n: nat)
    requires 0 < n <= |names|
    ensures WantedBefore(names, column, n) ==
      (if Wanted(column, Narrow(names[0])) then 1 else 0) + WantedBefore(names[1..], column, n - 1)
    decreases n
  {
    hide Wanted;
    if n > 1 { WantedRest(names, column, n - 1); }
  }

  lemma {:induction false} NumberOfEntries(asSchema: bool, t: TableName, names: seq<string>, column: string, from: int)
    ensures |ColumnEntries(asSchema, t, names, column, from)| == WantedBefore(names, column, |names|)
    decreases names
  {
    hide Wanted;
    if names != [] {
      WantedRest(names, column, |names|);
      NumberOfEntries(asSchema, t, names[1..], column, from + 1);
      NumberOfEntries(asSchema, t, names[1..], column, from);
    }
  }

  lemma {:induction false} EntryAtPlace(asSchema: bool, t: TableName, names: seq<string>, column: string, from: int, j: nat)
    requires j < |names| && Wanted(column, Narrow(names[j]))
    ensures var r, at := ColumnEntries(asSchema, t, names, column, from), WantedBefore(names, column, j);
      at < |r| && r[at] == ColumnEntry(asSchema, t, Narrow(names[j]), from + at)
    decreases names
  {
    hide Wanted, Narrow, ColumnEntry;
    if j > 0 {
      WantedRest(names, column, j);
      EntryAtPlace(asSchema, t, names[1..], column, if Wanted(column, Narrow(names[0])) then from + 1 else from, j - 1);
    }
  }

  /** An entry that reports a column of a table of a database, as a schema or as a catalog. */
  predicate NamesColumn(m: ColumnMeta, asSchema: bool, t: TableName, name: string) {
    && m.tableName == t.1 && m.columnName == name
    && m.schemaName == (if asSchema then Some(t.0) else None)
    && m.catalogName == if asSchema then None else Some(t.0)
  }

  /**
   Every column that is asked for, each one by "%" and else the one with that name, is listed in table order, at
   the place that counts the wanted columns before it, and numbered by that place.
   */
  lemma ColumnIsListed(asSchema: bool, t: TableName, names: seq<string>, column: string, from: int, j: nat)
    requires j < |names| && (column == "%" || column == Narrow(names[j]))
    ensures var r, at := ColumnEntries(asSchema, t, names, column, from), WantedBefore(names, column, j);
      at < |r| && NamesColumn(r[at], asSchema, t, Narrow(names[j])) && r[at].position == from + at
  {
    hide Narrow, ColumnEntries, WantedBefore;
    EntryAtPlace(asSchema, t, names, column, from, j);
  }

  /** And every entry is such a column. */
  lemma EveryEntryIsAColumn(
      asSchema: bool, t: TableName, names: seq<string>, column: string, from: int, at: nat) returns (j: nat)
    requires at < |ColumnEntries(asSchema, t, names, column, from)|
    ensures j < |names| && (column == "%" || column == Narrow(names[j])) && at == WantedBefore(names, column, j)
    ensures NamesColumn(ColumnEntries(asSchema, t, names, column, from)[at], asSchema, t, Narrow(names[j]))
  {
    hide Narrow, ColumnEntries, WantedBefore, NamesColumn;
    NumberOfEntries(asSchema, t, names, column, from);
    j := PlaceOfEntry(names, column, |names|, at);
    ColumnIsListed(asSchema, t, names, column, from, j);
  }

  lemma {:induction false} PlaceOfEntry(names: seq<string>, column: string, n: nat, at: nat) returns (j: nat)
    requires n <= |names| && at < WantedBefore(names, column, n)
    ensures j < n && Wanted(column, Narrow(names[j])) && WantedBefore(names, column, j) == at
    decreases n
  {
    hide Wanted, Narrow;
    if WantedBefore(names, column, n - 1) == at { j := n - 1; } else { j := PlaceOfEntry(names, column, n - 1, at); }
  }

  /** The statement text: what stands between the quotes is the database and the table. */
  lemma DescribeStatement(database: string, table: string)
    requires '"' !in database && '"' !in table
    ensures Split(Describe(database, table), '"') == ["describe ", database, ".", table, ""]
  {
    hide Split, SplitFrom;
    var last := "." + ['"'] + (table + ['"'] + "");
    Between(".", table, "", '"');
    SplitFirst(database, '"', last);
    SplitFirst("describe ", '"', database + ['"'] + last);
    assert Describe(database, table) == "describe " + ['"'] + (database + ['"'] + last);
  }

  /** What the buffer of 2048 bytes of wide characters keeps of a name. */
  lemma NarrowIsKept(b: AppBuffer, name: string)
    requires b.kind.WideText? && b.buflen == 2048 && NUL !in name
    ensures Narrow(name) == name[..Kept(b, name)]
  {
    CStrIs(name, |name|);
    assert name[..|name|] == name;
  }

  /** The table described for an entry of the table list is the one the entry reports. */
  lemma EntryIsDescribed(asSchema: bool, m: TableMeta, database: string, table: string)
    requires NamesTable(m, asSchema, database, table)
    ensures NameOfEntry(asSchema, m) == (database, table)
  {
  }

  /** The walk of a search pattern query gets every matched table of every matched database, in server order. */
  lemma EveryTableIsDescribed(
      server: Server, asSchema: bool, databases: seq<string>, pattern: string, i: nat, j: nat)
    requires TablesOf(server, asSchema, databases, pattern).Some?
    requires i < |databases| && j < |ListNames(Tables(server, databases[i], pattern))|
    ensures var list, at := TablesOf(server, asSchema, databases, pattern).value, Before(server, databases, pattern, i) + j;
      && at < |NamesOfList(asSchema, list)|
      && NamesOfList(asSchema, list)[at] == (databases[i], ListNames(Tables(server, databases[i], pattern))[j])
  {
    hide Tables, TablesOf, Before, NamesTable, NameOfEntry;
    ListsEveryTable(server, asSchema, databases, pattern, i, j);
    var list, at := TablesOf(server, asSchema, databases, pattern).value, Before(server, databases, pattern, i) + j;
    EntryIsDescribed(asSchema, list[at], databases[i], ListNames(Tables(server, databases[i], pattern))[j]);
  }

  lemma {:induction false} AllWantedBefore(names: seq<string>, column: string, n: nat)
    requires n <= |names|
    ensures WantedBefore(names, column, n) <= n
    ensures WantedBefore(names, column, n) == n <==> forall i | 0 <= i < n :: Wanted(column, Narrow(names[i]))
    decreases n
  {
    hide Wanted;
    if n > 0 { AllWantedBefore(names, column, n - 1); }
  }

  /** The columns of a table stand at the positions they have in it. */
  predicate TruePositions(asSchema: bool, t: TableName, names: seq<string>, column: string) {
    forall j | 0 <= j < |names| && Wanted(column, Narrow(names[j])) ::
      var r := ColumnEntries(asSchema, t, names, column, 1);
      j < |r| && r[j] == ColumnEntry(asSchema, t, Narrow(names[j]), j + 1)
  }

  /** No wanted column comes after one that is not. */
  predicate WantedFirst(names: seq<string>, column: string) {
    forall i, j | 0 <= i < j < |names| && Wanted(column, Narrow(names[j])) :: Wanted(column, Narrow(names[i]))
  }

  /** A column gets the ordinal position it has in the table exactly when every column before it is wanted too. */
  lemma OrdinalIff(asSchema: bool, t: TableName, names: seq<string>, column: string, j: nat)
    requires j < |names| && Wanted(column, Narrow(names[j]))
    ensures var r, at := ColumnEntries(asSchema, t, names, column, 1), WantedBefore(names, column, j);
      && at < |r| && r[at].columnName == Narrow(names[j])
      && (r[at].position == j + 1 <==> forall i | 0 <= i < j :: Wanted(column, Narrow(names[i])))
  {
    hide Wanted, ColumnEntries, WantedBefore;
    EntryAtPlace(asSchema, t, names, column, 1, j);
    AllWantedBefore(names, column, j);
  }

  /** The last wanted column of the first `n`: all entries are counted with it. */
  lemma {:induction false} LastWanted(names: seq<string>, column: string, j: nat, n: nat) returns (last: nat)
    requires j < n <= |names| && Wanted(column, Narrow(names[j]))
    ensures j <= last < n && Wanted(column, Narrow(names[last]))
    ensures WantedBefore(names, column, n) == WantedBefore(names, column, last) + 1
    decreases n
  {
    hide Wanted, Narrow;
    if Wanted(column, Narrow(names[n - 1])) { last := n - 1; } else { last := LastWanted(names, column, j, n - 1); }
  }

  /** All columns of a table get their positions exactly when the wanted ones come first. */
  lemma AllOrdinalsIff(asSchema: bool, t: TableName, names: seq<string>, column: string)
    ensures TruePositions(asSchema, t, names, column) <==> WantedFirst(names, column)
  {
    hide Wanted, Narrow, ColumnEntries, WantedBefore;
    if WantedFirst(names, column) {
      forall j | 0 <= j < |names| && Wanted(column, Narrow(names[j]))
        ensures var r := ColumnEntries(asSchema, t, names, column, 1);
          j < |r| && r[j] == ColumnEntry(asSchema, t, Narrow(names[j]), j + 1)
      {
        EntryAtPlace(asSchema, t, names, column, 1, j);
        AllWantedBefore(names, column, j);
      }
    }
    if TruePositions(asSchema, t, names, column) {
      forall i, j | 0 <= i < j < |names| && Wanted(column, Narrow(names[j])) ensures Wanted(column, Narrow(names[i])) {
        var last := LastWanted(names, column, j, |names|);
        NumberOfEntries(asSchema, t, names, column, 1);
        AllWantedBefore(names, column, last);
      }
    }
  }

  /** Asked for alone, the second column of a table is reported as the first. */
  lemma SecondColumnIsFirst(asSchema: bool, t: TableName)
    ensures ColumnEntries(asSchema, t, ["a", "b"], "b", 1) == [ColumnEntry(asSchema, t, "b", 1)]
    ensures !TruePositions(asSchema, t, ["a", "b"], "b")
  {
    assert ["a", "b"][1..] == ["b"] && ["b"][1..] == [];
    assert "a"[0] != "b"[0];
    AllOrdinalsIff(asSchema, t, ["a", "b"], "b");
    assert !WantedFirst(["a", "b"], "b") by {
      assert Wanted("b", Narrow(["a", "b"][1])) && !Wanted("b", Narrow(["a", "b"][0]));
    }
  }

  /** `MakeRequestGetColumnsMetaPerTable`: adds the columns of one table. */
  ghost function PerTable(server: Server, asSchema: bool, t: TableName, column: string, before: seq<ColumnMeta>): Described {
    var names := ColumnNames(server, t.0, t.1);
    if !names.Listed? then Described(NoData, before, [t])
    else
      var columns := before + ColumnEntries(asSchema, t, names.names, column, 1);
      Described(if columns == [] then SuccessWithInfo else Success, columns, [t])
  }

  /** The tables in turn; a table that cannot be described ends the walk. */
  ghost function Walk(
      server: Server, asSchema: bool, tables: seq<TableName>, column: string, before: seq<ColumnMeta>, last: SqlResult): Described
    decreases tables
  {
    if tables == [] then Described(last, before, [])
    else
      var first := PerTable(server, asSchema, tables[0], column, before);
      if first.res != Success && first.res != SuccessWithInfo then first
      else
        var others := Walk(server, asSchema, tables[1..], column, first.columns, first.res);
        others.(tables := [tables[0]] + others.tables)
  }

  /** The database and table of an entry of the table list. */
  function NameOfEntry(asSchema: bool, m: TableMeta): TableName {
    (GetOr(if asSchema then m.schemaName else m.catalogName, ""), GetOr(m.tableName, ""))
  }

  function NamesOfList(asSchema: bool, list: seq<TableMeta>): (r: seq<TableName>)
    ensures |r| == |list| && forall i | 0 <= i < |list| :: r[i] == NameOfEntry(asSchema, list[i])
  {
    if list == [] then [] else [NameOfEntry(asSchema, list[0])] + NamesOfList(asSchema, list[1..])
  }

  /** The argument that names the databases, and the one that has to be absent. */
  function DatabaseArg(q: Request): Option<string> {
    if q.asSchema then q.schema else q.catalog
  }

  function OtherArg(q: Request): Option<string> {
    if q.asSchema then q.catalog else q.schema
  }

  /** `ColumnMetadataQuery::Execute`; the request has no table type. */
  ghost function ColumnList(server: Server, q: Request, column: Option<string>): Described {
    var other, database := OtherArg(q), DatabaseArg(q);
    if other.Some? && other.value != "" && other.value != "%" then Described(SuccessWithInfo, [], [])
    else if q.metadataId && (database.None? || q.table.None? || column.None?) then Described(Error, [], [])
    else if Is(database, "") || Is(q.table, "") then Described(SuccessWithInfo, [], [])
    else if q.metadataId then PerTable(server, q.asSchema, (database.value, q.table.value), column.value, [])
    else
      var tables := TableList(server, q.(tableType := None));
      if tables.res != Success then Described(SuccessWithInfo, [], [])
      else Walk(server, q.asSchema, NamesOfList(q.asSchema, tables.list), GetOr(column, "%"), [], Success)
  }

  // ---- The walk visits the tables in order, all of them unless one cannot be described. ----

  lemma {:induction false} WalkVisitsPrefix(
      server: Server, asSchema: bool, tables: seq<TableName>, column: string, before: seq<ColumnMeta>, last: SqlResult)
    requires last == Success || last == SuccessWithInfo
    ensures var r := Walk(server, asSchema, tables, column, before, last);
      && r.tables <= tables
      && (r.tables != tables || r.res == NoData <==> exists t | t in tables :: !ColumnNames(server, t.0, t.1).Listed?)
      && (r.res != NoData ==> forall t | t in tables :: ColumnNames(server, t.0, t.1).Listed?)
    decreases tables
  {
    hide ColumnNames, ColumnEntries;
    if tables != [] {
      var t := tables[0];
      var first := PerTable(server, asSchema, t, column, before);
      if first.res == NoData {
        assert t in tables && !ColumnNames(server, t.0, t.1).Listed?;
      } else {
        WalkVisitsPrefix(server, asSchema, tables[1..], column, first.columns, first.res);
        assert forall u :: u in tables <==> u == t || u in tables[1..];
      }
    }
  }

  // ---- The two modes. ----

  function ExchangeColumn(m: ColumnMeta): ColumnMeta {
    m.(catalogName := m.schemaName, schemaName := m.catalogName)
  }

  function ExchangeColumns(list: seq<ColumnMeta>): (r: seq<ColumnMeta>)
    ensures |r| == |list| && forall i | 0 <= i < |list| :: r[i] == ExchangeColumn(list[i])
  {
    if list == [] then [] else [ExchangeColumn(list[0])] + ExchangeColumns(list[1..])
  }

  predicate ColumnsMirror(a: Described, b: Described) {
    a.res == b.res && a.tables == b.tables && b.columns == ExchangeColumns(a.columns)
  }

  lemma {:induction false} EntriesExchange(asSchema: bool, t: TableName, names: seq<string>, column: string, from: int)
    ensures ColumnEntries(!asSchema, t, names, column, from) == ExchangeColumns(ColumnEntries(asSchema, t, names, column, from))
    decreases names
  {
    if names != [] {
      EntriesExchange(asSchema, t, names[1..], column, from + 1);
      EntriesExchange(asSchema, t, names[1..], column, from);
    }
  }

  lemma ColumnsPlus(s: seq<ColumnMeta>, t: seq<ColumnMeta>)
    ensures ExchangeColumns(s + t) == ExchangeColumns(s) + ExchangeColumns(t)
  {
  }

  lemma PerTableMirrors(server: Server, asSchema: bool, t: TableName, column: string, before: seq<ColumnMeta>)
    ensures ColumnsMirror(PerTable(server, asSchema, t, column, before),
                          PerTable(server, !asSchema, t, column, ExchangeColumns(before)))
  {
    hide ColumnNames, ColumnEntries;
    var names := ColumnNames(server, t.0, t.1);
    if names.Listed? {
      EntriesExchange(asSchema, t, names.names, column, 1);
      ColumnsPlus(before, ColumnEntries(asSchema, t, names.names, column, 1));
    }
  }

  lemma {:induction false} WalkMirrors(
      server: Server, asSchema: bool, tables: seq<TableName>, column: string, before: seq<ColumnMeta>, last: SqlResult)
    ensures ColumnsMirror(Walk(server, asSchema, tables, column, before, last),
                          Walk(server, !asSchema, tables, column, ExchangeColumns(before), last))
    decreases tables
  {
    hide PerTable, ExchangeColumns;
    if tables != [] {
      PerTableMirrors(server, asSchema, tables[0], column, before);
      var first := PerTable(server, asSchema, tables[0], column, before);
      WalkMirrors(server, asSchema, tables[1..], column, first.columns, first.res);
    }
  }

  lemma NamesMirror(asSchema: bool, list: seq<TableMeta>)
    ensures NamesOfList(!asSchema, ExchangeAll(list)) == NamesOfList(asSchema, list)
  {
  }

  /**
   Mode duality of the column query: a request and its mirror image come to the same result and describe the
   same tables in the same order; the columns agree up to the exchange of catalog and schema.
   */
  lemma ColumnModesMirror(server: Server, q: Request, column: Option<string>)
    ensures ColumnsMirror(ColumnList(server, q, column), ColumnList(server, Mirror(q), column))
  {
    hide PerTable, Walk, TableList, NamesOfList;
    assert ExchangeColumns([]) == [];
    var database := DatabaseArg(q);
    if q.metadataId {
      if database.Some? && q.table.Some? && column.Some? {
        PerTableMirrors(server, q.asSchema, (database.value, q.table.value), column.value, []);
      }
    } else {
      var plain := q.(tableType := None);
      ModesMirror(server, plain);
      var tables := TableList(server, plain);
      NamesMirror(q.asSchema, tables.list);
      WalkMirrors(server, q.asSchema, NamesOfList(q.asSchema, tables.list), GetOr(column, "%"), [], Success);
    }
  }
}
