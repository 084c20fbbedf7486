/** `ColumnMetadataQuery` as an object: it runs a table query and describes the tables it lists. */
module ColumnMetadataQueries {
  import opened Options
  import opened Pager
  import opened CatalogLists
  import opened TableQueries
  import opened TableMetadataQueries
  import opened ColumnQueries

  lemma MoreColumns(asSchema: bool, t: TableName, names: seq<string>, column: string, from: int)
    requires names != []
    ensures ColumnEntries(asSchema, t, names, column, from) ==
      if Wanted(column, Narrow(names[0]))
      then [ColumnEntry(asSchema, t, Narrow(names[0]), from)] + ColumnEntries(asSchema, t, names[1..], column, from + 1)
      else ColumnEntries(asSchema, t, names[1..], column, from)
  {
  }

  lemma NoColumns(asSchema: bool, t: TableName, column: string, from: int)
    ensures ColumnEntries(asSchema, t, [], column, from) == []
  {
  }

  lemma FirstOfList(asSchema: bool, list: seq<TableMeta>)
    requires list != []
    ensures NamesOfList(asSchema, list) == [NameOfEntry(asSchema, list[0])] + NamesOfList(asSchema, list[1..])
  {
  }

  /** One step of the walk over the tables. */
  lemma WalkStep(
      server: Server, asSchema: bool, tables: seq<TableName>, column: string, before: seq<ColumnMeta>, last: SqlResult)
    requires tables != []
    ensures var first := PerTable(server, asSchema, tables[0], column, before);
      var whole := Walk(server, asSchema, tables, column, before, last);
      if first.res != Success && first.res != SuccessWithInfo then whole == first
      else
        var others := Walk(server, asSchema, tables[1..], column, first.columns, first.res);
        whole == others.(tables := [tables[0]] + others.tables)
  {
    hide PerTable;
  }

  class ColumnMetadataQuery {
    const server: Server
    const q: Request
    const tableMetadataQuery: TableMetadataQuery

    /** The column argument; `Execute` fills in the default. */
    var column: Option<string>
    var executed: bool
    var fetched: bool
    var meta: seq<ColumnMeta>
    var cursor: nat
    /** The tables for which a describe statement was run since `Execute` began. */
    ghost var described: seq<TableName>

    ghost predicate Valid()
      reads this, tableMetadataQuery
    {
      && IsServer(server)
      && tableMetadataQuery.Valid()
      && tableMetadataQuery.server == server && tableMetadataQuery.q == q.(tableType := None)
      && (executed ==> cursor <= |meta|)
    }

    constructor (server: Server, q: Request, column: Option<string>)
      requires IsServer(server)
      ensures Valid() && !executed && this.server == server && this.q == q && this.column == column
      ensures fresh(tableMetadataQuery)
    {
      this.server, this.q, this.column := server, q, column;
      tableMetadataQuery := new TableMetadataQuery(server, q.(tableType := None));
      executed, fetched, meta, cursor, described := false, false, [], 0, [];
    }

    /** The loop over the described columns. */
    method AddColumns(t: TableName, names: seq<string>, wanted: string)
      modifies this`meta
      ensures meta == old(meta) + ColumnEntries(q.asSchema, t, names, wanted, 1)
    {
      hide ColumnEntries;
      var prevPosition := 0;
      assert names[0..] == names;
      for i := 0 to |names|
        invariant old(meta) + ColumnEntries(q.asSchema, t, names, wanted, 1)
               == meta + ColumnEntries(q.asSchema, t, names[i..], wanted, prevPosition + 1)
      {
        assert names[i..][1..] == names[i + 1..];
        MoreColumns(q.asSchema, t, names[i..], wanted, prevPosition + 1);
        if Wanted(wanted, Narrow(names[i])) {
          prevPosition := prevPosition + 1;
          meta := meta + [ColumnEntry(q.asSchema, t, Narrow(names[i]), prevPosition)];
        }
      }
      NoColumns(q.asSchema, t, wanted, prevPosition + 1);
    }

    method MakeRequestGetColumnsMetaPerTable(t: TableName, wanted: string) returns (res: SqlResult)
      requires Valid()
      modifies this`meta, this`described
      ensures PerTable(server, q.asSchema, t, wanted, old(meta)) == Described(res, meta, [t])
      ensures described == old(described) + [t]
    {
      hide ColumnEntries;
      described := described + [t];
      var names;
      res, names := GetMatched(server(Describe(t.0, t.1)));
      if res != Success {
        return NoData;
      }
      AddColumns(t, names, wanted);
      res := if meta == [] then SuccessWithInfo else Success;
    }

    /** `GetColumnsWithDatabaseSearchPattern` for patterns: describes the listed tables in turn. */
    method DescribeTables(wanted: string) returns (res: SqlResult)
      requires Valid() && meta == [] && described == []
      requires tableMetadataQuery.executed && !tableMetadataQuery.fetched
      modifies this`meta, this`described, tableMetadataQuery
      ensures Valid()
      ensures Walk(server, q.asSchema, NamesOfList(q.asSchema, old(tableMetadataQuery.meta)), wanted, [], Success)
           == Described(res, meta, described)
    {
      hide PerTable, Walk, NamesOfList, IsServer;
      var list := tableMetadataQuery.meta;
      ghost var whole := Walk(server, q.asSchema, NamesOfList(q.asSchema, list), wanted, [], Success);
      var scratch := new char[0];
      res := Success;
      var fetch := tableMetadataQuery.FetchNextRow(map[], scratch);
      ghost var i := 0;
      assert list[0..] == list;
      while fetch == Success
        invariant Valid() && tableMetadataQuery.executed && tableMetadataQuery.meta == list
        invariant i <= |list| && (fetch == Success <==> i < |list|)
        invariant tableMetadataQuery.Fetches() == i + 1 || list == []
        invariant var rest := Walk(server, q.asSchema, NamesOfList(q.asSchema, list[i..]), wanted, meta, res);
          whole == rest.(tables := described + rest.tables)
        decreases |list| - i
      {
        ghost var before := described;
        var t := NameOfEntry(q.asSchema, list[tableMetadataQuery.cursor]);
        FirstOfList(q.asSchema, list[i..]);
        assert list[i..][1..] == list[i + 1..];
        WalkStep(server, q.asSchema, NamesOfList(q.asSchema, list[i..]), wanted, meta, res);
        res := MakeRequestGetColumnsMetaPerTable(t, wanted);
        if res != Success && res != SuccessWithInfo {
          return;
        }
        Grow(before, t, Walk(server, q.asSchema, NamesOfList(q.asSchema, list[i + 1..]), wanted, meta, res).tables);
        fetch := tableMetadataQuery.FetchNextRow(map[], scratch);
        i := i + 1;
      }
      EndOfWalk(server, q.asSchema, wanted, meta, res);
    }

    /** `MakeRequestGetColumnsMeta` */
    method MakeRequestGetColumnsMeta(database: Option<string>, wanted: string) returns (res: SqlResult)
      requires Valid() && !executed && described == [] && (q.metadataId ==> database.Some? && q.table.Some?)
      modifies this`meta, this`described, tableMetadataQuery
      ensures Valid() && !executed
      ensures q.metadataId ==>
        PerTable(server, q.asSchema, (database.value, q.table.value), wanted, []) == Described(res, meta, described)
      ensures !q.metadataId ==>
        var tables := TableList(server, q.(tableType := None));
        Described(res, meta, described) == (
          if tables.res != Success then Described(SuccessWithInfo, [], [])
          else Walk(server, q.asSchema, NamesOfList(q.asSchema, tables.list), wanted, [], Success))
    {
      hide PerTable, Walk, TableList, NamesOfList, IsServer;
      meta := [];
      if q.metadataId {
        res := MakeRequestGetColumnsMetaPerTable((database.value, q.table.value), wanted);
        return;
      }
      var result := tableMetadataQuery.Execute();
      if result != Success {
        return SuccessWithInfo;
      }
      res := DescribeTables(wanted);
    }

    /** `Execute` */
    method Execute() returns (res: SqlResult)
      requires Valid()
      modifies this, tableMetadataQuery
      ensures Valid()
      ensures res == ColumnList(server, q, old(column)).res && described == ColumnList(server, q, old(column)).tables
      ensures executed <==> res == Success
      ensures executed ==> meta == ColumnList(server, q, old(column)).columns && !fetched && cursor == 0
    {
      hide PerTable, Walk, TableList, NamesOfList, IsServer, TableMetadataQuery.Valid;
      executed, described := false, [];
      var other := if q.asSchema then q.catalog else q.schema;
      var database := if q.asSchema then q.schema else q.catalog;
      if other.Some? && other.value != "" && other.value != "%" {
        return SuccessWithInfo;
      }
      if q.metadataId {
        if database.None? || q.table.None? || column.None? {
          return Error;
        }
      } else if column.None? {
        column := Some("%");
      }
      if Is(database, "") || Is(q.table, "") {
        return SuccessWithInfo;
      }
      res := MakeRequestGetColumnsMeta(database, column.value);
      if res == Success {
        executed, fetched, cursor := true, false, 0;
      }
    }
  }

  lemma EndOfWalk(server: Server, asSchema: bool, column: string, before: seq<ColumnMeta>, last: SqlResult)
    ensures Walk(server, asSchema, NamesOfList(asSchema, []), column, before, last) == Described(last, before, [])
  {
  }

  lemma Grow(before: seq<TableName>, t: TableName, later: seq<TableName>)
    ensures before + ([t] + later) == (before + [t]) + later
  {
  }
}
