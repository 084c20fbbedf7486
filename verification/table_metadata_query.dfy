/** `TableMetadataQuery` as an object: it collects the list and hands it out row by row. */
module TableMetadataQueries {
  import opened Options
  import opened Datums
  import opened ServerChain
  import opened Pager
  import opened AppBuffers
  import opened ConfigText
  import opened Slots
  import opened RowReading
  import CursorNames
  import opened CatalogLists
  import opened TableQueries

  /** The fields of an entry, by result column; REMARKS is never set. */
  function Field(m: TableMeta, column: nat): Option<string> {
    match column
    case 1 => m.catalogName
    case 2 => m.schemaName
    case 3 => m.tableName
    case 4 => m.tableType
    case _ => None
  }

  /** `PutString` of an optional text: a missing text only sets the indicator. */
  function PutField(m: string, b: AppBuffer, v: Option<string>): (r: string)
    requires Fits(b, |m|)
    ensures |r| == |m|
  {
    if v.Some? then PutString(m, b, v.value).0
    else if b.reslen.Some? then Poke(m, LenAt(b), LittleEndian(SQL_NULL_DATA, LEN_SIZE))
    else m
  }

  /** Result columns `c` to 5 of an entry put into their bound buffers. */
  function PutEntry(m: string, bindings: Bindings, entry: TableMeta, c: nat): (r: string)
    requires AllFit(bindings, |m|) && 1 <= c <= 6
    ensures |r| == |m|
    decreases 6 - c
  {
    if c == 6 then m
    else PutEntry(if c in bindings then PutField(m, bindings[c], Field(entry, c)) else m, bindings, entry, c + 1)
  }

  // ---- What the application's buffers hold of an entry. ----

  /** The buffer holds the text, or its indicator holds SQL_NULL_DATA when there is none. */
  ghost predicate HoldsField(m: string, b: AppBuffer, v: Option<string>) {
    if v.Some? then HoldsText(m, b, v.value)
    else b.reslen.Some? ==> BytesAt(m, LenAt(b), LittleEndian(-1, 8))
  }

  /** TABLE_CAT, TABLE_SCHEM, TABLE_NAME, TABLE_TYPE and REMARKS, which is always null. */
  ghost predicate HoldsEntry(m: string, bindings: Bindings, entry: TableMeta) {
    && (1 in bindings ==> HoldsField(m, bindings[1], entry.catalogName))
    && (2 in bindings ==> HoldsField(m, bindings[2], entry.schemaName))
    && (3 in bindings ==> HoldsField(m, bindings[3], entry.tableName))
    && (4 in bindings ==> HoldsField(m, bindings[4], entry.tableType))
    && (5 in bindings ==> HoldsField(m, bindings[5], None))
  }

  lemma FieldHolds(m: string, b: AppBuffer, v: Option<string>)
    requires Fits(b, |m|) && Apart(b)
    ensures HoldsField(PutField(m, b, v), b, v)
  {
    hide HoldsText, PutString, Apart;
    if v.Some? { PutHolds(m, b, Scalar(v.value)); }
  }

  lemma FieldStays(m: string, b: AppBuffer, v: Option<string>, at: nat)
    requires Fits(b, |m|) && at < |m| && !InSlot(b, at)
    ensures PutField(m, b, v)[at] == m[at]
  {
    hide PutString;
    if v.Some? { PutStaysInSlot(m, b, Scalar(v.value), at); }
  }

  lemma FieldKept(m: string, n: string, b: AppBuffer, v: Option<string>)
    requires |m| == |n| && HoldsField(m, b, v)
    requires forall at | 0 <= at < |m| && InSlot(b, at) :: m[at] == n[at]
    ensures HoldsField(n, b, v)
  {
    hide HoldsText;
    if v.Some? {
      HoldsFrame(m, n, b, Scalar(v.value));
    } else if b.reslen.Some? {
      forall at | LenAt(b) <= at < LenAt(b) + 8 ensures m[at] == n[at] {
        assert InSlot(b, at);
      }
    }
  }

  lemma {:induction false} EntryFrame(m: string, bindings: Bindings, entry: TableMeta, c: nat, at: nat)
    requires AllFit(bindings, |m|) && 1 <= c <= 6 && at < |m|
    requires forall k | k in bindings && c <= k :: !InSlot(bindings[k], at)
    ensures PutEntry(m, bindings, entry, c)[at] == m[at]
    decreases 6 - c
  {
    hide PutField, Field, InSlot;
    if c < 6 {
      if c in bindings {
        FieldStays(m, bindings[c], Field(entry, c), at);
        EntryFrame(PutField(m, bindings[c], Field(entry, c)), bindings, entry, c + 1, at);
      } else {
        EntryFrame(m, bindings, entry, c + 1, at);
      }
    }
  }

  lemma {:induction false} FieldHeld(m: string, bindings: Bindings, entry: TableMeta, c: nat, k: nat)
    requires AllFit(bindings, |m|) && SlotsApart(bindings) && 1 <= c <= k <= 5 && k in bindings
    ensures HoldsField(PutEntry(m, bindings, entry, c), bindings[k], Field(entry, k))
    decreases 6 - c
  {
    hide PutField, Field, InSlot, HoldsField, Apart;
    if c !in bindings {
      FieldHeld(m, bindings, entry, c + 1, k);
    } else {
      var put := PutField(m, bindings[c], Field(entry, c));
      if c < k {
        FieldHeld(put, bindings, entry, c + 1, k);
      } else {
        FieldHolds(m, bindings[k], Field(entry, k));
        var after := PutEntry(put, bindings, entry, c + 1);
        forall at | 0 <= at < |m| && InSlot(bindings[k], at) ensures put[at] == after[at] {
          EntryFrame(put, bindings, entry, c + 1, at);
        }
        FieldKept(put, after, bindings[k], Field(entry, k));
      }
    }
  }

  /** After an entry has been put, every bound column holds its own field of it. */
  lemma EntryHeld(m: string, bindings: Bindings, entry: TableMeta)
    requires AllFit(bindings, |m|) && SlotsApart(bindings)
    ensures HoldsEntry(PutEntry(m, bindings, entry, 1), bindings, entry)
  {
    hide PutEntry, HoldsField, SlotsApart, AllFit;
    forall k | k in bindings && 1 <= k <= 5
      ensures HoldsField(PutEntry(m, bindings, entry, 1), bindings[k], Field(entry, k))
    {
      FieldHeld(m, bindings, entry, 1, k);
    }
  }

  lemma EntriesMore(asSchema: bool, database: string, tables: seq<string>, j: nat)
    requires j < |tables|
    ensures Entries(asSchema, database, tables)[..j + 1] ==
      Entries(asSchema, database, tables)[..j] + [Entry(asSchema, database, tables[j])]
  {
  }

  lemma DatabaseEntriesMore(asSchema: bool, databases: seq<string>, i: nat)
    requires i < |databases|
    ensures DatabaseEntries(asSchema, databases)[..i + 1] ==
      DatabaseEntries(asSchema, databases)[..i] + [Entry(asSchema, databases[i], "")]
  {
  }

  /** The whole list is what has been collected and the tables of the databases from `i` on. */
  ghost predicate Collected(server: Server, asSchema: bool, databases: seq<string>, pattern: string, list: seq<TableMeta>, i: nat)
    requires i <= |databases|
  {
    var rest := TablesOf(server, asSchema, databases[i..], pattern);
    TablesOf(server, asSchema, databases, pattern) == if rest.None? then None else Some(list + rest.value)
  }

  lemma CollectedStart(server: Server, asSchema: bool, databases: seq<string>, pattern: string)
    ensures Collected(server, asSchema, databases, pattern, [], 0)
  {
    assert databases[0..] == databases;
    var all := TablesOf(server, asSchema, databases, pattern);
    if all.Some? { assert [] + all.value == all.value; }
  }

  lemma CollectedStep(server: Server, asSchema: bool, databases: seq<string>, pattern: string, list: seq<TableMeta>, i: nat)
    requires i < |databases| && Collected(server, asSchema, databases, pattern, list, i)
    ensures var here := Tables(server, databases[i], pattern);
      if here.ListFailed? then TablesOf(server, asSchema, databases, pattern).None?
      else Collected(server, asSchema, databases, pattern, list + Entries(asSchema, databases[i], ListNames(here)), i + 1)
  {
    hide Tables, Entries;
    assert databases[i..][1..] == databases[i + 1..];
    var here := Entries(asSchema, databases[i], ListNames(Tables(server, databases[i], pattern)));
    var rest := TablesOf(server, asSchema, databases[i + 1..], pattern);
    if rest.Some? { assert list + (here + rest.value) == (list + here) + rest.value; }
  }

  lemma CollectedAll(server: Server, asSchema: bool, databases: seq<string>, pattern: string, list: seq<TableMeta>)
    requires Collected(server, asSchema, databases, pattern, list, |databases|)
    ensures TablesOf(server, asSchema, databases, pattern) == Some(list)
  {
    assert TablesOf(server, asSchema, databases[|databases|..], pattern) == Some([]);
    assert list + [] == list;
  }

  class TableMetadataQuery {
    const server: Server
    const q: Request

    var executed: bool
    var fetched: bool
    var allSchemas: bool
    var allCatalogs: bool
    var allTableTypes: bool
    var meta: seq<TableMeta>
    /** An iterator into `meta`; its length is the end. */
    var cursor: nat

    ghost predicate Valid()
      reads this
    {
      && IsServer(server)
      && allSchemas == AllSchemas(q) && allCatalogs == AllCatalogs(q) && allTableTypes == AllTableTypes(q)
      && (executed ==> cursor <= |meta| && (!fetched ==> cursor == 0))
    }

    constructor (server: Server, q: Request)
      requires IsServer(server)
      ensures Valid() && !executed && this.server == server && this.q == q
    {
      this.server, this.q := server, q;
      executed, fetched, allSchemas, allCatalogs := false, false, false, false;
      meta, cursor := [], 0;
      if !q.metadataId {
        allCatalogs := AllCatalogs(q);
        allSchemas := AllSchemas(q);
      }
      allTableTypes := AllTableTypes(q);
    }

    /** `getMatchedDatabases` */
    method GetMatchedDatabases(pattern: string) returns (res: SqlResult, names: seq<string>)
      requires Valid()
      ensures res == ListResult(Databases(server, pattern)) && names == ListNames(Databases(server, pattern))
    {
      res, names := GetMatched(server(ShowDatabases(pattern)));
    }

    /** `getMatchedTables` */
    method GetMatchedTables(database: string, pattern: string) returns (res: SqlResult, names: seq<string>)
      requires Valid()
      ensures res == ListResult(Tables(server, database, pattern)) && names == ListNames(Tables(server, database, pattern))
    {
      res, names := GetMatched(server(ShowTables(database, pattern)));
    }

    /** One entry for each name. */
    method AddTables(database: string, names: seq<string>)
      modifies this`meta
      ensures meta == old(meta) + Entries(q.asSchema, database, names)
    {
      ghost var before, all := meta, Entries(q.asSchema, database, names);
      for j := 0 to |names|
        invariant meta == before + all[..j]
      {
        EntriesMore(q.asSchema, database, names, j);
        if q.asSchema {
          meta := meta + [TableMeta(Some(""), Some(database), Some(names[j]), Some("TABLE"))];
        } else {
          meta := meta + [TableMeta(Some(database), Some(""), Some(names[j]), Some("TABLE"))];
        }
      }
      assert all[..|names|] == all;
    }

    method AddDatabases(names: seq<string>)
      modifies this`meta
      ensures meta == old(meta) + DatabaseEntries(q.asSchema, names)
    {
      ghost var before, all := meta, DatabaseEntries(q.asSchema, names);
      for i := 0 to |names|
        invariant meta == before + all[..i]
      {
        DatabaseEntriesMore(q.asSchema, names, i);
        if q.asSchema {
          meta := meta + [TableMeta(Some(""), Some(names[i]), Some(""), Some("TABLE"))];
        } else {
          meta := meta + [TableMeta(Some(names[i]), Some(""), Some(""), Some("TABLE"))];
        }
      }
      assert all[..|names|] == all;
    }

    /** `getAllDatabases` */
    method GetAllDatabases() returns (res: SqlResult)
      requires Valid() && meta == []
      modifies this`meta
      ensures Found(res, meta) == EveryDatabase(server, q)
    {
      hide Databases, DatabaseEntries, IsServer;
      var names;
      res, names := GetMatchedDatabases("%");
      if res != Success {
        return;
      }
      AddDatabases(names);
      assert [] + DatabaseEntries(q.asSchema, names) == DatabaseEntries(q.asSchema, names);
    }

    /** `getTablesWithSearchPattern`: the tables of every matched database. */
    method GetTablesWithSearchPattern(pattern: Option<string>) returns (res: SqlResult)
      requires Valid() && meta == []
      modifies this`meta
      ensures res == WithPattern(server, q, pattern).res
      ensures res != Error ==> meta == WithPattern(server, q, pattern).list
    {
      hide Databases, Tables, Entries, IsServer, Collected, TablesOf;
      var databases;
      res, databases := GetMatchedDatabases(GetOr(pattern, "%"));
      if res != Success {
        return;
      }
      var tablePattern := GetOr(q.table, "%");
      CollectedStart(server, q.asSchema, databases, tablePattern);
      for i := 0 to |databases|
        invariant Valid()
        invariant Collected(server, q.asSchema, databases, tablePattern, meta, i)
      {
        CollectedStep(server, q.asSchema, databases, tablePattern, meta, i);
        var tables;
        res, tables := GetMatchedTables(databases[i], tablePattern);
        if res != Success && res != SuccessWithInfo {
          return;
        }
        AddTables(databases[i], tables);
      }
      CollectedAll(server, q.asSchema, databases, tablePattern, meta);
      res := if meta == [] then SuccessWithInfo else Success;
    }

    /** The first database that matches an identifier. */
    method FindDatabase(identifier: string, names: seq<string>) returns (found: bool, name: string)
      ensures FirstMatch(identifier, names) == if found then Some(name) else None
    {
      found, name := false, "";
      var i := 0;
      assert names[0..] == names;
      while i < |names|
        invariant i <= |names| && FirstMatch(identifier, names) == FirstMatch(identifier, names[i..])
        decreases |names| - i
      {
        if CursorNames.ToUpper(identifier) == CursorNames.ToUpper(names[i]) {
          return true, names[i];
        }
        i := i + 1;
      }
    }

    /** `getTablesWithIdentifier` */
    method GetTablesWithIdentifier(identifier: string, table: string) returns (res: SqlResult)
      requires Valid() && meta == []
      modifies this`meta
      ensures res == WithIdentifier(server, q, identifier, table).res
      ensures res != Error ==> meta == WithIdentifier(server, q, identifier, table).list
    {
      hide Databases, Tables, Entries, IsServer, FirstMatch, Matching;
      var databases;
      res, databases := GetMatchedDatabases("%");
      if res != Success {
        return;
      }
      var found, database := FindDatabase(identifier, databases);
      if !found {
        return SuccessWithInfo;
      }
      var tables;
      res, tables := GetMatchedTables(database, "%");
      if res != Success && res != SuccessWithInfo {
        return;
      }
      var matching := FilterNames(table, tables);
      AddTables(database, matching);
      res := if meta == [] then SuccessWithInfo else Success;
    }

    /** The names equal to the identifier but for letter case. */
    method FilterNames(identifier: string, names: seq<string>) returns (matching: seq<string>)
      ensures matching == Matching(identifier, names)
    {
      matching := [];
      assert names[0..] == names;
      for j := 0 to |names|
        invariant Matching(identifier, names) == matching + Matching(identifier, names[j..])
      {
        assert names[j..][1..] == names[j + 1..];
        if CursorNames.ToUpper(identifier) == CursorNames.ToUpper(names[j]) {
          matching := matching + [names[j]];
        }
      }
    }

    /** `getTables` */
    method GetTablesMeta() returns (res: SqlResult)
      requires Valid() && meta == []
      modifies this`meta
      ensures res == GetTables(server, q).res && (res != Error ==> meta == GetTables(server, q).list)
    {
      hide WithPattern, WithIdentifier, EveryDatabase, IsServer;
      var database := if q.asSchema then q.schema else q.catalog;
      var other := if q.asSchema then q.catalog else q.schema;
      if q.metadataId {
        if database.None? || q.table.None? {
          return Error;
        }
        res := GetTablesWithIdentifier(database.value, q.table.value);
      } else if (if q.asSchema then allSchemas else allCatalogs) {
        res := GetAllDatabases();
      } else if other.Some? && other.value != "" && other.value != "%" {
        res := SuccessWithInfo;
      } else if (if q.asSchema then allCatalogs else allSchemas) {
        res := SuccessWithInfo;
      } else if Is(database, "") || Is(q.table, "") {
        res := SuccessWithInfo;
      } else {
        res := GetTablesWithSearchPattern(database);
      }
    }

    /** The table type argument: a list of types separated by commas, each perhaps quoted. */
    method TypeIsValid() returns (valid: bool)
      ensures valid == ValidType(q.tableType)
    {
      if q.tableType.None? || q.tableType.value == "" || q.tableType.value == "%" {
        return true;
      }
      var parts := Split(q.tableType.value, ',');
      for i := 0 to |parts|
        invariant forall j | 0 <= j < i :: Dequote(Trim(parts[j])) != "TABLE"
      {
        if Dequote(Trim(parts[i])) == "TABLE" {
          return true;
        }
      }
      valid := false;
    }

    /** `MakeRequestGetTablesMeta` */
    method MakeRequestGetTablesMeta() returns (res: SqlResult)
      requires Valid() && !executed
      modifies this`meta
      ensures res == TableList(server, q).res && (res != Error ==> meta == TableList(server, q).list)
    {
      hide GetTables, ValidType;
      meta := [];
      if allTableTypes {
        meta := [TableMeta(None, None, None, Some("TABLE"))];
        return Success;
      }
      var valid := TypeIsValid();
      if !valid {
        return SuccessWithInfo;
      }
      res := GetTablesMeta();
    }

    /** `Execute`: the list is there, and nothing of it has been fetched. */
    method Execute() returns (res: SqlResult)
      requires Valid()
      modifies this
      ensures Valid() && res == TableList(server, q).res
      ensures executed <==> res == Success || res == SuccessWithInfo
      ensures executed ==> meta == TableList(server, q).list && !fetched && cursor == 0
    {
      hide TableList;
      if executed {
        var _ := Close();
      }
      res := MakeRequestGetTablesMeta();
      if res == Success || res == SuccessWithInfo {
        executed, fetched, cursor := true, false, 0;
      }
    }

    method Close() returns (res: SqlResult)
      requires Valid()
      modifies this
      ensures Valid() && !executed && meta == [] && res == Success
    {
      meta, cursor, executed := [], 0, false;
      res := Success;
    }

    /** How many fetches have found a row, one more once the end has been seen. */
    ghost function Fetches(): nat
      reads this
    {
      if fetched then cursor + 1 else 0
    }

    /** Puts the fields of the current entry into the bound columns. */
    method GetColumns(bindings: Bindings, mem: array<char>)
      requires Valid() && executed && cursor < |meta| && AllFit(bindings, mem.Length)
      modifies mem
      ensures mem[..] == PutEntry(old(mem[..]), bindings, meta[cursor], 1)
    {
      hide PutString;
      for c := 1 to 6
        invariant PutEntry(old(mem[..]), bindings, meta[cursor], 1) == PutEntry(mem[..], bindings, meta[cursor], c)
      {
        if c in bindings {
          var field := Field(meta[cursor], c);
          if field.Some? {
            var _ := PutStringToBuffer(mem, bindings[c], field.value);
          } else {
            SetResLen(mem, bindings[c], SQL_NULL_DATA);
          }
        }
      }
    }

    /** The k-th fetch hands out entry k - 1; after the last entry every fetch reports the end of data. */
    method FetchNextRow(bindings: Bindings, mem: array<char>) returns (res: SqlResult)
      requires Valid() && AllFit(bindings, mem.Length)
      modifies this`fetched, this`cursor, mem
      ensures Valid()
      ensures !executed ==> res == Error && mem[..] == old(mem[..]) && Fetches() == old(Fetches())
      ensures executed && meta == [] ==> res == NoData && mem[..] == old(mem[..])
      ensures executed && meta != [] ==>
        && Fetches() == Min(old(Fetches()) + 1, |meta| + 1)
        && res == (if Fetches() <= |meta| then Success else NoData)
        && mem[..] == (if res == Success then PutEntry(old(mem[..]), bindings, meta[Fetches() - 1], 1) else old(mem[..]))
        && (res == Success && SlotsApart(bindings) ==> HoldsEntry(mem[..], bindings, meta[Fetches() - 1]))
    {
      hide PutEntry, IsServer, HoldsEntry, SlotsApart, AllFit;
      if !executed {
        return Error;
      }
      if meta == [] {
        return NoData;
      }
      if !fetched {
        fetched := true;
      } else if cursor != |meta| {
        cursor := cursor + 1;
      }
      if cursor == |meta| {
        return NoData;
      }
      if SlotsApart(bindings) { EntryHeld(mem[..], bindings, meta[cursor]); }
      GetColumns(bindings, mem);
      res := Success;
    }

    /**
     `RowNumber`: the number of fetches while the cursor is on an entry, 0 past the end; but 1, not 0, for a list
     of which nothing has been fetched yet.
     */
    method RowNumber() returns (n: nat)
      requires Valid()
      ensures n == if executed && cursor < |meta| then cursor + 1 else 0
      ensures executed && !fetched && meta != [] ==> n == 1
      ensures executed ==> (n == Fetches() <==> if fetched then cursor < |meta| else meta == [])
    {
      if !executed || cursor == |meta| {
        return 0;
      }
      n := cursor + 1;
    }
  }
}
