/**
 What a table query lists, as a function of its arguments and of the server's answers. Databases are
 reported as schemas or as catalogs; the two modes mirror each other.
 */
module TableQueries {
  import opened Options
  import opened Datums
  import opened ServerChain
  import opened Pager
  import opened LetterCase
  import opened ConfigText
  import CursorNames
  import opened CatalogLists

  /** The page chain behind every statement text. */
  type Server = string -> seq<Outcome>

  ghost predicate IsServer(server: Server) {
    forall sql :: IsChain(server(sql))
  }

  datatype TableMeta = TableMeta(
    catalogName: Option<string>, schemaName: Option<string>, tableName: Option<string>, tableType: Option<string>)

  /** The arguments of `SQLTables` and the connection's settings. */
  datatype Request = Request(
    asSchema: bool, metadataId: bool,
    catalog: Option<string>, schema: Option<string>, table: Option<string>, tableType: Option<string>)

  /** What a request comes to; the list counts unless the result is an error. */
  datatype Found = Found(res: SqlResult, list: seq<TableMeta>)

  // ---- Requests. ----

  predicate Is(arg: Option<string>, text: string) {
    arg.Some? && arg.value == text
  }

  /** The three special requests of the constructor. */
  predicate AllCatalogs(q: Request) {
    !q.metadataId && Is(q.catalog, "%") && Is(q.schema, "") && Is(q.table, "")
  }

  predicate AllSchemas(q: Request) {
    !q.metadataId && Is(q.schema, "%") && Is(q.catalog, "") && Is(q.table, "")
  }

  predicate AllTableTypes(q: Request) {
    Is(q.tableType, "%") && Is(q.catalog, "") && Is(q.schema, "") && Is(q.table, "")
  }

  function Dequote(s: string): string {
    if |s| >= 2 && ((s[0] == '\'' && s[|s| - 1] == '\'') || (s[0] == '"' && s[|s| - 1] == '"')) then s[1..|s| - 1] else s
  }

  /** One of the listed types is TABLE. */
  predicate ListsTable(parts: seq<string>) {
    exists part | part in parts :: Dequote(Trim(part)) == "TABLE"
  }

  predicate ValidType(tableType: Option<string>) {
    tableType.None? || tableType.value == "" || tableType.value == "%" || ListsTable(Split(tableType.value, ','))
  }

  function GetOr(arg: Option<string>, default: string): string {
    if arg.Some? then arg.value else default
  }

  // ---- The server's lists. ----

  function ShowDatabases(pattern: string): string {
    "SHOW DATABASES LIKE '" + pattern + "'"
  }

  function ShowTables(database: string, pattern: string): string {
    "SHOW TABLES FROM \"" + database + "\" LIKE '" + pattern + "'"
  }

  ghost function Databases(server: Server, pattern: string): Listing {
    ListingOf(server(ShowDatabases(pattern)))
  }

  ghost function Tables(server: Server, database: string, pattern: string): Listing {
    ListingOf(server(ShowTables(database, pattern)))
  }

  // ---- Entries. ----

  function Entry(asSchema: bool, database: string, table: string): TableMeta {
    if asSchema then TableMeta(Some(""), Some(database), Some(table), Some("TABLE"))
    else TableMeta(Some(database), Some(""), Some(table), Some("TABLE"))
  }

  function Entries(asSchema: bool, database: string, tables: seq<string>): (list: seq<TableMeta>)
    ensures |list| == |tables| && forall j | 0 <= j < |tables| :: list[j] == Entry(asSchema, database, tables[j])
  {
    if tables == [] then [] else [Entry(asSchema, database, tables[0])] + Entries(asSchema, database, tables[1..])
  }

  function DatabaseEntries(asSchema: bool, databases: seq<string>): (list: seq<TableMeta>)
    ensures |list| == |databases| && forall i | 0 <= i < |databases| :: list[i] == Entry(asSchema, databases[i], "")
  {
    if databases == [] then [] else [Entry(asSchema, databases[0], "")] + DatabaseEntries(asSchema, databases[1..])
  }

  /** A list, plain success or a warning when it is empty. */
  function Report(list: seq<TableMeta>): Found {
    Found(if list == [] then SuccessWithInfo else Success, list)
  }

  // ---- The requests. ----

  /** The tables of several databases; nothing when one of the lists cannot be had. */
  ghost function TablesOf(server: Server, asSchema: bool, databases: seq<string>, pattern: string): Option<seq<TableMeta>> {
    if databases == [] then Some([])
    else
      var here := Tables(server, databases[0], pattern);
      var others := TablesOf(server, asSchema, databases[1..], pattern);
      if here.ListFailed? || others.None? then None
      else Some(Entries(asSchema, databases[0], ListNames(here)) + others.value)
  }

  /** `getTablesWithSearchPattern` */
  ghost function WithPattern(server: Server, q: Request, pattern: Option<string>): Found {
    var databases := Databases(server, GetOr(pattern, "%"));
    if !databases.Listed? then Found(ListResult(databases), [])
    else
      var list := TablesOf(server, q.asSchema, databases.names, GetOr(q.table, "%"));
      if list.None? then Found(Error, []) else Report(list.value)
  }

  /** `getAllDatabases` */
  ghost function EveryDatabase(server: Server, q: Request): Found {
    var databases := Databases(server, "%");
    if !databases.Listed? then Found(ListResult(databases), []) else Found(Success, DatabaseEntries(q.asSchema, databases.names))
  }

  predicate SameIdentifier(s: string, t: string) {
    CursorNames.ToUpper(s) == CursorNames.ToUpper(t)
  }

  /** The first name equal to the identifier but for letter case. */
  function FirstMatch(identifier: string, names: seq<string>): Option<string> {
    if names == [] then None
    else if SameIdentifier(identifier, names[0]) then Some(names[0])
    else FirstMatch(identifier, names[1..])
  }

  function Matching(identifier: string, names: seq<string>): seq<string> {
    if names == [] then []
    else (if SameIdentifier(identifier, names[0]) then [names[0]] else []) + Matching(identifier, names[1..])
  }

  /** `getTablesWithIdentifier` */
  ghost function WithIdentifier(server: Server, q: Request, identifier: string, table: string): Found {
    var databases := Databases(server, "%");
    if !databases.Listed? then Found(ListResult(databases), [])
    else
      var database := FirstMatch(identifier, databases.names);
      if database.None? then Found(SuccessWithInfo, [])
      else
        var tables := Tables(server, database.value, "%");
        if tables.ListFailed? then Found(Error, [])
        else Report(Entries(q.asSchema, database.value, Matching(table, ListNames(tables))))
  }

  /** `getTables`: which of the two arguments names the databases depends on the mode. */
  ghost function GetTables(server: Server, q: Request): Found {
    if q.asSchema then
      if q.metadataId then
        if q.schema.None? || q.table.None? then Found(Error, [])
        else WithIdentifier(server, q, q.schema.value, q.table.value)
      else if AllSchemas(q) then EveryDatabase(server, q)
      else if q.catalog.Some? && q.catalog.value != "" && q.catalog.value != "%" then Found(SuccessWithInfo, [])
      else if AllCatalogs(q) then Found(SuccessWithInfo, [])
      else if Is(q.schema, "") || Is(q.table, "") then Found(SuccessWithInfo, [])
      else WithPattern(server, q, q.schema)
    else
      if q.metadataId then
        if q.catalog.None? || q.table.None? then Found(Error, [])
        else WithIdentifier(server, q, q.catalog.value, q.table.value)
      else if AllCatalogs(q) then EveryDatabase(server, q)
      else if q.schema.Some? && q.schema.value != "" && q.schema.value != "%" then Found(SuccessWithInfo, [])
      else if AllSchemas(q) then Found(SuccessWithInfo, [])
      else if Is(q.catalog, "") || Is(q.table, "") then Found(SuccessWithInfo, [])
      else WithPattern(server, q, q.catalog)
  }

  /** `MakeRequestGetTablesMeta` */
  ghost function TableList(server: Server, q: Request): Found {
    if AllTableTypes(q) then Found(Success, [TableMeta(None, None, None, Some("TABLE"))])
    else if !ValidType(q.tableType) then Found(SuccessWithInfo, [])
    else GetTables(server, q)
  }

  // ---- The two modes. ----

  /** The same request in the other mode, and the same entry with its two columns exchanged. */
  function Mirror(q: Request): Request {
    q.(asSchema := !q.asSchema, catalog := q.schema, schema := q.catalog)
  }

  function Exchange(m: TableMeta): TableMeta {
    m.(catalogName := m.schemaName, schemaName := m.catalogName)
  }

  function ExchangeAll(list: seq<TableMeta>): (r: seq<TableMeta>)
    ensures |r| == |list| && forall i | 0 <= i < |list| :: r[i] == Exchange(list[i])
  {
    if list == [] then [] else [Exchange(list[0])] + ExchangeAll(list[1..])
  }

  lemma EntriesMirror(asSchema: bool, database: string, tables: seq<string>)
    ensures ExchangeAll(Entries(asSchema, database, tables)) == Entries(!asSchema, database, tables)
  {
  }

  lemma DatabasesMirror(asSchema: bool, databases: seq<string>)
    ensures ExchangeAll(DatabaseEntries(asSchema, databases)) == DatabaseEntries(!asSchema, databases)
  {
  }

  lemma ExchangePlus(s: seq<TableMeta>, t: seq<TableMeta>)
    ensures ExchangeAll(s + t) == ExchangeAll(s) + ExchangeAll(t)
  {
  }

  lemma {:induction false} TablesMirror(server: Server, asSchema: bool, databases: seq<string>, pattern: string)
    ensures var mine, theirs := TablesOf(server, asSchema, databases, pattern), TablesOf(server, !asSchema, databases, pattern);
      mine.Some? == theirs.Some? && (mine.Some? ==> theirs.value == ExchangeAll(mine.value))
    decreases databases
  {
    hide Tables, Entries;
    if databases != [] {
      TablesMirror(server, asSchema, databases[1..], pattern);
      var here := ListNames(Tables(server, databases[0], pattern));
      EntriesMirror(asSchema, databases[0], here);
      var others := TablesOf(server, asSchema, databases[1..], pattern);
      if others.Some? { ExchangePlus(Entries(asSchema, databases[0], here), others.value); }
    }
  }

  /** What a mirrored request has to come to. */
  predicate Mirrors(a: Found, b: Found) {
    a.res == b.res && b.list == ExchangeAll(a.list)
  }

  lemma NothingMirrors(res: SqlResult)
    ensures Mirrors(Found(res, []), Found(res, []))
  {
  }

  lemma PatternMirrors(server: Server, q: Request, pattern: Option<string>)
    ensures Mirrors(WithPattern(server, q, pattern), WithPattern(server, Mirror(q), pattern))
  {
    hide Databases, TablesOf;
    var databases := Databases(server, GetOr(pattern, "%"));
    if databases.Listed? { TablesMirror(server, q.asSchema, databases.names, GetOr(q.table, "%")); }
  }

  lemma IdentifierMirrors(server: Server, q: Request, identifier: string, table: string)
    ensures Mirrors(WithIdentifier(server, q, identifier, table), WithIdentifier(server, Mirror(q), identifier, table))
  {
    hide Databases, Tables, Entries, FirstMatch, Matching;
    var databases := Databases(server, "%");
    if databases.Listed? && FirstMatch(identifier, databases.names).Some? {
      var database := FirstMatch(identifier, databases.names).value;
      EntriesMirror(q.asSchema, database, Matching(table, ListNames(Tables(server, database, "%"))));
    }
  }

  lemma DatabaseListMirrors(server: Server, q: Request)
    ensures Mirrors(EveryDatabase(server, q), EveryDatabase(server, Mirror(q)))
  {
    hide Databases, DatabaseEntries;
    var databases := Databases(server, "%");
    if databases.Listed? { DatabasesMirror(q.asSchema, databases.names); }
  }

  /**
   Mode duality: a request and its mirror image come to the same result and to the same list with the catalog
   and schema columns exchanged.
   */
  lemma ModesMirror(server: Server, q: Request)
    ensures Mirrors(TableList(server, q), TableList(server, Mirror(q)))
  {
    hide WithPattern, WithIdentifier, EveryDatabase, ValidType;
    NothingMirrors(SuccessWithInfo);
    NothingMirrors(Error);
    DatabaseListMirrors(server, q);
    var name := if q.asSchema then q.schema else q.catalog;
    PatternMirrors(server, q, name);
    if name.Some? && q.table.Some? { IdentifierMirrors(server, q, name.value, q.table.value); }
  }

  // ---- The search pattern query lists everything, once and in order. ----

  /** An entry that reports a database, as a schema or as a catalog, and a table of it. */
  predicate NamesTable(m: TableMeta, asSchema: bool, database: string, table: string) {
    && m.tableName == Some(table) && m.tableType == Some("TABLE")
    && m.schemaName == Some(if asSchema then database else "")
    && m.catalogName == Some(if asSchema then "" else database)
  }

  /** How many entries the first `n` databases contribute. */
  ghost function Before(server: Server, databases: seq<string>, pattern: string, n: nat): nat
    requires n <= |databases|
  {
    if n == 0 then 0
    else Before(server, databases, pattern, n - 1) + |ListNames(Tables(server, databases[n - 1], pattern))|
  }

  lemma {:induction false} BeforeRest(server: Server, databases: seq<string>, pattern: string, n: nat)
    requires 0 < n <= |databases|
    ensures Before(server, databases, pattern, n) ==
      |ListNames(Tables(server, databases[0], pattern))| + Before(server, databases[1..], pattern, n - 1)
    decreases n
  {
    hide Tables;
    if n > 1 { BeforeRest(server, databases, pattern, n - 1); }
  }

  lemma {:induction false} ListLength(server: Server, asSchema: bool, databases: seq<string>, pattern: string)
    requires TablesOf(server, asSchema, databases, pattern).Some?
    ensures |TablesOf(server, asSchema, databases, pattern).value| == Before(server, databases, pattern, |databases|)
    decreases databases
  {
    hide Tables, Entry;
    if databases != [] {
      BeforeRest(server, databases, pattern, |databases|);
      ListLength(server, asSchema, databases[1..], pattern);
    }
  }

  /**
   Entry number Before(i) + j is table j of database i, and there are no other entries: every matched table is
   listed exactly once, database by database in server order.
   */
  lemma {:induction false} ListsEveryTable(
      server: Server, asSchema: bool, databases: seq<string>, pattern: string, i: nat, j: nat)
    requires TablesOf(server, asSchema, databases, pattern).Some?
    requires i < |databases| && j < |ListNames(Tables(server, databases[i], pattern))|
    ensures |TablesOf(server, asSchema, databases, pattern).value| == Before(server, databases, pattern, |databases|)
    ensures var list, at := TablesOf(server, asSchema, databases, pattern).value, Before(server, databases, pattern, i) + j;
      && at < |list|
      && NamesTable(list[at], asSchema, databases[i], ListNames(Tables(server, databases[i], pattern))[j])
    decreases databases
  {
    hide Tables, Entry, TablesOf, Entries, Before, NamesTable;
    ListLength(server, asSchema, databases, pattern);
    FirstDatabase(server, asSchema, databases, pattern);
    var here := Entries(asSchema, databases[0], ListNames(Tables(server, databases[0], pattern)));
    var later := TablesOf(server, asSchema, databases[1..], pattern).value;
    if i == 0 {
      NoneBefore(server, databases, pattern);
      EntryNames(asSchema, databases[0], ListNames(Tables(server, databases[0], pattern))[j]);
    } else {
      assert databases[1..][i - 1] == databases[i];
      ListsEveryTable(server, asSchema, databases[1..], pattern, i - 1, j);
      BeforeRest(server, databases, pattern, i);
      var at := Before(server, databases[1..], pattern, i - 1) + j;
      assert (here + later)[|here| + at] == later[at];
    }
  }

  lemma EntryNames(asSchema: bool, database: string, table: string)
    ensures NamesTable(Entry(asSchema, database, table), asSchema, database, table)
  {
  }

  lemma FirstDatabase(server: Server, asSchema: bool, databases: seq<string>, pattern: string)
    requires TablesOf(server, asSchema, databases, pattern).Some? && databases != []
    ensures TablesOf(server, asSchema, databases[1..], pattern).Some?
    ensures TablesOf(server, asSchema, databases, pattern).value ==
      Entries(asSchema, databases[0], ListNames(Tables(server, databases[0], pattern)))
      + TablesOf(server, asSchema, databases[1..], pattern).value
  {
    hide Tables, Entries;
  }

  lemma NoneBefore(server: Server, databases: seq<string>, pattern: string)
    ensures Before(server, databases, pattern, 0) == 0
  {
  }

  /** Every entry of the list is such a table, of exactly one place. */
  lemma EveryEntryIsATable(server: Server, asSchema: bool, databases: seq<string>, pattern: string, at: nat)
    returns (i: nat, j: nat)
    requires TablesOf(server, asSchema, databases, pattern).Some? && at < |TablesOf(server, asSchema, databases, pattern).value|
    ensures i < |databases| && j < |ListNames(Tables(server, databases[i], pattern))|
    ensures at == Before(server, databases, pattern, i) + j
    ensures NamesTable(
      TablesOf(server, asSchema, databases, pattern).value[at], asSchema, databases[i],
      ListNames(Tables(server, databases[i], pattern))[j])
  {
    hide Tables, Entry, TablesOf, Before, NamesTable;
    ListLength(server, asSchema, databases, pattern);
    i, j := PlaceOf(server, databases, pattern, at);
    ListsEveryTable(server, asSchema, databases, pattern, i, j);
  }

  /** Which database the `at`-th table belongs to. */
  lemma {:induction false} PlaceOf(server: Server, databases: seq<string>, pattern: string, at: nat) returns (i: nat, j: nat)
    requires at < Before(server, databases, pattern, |databases|)
    ensures i < |databases| && j < |ListNames(Tables(server, databases[i], pattern))|
    ensures at == Before(server, databases, pattern, i) + j
    decreases databases
  {
    hide Tables, Before;
    if databases == [] {
      NoneBefore(server, databases, pattern);
      assert false;
    }
    BeforeRest(server, databases, pattern, |databases|);
    var here := |ListNames(Tables(server, databases[0], pattern))|;
    if at < here {
      i, j := 0, at;
      NoneBefore(server, databases, pattern);
    } else {
      i, j := PlaceOf(server, databases[1..], pattern, at - here);
      i := i + 1;
      BeforeRest(server, databases, pattern, i);
    }
  }

  // ---- Identifiers, types and special requests. ----

  /** The database of an identifier is the first that equals it up to letter case. */
  lemma {:induction false} FirstMatchIff(identifier: string, names: seq<string>)
    ensures FirstMatch(identifier, names).None? <==> forall i | 0 <= i < |names| :: !SameLetters(identifier, names[i])
    ensures FirstMatch(identifier, names).Some? ==>
      exists i | 0 <= i < |names| ::
        && FirstMatch(identifier, names) == Some(names[i]) && SameLetters(identifier, names[i])
        && forall j | 0 <= j < i :: !SameLetters(identifier, names[j])
    decreases names
  {
    hide SameLetters, CursorNames.ToUpper;
    if names != [] {
      CursorNames.SameUpperIff(identifier, names[0]);
      FirstMatchIff(identifier, names[1..]);
      if !SameLetters(identifier, names[0]) && FirstMatch(identifier, names[1..]).Some? {
        var i :| && 0 <= i < |names[1..]| && FirstMatch(identifier, names[1..]) == Some(names[1..][i])
                 && SameLetters(identifier, names[1..][i])
                 && forall j | 0 <= j < i :: !SameLetters(identifier, names[1..][j]);
        forall j | 0 <= j < i + 1 ensures !SameLetters(identifier, names[j]) {
          if j > 0 { assert names[j] == names[1..][j - 1]; }
        }
        assert names[i + 1] == names[1..][i];
      }
      if forall i | 0 <= i < |names| :: !SameLetters(identifier, names[i]) {
        forall i | 0 <= i < |names[1..]| ensures !SameLetters(identifier, names[1..][i]) {
          assert names[1..][i] == names[i + 1];
        }
      }
    }
  }

  /** How many of the first `n` names equal the identifier up to letter case. */
  function Matches(identifier: string, names: seq<string>, n: nat): nat
    requires n <= |names|
  {
    if n == 0 then 0 else Matches(identifier, names, n - 1) + if SameLetters(identifier, names[n - 1]) then 1 else 0
  }

  lemma {:induction false} MatchesRest(identifier: string, names: seq<string>, n: nat)
    requires 0 < n <= |names|
    ensures Matches(identifier, names, n) ==
      (if SameLetters(identifier, names[0]) then 1 else 0) + Matches(identifier, names[1..], n - 1)
    decreases n
  {
    hide SameLetters;
    if n > 1 { MatchesRest(identifier, names, n - 1); }
  }

  lemma {:induction false} NumberOfMatches(identifier: string, names: seq<string>)
    ensures |Matching(identifier, names)| == Matches(identifier, names, |names|)
    decreases names
  {
    hide SameLetters, CursorNames.ToUpper;
    if names != [] {
      CursorNames.SameUpperIff(identifier, names[0]);
      NumberOfMatches(identifier, names[1..]);
      MatchesRest(identifier, names, |names|);
    }
  }

  /**
   The tables of an identifier are those that equal it up to letter case, each at the place that counts the ones
   before it, and no others.
   */
  lemma {:induction false} MatchingIs(identifier: string, names: seq<string>, i: nat)
    requires i < |names| && SameLetters(identifier, names[i])
    ensures |Matching(identifier, names)| == Matches(identifier, names, |names|)
    ensures var at := Matches(identifier, names, i);
      at < |Matching(identifier, names)| && Matching(identifier, names)[at] == names[i]
    decreases names
  {
    hide SameLetters, CursorNames.ToUpper;
    NumberOfMatches(identifier, names);
    CursorNames.SameUpperIff(identifier, names[0]);
    if i > 0 {
      MatchesRest(identifier, names, i);
      MatchingIs(identifier, names[1..], i - 1);
    }
  }

  /** A type list is accepted exactly when it asks for everything or lists TABLE, plain or in one of the quotes. */
  lemma ValidTypeIff(tableType: Option<string>)
    ensures ValidType(tableType) <==>
      || tableType.None? || tableType.value in {"", "%"}
      || exists part | part in Split(tableType.value, ',') :: Trim(part) in {"TABLE", "'TABLE'", "\"TABLE\""}
  {
    hide Trim, Split;
    if tableType.Some? {
      forall part | part in Split(tableType.value, ',') { DequoteIff(Trim(part)); }
    }
  }

  lemma DequoteIff(s: string)
    ensures Dequote(s) == "TABLE" <==> s in {"TABLE", "'TABLE'", "\"TABLE\""}
  {
    if Dequote(s) == "TABLE" && s != "TABLE" {
      assert s == [s[0]] + s[1..|s| - 1] + [s[|s| - 1]];
      assert "'TABLE'" == ['\''] + "TABLE" + ['\''] && "\"TABLE\"" == ['"'] + "TABLE" + ['"'];
    }
  }

  /** The statement texts: what stands between the quotes is what was asked for. */
  lemma DatabasesStatement(pattern: string)
    requires '\'' !in pattern
    ensures Split(ShowDatabases(pattern), '\'') == ["SHOW DATABASES LIKE ", pattern, ""]
  {
    hide Split;
    Between("SHOW DATABASES LIKE ", pattern, "", '\'');
    assert ShowDatabases(pattern) == "SHOW DATABASES LIKE " + ['\''] + (pattern + ['\''] + "");
  }

  lemma TablesStatement(database: string, pattern: string)
    requires '"' !in database && '"' !in pattern
    ensures Split(ShowTables(database, pattern), '"') == ["SHOW TABLES FROM ", database, " LIKE '" + pattern + "'"]
  {
    hide Split;
    Between("SHOW TABLES FROM ", database, " LIKE '" + pattern + "'", '"');
    assert ShowTables(database, pattern) == "SHOW TABLES FROM " + ['"'] + (database + ['"'] + (" LIKE '" + pattern + "'"));
  }

  lemma Between(a: string, b: string, c: string, quote: char)
    requires quote !in a && quote !in b && quote !in c
    ensures Split(a + [quote] + (b + [quote] + c), quote) == [a, b, c]
  {
    hide SplitFrom;
    SplitFirst(a, quote, b + [quote] + c);
    SplitFirst(b, quote, c);
    SplitOne(c, quote, "");
    assert "" + c == c;
  }

  /** Catalog "%" with an empty schema and an empty table name asks for the list of all databases. */
  lemma CatalogsRequest(server: Server, q: Request)
    requires !q.asSchema && !q.metadataId && q.tableType.None?
    requires q.catalog == Some("%") && q.schema == Some("") && q.table == Some("")
    ensures var databases, f := Databases(server, "%"), TableList(server, q);
      if databases.Listed? then
        && f.res == Success && |f.list| == |databases.names|
        && forall i | 0 <= i < |f.list| :: NamesTable(f.list[i], false, databases.names[i], "")
      else f.list == [] && f.res == if databases.ListFailed? then Error else SuccessWithInfo
  {
    hide Databases;
  }

  /** Type "%" with three empty names asks for the list of table types, which is TABLE alone. */
  lemma TypesRequest(server: Server, q: Request)
    requires q.tableType == Some("%") && q.catalog == q.schema == q.table == Some("")
    ensures TableList(server, q) == Found(Success, [TableMeta(None, None, None, Some("TABLE"))])
  {
  }

  /** In a search pattern query an absent table name is any table name. */
  lemma AbsentIsAny(server: Server, q: Request)
    requires !q.metadataId && q.table.None?
    ensures TableList(server, q) == TableList(server, q.(table := Some("%")))
  {
    hide TablesOf, Databases, ValidType, EveryDatabase;
  }

  predicate Reported(f: Found) {
    f.res == Success <==> f.list != []
  }

  lemma PatternReports(server: Server, q: Request, pattern: Option<string>)
    ensures Reported(WithPattern(server, q, pattern))
  {
    hide TablesOf;
  }

  lemma IdentifierReports(server: Server, q: Request, identifier: string, table: string)
    ensures Reported(WithIdentifier(server, q, identifier, table))
  {
    hide Entries, FirstMatch, Matching, Tables;
  }

  /** The list of all databases is asked for, and the first of its rows is unreadable. */
  ghost predicate ListsNoDatabase(server: Server, q: Request) {
    && !AllTableTypes(q) && ValidType(q.tableType)
    && (if q.asSchema then AllSchemas(q) else AllCatalogs(q))
    && Databases(server, "%") == Listed([])
  }

  lemma DatabasesReport(server: Server, q: Request)
    ensures var f := EveryDatabase(server, q);
      f.res == Success <==> f.list != [] || Databases(server, "%") == Listed([])
  {
    hide DatabaseEntries, Databases;
  }

  /**
   Plain success means a list that is not empty, with one exception: the list of all databases when its first
   row cannot be read.
   */
  lemma SuccessIffListed(server: Server, q: Request)
    ensures var f := TableList(server, q); f.res == Success <==> f.list != [] || ListsNoDatabase(server, q)
  {
    hide WithPattern, WithIdentifier, EveryDatabase, ValidType, Databases;
    var database := if q.asSchema then q.schema else q.catalog;
    DatabasesReport(server, q);
    PatternReports(server, q, database);
    if database.Some? && q.table.Some? { IdentifierReports(server, q, database.value, q.table.value); }
  }
}
