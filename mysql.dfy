/** The MySQL client of mysql.js, from the rows its queries return onwards:
    connection settings, the column records of `describe`, and the table list
    of `show table status`. The queries themselves are not modelled. */
module MySqlClient {
  import opened JsValues
  import opened TableUtils
  import opened Definitions

  /** A row of `describe <table>`: its `Field`, `Type`, `Null` and `Default`
      columns (`None` is SQL NULL). */
  datatype DescribeRow = DescribeRow(field: string, columnType: string, nullable: string, defaultValue: Option<string>)

  /** A row of `show table status`: its `Name` and `Comment` columns. */
  datatype TableStatusRow = TableStatusRow(name: string, comment: string)

  /** The settings a `MySql` client holds after its constructor ran. */
  datatype MySql = MySql(
    database: string,
    user: string,
    password: string,
    host: string,
    port: int,
    connectionLimit: int,
    isXConnection: bool)

  /** The port on which the X DevAPI pool is used instead of a classic pool. */
  const XProtocolPort: int := 33060

  /** The `MySql` constructor with `initializeConnection`'s protocol choice.
      Absent arguments are the falsy `""` and `0`; each falsy one takes its
      default. */
  function NewMySql(database: string, user: string, password: string, host: string, port: int, connectionLimit: int): (c: MySql)
    ensures c.database == database
    ensures c.isXConnection <==> port == XProtocolPort
    ensures user == "" ==> c.user == "root"
    ensures host == "" ==> c.host == "localhost"
    ensures port == 0 ==> c.port == 3306
    ensures connectionLimit == 0 ==> c.connectionLimit == 10
    ensures user != "" ==> c.user == user
    ensures host != "" ==> c.host == host
    ensures port != 0 ==> c.port == port
    ensures connectionLimit != 0 ==> c.connectionLimit == connectionLimit
    ensures c.password == password
  {
    var p := if port != 0 then port else 3306;
    MySql(
      database,
      if user != "" then user else "root",
      if password != "" then password else "",
      if host != "" then host else "localhost",
      p,
      if connectionLimit != 0 then connectionLimit else 10,
      p == XProtocolPort)
  }

  /** With nothing given, a client connects as `root` with an empty password to
      `localhost:3306` over a classic pool of 10 connections. */
  lemma NewMySqlDefaults(database: string)
    ensures NewMySql(database, "", "", "", 0, 0) == MySql(database, "root", "", "localhost", 3306, 10, false)
  {
  }

  /** `createFieldDefinition(row)`: a column record with no `related_table`. */
  function CreateFieldDefinition(row: DescribeRow): (c: ColumnDefinition)
    ensures c.name == row.field && c.relatedTable.None?
    ensures c.columnType == ParseType(row.columnType)
    ensures c.required <==> row.nullable != "YES"
    ensures c.defaultValue == TryParseInt(row.defaultValue, Undefined)
  {
    ColumnDefinition(row.field, ParseType(row.columnType), row.nullable != "YES", TryParseInt(row.defaultValue, Undefined), None)
  }

  /** What a `describe` row's default becomes: a number for digits, NaN for
      NULL, and the text itself otherwise. */
  lemma FieldDefaults(row: DescribeRow)
    ensures row.defaultValue.None? ==> CreateFieldDefinition(row).defaultValue == NaN
    ensures row.defaultValue.Some? && IsDigits(row.defaultValue.value)
        ==> CreateFieldDefinition(row).defaultValue == Num(DecimalValue(row.defaultValue.value))
    ensures row.defaultValue.Some? && !IsDigits(row.defaultValue.value)
        ==> CreateFieldDefinition(row).defaultValue == Str(row.defaultValue.value)
  {
  }

  /** `describeTable(tableName)` from the rows of its query: one field per row,
      in row order, and no relations yet. */
  method DescribeTable(tableName: string, results: seq<DescribeRow>) returns (table: TableDefinition)
    ensures table.name == tableName && table.relations == []
    ensures |table.fields| == |results|
    ensures forall k :: 0 <= k < |results| ==> table.fields[k] == CreateFieldDefinition(results[k])
  {
    table := TableDefinition(tableName, [], []);
    for k := 0 to |results|
      invariant table.name == tableName && table.relations == []
      invariant |table.fields| == k
      invariant forall i :: 0 <= i < k ==> table.fields[i] == CreateFieldDefinition(results[i])
    {
      table := table.(fields := table.fields + [CreateFieldDefinition(results[k])]);
    }
  }

  /** The names of the rows that are not views, in row order. */
  function NonViewNames(rows: seq<TableStatusRow>): (names: seq<string>)
    ensures |names| <= |rows|
    ensures forall n :: n in names <==> exists k :: 0 <= k < |rows| && rows[k].comment != "VIEW" && rows[k].name == n
  {
    if rows == [] then []
    else
      var rest := NonViewNames(rows[..|rows| - 1]);
      var last := rows[|rows| - 1];
      assert forall k :: 0 <= k < |rows| - 1 ==> rows[..|rows| - 1][k] == rows[k];
      if last.comment != "VIEW" then rest + [last.name] else rest
  }

  /** The filter keeps order: the names of two row lists are the names of the
      first followed by the names of the second. */
  lemma {:induction false} NonViewNamesAppend(a: seq<TableStatusRow>, b: seq<TableStatusRow>)
    ensures NonViewNames(a + b) == NonViewNames(a) + NonViewNames(b)
  {
    if b == [] {
      assert a + b == a;
    } else {
      var init, last := b[..|b| - 1], b[|b| - 1];
      NonViewNamesAppend(a, init);
      var c := a + b;
      assert c[..|c| - 1] == a + init && c[|c| - 1] == last;
      var tail := if last.comment != "VIEW" then [last.name] else [];
      assert NonViewNames(c) == NonViewNames(a + init) + tail;
      assert NonViewNames(b) == NonViewNames(init) + tail;
    }
  }

  /** `listAllTable()` from the rows of `show table status`: the `Name` of every
      row whose `Comment` is not `VIEW`, in row order. */
  method ListAllTable(results: seq<TableStatusRow>) returns (tables: seq<string>)
    ensures tables == NonViewNames(results)
  {
    tables := [];
    for k := 0 to |results|
      invariant tables == NonViewNames(results[..k])
    {
      if results[k].comment != "VIEW" {
        tables := tables + [results[k].name];
      }
      assert results[..k + 1][..k] == results[..k];
    }
    assert results[..|results|] == results;
  }
}
