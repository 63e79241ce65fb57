/** The `SchemaDefinition` class of schema-definition.js: the loaded table
    list, its name index, the cached table lookup and the in-place relation
    inference. Table objects are addressed by their position in `tables`. */
module SchemaDefinitions {
  import opened JsValues
  import opened TableUtils
  import opened Definitions
  import opened RelationInference
  import MySqlClient

  /** What the constructor may be handed: a MySql client or anything else. */
  datatype Connection = MySqlConnection(client: MySqlClient.MySql) | OtherConnection

  const ConnectionError := "the connection parameter should be instance of MySql"

  /** `tables.find(table => name === table.name)`: the first table of that
      name, or none. */
  method FindFirst(tables: seq<TableDefinition>, name: string) returns (r: Option<nat>)
    ensures r.Some? ==> r.value < |tables| && tables[r.value].name == name
                        && forall u :: 0 <= u < r.value ==> tables[u].name != name
    ensures r.None? ==> forall u :: 0 <= u < |tables| ==> tables[u].name != name
    ensures r == FirstNamed(Names(tables), name)
  {
    var u := 0;
    while u < |tables|
      invariant u <= |tables|
      invariant forall x :: 0 <= x < u ==> tables[x].name != name
    {
      if tables[u].name == name {
        FirstNamedAt(Names(tables), name, u);
        return Some(u);
      }
      u := u + 1;
    }
    assert name !in Names(tables);
    return None;
  }

  class SchemaDefinition {
    var tables: seq<TableDefinition>
    var tableMap: map<string, nat>
    const connection: MySqlClient.MySql

    /** Every name index entry points at a table of that name. */
    ghost predicate Valid()
      reads this
    {
      IndexValid(Names(tables), tableMap)
    }

    constructor (connection: MySqlClient.MySql)
      ensures Valid()
      ensures tables == [] && tableMap == map[] && this.connection == connection
    {
      tables := [];
      tableMap := map[];
      this.connection := connection;
    }

    /** `findTable`: the aliased name's cached table, else the first table of
        that name, which is then cached; a miss leaves the index as it was.
        Caching never changes the answer for any name. */
    method FindTable(tableName: string) returns (r: Option<nat>)
      requires Valid()
      modifies this`tableMap
      ensures Valid()
      ensures r == Lookup(Names(tables), old(tableMap), tableName)
      ensures r.None? ==> tableMap == old(tableMap)
      ensures r.Some? ==> tableMap == old(tableMap)[FindAlias(tableName) := r.value]
      ensures forall n :: LookupExact(Names(tables), tableMap, n) == LookupExact(Names(tables), old(tableMap), n)
    {
      var name := tableName;
      if name == "create_by" || name == "created_by" {
        name := "ms_user";
      }
      if name in tableMap {
        return Some(tableMap[name]);
      }
      r := FindFirst(tables, name);
      if r.Some? {
        tableMap := tableMap[name := r.value];
      }
    }

    /** A resolved column: `related_table` is set on the column, the
        `many_to_one` edge is pushed onto the owning table and then the
        `one_to_many` edge onto the target table (the same table when the
        column refers to its own table). */
    method Link(i: nat, j: nat, k: nat)
      requires i < |tables| && k < |tables| && j < |tables[i].fields|
      modifies this`tables
      ensures tables == Relate(old(tables), i, j, k)
    {
      var owner := tables[i];
      var column := owner.fields[j];
      var target := tables[k].name;
      tables := tables[i := owner.(fields := owner.fields[j := column.(relatedTable := Some(target))],
                                   relations := owner.relations + [ManyToOne(NormalizeTableName(column.name), target, column.name)])];
      tables := tables[k := tables[k].(relations := tables[k].relations + [OneToMany(NormalizeTableName(owner.name), owner.name, column.name)])];
    }

    /** The body of `defineRelation`'s inner loop for column `j` of table `i`:
        the walk moves one column forward, and the index keeps its entries and
        its answers. */
    method RelateColumn(ghost ts0: seq<TableDefinition>, ghost m0: map<string, nat>, i: nat, j: nat)
      requires IndexValid(Names(ts0), m0)
      requires i < |ts0| && j < |ts0[i].fields| && tables == Progress(ts0, m0, i, j)
      requires IndexValid(Names(ts0), tableMap)
      requires forall n :: LookupExact(Names(ts0), tableMap, n) == LookupExact(Names(ts0), m0, n)
      modifies this
      ensures tables == Progress(ts0, m0, i, j + 1)
      ensures IndexValid(Names(ts0), tableMap)
      ensures forall n :: n in old(tableMap) ==> n in tableMap && tableMap[n] == old(tableMap)[n]
      ensures forall n :: LookupExact(Names(ts0), tableMap, n) == LookupExact(Names(ts0), m0, n)
    {
      ProgressNames(ts0, m0, i, j);
      ProgressStepFields(ts0, m0, i, j, i);
      ProgressStep(ts0, m0, i, j);
      var column := tables[i].fields[j];
      assert column == ts0[i].fields[j];
      if IsColumnId(column.name) {
        var related := FindTable(column.name[..|column.name| - 3]);
        assert related == ColumnTarget(ts0, m0, i, j);
        if related.Some? {
          Link(i, j, related.value);
        }
      }
    }

    /** The body of `defineRelation`'s outer loop for table `i`: the walk
        moves past every column of that table. */
    method RelateTable(ghost ts0: seq<TableDefinition>, ghost m0: map<string, nat>, i: nat)
      requires IndexValid(Names(ts0), m0)
      requires i < |ts0| && tables == Progress(ts0, m0, i, 0)
      requires IndexValid(Names(ts0), tableMap)
      requires forall n :: LookupExact(Names(ts0), tableMap, n) == LookupExact(Names(ts0), m0, n)
      modifies this
      ensures tables == Progress(ts0, m0, i + 1, 0)
      ensures IndexValid(Names(ts0), tableMap)
      ensures forall n :: n in old(tableMap) ==> n in tableMap && tableMap[n] == old(tableMap)[n]
      ensures forall n :: LookupExact(Names(ts0), tableMap, n) == LookupExact(Names(ts0), m0, n)
    {
      ProgressNames(ts0, m0, i, 0);
      var n := |tables[i].fields|;
      var j := 0;
      while j < n
        invariant n == |ts0[i].fields| && j <= n && tables == Progress(ts0, m0, i, j)
        invariant IndexValid(Names(ts0), tableMap)
        invariant forall n :: n in old(tableMap) ==> n in tableMap && tableMap[n] == old(tableMap)[n]
        invariant forall n :: LookupExact(Names(ts0), tableMap, n) == LookupExact(Names(ts0), m0, n)
      {
        RelateColumn(ts0, m0, i, j);
        j := j + 1;
      }
      ProgressNextTable(ts0, m0, i);
    }

    /** `defineRelation`: walks every column of every table in order, and for
        each `_id` column whose stem names a table sets `related_table` and
        pushes the forward and reverse edges. The result is the relation
        inference of the tables and index it started from; the index keeps
        every entry it had and answers every lookup as before. */
    method DefineRelation()
      requires Valid()
      modifies this
      ensures Valid()
      ensures tables == DefineRelations(old(tables), old(tableMap))
      ensures forall n :: n in old(tableMap) ==> n in tableMap && tableMap[n] == old(tableMap)[n]
      ensures forall n :: LookupExact(Names(tables), tableMap, n) == LookupExact(Names(tables), old(tableMap), n)
    {
      ghost var ts0, m0 := tables, tableMap;
      ProgressStart(ts0, m0);
      var i := 0;
      while i < |tables|
        invariant i <= |ts0| && tables == Progress(ts0, m0, i, 0)
        invariant IndexValid(Names(ts0), tableMap)
        invariant forall n :: n in m0 ==> n in tableMap && tableMap[n] == m0[n]
        invariant forall n :: LookupExact(Names(ts0), tableMap, n) == LookupExact(Names(ts0), m0, n)
      {
        RelateTable(ts0, m0, i);
        i := i + 1;
      }
      ProgressComplete(ts0, m0);
      ProgressNames(ts0, m0, |ts0|, 0);
    }

    /** The reload step that fills `tables` and `tableMap` from the loaded
        table definitions: the list is the results in order, and the index
        holds every name, pointing at the last table of that name. */
    method Load(results: seq<TableDefinition>)
      modifies this
      ensures Valid() && tables == results
      ensures forall n :: n in tableMap <==> exists u :: 0 <= u < |results| && results[u].name == n
      ensures forall n, u :: n in tableMap && tableMap[n] < u < |results| ==> results[u].name != n
    {
      tableMap := map[];
      tables := [];
      var u := 0;
      while u < |results|
        invariant u <= |results| && tables == results[..u]
        invariant forall n :: n in tableMap ==> tableMap[n] < u && results[tableMap[n]].name == n
        invariant forall x :: 0 <= x < u ==> results[x].name in tableMap
        invariant forall n, x :: n in tableMap && tableMap[n] < x < u ==> results[x].name != n
      {
        tableMap := tableMap[results[u].name := u];
        tables := tables + [results[u]];
        u := u + 1;
      }
      assert tables == results;
      forall n | n in tableMap ensures exists x :: 0 <= x < |results| && results[x].name == n {
        assert results[tableMap[n]].name == n;
      }
    }

    /** `reloadTableDeffinition` after the connection has delivered the table
        definitions: load them, infer the relations, and return the same
        (now related) table list. */
    method ReloadTableDefinition(results: seq<TableDefinition>) returns (loaded: seq<TableDefinition>)
      modifies this
      ensures Valid() && Names(tables) == Names(results)
      ensures forall n :: n in tableMap <==> exists u :: 0 <= u < |results| && results[u].name == n
      ensures forall n, u :: n in tableMap && tableMap[n] < u < |results| ==> results[u].name != n
      ensures IndexValid(Names(results), tableMap) && loaded == tables == DefineRelations(results, tableMap)
    {
      Load(results);
      ghost var m := tableMap;
      DefineRelation();
      forall n | n in tableMap ensures n in m && tableMap[n] == m[n] {
        var u := tableMap[n];
        assert Names(tables)[u] == n;
        assert results[u].name == n;
      }
      assert tableMap == m;
      loaded := tables;
    }
  }

  /** The constructor, which throws unless it is handed a MySql client. */
  method NewSchemaDefinition(connection: Connection) returns (r: Result<SchemaDefinition, string>)
    ensures r.Failure? <==> connection.OtherConnection?
    ensures r.Failure? ==> r.error == ConnectionError
    ensures r.Success? ==> fresh(r.value) && r.value.Valid() && r.value.tables == []
                           && r.value.tableMap == map[] && r.value.connection == connection.client
  {
    match connection
    case OtherConnection =>
      r := Failure(ConnectionError);
    case MySqlConnection(client) =>
      var schema := new SchemaDefinition(client);
      r := Success(schema);
  }
}
