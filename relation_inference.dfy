/** What `defineRelation` of schema-definition.js does to a table list, stated
    as functions of the list and the name index it starts from, with the
    properties the edges satisfy. Tables are addressed by their position in
    the list, which stands for object identity. */
module RelationInference {
  import opened JsValues
  import opened TableUtils
  import opened Definitions

  function Names(ts: seq<TableDefinition>): (names: seq<string>)
    ensures |names| == |ts| && forall u :: 0 <= u < |ts| ==> names[u] == ts[u].name
  {
    seq(|ts|, u requires 0 <= u < |ts| => ts[u].name)
  }

  /** The rewrite at the head of `findTable`: `create_by` and `created_by`
      are looked up as `ms_user`. */
  function FindAlias(tableName: string): string
  {
    if tableName == "create_by" || tableName == "created_by" then "ms_user" else tableName
  }

  /** `tables.find(table => name === table.name)`, as a position. */
  function FirstNamed(names: seq<string>, name: string): (r: Option<nat>)
    ensures r.Some? ==> r.value < |names| && names[r.value] == name
                        && forall u :: 0 <= u < r.value ==> names[u] != name
    ensures r.None? <==> name !in names
  {
    if names == [] then None
    else if names[0] == name then Some(0)
    else
      match FirstNamed(names[1..], name)
      case None => None
      case Some(k) => Some(k + 1)
  }

  /** The first position holding `name` is what `FirstNamed` answers. */
  lemma {:induction false} FirstNamedAt(names: seq<string>, name: string, u: nat)
    requires u < |names| && names[u] == name
    requires forall x :: 0 <= x < u ==> names[x] != name
    ensures FirstNamed(names, name) == Some(u)
  {
    if u > 0 {
      FirstNamedAt(names[1..], name, u - 1);
    }
  }

  /** The invariant of `tableMap`: every entry points at a table of that name. */
  predicate IndexValid(names: seq<string>, m: map<string, nat>)
  {
    forall n :: n in m ==> m[n] < |names| && names[m[n]] == n
  }

  /** The table `findTable` answers for an exact name: the cached entry, else
      the first table of that name. */
  function LookupExact(names: seq<string>, m: map<string, nat>, name: string): Option<nat>
  {
    if name in m then Some(m[name]) else FirstNamed(names, name)
  }

  /** The table `findTable(tableName)` answers: a table whose name is exactly
      the (aliased) argument, or none when no table has that name. */
  function Lookup(names: seq<string>, m: map<string, nat>, tableName: string): (r: Option<nat>)
    requires IndexValid(names, m)
    ensures r.Some? ==> r.value < |names| && names[r.value] == FindAlias(tableName)
    ensures r.None? <==> FindAlias(tableName) !in names
  {
    LookupExact(names, m, FindAlias(tableName))
  }

  /** The lookup candidate of an `_id` column: its name without the trailing
      three characters, with no prefix strip and no digit rewrite. */
  function Candidate(columnName: string): string
    requires IsColumnId(columnName)
  {
    columnName[..|columnName| - 3]
  }

  /** The table that column `j` of table `i` resolves to, if any. */
  function ColumnTarget(ts: seq<TableDefinition>, m: map<string, nat>, i: nat, j: nat): (r: Option<nat>)
    requires IndexValid(Names(ts), m)
    requires i < |ts| && j < |ts[i].fields|
    ensures r.Some? ==> r.value < |ts|
  {
    var name := ts[i].fields[j].name;
    if IsColumnId(name) then Lookup(Names(ts), m, Candidate(name)) else None
  }

  /** The `many_to_one` edge an owning table gets for column `columnName`. */
  function ForwardEdge(columnName: string, targetName: string): RelationEdge
  {
    ManyToOne(NormalizeTableName(columnName), targetName, columnName)
  }

  /** The `one_to_many` edge the target table gets for a column of `ownerName`. */
  function ReverseEdge(ownerName: string, columnName: string): RelationEdge
  {
    OneToMany(NormalizeTableName(ownerName), ownerName, columnName)
  }

  /** One `push` onto the relations of the table at position `target`. */
  datatype Push = Push(target: nat, edge: RelationEdge)

  /** The pushes one column causes, in order: nothing on a miss, the forward
      edge onto its own table and the reverse edge onto the target on a hit. */
  function ColumnPushes(ts: seq<TableDefinition>, m: map<string, nat>, i: nat, j: nat): seq<Push>
    requires IndexValid(Names(ts), m)
    requires i < |ts| && j < |ts[i].fields|
  {
    match ColumnTarget(ts, m, i, j)
    case None => []
    case Some(k) =>
      var columnName := ts[i].fields[j].name;
      [Push(i, ForwardEdge(columnName, ts[k].name)), Push(k, ReverseEdge(ts[i].name, columnName))]
  }

  /** Concatenation of the first `n` parts, in order. */
  function Flat<X>(parts: seq<seq<X>>, n: nat): seq<X>
    requires n <= |parts|
  {
    if n == 0 then [] else Flat(parts, n - 1) + parts[n - 1]
  }

  /** Concatenation of every part of the first `n` groups, in order. */
  function Flat2<X>(groups: seq<seq<seq<X>>>, n: nat): seq<X>
    requires n <= |groups|
  {
    if n == 0 then [] else Flat2(groups, n - 1) + Flat(groups[n - 1], |groups[n - 1]|)
  }

  /** The pushes of every column, grouped by table and in walk order. */
  function Plan(ts: seq<TableDefinition>, m: map<string, nat>): (r: seq<seq<seq<Push>>>)
    requires IndexValid(Names(ts), m)
    ensures |r| == |ts|
    ensures forall i :: 0 <= i < |ts| ==> |r[i]| == |ts[i].fields|
  {
    seq(|ts|, i requires 0 <= i < |ts| =>
      seq(|ts[i].fields|, j requires 0 <= j < |ts[i].fields| => ColumnPushes(ts, m, i, j)))
  }

  lemma PlanAt(ts: seq<TableDefinition>, m: map<string, nat>, i: nat, j: nat)
    requires IndexValid(Names(ts), m)
    requires i < |ts| && j < |ts[i].fields|
    ensures Plan(ts, m)[i][j] == ColumnPushes(ts, m, i, j)
  {
  }

  /** The pushes of the first `n` columns of table `i`. */
  function TablePushes(ts: seq<TableDefinition>, m: map<string, nat>, i: nat, n: nat): seq<Push>
    requires IndexValid(Names(ts), m)
    requires i < |ts| && n <= |ts[i].fields|
  {
    Flat(Plan(ts, m)[i], n)
  }

  /** The pushes of the first `n` tables, all their columns. */
  function AllPushes(ts: seq<TableDefinition>, m: map<string, nat>, n: nat): seq<Push>
    requires IndexValid(Names(ts), m)
    requires n <= |ts|
  {
    Flat2(Plan(ts, m), n)
  }

  /** The edges a sequence of pushes appends to the table at position `u`. */
  function EdgesFor(ps: seq<Push>, u: nat): seq<RelationEdge>
  {
    if ps == [] then []
    else EdgesFor(ps[..|ps| - 1], u) + (if ps[|ps| - 1].target == u then [ps[|ps| - 1].edge] else [])
  }

  /** Column `j` of table `i` after `defineRelation` visited it: `related_table`
      set to the target's name on a hit, untouched on a miss. */
  function MarkColumn(ts: seq<TableDefinition>, m: map<string, nat>, i: nat, j: nat): (r: ColumnDefinition)
    requires IndexValid(Names(ts), m)
    requires i < |ts| && j < |ts[i].fields|
    ensures r.(relatedTable := ts[i].fields[j].relatedTable) == ts[i].fields[j]
    ensures r.relatedTable == ts[i].fields[j].relatedTable || (r.relatedTable.Some? && r.relatedTable.value in Names(ts))
  {
    var c := ts[i].fields[j];
    match ColumnTarget(ts, m, i, j)
    case None => c
    case Some(k) => c.(relatedTable := Some(ts[k].name))
  }

  /** Whether column `c` of table `u` comes before column `j` of table `i`. */
  predicate Visited(u: nat, c: nat, i: nat, j: nat)
  {
    u < i || (u == i && c < j)
  }

  /** The pushes made before column `j` of table `i`. */
  function DonePushes(ts: seq<TableDefinition>, m: map<string, nat>, i: nat, j: nat): seq<Push>
    requires IndexValid(Names(ts), m)
    requires i <= |ts| && (i < |ts| ==> j <= |ts[i].fields|)
  {
    AllPushes(ts, m, i) + (if i < |ts| then TablePushes(ts, m, i, j) else [])
  }

  /** The columns of table `u` once the walk has visited every column before
      column `j` of table `i`. */
  function ProgressFields(ts: seq<TableDefinition>, m: map<string, nat>, i: nat, j: nat, u: nat): (r: seq<ColumnDefinition>)
    requires IndexValid(Names(ts), m)
    requires u < |ts|
    ensures |r| == |ts[u].fields|
  {
    seq(|ts[u].fields|, c requires 0 <= c < |ts[u].fields| =>
      if Visited(u, c, i, j) then MarkColumn(ts, m, u, c) else ts[u].fields[c])
  }

  /** The relations of table `u` once the walk has visited every column before
      column `j` of table `i`. */
  function ProgressRelations(ts: seq<TableDefinition>, m: map<string, nat>, i: nat, j: nat, u: nat): seq<RelationEdge>
    requires IndexValid(Names(ts), m)
    requires i <= |ts| && (i < |ts| ==> j <= |ts[i].fields|) && u < |ts|
  {
    ts[u].relations + EdgesFor(DonePushes(ts, m, i, j), u)
  }

  /** Table `u` once the walk has visited every column before column `j` of
      table `i`. */
  function ProgressTable(ts: seq<TableDefinition>, m: map<string, nat>, i: nat, j: nat, u: nat): TableDefinition
    requires IndexValid(Names(ts), m)
    requires i <= |ts| && (i < |ts| ==> j <= |ts[i].fields|) && u < |ts|
  {
    TableDefinition(ts[u].name, ProgressFields(ts, m, i, j, u), ProgressRelations(ts, m, i, j, u))
  }

  /** The tables once the walk has visited every column before column `j` of
      table `i`. */
  function Progress(ts: seq<TableDefinition>, m: map<string, nat>, i: nat, j: nat): (r: seq<TableDefinition>)
    requires IndexValid(Names(ts), m)
    requires i <= |ts| && (i < |ts| ==> j <= |ts[i].fields|)
    ensures |r| == |ts|
  {
    seq(|ts|, u requires 0 <= u < |ts| => ProgressTable(ts, m, i, j, u))
  }

  lemma ProgressNames(ts: seq<TableDefinition>, m: map<string, nat>, i: nat, j: nat)
    requires IndexValid(Names(ts), m)
    requires i <= |ts| && (i < |ts| ==> j <= |ts[i].fields|)
    ensures Names(Progress(ts, m, i, j)) == Names(ts)
    ensures forall u :: 0 <= u < |ts| ==> |Progress(ts, m, i, j)[u].fields| == |ts[u].fields|
  {
  }

  /** The tables after `defineRelation`: every column marked, every table's
      relations extended by the edges pushed onto it. Nothing else changes:
      names, columns apart from `related_table`, and the relations already
      there stay as they were. */
  function DefineRelations(ts: seq<TableDefinition>, m: map<string, nat>): (r: seq<TableDefinition>)
    requires IndexValid(Names(ts), m)
    ensures |r| == |ts| && Names(r) == Names(ts)
    ensures forall u :: 0 <= u < |ts| ==>
      && |r[u].fields| == |ts[u].fields|
      && |ts[u].relations| <= |r[u].relations| && r[u].relations[..|ts[u].relations|] == ts[u].relations
    ensures forall u, c :: 0 <= u < |ts| && 0 <= c < |ts[u].fields| ==>
      r[u].fields[c].(relatedTable := ts[u].fields[c].relatedTable) == ts[u].fields[c]
    ensures forall u, c :: 0 <= u < |ts| && 0 <= c < |ts[u].fields| ==>
      r[u].fields[c].relatedTable == ts[u].fields[c].relatedTable
      || (r[u].fields[c].relatedTable.Some? && r[u].fields[c].relatedTable.value in Names(ts))
  {
    var all := AllPushes(ts, m, |ts|);
    var r := seq(|ts|, u requires 0 <= u < |ts| =>
      TableDefinition(
        ts[u].name,
        seq(|ts[u].fields|, c requires 0 <= c < |ts[u].fields| => MarkColumn(ts, m, u, c)),
        ts[u].relations + EdgesFor(all, u)));
    assert Names(r) == Names(ts);
    r
  }

  /** After the last table the walk is complete. */
  lemma ProgressComplete(ts: seq<TableDefinition>, m: map<string, nat>)
    requires IndexValid(Names(ts), m)
    ensures Progress(ts, m, |ts|, 0) == DefineRelations(ts, m)
  {
    var a, b := Progress(ts, m, |ts|, 0), DefineRelations(ts, m);
    assert DonePushes(ts, m, |ts|, 0) == AllPushes(ts, m, |ts|);
    forall u | 0 <= u < |ts| ensures a[u] == b[u] {
      assert a[u].fields == b[u].fields;
    }
  }

  /** Before the first column nothing has happened. */
  lemma ProgressStart(ts: seq<TableDefinition>, m: map<string, nat>)
    requires IndexValid(Names(ts), m)
    ensures Progress(ts, m, 0, 0) == ts
  {
    var r := Progress(ts, m, 0, 0);
    forall u | 0 <= u < |ts| ensures r[u] == ts[u] {
      assert ProgressFields(ts, m, 0, 0, u) == ts[u].fields;
      assert ts[u].relations + [] == ts[u].relations;
    }
  }

  /** Finishing the columns of table `i` is starting table `i + 1`. */
  lemma ProgressNextTable(ts: seq<TableDefinition>, m: map<string, nat>, i: nat)
    requires IndexValid(Names(ts), m)
    requires i < |ts|
    ensures Progress(ts, m, i, |ts[i].fields|) == Progress(ts, m, i + 1, 0)
  {
    var n := |ts[i].fields|;
    assert DonePushes(ts, m, i, n) == DonePushes(ts, m, i + 1, 0) by {
      if i + 1 < |ts| {
        assert TablePushes(ts, m, i + 1, 0) == [];
      }
    }
    var a, b := Progress(ts, m, i, n), Progress(ts, m, i + 1, 0);
    forall u | 0 <= u < |ts| ensures a[u] == b[u] {
      assert ProgressFields(ts, m, i, n, u) == ProgressFields(ts, m, i + 1, 0, u);
    }
  }

  lemma EdgesForPair(fwd: Push, rev: Push, u: nat)
    ensures EdgesFor([fwd, rev], u)
         == (if fwd.target == u then [fwd.edge] else []) + (if rev.target == u then [rev.edge] else [])
  {
    assert [fwd, rev][..1] == [fwd];
    assert [fwd][..0] == [];
    var a := if fwd.target == u then [fwd.edge] else [];
    assert EdgesFor([fwd], u) == [] + a;
    assert [] + a == a;
  }

  lemma {:induction false} EdgesForAppend(a: seq<Push>, b: seq<Push>, u: nat)
    ensures EdgesFor(a + b, u) == EdgesFor(a, u) + EdgesFor(b, u)
  {
    if b == [] {
      assert a + b == a;
    } else {
      EdgesForAppend(a, b[..|b| - 1], u);
      assert (a + b)[..|a + b| - 1] == a + b[..|b| - 1];
    }
  }

  /** Edges of a sequence of pushes extended by one more group. */
  lemma EdgesForExtend(a: seq<Push>, t: seq<Push>, cp: seq<Push>, u: nat)
    ensures EdgesFor(a + (t + cp), u) == EdgesFor(a + t, u) + EdgesFor(cp, u)
  {
    AppendAssoc(a, t, cp);
    EdgesForAppend(a + t, cp, u);
  }

  lemma DoneEdgesStep(ts: seq<TableDefinition>, m: map<string, nat>, i: nat, j: nat, u: nat)
    requires IndexValid(Names(ts), m)
    requires i < |ts| && j < |ts[i].fields|
    ensures EdgesFor(DonePushes(ts, m, i, j + 1), u)
         == EdgesFor(DonePushes(ts, m, i, j), u) + EdgesFor(ColumnPushes(ts, m, i, j), u)
  {
    var a, t, cp := AllPushes(ts, m, i), TablePushes(ts, m, i, j), ColumnPushes(ts, m, i, j);
    PlanAt(ts, m, i, j);
    assert TablePushes(ts, m, i, j + 1) == t + cp;
    EdgesForExtend(a, t, cp, u);
  }

  lemma ProgressStepRelations(ts: seq<TableDefinition>, m: map<string, nat>, i: nat, j: nat, u: nat)
    requires IndexValid(Names(ts), m)
    requires i < |ts| && j < |ts[i].fields| && u < |ts|
    ensures ProgressRelations(ts, m, i, j + 1, u)
         == ProgressRelations(ts, m, i, j, u) + EdgesFor(ColumnPushes(ts, m, i, j), u)
  {
    DoneEdgesStep(ts, m, i, j, u);
    AppendAssoc(ts[u].relations, EdgesFor(DonePushes(ts, m, i, j), u), EdgesFor(ColumnPushes(ts, m, i, j), u));
  }

  lemma ProgressStepFields(ts: seq<TableDefinition>, m: map<string, nat>, i: nat, j: nat, u: nat)
    requires IndexValid(Names(ts), m)
    requires i < |ts| && j < |ts[i].fields| && u < |ts|
    ensures u == i ==> ProgressFields(ts, m, i, j, u)[j] == ts[i].fields[j]
    ensures ProgressFields(ts, m, i, j + 1, u)
         == if u == i then ProgressFields(ts, m, i, j, u)[j := MarkColumn(ts, m, i, j)]
            else ProgressFields(ts, m, i, j, u)
  {
  }

  /** One more column, seen from table `u`. */
  lemma ProgressStepTable(ts: seq<TableDefinition>, m: map<string, nat>, i: nat, j: nat, u: nat)
    requires IndexValid(Names(ts), m)
    requires i < |ts| && j < |ts[i].fields| && u < |ts|
    ensures ColumnTarget(ts, m, i, j).None? ==> ProgressTable(ts, m, i, j + 1, u) == ProgressTable(ts, m, i, j, u)
    ensures ColumnTarget(ts, m, i, j).Some? ==>
      var k := ColumnTarget(ts, m, i, j).value;
      var name := ts[i].fields[j].name;
      var fields := ProgressFields(ts, m, i, j, u);
      ProgressTable(ts, m, i, j + 1, u) == TableDefinition(
        ts[u].name,
        if u == i then fields[j := ts[i].fields[j].(relatedTable := Some(ts[k].name))] else fields,
        ProgressRelations(ts, m, i, j, u)
          + (if u == i then [ForwardEdge(name, ts[k].name)] else [])
          + (if u == k then [ReverseEdge(ts[i].name, name)] else []))
  {
    ProgressStepRelations(ts, m, i, j, u);
    ProgressStepFields(ts, m, i, j, u);
    var cp := ColumnPushes(ts, m, i, j);
    match ColumnTarget(ts, m, i, j)
    case None =>
      assert EdgesFor(cp, u) == [];
      assert ProgressRelations(ts, m, i, j, u) + [] == ProgressRelations(ts, m, i, j, u);
      if u == i {
        var fields := ProgressFields(ts, m, i, j, u);
        assert fields[j := MarkColumn(ts, m, i, j)] == fields;
      }
    case Some(k) =>
      var name := ts[i].fields[j].name;
      EdgesForPair(Push(i, ForwardEdge(name, ts[k].name)), Push(k, ReverseEdge(ts[i].name, name)), u);
      AppendAssoc(ProgressRelations(ts, m, i, j, u),
                  if u == i then [ForwardEdge(name, ts[k].name)] else [],
                  if u == k then [ReverseEdge(ts[i].name, name)] else []);
  }

  /** What the loop body does to the table list when column `j` of table `i`
      resolves to table `k`: the column's `related_table` becomes `k`'s name,
      the forward edge is pushed onto `i`, then the reverse edge onto `k`. */
  function Relate(p: seq<TableDefinition>, i: nat, j: nat, k: nat): seq<TableDefinition>
    requires i < |p| && k < |p| && j < |p[i].fields|
  {
    var column := p[i].fields[j];
    var p1 := p[i := p[i].(fields := p[i].fields[j := column.(relatedTable := Some(p[k].name))],
                           relations := p[i].relations + [ForwardEdge(column.name, p[k].name)])];
    p1[k := p1[k].(relations := p1[k].relations + [ReverseEdge(p[i].name, column.name)])]
  }

  lemma ProgressStepMiss(ts: seq<TableDefinition>, m: map<string, nat>, i: nat, j: nat)
    requires IndexValid(Names(ts), m)
    requires i < |ts| && j < |ts[i].fields| && ColumnTarget(ts, m, i, j).None?
    ensures Progress(ts, m, i, j + 1) == Progress(ts, m, i, j)
  {
    var p, q := Progress(ts, m, i, j), Progress(ts, m, i, j + 1);
    forall u | 0 <= u < |ts| ensures q[u] == p[u] {
      ProgressStepTable(ts, m, i, j, u);
    }
  }

  lemma ProgressStepHitAt(ts: seq<TableDefinition>, m: map<string, nat>, i: nat, j: nat, u: nat)
    requires IndexValid(Names(ts), m)
    requires i < |ts| && j < |ts[i].fields| && u < |ts| && ColumnTarget(ts, m, i, j).Some?
    ensures |Progress(ts, m, i, j)[i].fields| == |ts[i].fields|
    ensures Progress(ts, m, i, j + 1)[u] == Relate(Progress(ts, m, i, j), i, j, ColumnTarget(ts, m, i, j).value)[u]
  {
    ProgressNames(ts, m, i, j);
    ProgressStepTable(ts, m, i, j, u);
    ProgressStepFields(ts, m, i, j, u);
    ProgressStepFields(ts, m, i, j, i);
    var r := ProgressRelations(ts, m, i, j, u);
    assert r + [] == r;
  }

  lemma ProgressStepHit(ts: seq<TableDefinition>, m: map<string, nat>, i: nat, j: nat, k: nat)
    requires IndexValid(Names(ts), m)
    requires i < |ts| && j < |ts[i].fields| && ColumnTarget(ts, m, i, j) == Some(k)
    requires |Progress(ts, m, i, j)[i].fields| == |ts[i].fields|
    ensures Progress(ts, m, i, j + 1) == Relate(Progress(ts, m, i, j), i, j, k)
  {
    var q, r := Progress(ts, m, i, j + 1), Relate(Progress(ts, m, i, j), i, j, k);
    forall u | 0 <= u < |ts| ensures q[u] == r[u] {
      ProgressStepHitAt(ts, m, i, j, u);
    }
  }

  /** One more column: on a miss nothing changes; on a hit the table list
      changes as the loop body changes it. */
  lemma ProgressStep(ts: seq<TableDefinition>, m: map<string, nat>, i: nat, j: nat)
    requires IndexValid(Names(ts), m)
    requires i < |ts| && j < |ts[i].fields|
    ensures |Progress(ts, m, i, j)[i].fields| == |ts[i].fields|
    ensures ColumnTarget(ts, m, i, j).None? ==> Progress(ts, m, i, j + 1) == Progress(ts, m, i, j)
    ensures ColumnTarget(ts, m, i, j).Some? ==>
      Progress(ts, m, i, j + 1) == Relate(Progress(ts, m, i, j), i, j, ColumnTarget(ts, m, i, j).value)
  {
    ProgressNames(ts, m, i, j);
    match ColumnTarget(ts, m, i, j)
    case None => ProgressStepMiss(ts, m, i, j);
    case Some(k) => ProgressStepHit(ts, m, i, j, k);
  }

  // ---------------------------------------------------------------------
  // What one column leaves behind

  lemma {:induction false} PushedEdgeLands(ps: seq<Push>, p: Push)
    requires p in ps
    ensures p.edge in EdgesFor(ps, p.target)
  {
    var init := ps[..|ps| - 1];
    if p != ps[|ps| - 1] {
      assert p in init by {
        var x :| 0 <= x < |ps| && ps[x] == p;
        assert x < |ps| - 1 && init[x] == p;
      }
      PushedEdgeLands(init, p);
    }
  }

  /** An element of one of the first `n` parts is in their concatenation. */
  lemma {:induction false} FlatIn<X>(parts: seq<seq<X>>, j: nat, n: nat, p: X)
    requires j < n <= |parts| && p in parts[j]
    ensures p in Flat(parts, n)
  {
    var prev := Flat(parts, n - 1);
    if j < n - 1 {
      FlatIn(parts, j, n - 1, p);
      InLeft(prev, parts[n - 1], p);
    } else {
      InRight(prev, parts[n - 1], p);
    }
  }

  /** Concatenating more groups only extends the sequence. */
  lemma {:induction false} Flat2Prefix<X>(groups: seq<seq<seq<X>>>, k: nat, n: nat)
    requires k <= n <= |groups|
    ensures Flat2(groups, k) <= Flat2(groups, n)
  {
    if k < n {
      Flat2Prefix(groups, k, n - 1);
      var prev := Flat2(groups, n - 1);
      assert prev <= prev + Flat(groups[n - 1], |groups[n - 1]|);
    }
  }

  /** An element of any part of any group is in the whole concatenation. */
  lemma Flat2In<X>(groups: seq<seq<seq<X>>>, i: nat, j: nat, p: X)
    requires i < |groups| && j < |groups[i]| && p in groups[i][j]
    ensures p in Flat2(groups, |groups|)
  {
    var prev, g := Flat2(groups, i), Flat(groups[i], |groups[i]|);
    FlatIn(groups[i], j, |groups[i]|, p);
    InRight(prev, g, p);
    Flat2Prefix(groups, i + 1, |groups|);
    var x :| 0 <= x < |prev + g| && (prev + g)[x] == p;
    assert Flat2(groups, |groups|)[x] == p;
  }

  /** Both pushes of a column are among all the pushes. */
  lemma ColumnPushesInAll(ts: seq<TableDefinition>, m: map<string, nat>, i: nat, j: nat, p: Push)
    requires IndexValid(Names(ts), m)
    requires i < |ts| && j < |ts[i].fields|
    requires p in ColumnPushes(ts, m, i, j)
    ensures p in AllPushes(ts, m, |ts|)
  {
    PlanAt(ts, m, i, j);
    Flat2In(Plan(ts, m), i, j, p);
  }

  lemma EdgeInRelations(ts: seq<TableDefinition>, m: map<string, nat>, p: Push)
    requires IndexValid(Names(ts), m)
    requires p in AllPushes(ts, m, |ts|) && p.target < |ts|
    ensures p.edge in DefineRelations(ts, m)[p.target].relations
  {
    var all := AllPushes(ts, m, |ts|);
    PushedEdgeLands(all, p);
    var r := DefineRelations(ts, m);
    assert r[p.target].relations == ts[p.target].relations + EdgesFor(all, p.target);
  }

  /** A column that resolves to table `k` gets `related_table` set to `k`'s
      name, its owner gets the `many_to_one` edge (named by the normalised
      column name, keyed by the column) and `k` gets the `one_to_many` edge
      (named by the normalised owner name, keyed by the column); a
      self-referencing column puts both on its own table. A column that does
      not resolve is left exactly as it was. */
  lemma ColumnOutcome(ts: seq<TableDefinition>, m: map<string, nat>, i: nat, j: nat)
    requires IndexValid(Names(ts), m)
    requires i < |ts| && j < |ts[i].fields|
    ensures ColumnTarget(ts, m, i, j).None? ==> DefineRelations(ts, m)[i].fields[j] == ts[i].fields[j]
    ensures ColumnTarget(ts, m, i, j).Some? ==>
      var k := ColumnTarget(ts, m, i, j).value;
      var r := DefineRelations(ts, m);
      var name := ts[i].fields[j].name;
      && r[i].fields[j].relatedTable == Some(ts[k].name)
      && ManyToOne(NormalizeTableName(name), ts[k].name, name) in r[i].relations
      && OneToMany(NormalizeTableName(ts[i].name), ts[i].name, name) in r[k].relations
  {
    if ColumnTarget(ts, m, i, j).Some? {
      var k := ColumnTarget(ts, m, i, j).value;
      var name := ts[i].fields[j].name;
      var cp := ColumnPushes(ts, m, i, j);
      assert cp == [Push(i, ForwardEdge(name, ts[k].name)), Push(k, ReverseEdge(ts[i].name, name))];
      ColumnPushesInAll(ts, m, i, j, cp[0]);
      ColumnPushesInAll(ts, m, i, j, cp[1]);
      EdgeInRelations(ts, m, cp[0]);
      EdgeInRelations(ts, m, cp[1]);
    }
  }

  /** Only `_id` columns take part, and a resolved column names a table whose
      name is exactly (letter case included) the column name without its last
      three characters, after the `create_by`/`created_by` alias. So
      `created_by_id` can reach `ms_user`, while a column named `created_by`
      is never a relation. */
  lemma ColumnTargetRule(ts: seq<TableDefinition>, m: map<string, nat>, i: nat, j: nat)
    requires IndexValid(Names(ts), m)
    requires i < |ts| && j < |ts[i].fields|
    ensures var name := ts[i].fields[j].name;
      && (!IsColumnId(name) ==> ColumnTarget(ts, m, i, j).None?)
      && (IsColumnId(name) ==>
            (ColumnTarget(ts, m, i, j).Some? <==> FindAlias(Candidate(name)) in Names(ts))
            && (ColumnTarget(ts, m, i, j).Some? ==>
                  ts[ColumnTarget(ts, m, i, j).value].name == FindAlias(name[..|name| - 3])))
  {
  }

  /** The override map is not consulted: a `parent_id` column looks for a table
      named `parent`, and without one it stays unresolved, although the map
      would send it to its own table. */
  lemma ParentColumnNotOverridden(ts: seq<TableDefinition>, m: map<string, nat>, i: nat, j: nat)
    requires IndexValid(Names(ts), m)
    requires i < |ts| && j < |ts[i].fields|
    requires ts[i].fields[j].name == "parent_id" && "parent" !in Names(ts)
    ensures CustomTable("parent_id", ts[i].name) == Some(ts[i].name)
    ensures ColumnTarget(ts, m, i, j).None?
    ensures DefineRelations(ts, m)[i].fields[j] == ts[i].fields[j]
  {
    var name := ts[i].fields[j].name;
    assert IsColumnId(name) by {
      assert name[|name| - 3..] == "_id";
    }
    assert Candidate(name) == "parent";
    ColumnOutcome(ts, m, i, j);
  }

  // ---------------------------------------------------------------------
  // Counting edges

  /** Σ |relations| over the first `n` tables. */
  function RelationCount(ts: seq<TableDefinition>, n: nat): nat
    requires n <= |ts|
  {
    if n == 0 then 0 else RelationCount(ts, n - 1) + |ts[n - 1].relations|
  }

  /** Number of `true` entries among the first `n`. */
  function CountTrue(bs: seq<bool>, n: nat): nat
    requires n <= |bs|
  {
    if n == 0 then 0 else CountTrue(bs, n - 1) + (if bs[n - 1] then 1 else 0)
  }

  /** Number of `true` entries in the first `n` rows. */
  function CountTrue2(bss: seq<seq<bool>>, n: nat): nat
    requires n <= |bss|
  {
    if n == 0 then 0 else CountTrue2(bss, n - 1) + CountTrue(bss[n - 1], |bss[n - 1]|)
  }

  /** Which columns resolve, table by table. */
  function Resolutions(ts: seq<TableDefinition>, m: map<string, nat>): (r: seq<seq<bool>>)
    requires IndexValid(Names(ts), m)
    ensures |r| == |ts|
    ensures forall i :: 0 <= i < |ts| ==> |r[i]| == |ts[i].fields|
  {
    seq(|ts|, i requires 0 <= i < |ts| =>
      seq(|ts[i].fields|, j requires 0 <= j < |ts[i].fields| => ColumnTarget(ts, m, i, j).Some?))
  }

  /** Number of resolving columns over all tables. */
  function Resolved(ts: seq<TableDefinition>, m: map<string, nat>): nat
    requires IndexValid(Names(ts), m)
  {
    CountTrue2(Resolutions(ts, m), |ts|)
  }

  /** Σ |EdgesFor(ps, u)| over u < n. */
  function SpreadCount(ps: seq<Push>, n: nat): nat
  {
    if n == 0 then 0 else SpreadCount(ps, n - 1) + |EdgesFor(ps, n - 1)|
  }

  lemma {:induction false} SpreadCountLast(ps: seq<Push>, p: Push, n: nat)
    ensures SpreadCount(ps + [p], n) == SpreadCount(ps, n) + (if p.target < n then 1 else 0)
  {
    if n > 0 {
      SpreadCountLast(ps, p, n - 1);
      assert (ps + [p])[..|ps + [p]| - 1] == ps;
    }
  }

  /** Every push lands on exactly one of the tables. */
  lemma {:induction false} SpreadCountAll(ps: seq<Push>, n: nat)
    requires forall x :: 0 <= x < |ps| ==> ps[x].target < n
    ensures SpreadCount(ps, n) == |ps|
  {
    if ps == [] {
      if n > 0 {
        SpreadCountAll(ps, n - 1);
      }
    } else {
      var init := ps[..|ps| - 1];
      SpreadCountAll(init, n);
      SpreadCountLast(init, ps[|ps| - 1], n);
      assert init + [ps[|ps| - 1]] == ps;
    }
  }

  /** Every push goes to a table below `bound`. */
  predicate TargetsBelow(ps: seq<Push>, bound: nat)
  {
    forall x :: 0 <= x < |ps| ==> ps[x].target < bound
  }

  lemma TargetsBelowAppend(a: seq<Push>, b: seq<Push>, bound: nat)
    requires TargetsBelow(a, bound) && TargetsBelow(b, bound)
    ensures TargetsBelow(a + b, bound)
  {
    forall x | 0 <= x < |a + b| ensures (a + b)[x].target < bound {
      if x >= |a| {
        assert (a + b)[x] == b[x - |a|];
      }
    }
  }

  lemma ColumnPushesCount(ts: seq<TableDefinition>, m: map<string, nat>, i: nat, j: nat)
    requires IndexValid(Names(ts), m)
    requires i < |ts| && j < |ts[i].fields|
    ensures |ColumnPushes(ts, m, i, j)| == if ColumnTarget(ts, m, i, j).Some? then 2 else 0
    ensures TargetsBelow(ColumnPushes(ts, m, i, j), |ts|)
  {
    match ColumnTarget(ts, m, i, j)
    case None =>
    case Some(k) =>
      var cp := ColumnPushes(ts, m, i, j);
      assert cp[0].target == i && cp[1].target == k;
  }

  lemma {:induction false} FlatTargets(parts: seq<seq<Push>>, n: nat, bound: nat)
    requires n <= |parts|
    requires forall j :: 0 <= j < n ==> TargetsBelow(parts[j], bound)
    ensures TargetsBelow(Flat(parts, n), bound)
  {
    if n > 0 {
      FlatTargets(parts, n - 1, bound);
      TargetsBelowAppend(Flat(parts, n - 1), parts[n - 1], bound);
    }
  }

  lemma {:induction false} Flat2Targets(groups: seq<seq<seq<Push>>>, n: nat, bound: nat)
    requires n <= |groups|
    requires forall i, j :: 0 <= i < n && 0 <= j < |groups[i]| ==> TargetsBelow(groups[i][j], bound)
    ensures TargetsBelow(Flat2(groups, n), bound)
  {
    if n > 0 {
      Flat2Targets(groups, n - 1, bound);
      FlatTargets(groups[n - 1], |groups[n - 1]|, bound);
      TargetsBelowAppend(Flat2(groups, n - 1), Flat(groups[n - 1], |groups[n - 1]|), bound);
    }
  }

  /** Every push goes to one of the tables. */
  lemma AllPushesTargets(ts: seq<TableDefinition>, m: map<string, nat>)
    requires IndexValid(Names(ts), m)
    ensures TargetsBelow(AllPushes(ts, m, |ts|), |ts|)
  {
    var plan := Plan(ts, m);
    forall i, j | 0 <= i < |ts| && 0 <= j < |plan[i]| ensures TargetsBelow(plan[i][j], |ts|) {
      PlanAt(ts, m, i, j);
      ColumnPushesCount(ts, m, i, j);
    }
    Flat2Targets(plan, |ts|, |ts|);
  }

  /** Parts of length two where `hits` is set and empty elsewhere
      concatenate to twice the number of hits. */
  lemma {:induction false} FlatPairs<X>(parts: seq<seq<X>>, hits: seq<bool>, n: nat)
    requires n <= |parts| == |hits|
    requires forall j :: 0 <= j < n ==> |parts[j]| == if hits[j] then 2 else 0
    ensures |Flat(parts, n)| == 2 * CountTrue(hits, n)
  {
    if n > 0 {
      FlatPairs(parts, hits, n - 1);
    }
  }

  lemma {:induction false} Flat2Pairs<X>(groups: seq<seq<seq<X>>>, hits: seq<seq<bool>>, n: nat)
    requires n <= |groups| == |hits|
    requires forall i :: 0 <= i < n ==> |groups[i]| == |hits[i]|
    requires forall i, j :: 0 <= i < n && 0 <= j < |groups[i]| ==> |groups[i][j]| == if hits[i][j] then 2 else 0
    ensures |Flat2(groups, n)| == 2 * CountTrue2(hits, n)
  {
    if n > 0 {
      Flat2Pairs(groups, hits, n - 1);
      FlatPairs(groups[n - 1], hits[n - 1], |groups[n - 1]|);
    }
  }

  /** Every resolving column contributes two pushes, every other none. */
  lemma AllPushesCount(ts: seq<TableDefinition>, m: map<string, nat>)
    requires IndexValid(Names(ts), m)
    ensures |AllPushes(ts, m, |ts|)| == 2 * Resolved(ts, m)
  {
    var plan, hits := Plan(ts, m), Resolutions(ts, m);
    forall i, j | 0 <= i < |ts| && 0 <= j < |plan[i]|
      ensures |plan[i][j]| == if hits[i][j] then 2 else 0
    {
      PlanAt(ts, m, i, j);
      ColumnPushesCount(ts, m, i, j);
    }
    Flat2Pairs(plan, hits, |ts|);
  }

  lemma {:induction false} RelationCountExtended(ts: seq<TableDefinition>, r: seq<TableDefinition>, ps: seq<Push>, n: nat)
    requires n <= |ts| == |r|
    requires forall u :: 0 <= u < |ts| ==> r[u].relations == ts[u].relations + EdgesFor(ps, u)
    ensures RelationCount(r, n) == RelationCount(ts, n) + SpreadCount(ps, n)
  {
    if n > 0 {
      RelationCountExtended(ts, r, ps, n - 1);
    }
  }

  /** Appending the pushes `ps` to tables that all exist adds `|ps|` edges. */
  lemma RelationCountPushed(ts: seq<TableDefinition>, r: seq<TableDefinition>, ps: seq<Push>, n: nat)
    requires n == |ts| == |r| && TargetsBelow(ps, n)
    requires forall u :: 0 <= u < n ==> r[u].relations == ts[u].relations + EdgesFor(ps, u)
    ensures RelationCount(r, n) == RelationCount(ts, n) + |ps|
  {
    RelationCountExtended(ts, r, ps, n);
    SpreadCountAll(ps, n);
  }

  /** No deduplication: every resolving column adds exactly two edges, so the
      total number of edges grows by twice the number of resolving columns. */
  lemma EdgeCount(ts: seq<TableDefinition>, m: map<string, nat>, n: nat)
    requires IndexValid(Names(ts), m) && n == |ts|
    ensures RelationCount(DefineRelations(ts, m), n) == RelationCount(ts, n) + 2 * Resolved(ts, m)
  {
    var all := AllPushes(ts, m, n);
    AllPushesCount(ts, m);
    AllPushesTargets(ts, m);
    RelationCountPushed(ts, DefineRelations(ts, m), all, n);
  }

  // ---------------------------------------------------------------------
  // Running the inference twice

  /** Two table lists that agree on everything the walk reads: table names
      and column names. */
  predicate SameShape(ts: seq<TableDefinition>, us: seq<TableDefinition>)
  {
    && |ts| == |us|
    && (forall u :: 0 <= u < |ts| ==> ts[u].name == us[u].name && |ts[u].fields| == |us[u].fields|)
    && (forall u, c :: 0 <= u < |ts| && 0 <= c < |ts[u].fields| ==> ts[u].fields[c].name == us[u].fields[c].name)
  }

  lemma ColumnPushesShape(ts: seq<TableDefinition>, us: seq<TableDefinition>, m: map<string, nat>, i: nat, j: nat)
    requires SameShape(ts, us) && IndexValid(Names(ts), m)
    requires i < |ts| && j < |ts[i].fields|
    ensures Names(ts) == Names(us)
    ensures ColumnPushes(ts, m, i, j) == ColumnPushes(us, m, i, j)
  {
    assert Names(ts) == Names(us);
    assert ColumnTarget(ts, m, i, j) == ColumnTarget(us, m, i, j);
  }

  lemma PlanShape(ts: seq<TableDefinition>, us: seq<TableDefinition>, m: map<string, nat>)
    requires SameShape(ts, us) && IndexValid(Names(ts), m)
    ensures Names(ts) == Names(us)
    ensures Plan(ts, m) == Plan(us, m)
  {
    assert Names(ts) == Names(us);
    var a, b := Plan(ts, m), Plan(us, m);
    forall i | 0 <= i < |ts| ensures a[i] == b[i] {
      forall j | 0 <= j < |a[i]| ensures a[i][j] == b[i][j] {
        ColumnPushesShape(ts, us, m, i, j);
      }
    }
  }

  /** Running the inference a second time finds the same columns again and
      appends every edge a second time: there is no deduplication. */
  lemma RunTwice(ts: seq<TableDefinition>, m: map<string, nat>)
    requires IndexValid(Names(ts), m)
    ensures IndexValid(Names(DefineRelations(ts, m)), m)
    ensures forall u :: 0 <= u < |ts| ==>
      var e := EdgesFor(AllPushes(ts, m, |ts|), u);
      DefineRelations(DefineRelations(ts, m), m)[u].relations == ts[u].relations + e + e
  {
    var once := DefineRelations(ts, m);
    assert SameShape(ts, once);
    PlanShape(ts, once, m);
  }
}
