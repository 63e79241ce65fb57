/** The data-dictionary export of index.js: the tables are sorted by how many
    relations they have, then laid out on one worksheet, one block per table.
    The worksheet is a map from (column letter, row number) to cell value. */
module DataDictionary {
  import opened JsValues
  import opened TableUtils
  import opened Definitions

  // ---------------------------------------------------------------------
  // Sorting by relation count

  function RelationWeight(t: TableDefinition): nat
  {
    |t.relations|
  }

  predicate SortedByRelations(s: seq<TableDefinition>)
  {
    forall x, y :: 0 <= x < y < |s| ==> RelationWeight(s[x]) <= RelationWeight(s[y])
  }

  /** The tables of `s` with exactly `w` relations, in their order in `s`. */
  function WithWeight(s: seq<TableDefinition>, w: nat): seq<TableDefinition>
  {
    if s == [] then []
    else WithWeight(s[..|s| - 1], w) + (if RelationWeight(s[|s| - 1]) == w then [s[|s| - 1]] else [])
  }

  /** Tables with equally many relations appear in the same relative order,
      which is what a stable sort keeps. */
  ghost predicate SameTieOrder(s: seq<TableDefinition>, t: seq<TableDefinition>)
  {
    forall w :: WithWeight(s, w) == WithWeight(t, w)
  }

  lemma {:induction false} WithWeightAppend(a: seq<TableDefinition>, b: seq<TableDefinition>, w: nat)
    ensures WithWeight(a + b, w) == WithWeight(a, w) + WithWeight(b, w)
    decreases |b|
  {
    if b == [] {
      assert a + b == a;
    } else {
      var b' := b[..|b| - 1];
      assert (a + b)[..|a + b| - 1] == a + b';
      WithWeightAppend(a, b', w);
    }
  }

  lemma {:induction false} WithWeightIn(s: seq<TableDefinition>, w: nat, z: TableDefinition)
    requires z in WithWeight(s, w)
    ensures z in s && RelationWeight(z) == w
    decreases |s|
  {
    var s' := s[..|s| - 1];
    if z in WithWeight(s', w) {
      WithWeightIn(s', w, z);
    }
  }

  lemma TieOrderTrans(s: seq<TableDefinition>, t: seq<TableDefinition>, u: seq<TableDefinition>)
    requires SameTieOrder(s, t) && SameTieOrder(t, u)
    ensures SameTieOrder(s, u)
  {
  }

  /** Exchanging two neighbours with different relation counts keeps the
      order among ties. */
  lemma SwapKeepsTieOrder(s: seq<TableDefinition>, j: nat)
    requires 0 < j < |s| && RelationWeight(s[j - 1]) != RelationWeight(s[j])
    ensures SameTieOrder(s[j - 1 := s[j]][j := s[j - 1]], s)
  {
    var pre, post := s[..j - 1], s[j + 1..];
    var swapped := s[j - 1 := s[j]][j := s[j - 1]];
    assert s == pre + [s[j - 1], s[j]] + post;
    assert swapped == pre + [s[j], s[j - 1]] + post;
    forall w
      ensures WithWeight(swapped, w) == WithWeight(s, w)
    {
      WithWeightAppend(pre + [s[j - 1], s[j]], post, w);
      WithWeightAppend(pre, [s[j - 1], s[j]], w);
      WithWeightAppend(pre + [s[j], s[j - 1]], post, w);
      WithWeightAppend(pre, [s[j], s[j - 1]], w);
      assert [s[j - 1], s[j]][..1] == [s[j - 1]];
      assert [s[j], s[j - 1]][..1] == [s[j]];
    }
  }

  /** Dropping the same last table from two sequences keeps their tie order. */
  lemma DropLastKeepsTieOrder(s: seq<TableDefinition>, t: seq<TableDefinition>)
    requires s != [] && t != [] && s[|s| - 1] == t[|t| - 1] && SameTieOrder(s, t)
    ensures SameTieOrder(s[..|s| - 1], t[..|t| - 1])
  {
    var s', t', x := s[..|s| - 1], t[..|t| - 1], s[|s| - 1];
    forall w
      ensures WithWeight(s', w) == WithWeight(t', w)
    {
      var tail := if RelationWeight(x) == w then [x] else [];
      assert WithWeight(s, w) == WithWeight(s', w) + tail;
      assert WithWeight(t, w) == WithWeight(t', w) + tail;
      assert WithWeight(s', w) == WithWeight(s, w)[..|WithWeight(s, w)| - |tail|];
      assert WithWeight(t', w) == WithWeight(t, w)[..|WithWeight(t, w)| - |tail|];
    }
  }

  /** A non-empty sequence has a tie class holding its last table. */
  lemma LastHasTies(s: seq<TableDefinition>)
    requires s != []
    ensures WithWeight(s, RelationWeight(s[|s| - 1])) != []
  {
  }

  /** Two sorted sequences with the same tie order end in the same table. */
  lemma SameLast(s: seq<TableDefinition>, t: seq<TableDefinition>)
    requires s != [] && t != []
    requires SortedByRelations(s) && SortedByRelations(t) && SameTieOrder(s, t)
    ensures s[|s| - 1] == t[|t| - 1]
  {
    var x, y := s[|s| - 1], t[|t| - 1];
    var wx, wy := RelationWeight(x), RelationWeight(y);
    assert WithWeight(s, wx) == WithWeight(s[..|s| - 1], wx) + [x];
    assert WithWeight(t, wy) == WithWeight(t[..|t| - 1], wy) + [y];
    assert wx <= wy by {
      assert x in WithWeight(t, wx);
      WithWeightIn(t, wx, x);
      var k :| 0 <= k < |t| && t[k] == x;
    }
    assert wy <= wx by {
      assert y in WithWeight(s, wy);
      WithWeightIn(s, wy, y);
      var k :| 0 <= k < |s| && s[k] == y;
    }
    var e := WithWeight(s, wx);
    assert e == WithWeight(t, wx);
    assert x == e[|e| - 1] == y;
  }

  /** A sorted arrangement is determined by its order among ties: two sorted
      sequences with the same tie order are equal. */
  lemma {:induction false} TieOrderDetermines(s: seq<TableDefinition>, t: seq<TableDefinition>)
    requires SortedByRelations(s) && SortedByRelations(t) && SameTieOrder(s, t)
    ensures s == t
    decreases |s| + |t|
  {
    if s == [] || t == [] {
      if s != [] {
        LastHasTies(s);
      } else if t != [] {
        LastHasTies(t);
      }
    } else {
      SameLast(s, t);
      DropLastKeepsTieOrder(s, t);
      TieOrderDetermines(s[..|s| - 1], t[..|t| - 1]);
      assert s == s[..|s| - 1] + [s[|s| - 1]];
      assert t == t[..|t| - 1] + [t[|t| - 1]];
    }
  }

  /** Exchanges two neighbours, which keeps the multiset of elements. */
  method Swap(a: array<TableDefinition>, j: nat)
    requires 0 < j < a.Length
    modifies a
    ensures a[..] == old(a[..])[j - 1 := old(a[j])][j := old(a[j - 1])]
    ensures a[j - 1] == old(a[j]) && a[j] == old(a[j - 1])
    ensures forall x :: 0 <= x < a.Length && x != j - 1 && x != j ==> a[x] == old(a[x])
    ensures multiset(a[..]) == multiset(old(a[..]))
    ensures RelationWeight(old(a[j - 1])) != RelationWeight(old(a[j])) ==> SameTieOrder(a[..], old(a[..]))
  {
    ghost var before := a[..];
    a[j - 1], a[j] := a[j], a[j - 1];
    if RelationWeight(before[j - 1]) != RelationWeight(before[j]) {
      assert a[..] == before[j - 1 := before[j]][j := before[j - 1]];
      SwapKeepsTieOrder(before, j);
    }
  }

  /** One insertion step: the element at `i` sinks into the sorted prefix
      before it, by swaps with larger neighbours. */
  method Insert(a: array<TableDefinition>, i: nat)
    requires i < a.Length && SortedByRelations(a[..i])
    modifies a
    ensures SortedByRelations(a[..i + 1])
    ensures a[i + 1..] == old(a[i + 1..])
    ensures multiset(a[..]) == multiset(old(a[..]))
    ensures SameTieOrder(a[..], old(a[..]))
  {
    var j := i;
    while j > 0 && RelationWeight(a[j - 1]) > RelationWeight(a[j])
      invariant 0 <= j <= i
      invariant forall x, y :: 0 <= x < y <= i && x != j && y != j ==> RelationWeight(a[x]) <= RelationWeight(a[y])
      invariant forall y :: j < y <= i ==> RelationWeight(a[j]) < RelationWeight(a[y])
      invariant a[i + 1..] == old(a[i + 1..])
      invariant multiset(a[..]) == multiset(old(a[..]))
      invariant SameTieOrder(a[..], old(a[..]))
    {
      ghost var before := a[..];
      Swap(a, j);
      TieOrderTrans(a[..], before, old(a[..]));
      j := j - 1;
    }
  }

  /** `tables.sort((a, b) => a.relations.length - b.relations.length)`:
      ascending by number of relations, a permutation of the input, and
      stable: tables with equally many relations keep their order. */
  method SortByRelationCount(a: array<TableDefinition>)
    modifies a
    ensures SortedByRelations(a[..])
    ensures multiset(a[..]) == multiset(old(a[..]))
    ensures SameTieOrder(a[..], old(a[..]))
  {
    var i := 0;
    while i < a.Length
      invariant 0 <= i <= a.Length
      invariant SortedByRelations(a[..i])
      invariant multiset(a[..]) == multiset(old(a[..]))
      invariant SameTieOrder(a[..], old(a[..]))
    {
      ghost var before := a[..];
      Insert(a, i);
      TieOrderTrans(a[..], before, old(a[..]));
      i := i + 1;
    }
    assert a[..] == a[..a.Length];
  }

  /** The loaded tables pushed into a fresh list and sorted there. */
  method PrepareTables(results: seq<TableDefinition>) returns (sorted: seq<TableDefinition>)
    ensures SortedByRelations(sorted)
    ensures multiset(sorted) == multiset(results)
    ensures SameTieOrder(sorted, results)
  {
    var a := new TableDefinition[|results|](x requires 0 <= x < |results| => results[x]);
    assert a[..] == results;
    SortByRelationCount(a);
    sorted := a[..];
  }

  // ---------------------------------------------------------------------
  // Worksheet layout

  /** A worksheet cell address such as `C7`. */
  datatype Cell = Cell(column: char, row: nat)

  type Sheet = map<Cell, JsValue>

  /** `field.type.type`; a column whose type string was empty holds `""`,
      whose `type` key is undefined. */
  function TypeCell(f: ColumnDefinition): JsValue
  {
    match f.columnType
    case None => Undefined
    case Some(t) => Str(t.typeName)
  }

  /** `field.type.length || ""`; for an empty type string `"".length` is 0,
      which is falsy. */
  function LengthCell(f: ColumnDefinition): JsValue
  {
    match f.columnType
    case None => Str("")
    case Some(t) =>
      match t.length
      case None => Str("")
      case Some(v) => Or(v, Str(""))
  }

  function RelatedCell(f: ColumnDefinition): JsValue
  {
    match f.relatedTable
    case None => Str("")
    case Some(name) => Str(name)
  }

  /** The worksheet columns a block uses. */
  predicate SheetColumn(col: char)
  {
    'A' <= col <= 'F'
  }

  /** The header label in column `col` of a block's second row. */
  function HeaderValue(col: char): JsValue
    requires SheetColumn(col)
  {
    if col == 'A' then Str("Field Name")
    else if col == 'B' then Str("Type")
    else if col == 'C' then Str("Max Length")
    else if col == 'D' then Str("Required")
    else if col == 'E' then Str("Default Value")
    else Str("Related Table")
  }

  /** What column `col` of a field's row shows: name, type, length (or ""),
      `YES`/`NO` for required, default (or ""), related table (or ""). */
  function FieldValue(f: ColumnDefinition, col: char): JsValue
    requires SheetColumn(col)
  {
    if col == 'A' then Str(f.name)
    else if col == 'B' then TypeCell(f)
    else if col == 'C' then LengthCell(f)
    else if col == 'D' then Str(if f.required then "YES" else "NO")
    else if col == 'E' then Or(f.defaultValue, Str(""))
    else RelatedCell(f)
  }

  /** The header row of a block written at `row`. */
  function WriteHeader(sheet: Sheet, row: nat): Sheet
  {
    sheet[Cell('A', row) := Str("Field Name")][Cell('B', row) := Str("Type")]
         [Cell('C', row) := Str("Max Length")][Cell('D', row) := Str("Required")]
         [Cell('E', row) := Str("Default Value")][Cell('F', row) := Str("Related Table")]
  }

  /** The row of one field written at `row`. */
  function WriteField(sheet: Sheet, f: ColumnDefinition, row: nat): Sheet
  {
    sheet[Cell('A', row) := Str(f.name)][Cell('B', row) := TypeCell(f)]
         [Cell('C', row) := LengthCell(f)][Cell('D', row) := Str(if f.required then "YES" else "NO")]
         [Cell('E', row) := Or(f.defaultValue, Str(""))][Cell('F', row) := RelatedCell(f)]
  }

  /** The rows of the first `n` fields, the first at `row`. */
  function WriteFields(sheet: Sheet, fields: seq<ColumnDefinition>, row: nat, n: nat): Sheet
    requires n <= |fields|
  {
    if n == 0 then sheet else WriteField(WriteFields(sheet, fields, row, n - 1), fields[n - 1], row + n - 1)
  }

  /** The block of one table whose name goes in row `row`. */
  function WriteTable(sheet: Sheet, t: TableDefinition, row: nat): Sheet
  {
    WriteFields(WriteHeader(sheet[Cell('A', row) := Str(t.name)], row + 1), t.fields, row + 2, |t.fields|)
  }

  /** The row holding the name of the `k`-th table. */
  function BlockStart(ts: seq<TableDefinition>, k: nat): (r: nat)
    requires k <= |ts|
    ensures r >= 1
  {
    if k == 0 then 1 else BlockStart(ts, k - 1) + |ts[k - 1].fields| + 3
  }

  /** The worksheet after the first `n` tables. */
  function Worksheet(ts: seq<TableDefinition>, n: nat): Sheet
    requires n <= |ts|
  {
    if n == 0 then map[] else WriteTable(Worksheet(ts, n - 1), ts[n - 1], BlockStart(ts, n - 1))
  }

  /** `createWorkbook`: a running row counter walks the tables and their
      columns, writing each block. */
  method CreateWorkbook(tables: seq<TableDefinition>) returns (sheet: Sheet)
    ensures sheet == Worksheet(tables, |tables|)
  {
    sheet := map[];
    var row := 1;
    for k := 0 to |tables|
      invariant row == BlockStart(tables, k)
      invariant sheet == Worksheet(tables, k)
    {
      var table := tables[k];
      sheet := sheet[Cell('A', row) := Str(table.name)];
      row := row + 1;
      sheet := sheet[Cell('A', row) := Str("Field Name")][Cell('B', row) := Str("Type")]
                    [Cell('C', row) := Str("Max Length")][Cell('D', row) := Str("Required")]
                    [Cell('E', row) := Str("Default Value")][Cell('F', row) := Str("Related Table")];
      ghost var header := sheet;
      for i := 0 to |table.fields|
        invariant row == BlockStart(tables, k) + 1 + i
        invariant sheet == WriteFields(header, table.fields, BlockStart(tables, k) + 2, i)
      {
        row := row + 1;
        var field := table.fields[i];
        sheet := sheet[Cell('A', row) := Str(field.name)][Cell('B', row) := TypeCell(field)]
                      [Cell('C', row) := LengthCell(field)][Cell('D', row) := Str(if field.required then "YES" else "NO")]
                      [Cell('E', row) := Or(field.defaultValue, Str(""))][Cell('F', row) := RelatedCell(field)];
      }
      row := row + 2;
    }
  }

  /** Whether cell `c` of `after` is as in `before` (present there exactly
      when present here, with the same value). */
  predicate SameCell(before: Sheet, after: Sheet, c: Cell)
  {
    (c in after <==> c in before) && (c in before ==> after[c] == before[c])
  }

  lemma HeaderOther(sheet: Sheet, row: nat, c: Cell)
    requires c.row != row
    ensures SameCell(sheet, WriteHeader(sheet, row), c)
  {
  }

  lemma HeaderRead(sheet: Sheet, row: nat, col: char)
    requires SheetColumn(col)
    ensures Cell(col, row) in WriteHeader(sheet, row) && WriteHeader(sheet, row)[Cell(col, row)] == HeaderValue(col)
  {
  }

  lemma FieldOther(sheet: Sheet, f: ColumnDefinition, row: nat, c: Cell)
    requires c.row != row
    ensures SameCell(sheet, WriteField(sheet, f, row), c)
  {
  }

  lemma FieldRead(sheet: Sheet, f: ColumnDefinition, row: nat, col: char)
    requires SheetColumn(col)
    ensures Cell(col, row) in WriteField(sheet, f, row) && WriteField(sheet, f, row)[Cell(col, row)] == FieldValue(f, col)
  {
  }

  /** Writing field rows leaves the other rows alone. */
  lemma {:induction false} FieldsOther(sheet: Sheet, fields: seq<ColumnDefinition>, row: nat, n: nat, c: Cell)
    requires n <= |fields|
    requires c.row < row || c.row >= row + n
    ensures SameCell(sheet, WriteFields(sheet, fields, row, n), c)
  {
    if n > 0 {
      FieldsOther(sheet, fields, row, n - 1, c);
      FieldOther(WriteFields(sheet, fields, row, n - 1), fields[n - 1], row + n - 1, c);
    }
  }

  /** Field `i` is in row `row + i`, and later field rows do not disturb it. */
  lemma {:induction false} FieldsRead(sheet: Sheet, fields: seq<ColumnDefinition>, row: nat, n: nat, i: nat, col: char)
    requires i < n <= |fields| && SheetColumn(col)
    ensures var w := WriteFields(sheet, fields, row, n);
      Cell(col, row + i) in w && w[Cell(col, row + i)] == FieldValue(fields[i], col)
  {
    if i == n - 1 {
      FieldRead(WriteFields(sheet, fields, row, n - 1), fields[i], row + i, col);
    } else {
      FieldsRead(sheet, fields, row, n - 1, i, col);
      FieldOther(WriteFields(sheet, fields, row, n - 1), fields[n - 1], row + n - 1, Cell(col, row + i));
    }
  }

  /** Writing a block touches only rows `row` to `row + |fields| + 1`. */
  lemma TableOther(sheet: Sheet, t: TableDefinition, row: nat, c: Cell)
    requires c.row < row || c.row >= row + |t.fields| + 2
    ensures SameCell(sheet, WriteTable(sheet, t, row), c)
  {
    var named := sheet[Cell('A', row) := Str(t.name)];
    HeaderOther(named, row + 1, c);
    FieldsOther(WriteHeader(named, row + 1), t.fields, row + 2, |t.fields|, c);
  }

  /** A cell a block adds lies in the block's rows. */
  lemma TableRows(sheet: Sheet, t: TableDefinition, row: nat, c: Cell)
    requires c in WriteTable(sheet, t, row)
    ensures c in sheet || row <= c.row < row + |t.fields| + 2
  {
    if c.row < row || c.row >= row + |t.fields| + 2 {
      TableOther(sheet, t, row, c);
    }
  }

  lemma EmptyWorksheet(ts: seq<TableDefinition>)
    ensures Worksheet(ts, 0) == map[]
  {
  }

  /** A cell of the sheet after block `n - 1` was there before or lies in
      the rows of that block. */
  lemma WorksheetGrows(ts: seq<TableDefinition>, n: nat, c: Cell)
    requires 0 < n <= |ts| && c in Worksheet(ts, n)
    ensures c in Worksheet(ts, n - 1) || BlockStart(ts, n - 1) <= c.row < BlockStart(ts, n) - 1
  {
    TableRows(Worksheet(ts, n - 1), ts[n - 1], BlockStart(ts, n - 1), c);
  }

  /** Every cell of the first `n` blocks lies above the next block's blank
      separator row. */
  lemma {:induction false} WorksheetRow(ts: seq<TableDefinition>, n: nat, c: Cell)
    requires n <= |ts|
    requires c in Worksheet(ts, n)
    ensures c.row < BlockStart(ts, n) - 1
  {
    if n == 0 {
      EmptyWorksheet(ts);
    } else {
      WorksheetGrows(ts, n, c);
      if c in Worksheet(ts, n - 1) {
        WorksheetRow(ts, n - 1, c);
      }
    }
  }

  lemma {:induction false} BlockStartMonotone(ts: seq<TableDefinition>, k: nat, n: nat)
    requires k <= n <= |ts|
    ensures BlockStart(ts, k) <= BlockStart(ts, n)
  {
    if k < n {
      BlockStartMonotone(ts, k, n - 1);
    }
  }

  /** Block `k` leaves the rows above it alone. */
  lemma WorksheetFrame(ts: seq<TableDefinition>, n: nat, c: Cell)
    requires 0 < n <= |ts| && c.row < BlockStart(ts, n - 1)
    ensures SameCell(Worksheet(ts, n - 1), Worksheet(ts, n), c)
  {
    TableOther(Worksheet(ts, n - 1), ts[n - 1], BlockStart(ts, n - 1), c);
  }

  /** Later blocks leave the rows of block `k` as that block wrote them. */
  lemma {:induction false} LaterBlocksFrame(ts: seq<TableDefinition>, k: nat, n: nat, c: Cell)
    requires k < n <= |ts|
    requires c.row < BlockStart(ts, k + 1)
    ensures SameCell(Worksheet(ts, k + 1), Worksheet(ts, n), c)
  {
    if k + 1 < n {
      LaterBlocksFrame(ts, k, n - 1, c);
      BlockStartMonotone(ts, k + 1, n - 1);
      WorksheetFrame(ts, n, c);
    }
  }

  /** What the block of table `t` whose name is in row `row` shows in cell
      `c`, written cell by cell: the name in A of the first row, the header
      labels in A-F of the second, field `i` in A-F of row `row + 2 + i`, and
      nothing elsewhere (in particular nothing in row `row + |fields| + 2`). */
  function BlockCell(t: TableDefinition, row: nat, c: Cell): Option<JsValue>
  {
    if c.row == row then (if c.column == 'A' then Some(Str(t.name)) else None)
    else if c.row == row + 1 then (if SheetColumn(c.column) then Some(HeaderValue(c.column)) else None)
    else if row + 2 <= c.row < row + 2 + |t.fields| && SheetColumn(c.column) then
      Some(FieldValue(t.fields[c.row - row - 2], c.column))
    else None
  }

  /** A cell as a sheet shows it. */
  function Shown(sheet: Sheet, c: Cell): Option<JsValue>
  {
    if c in sheet then Some(sheet[c]) else None
  }

  lemma HeaderOtherColumn(sheet: Sheet, row: nat, c: Cell)
    requires !SheetColumn(c.column)
    ensures SameCell(sheet, WriteHeader(sheet, row), c)
  {
  }

  lemma {:induction false} FieldsOtherColumn(sheet: Sheet, fields: seq<ColumnDefinition>, row: nat, n: nat, c: Cell)
    requires n <= |fields| && !SheetColumn(c.column)
    ensures SameCell(sheet, WriteFields(sheet, fields, row, n), c)
  {
    if n > 0 {
      FieldsOtherColumn(sheet, fields, row, n - 1, c);
    }
  }

  lemma BlockUnfold(ts: seq<TableDefinition>, k: nat)
    requires k < |ts|
    ensures Worksheet(ts, k + 1) == WriteTable(Worksheet(ts, k), ts[k], BlockStart(ts, k))
  {
  }

  /** The name row and the header row of a block written over a cell that
      was empty. */
  lemma TableCellHead(sheet: Sheet, t: TableDefinition, row: nat, c: Cell)
    requires c !in sheet && row <= c.row < row + 2
    ensures Shown(WriteTable(sheet, t, row), c) == BlockCell(t, row, c)
  {
    var named := sheet[Cell('A', row) := Str(t.name)];
    FieldsOther(WriteHeader(named, row + 1), t.fields, row + 2, |t.fields|, c);
    if c.row == row + 1 && SheetColumn(c.column) {
      HeaderRead(named, row + 1, c.column);
    } else if c.row == row + 1 {
      HeaderOtherColumn(named, row + 1, c);
    } else {
      HeaderOther(named, row + 1, c);
    }
  }

  /** The field rows and the blank row of a block written over a cell that
      was empty. */
  lemma TableCellBody(sheet: Sheet, t: TableDefinition, row: nat, c: Cell)
    requires c !in sheet && row + 2 <= c.row < row + |t.fields| + 3
    ensures Shown(WriteTable(sheet, t, row), c) == BlockCell(t, row, c)
  {
    var named := sheet[Cell('A', row) := Str(t.name)];
    var header := WriteHeader(named, row + 1);
    HeaderOther(named, row + 1, c);
    if c.row >= row + 2 + |t.fields| {
      FieldsOther(header, t.fields, row + 2, |t.fields|, c);
    } else if SheetColumn(c.column) {
      FieldsRead(header, t.fields, row + 2, |t.fields|, c.row - row - 2, c.column);
    } else {
      FieldsOtherColumn(header, t.fields, row + 2, |t.fields|, c);
    }
  }

  /** Block `k` right after it is written shows exactly its block cells. */
  lemma BlockWritten(ts: seq<TableDefinition>, k: nat, c: Cell)
    requires k < |ts|
    requires BlockStart(ts, k) <= c.row < BlockStart(ts, k + 1)
    ensures Shown(Worksheet(ts, k + 1), c) == BlockCell(ts[k], BlockStart(ts, k), c)
  {
    BlockUnfold(ts, k);
    if c in Worksheet(ts, k) {
      WorksheetRow(ts, k, c);
    }
    if c.row < BlockStart(ts, k) + 2 {
      TableCellHead(Worksheet(ts, k), ts[k], BlockStart(ts, k), c);
    } else {
      TableCellBody(Worksheet(ts, k), ts[k], BlockStart(ts, k), c);
    }
  }

  /** The finished worksheet shows, in the rows of block `k`, exactly what
      that block writes; the next block starts three rows after the last
      field. */
  lemma WorksheetCell(ts: seq<TableDefinition>, k: nat, c: Cell)
    requires k < |ts|
    requires BlockStart(ts, k) <= c.row < BlockStart(ts, k + 1)
    ensures Shown(Worksheet(ts, |ts|), c) == BlockCell(ts[k], BlockStart(ts, k), c)
    ensures BlockStart(ts, k + 1) == BlockStart(ts, k) + |ts[k].fields| + 3
  {
    BlockWritten(ts, k, c);
    LaterBlocksFrame(ts, k, |ts|, c);
  }

  /** No cell at or below the last block's blank row is written. */
  lemma AfterLastBlock(ts: seq<TableDefinition>, c: Cell)
    requires c.row >= BlockStart(ts, |ts|) - 1
    ensures Shown(Worksheet(ts, |ts|), c) == None
  {
    if c in Worksheet(ts, |ts|) {
      WorksheetRow(ts, |ts|, c);
    }
  }

  // ---------------------------------------------------------------------
  // Output files

  /** `args.path || './'`. */
  function SavePath(path: string): (r: string)
    ensures r != ""
    ensures path != "" ==> r == path
  {
    if path != "" then path else "./"
  }

  /** `args.file || dbName`. */
  function FileName(file: string, dbName: string): (r: string)
    ensures file != "" ==> r == file
    ensures file == "" ==> r == dbName
  {
    if file != "" then file else dbName
  }

  function WorkbookPath(path: string, file: string, dbName: string): string
  {
    SavePath(path) + FileName(file, dbName) + ".xlsx"
  }

  function StructurePath(path: string, file: string, dbName: string): string
  {
    SavePath(path) + FileName(file, dbName) + ".json"
  }

  /** The workbook and the JSON structure share their directory and base
      name and differ in extension; with neither option given they are
      `./<database>.xlsx` and `./<database>.json`. */
  lemma OutputPaths(path: string, file: string, dbName: string)
    ensures var w, s := WorkbookPath(path, file, dbName), StructurePath(path, file, dbName);
      && w[..|w| - 5] == SavePath(path) + FileName(file, dbName) && w[|w| - 5..] == ".xlsx"
      && s[..|s| - 5] == SavePath(path) + FileName(file, dbName) && s[|s| - 5..] == ".json"
      && w != s
    ensures WorkbookPath("", "", dbName) == "./" + dbName + ".xlsx"
    ensures StructurePath("", "", dbName) == "./" + dbName + ".json"
  {
    var w, s := WorkbookPath(path, file, dbName), StructurePath(path, file, dbName);
    assert w[|w| - 5..] == ".xlsx";
    assert s[|s| - 5..] == ".json";
    assert w[|w| - 4] != s[|s| - 4];
  }
}
