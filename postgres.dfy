/** The PostgreSQL client of postgres.js, from the rows of its
    `INFORMATION_SCHEMA.COLUMNS` query onwards. */
module PostgresClient {
  import opened JsValues
  import opened TableUtils
  import opened Definitions
  import MySqlClient

  /** A row of the columns query: `column_name`, `data_type`, `is_nullable`
      and `column_default` (`None` is SQL NULL). */
  datatype ColumnRow = ColumnRow(columnName: string, dataType: string, isNullable: string, columnDefault: Option<string>)

  /** `createFieldDefinition(row)`; a missing row (`None`) gives `null`. */
  function CreateFieldDefinition(row: Option<ColumnRow>): (c: Option<ColumnDefinition>)
    ensures c.None? <==> row.None?
    ensures row.Some? ==> c.value.name == row.value.columnName && c.value.relatedTable.None?
    ensures row.Some? ==> c.value.columnType == ParseType(row.value.dataType)
    ensures row.Some? ==> (c.value.required <==> row.value.isNullable != "NO")
    ensures row.Some? ==> c.value.defaultValue == TryParseInt(row.value.columnDefault, Undefined)
  {
    match row
    case None => None
    case Some(r) =>
      Some(ColumnDefinition(r.columnName, ParseType(r.dataType), r.isNullable != "NO", TryParseInt(r.columnDefault, Undefined), None))
  }

  /** `items.filter(item => item)` on a list of optional records: the present
      ones, in order. */
  function Compact<T(!new)>(items: seq<Option<T>>): (r: seq<T>)
    ensures |r| <= |items|
    ensures forall x :: x in r <==> Some(x) in items
  {
    if items == [] then []
    else
      var rest := Compact(items[1..]);
      assert forall x :: Some(x) in items <==> items[0] == Some(x) || Some(x) in items[1..];
      match items[0]
      case None => rest
      case Some(x) => [x] + rest
  }

  /** Filtering keeps order: it distributes over concatenation. */
  lemma {:induction false} CompactAppend<T(!new)>(a: seq<Option<T>>, b: seq<Option<T>>)
    ensures Compact(a + b) == Compact(a) + Compact(b)
  {
    if a == [] {
      assert a + b == b;
    } else {
      var t := a[1..];
      CompactAppend(t, b);
      assert (a + b)[0] == a[0] && (a + b)[1..] == t + b;
      match a[0]
      case None =>
      case Some(x) =>
        AppendAssoc([x], Compact(t), Compact(b));
    }
  }

  /** Nothing is dropped from a list without gaps. */
  lemma {:induction false} CompactAllPresent<T(!new)>(items: seq<Option<T>>)
    requires forall k :: 0 <= k < |items| ==> items[k].Some?
    ensures |Compact(items)| == |items|
    ensures forall k :: 0 <= k < |items| ==> Compact(items)[k] == items[k].value
  {
    if items != [] {
      CompactAllPresent(items[1..]);
      forall k | 0 <= k < |items| ensures Compact(items)[k] == items[k].value {
        if k > 0 { assert items[1..][k - 1] == items[k]; }
      }
    }
  }

  /** `describeTable(tableName)` from the rows of its query: every row mapped
      by `CreateFieldDefinition`, the missing ones dropped, order kept. */
  function DescribeTable(tableName: string, rows: seq<Option<ColumnRow>>): (t: TableDefinition)
    ensures t.name == tableName && t.relations == []
    ensures |t.fields| <= |rows|
    ensures forall f :: f in t.fields <==> exists k :: 0 <= k < |rows| && CreateFieldDefinition(rows[k]) == Some(f)
  {
    var mapped := seq(|rows|, k requires 0 <= k < |rows| => CreateFieldDefinition(rows[k]));
    assert forall f :: Some(f) in mapped <==> exists k :: 0 <= k < |rows| && CreateFieldDefinition(rows[k]) == Some(f) by {
      forall f ensures Some(f) in mapped <==> exists k :: 0 <= k < |rows| && CreateFieldDefinition(rows[k]) == Some(f) {
        if Some(f) in mapped {
          var k :| 0 <= k < |mapped| && mapped[k] == Some(f);
          assert CreateFieldDefinition(rows[k]) == Some(f);
        }
        if exists k :: 0 <= k < |rows| && CreateFieldDefinition(rows[k]) == Some(f) {
          var k :| 0 <= k < |rows| && CreateFieldDefinition(rows[k]) == Some(f);
          assert mapped[k] == Some(f);
        }
      }
    }
    TableDefinition(tableName, Compact(mapped), [])
  }

  /** When every row is present, the table has one field per row, in row order. */
  lemma DescribeTableAllRows(tableName: string, rows: seq<Option<ColumnRow>>)
    requires forall k :: 0 <= k < |rows| ==> rows[k].Some?
    ensures |DescribeTable(tableName, rows).fields| == |rows|
    ensures forall k :: 0 <= k < |rows| ==> DescribeTable(tableName, rows).fields[k] == CreateFieldDefinition(rows[k]).value
  {
    var mapped := seq(|rows|, k requires 0 <= k < |rows| => CreateFieldDefinition(rows[k]));
    CompactAllPresent(mapped);
  }

  /** The two clients read nullability in opposite senses: a nullable column
      is `required` from PostgreSQL (`is_nullable` is `YES`) and not required
      from MySQL (`Null` is `YES`), and a `NO` column the other way round. */
  lemma RequiredSensesDiffer(name: string, columnType: string, nullability: string, default: Option<string>)
    requires nullability == "YES" || nullability == "NO"
    ensures CreateFieldDefinition(Some(ColumnRow(name, columnType, nullability, default))).value.required
        != MySqlClient.CreateFieldDefinition(MySqlClient.DescribeRow(name, columnType, nullability, default)).required
  {
  }

  /** The PostgreSQL type `character varying` is split at its space: type
      `character`, length the text `varying`. */
  lemma CharacterVaryingType()
    ensures ParseType("character varying") == Some(TypeDescriptor("character", Some(Str("varying"))))
  {
    var dataType, first, second := "character varying", "character", "varying";
    assert forall i :: 0 <= i < |first| ==> !IsTypeDelimiter(first[i]) by {
      forall i | 0 <= i < |first| ensures !IsTypeDelimiter(first[i]) { }
    }
    assert forall i :: 0 <= i < |second| ==> !IsTypeDelimiter(second[i]) && second[i] != ')' by {
      forall i | 0 <= i < |second| ensures !IsTypeDelimiter(second[i]) && second[i] != ')' { }
    }
    assert dataType == first + " " + second;
    ParseTypeTwoWords(first, second);
    assert !IsDigits(second) by {
      assert !IsDigit(second[0]);
    }
    TryParseIntFallback(second, Null);
  }
}
