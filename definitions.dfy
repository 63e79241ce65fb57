/** The records the schema tools pass around: columns, relation edges and
    tables, as `describeTable` builds them and `defineRelation` annotates them. */
module Definitions {
  import opened JsValues
  import opened TableUtils

  /** A column record. `columnType` is the `type` key (`None` when the raw type
      string was empty), `defaultValue` is `default_value`, and `relatedTable`
      is `related_table`, absent until relation inference resolves the column. */
  datatype ColumnDefinition = ColumnDefinition(
    name: string,
    columnType: Option<TypeDescriptor>,
    required: bool,
    defaultValue: JsValue,
    relatedTable: Option<string>)

  /** A relation edge: the `many_to_one` edge on the owning table, with its
      `foreign_key`, or the `one_to_many` edge on the target table, with its
      `external_key`. `table` is the name of the table at the other end. */
  datatype RelationEdge =
    | ManyToOne(name: string, table: string, foreignKey: string)
    | OneToMany(name: string, table: string, externalKey: string)

  /** A table record: `name`, `fields` and `relations`. */
  datatype TableDefinition = TableDefinition(
    name: string,
    fields: seq<ColumnDefinition>,
    relations: seq<RelationEdge>)
}
