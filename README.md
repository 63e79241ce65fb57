# msql-db-info in Dafny

A model of the core of *msql-db-info*. The tool reads the schema of a MySQL
or PostgreSQL database and infers foreign-key relations between tables from
naming conventions. It then writes the result as a data-dictionary workbook
and a JSON file, or renders model classes from a template.

The model covers:

- **Name and type utilities** (`table_utils.dfy`, module `TableUtils`):
  - `parseType`, the describe-style type parser;
  - `tryParseInt`;
  - the digit-suffix rewrite `replace`, with its number-word template;
  - `normalizeTableName`, `isColumnId`, `transformClassName`, `transformFieldName`;
  - the `customTableMap` override table.

  The regular expressions are written out as explicit string functions. JavaScript values that reach the output are the `JsValue` datatype in `js_values.dfy`: `undefined`, `null`, `NaN`, numbers and strings, with JavaScript truthiness.
- **Row shaping of the two database clients** (`mysql.dfy`, `postgres.dfy`):
  - `createFieldDefinition`;
  - the post-query shaping in `describeTable` and `listAllTable`;
  - the MySQL constructor defaults and the X-protocol choice.

  Rows are taken as already fetched.
- **Relation inference** (`relation_inference.dfy`, `schema_definition.dfy`):
  - `SchemaDefinition` is a class with three fields. `tables` is a sequence of table values. `tableMap` is a map from a table name to a position in `tables`, so the object identity of the original becomes a position. `connection` is the client it was built with.
  - `findTable` is the memoised lookup with the `created_by` alias and delete-on-miss.
  - `defineRelation` is a nested loop over tables and columns. It is proved equal to the function `DefineRelations` of the old state. The edge count, the per-column outcome, the "nothing else changes" frame and the behaviour of a second run are all proved about that function.
- **Model-generator options** (`model_generator.dfy`):
  - action-flag resolution, preset choice and `getConfig`;
  - the output-extension rule and output-directory normalisation;
  - model and doc file names, and the command switch.
- **Data-dictionary export** (`data_dictionary.dfy`):
  - The sort by relation count is an in-place insertion sort on an array. It is proved sorted, a permutation and stable: tables with equally many relations keep their load order. A lemma shows that these three properties determine the order completely.
  - `createWorkbook` becomes a method with the original's mutable row counter. It is proved equal to a functional worksheet, a map from (column letter, row) to cell value. The cell-by-cell layout of that worksheet is proved as lemmas.
  - The output file paths.

`definitions.dfy` holds the column, relation-edge and table records that the
modules share.

## Model

| member | source | states |
|---|---|---|
| JsValues.DecimalRoundTrip | table-utils.js:66-71 | reading back the decimal digits of any natural number gives that number, which is the numeric case of `tryParseInt` |
| JsValues.SplitJoin | model-generator.js:83-84 | `split(sep)` yields pieces free of the separator that join back to the input |
| JsValues.SplitLastPiece | model-generator.js:83-84 | the last piece of `init + sep + last` is `last` when `last` holds no separator |
| TableUtils.TryParseInt | table-utils.js:66-71 | `tryParseInt`: NaN for a missing value, the number for a digit string, otherwise `value \|\| default`; its promises are `TryParseIntRoundTrip` and `TryParseIntFallback` |
| TableUtils.TryParseIntRoundTrip | table-utils.js:66-71 | a decimal-digit string parses to its integer value whatever the default |
| TableUtils.TryParseIntFallback | table-utils.js:66-71 | a non-numeric string yields the default when it is truthy and the string itself otherwise |
| TableUtils.SpaceBeforeParens | table-utils.js:54 | the global `(` to ` (` replace, character by character; `SpacingAppend`, `SpacingWithoutParens` and `SpacedTokens` state what it does |
| TableUtils.RemoveParens | table-utils.js:58 | the global removal of `(` and `)`; `RemoveParensAppend` and `RemoveParensWithout` state what it does |
| TableUtils.BeforeDelimiter | table-utils.js:54-56 | the result is the longest prefix free of `(` and space, and the next character, if any, is a delimiter |
| TableUtils.ParseType | table-utils.js:52-64 | the result is absent (the falsy input returned) exactly when the raw type is empty |
| TableUtils.SpacedTokens | table-utils.js:54-57 | after inserting a space before every `(`, the first space-separated token is the text before the first delimiter, and a second token exists iff the input has a delimiter |
| TableUtils.ParseTypeShape | table-utils.js:52-64 | a non-empty type yields `type` = text before the first `(` or space, and `length` is present iff such a delimiter exists |
| TableUtils.ParseTypeQualified | table-utils.js:54-61 | `base(qualifier` yields type `base` and the length `tryParseInt` makes of the qualifier with its parentheses removed |
| TableUtils.SpacedQualified | table-utils.js:54 | inserting spaces before `(` in `base(qualifier` adds exactly one space, in front of the parenthesis |
| TableUtils.SplitQualified | table-utils.js:54-55 | the spaced form `base (qualifier` splits into exactly the two tokens `base` and `(qualifier` |
| TableUtils.ParseTypeNumericLength | table-utils.js:58-61 | `base(digits)` yields type `base` with the integer value of the digits as length, e.g. `varchar(255)` gives 255 |
| TableUtils.ParseTypeTextLength | table-utils.js:58-61 | a non-numeric qualifier is kept as a string with every parenthesis removed |
| TableUtils.ParseTypeTwoWords | table-utils.js:54-61 | a two-word type such as `character varying` yields the first word as type and the second as a string length |
| TableUtils.FirstDigit | table-utils.js:75 | the result is present iff the name has a digit, and it is the leftmost digit |
| TableUtils.Replace | table-utils.js:73-84 | `replace`: the trailing `_d` rewrite keyed on the first digit; `ReplaceCharacterisation` and `ReplaceIdempotent` state it |
| TableUtils.ReplaceCharacterisation | table-utils.js:73-84 | a name ending in `_` plus a digit from 1 to 8 that is also its first digit gets that digit replaced by the template word; every other name is unchanged |
| TableUtils.ReplaceIdempotent | table-utils.js:73-84 | applying the digit rewrite twice equals applying it once |
| TableUtils.StripAffixes | table-utils.js:88 | the global affix replace: the leading prefix, then a trailing `_id` of what remains; stated by `NormalizeStripsBoth` and `NormalizeRewritesThenStrips` |
| TableUtils.NormalizeTableName | table-utils.js:86-91 | `normalizeTableName`: an empty name is returned as is, otherwise the digit rewrite and then the affix strip |
| TableUtils.IsColumnId | table-utils.js:93-95 | `isColumnId`: the name ends in `_id` in any letter case; `ColumnTargetRule` states its use |
| TableUtils.PrefixLengthOfPrefixed | table-utils.js:86-91 | a name starting with `ms_`, `app_` or `tr_` (any case) has exactly that prefix matched |
| TableUtils.NormalizeStripsBoth | table-utils.js:86-91 | for any name the digit rewrite leaves alone, the leading table prefix and one trailing `_id` are both removed, in any case: `ms_user_id` gives `user`, `ms_stage_9` gives `stage_9`, `ms_stage_1_id` gives `stage_1`, `ms_user_id_id` gives `user_id` |
| TableUtils.NormalizeRewritesThenStrips | table-utils.js:86-91 | a name the digit rewrite applies to, with or without a table prefix, is rewritten and then loses only its prefix: `ms_stage_1` and `stage_1` both give `stage_satu` |
| TableUtils.NormalizeRewritesUnprefixed | table-utils.js:86-91 | a name without a table prefix that the digit rewrite applies to keeps everything but its final digit, which becomes the number word: `stage_1` gives `stage_satu` |
| TableUtils.NormalizeRewritesPrefixed | table-utils.js:86-91 | a name with a table prefix that the digit rewrite applies to loses the prefix and has its final digit spelled out: `ms_stage_1` gives `stage_satu` |
| TableUtils.TransformClassName | table-utils.js:97-102 | `transformClassName`: pascal of the normalised name; stated by `ClassNameIgnoresAffixes` |
| TableUtils.TransformFieldName | table-utils.js:104-112 | `transformFieldName`: camel of the digit-rewritten name, pluralised first when asked; stated by `FieldNameKeepsAffixes` and `FieldNameDigitRewrite` |
| TableUtils.ClassNameIgnoresAffixes | table-utils.js:97-102 | for any name the digit rewrite leaves alone, the class name is the pascal-cased body without table prefix and one trailing `_id`, for any pascal-case function |
| TableUtils.FieldNameKeepsAffixes | table-utils.js:104-112 | a field name without a digit rewrite is camel(name), or camel(plural(name)) when plural, with no prefix or suffix strip |
| TableUtils.FieldNameDigitRewrite | table-utils.js:104-112 | a column name ending in `_d`, d from 1 to 8 and the first digit in the name, has the field name of the name with the number word for d in its place (`v1_stage_1` as `v1_stage_satu`); a name whose first digit is another one is left as it is, which `FieldNameKeepsAffixes` states |
| TableUtils.CustomTable | table-utils.js:18-50 | a column has an override iff it is a key of the map, and the owning-table entries resolve to the table passed in |
| TableUtils.CustomTableOwnerOnlyForParent | table-utils.js:18-50 | only `parent` and `parent_id` depend on the owning table; every other entry names one fixed table |
| MySqlClient.NewMySql | mysql.js:9-34 | an empty user, host, port or connection limit becomes `root`, `localhost`, 3306 or 10, each on its own; each given option is kept; the X-protocol pool is chosen iff the port is 33060 |
| MySqlClient.NewMySqlDefaults | mysql.js:9-18 | the defaults are user `root`, empty password, host `localhost`, port 3306 and connection limit 10, over the classic protocol |
| MySqlClient.CreateFieldDefinition | mysql.js:114-121 | the name comes from `Field`, the type is `parseType(Type)`, `required` holds iff `Null` is not `YES`, and the default is `tryParseInt(Default)` |
| MySqlClient.FieldDefaults | mysql.js:119 | a NULL default becomes NaN, a digit default its number, and any other default stays the string |
| MySqlClient.DescribeTable | mysql.js:99-112 | one field per row, in row order, under the table name, with no relations |
| MySqlClient.NonViewNames | mysql.js:86-97 | a name is listed iff some row with that name has a comment other than `VIEW` |
| MySqlClient.NonViewNamesAppend | mysql.js:88-95 | the filter distributes over concatenation, so row order is preserved |
| MySqlClient.ListAllTable | mysql.js:86-97 | the loop returns exactly the non-view names in row order |
| PostgresClient.CreateFieldDefinition | postgres.js:68-78 | a missing row gives null; otherwise the fields come from the row, and `required` holds iff `is_nullable` is not `NO` |
| PostgresClient.Compact | postgres.js:62 | dropping nulls keeps exactly the present values |
| PostgresClient.CompactAppend | postgres.js:62 | dropping nulls distributes over concatenation, so order is kept |
| PostgresClient.DescribeTable | postgres.js:58-66 | a field is in the result iff it is the definition of some row, under the table name, with no relations |
| PostgresClient.DescribeTableAllRows | postgres.js:58-66 | when every row is present, the fields are the row definitions one for one, in order |
| PostgresClient.RequiredSensesDiffer | postgres.js:73 | for the same nullability string, this client and mysql.js:118 set `required` in opposite senses |
| PostgresClient.CharacterVaryingType | postgres.js:71-72 | `character varying` parses to type `character` with string length `varying` |
| RelationInference.FindAlias | schema-definition.js:55-57 | `create_by` and `created_by` are looked up as `ms_user`, every other name as itself; `Lookup` and `ColumnTargetRule` state its effect |
| RelationInference.FirstNamed | schema-definition.js:61 | the index found is the first table with that exact name, and absent iff there is none |
| RelationInference.FirstNamedAt | schema-definition.js:61 | a first occurrence at position u is what the search finds |
| RelationInference.Lookup | schema-definition.js:54-67 | a cached or searched lookup finds a table named as the aliased argument, and fails iff no such table exists |
| RelationInference.Candidate | schema-definition.js:74 | the looked-up name is the column name minus its `_id`; `ColumnTargetRule` states it |
| RelationInference.ForwardEdge | schema-definition.js:77-82 | the `many_to_one` edge: normalised column name, target table, the column as foreign key; `ColumnOutcome` states where it lands |
| RelationInference.ReverseEdge | schema-definition.js:83-88 | the `one_to_many` edge: normalised owner name, owner table, the column as external key; `ColumnOutcome` states where it lands |
| RelationInference.ColumnPushes | schema-definition.js:75-88 | the pushes of one column, in order: none on a miss, forward then reverse on a hit; `ColumnPushesCount` and `ColumnPushesInAll` state them |
| RelationInference.Relate | schema-definition.js:76-88 | one hit: the column's related table is set and the two edges appended, the reverse one after the forward one even on a self-reference; `ProgressStep` ties it to the walk |
| RelationInference.ColumnTarget | schema-definition.js:73-75 | a column's target, when present, is a table of the list |
| RelationInference.MarkColumn | schema-definition.js:76 | marking a column changes only its related table, which becomes a table name of the list |
| RelationInference.DefineRelations | schema-definition.js:69-93 | table names and field counts are kept, the old relations are a prefix of the new ones, and each column changes at most its related table, which becomes a listed table name |
| RelationInference.ProgressStart | schema-definition.js:69-72 | before the walk, the state is the input tables |
| RelationInference.ProgressStep | schema-definition.js:73-90 | one column step leaves the state unchanged on a miss, and on a hit marks the column and appends the many-to-one and one-to-many edges |
| RelationInference.ProgressComplete | schema-definition.js:69-93 | after the last table, the walk's state is `DefineRelations` of the input |
| RelationInference.ColumnTargetRule | schema-definition.js:73-75 | only `_id` columns are considered; the candidate is the name minus `_id`, after the `created_by` alias of schema-definition.js:55-57, with no prefix strip or digit rewrite |
| RelationInference.ColumnOutcome | schema-definition.js:75-88 | on a miss the column is untouched; on a hit its related table is the target's name and both edges land on the owner and the target |
| RelationInference.ParentColumnNotOverridden | schema-definition.js:73-75 | the override map is not consulted: `parent_id` stays unresolved without a `parent` table, although the map of table-utils.js:48-49 would send it to its own table |
| RelationInference.ColumnPushesInAll | schema-definition.js:71-92 | every edge a column produces is among the edges of the whole walk |
| RelationInference.EdgeInRelations | schema-definition.js:77-88 | every edge the walk produces is in its target table's relations afterwards |
| RelationInference.AllPushesCount | schema-definition.js:76-88 | the walk produces exactly two edges per resolved column |
| RelationInference.EdgeCount | schema-definition.js:76-88 | total relations grow by exactly twice the number of resolved columns, with no deduplication |
| RelationInference.RunTwice | schema-definition.js:69-93 | a second run adds the same edges again, in order, after the first run's |
| SchemaDefinitions.FindFirst | schema-definition.js:61 | the loop finds the first table with the exact name, or none when none has it |
| SchemaDefinitions.SchemaDefinition.constructor | schema-definition.js:8-17 | a new definition has no tables and an empty table map |
| SchemaDefinitions.NewSchemaDefinition | schema-definition.js:8-17 | construction fails with the connection error iff the connection is not a MySQL client |
| SchemaDefinitions.SchemaDefinition.FindTable | schema-definition.js:54-67 | the result is the lookup's; a hit caches the aliased name and a miss leaves the map as it was |
| SchemaDefinitions.SchemaDefinition.Link | schema-definition.js:76-88 | linking marks the column and appends the two edges, as `Relate` |
| SchemaDefinitions.SchemaDefinition.RelateColumn | schema-definition.js:73-90 | one column step advances the state to the next point of the walk |
| SchemaDefinitions.SchemaDefinition.RelateTable | schema-definition.js:71-91 | the loop over one table's columns advances the state to the next table |
| SchemaDefinitions.SchemaDefinition.DefineRelation | schema-definition.js:69-93 | the tables become `DefineRelations` of the old tables and map, and cached entries survive |
| SchemaDefinitions.SchemaDefinition.Load | schema-definition.js:26-32 | the tables are the results in order, and the map holds exactly their names, each pointing at the last table of that name |
| SchemaDefinitions.SchemaDefinition.ReloadTableDefinition | schema-definition.js:19-38 | the reload yields `DefineRelations` of the freshly loaded results and map |
| DataDictionary.Swap | index.js:114 | two adjacent elements are exchanged, nothing else moves, the multiset is kept, and tie order is kept when their relation counts differ |
| DataDictionary.SwapKeepsTieOrder | index.js:114 | exchanging neighbours with different relation counts keeps the order among tables with equal counts |
| DataDictionary.Insert | index.js:114 | one insertion step extends the sorted prefix by one element, leaves the rest alone, permutes the array and keeps tie order |
| DataDictionary.SortByRelationCount | index.js:114 | the array ends sorted ascending by relation count, is a permutation of the input, and tables with equal counts keep their input order, as the stable JavaScript sort does |
| DataDictionary.PrepareTables | index.js:111-114 | the exported tables are the loaded ones, sorted by relation count, with ties in load order |
| DataDictionary.TieOrderDetermines | index.js:114 | two sorted sequences with the same order among ties are equal, so sortedness and tie order pin down the exported order |
| DataDictionary.TypeCell | index.js:90 | column B shows `type.type`, undefined when the type string was empty |
| DataDictionary.LengthCell | index.js:91 | column C shows the length, or `""` when it is absent or falsy |
| DataDictionary.FieldValue | index.js:89-94 | a field row shows name, type, length, `YES`/`NO`, default or `''`, related table or `''` in columns A to F; `WorksheetCell` states where |
| DataDictionary.WriteTable | index.js:79-95 | one block: the name in column A, the six header labels on the next row, then one row per field; `TableCellHead` and `TableCellBody` state it cell by cell |
| DataDictionary.BlockStart | index.js:77-97 | the row of the k-th table's name: 1 for the first, then n+3 rows after a table with n fields; `WorksheetCell` states the step |
| DataDictionary.Worksheet | index.js:76-98 | the sheet after the first n tables, each block written at its start row; `WorksheetCell`, `LaterBlocksFrame` and `AfterLastBlock` state its contents |
| DataDictionary.CreateWorkbook | index.js:68-99 | the row-counter loop writes exactly the functional worksheet of all tables |
| DataDictionary.BlockUnfold | index.js:77-97 | each table writes its block at the row where the previous block ended |
| DataDictionary.WorksheetRow | index.js:76-98 | every written cell lies above the start of the next block, minus the blank row |
| DataDictionary.LaterBlocksFrame | index.js:76-98 | later tables never overwrite a cell of an earlier block |
| DataDictionary.WorksheetCell | index.js:77-97 | each cell of table k's block holds the name, header label or field value of its position, and the next block starts n+3 rows later |
| DataDictionary.AfterLastBlock | index.js:76-98 | no cell is written at or below the blank row after the last block |
| DataDictionary.SavePath | index.js:65 | the save path defaults to `./` and is otherwise kept |
| DataDictionary.FileName | index.js:66 | the file name defaults to the database name and is otherwise kept |
| DataDictionary.OutputPaths | index.js:65-71 | the workbook is save path + file name + `.xlsx`, the JSON file (index.js:102) the same with `.json`, and the two are distinct |
| ModelGenerator.ResolveAction | model-generator.js:45-53 | no action is run iff none is given; `--eloquent-model` beats `--api-doc`, which beats the given action |
| ModelGenerator.CurrentPreset | model-generator.js:55-57 | the preset is the one named by the action, and absent when there is no such preset |
| ModelGenerator.GetConfig | model-generator.js:69-74 | the preset's value when it exists and is truthy, otherwise the default |
| ModelGenerator.StripHbs | model-generator.js:82 | a trailing any-character plus `hbs`, in any case, is removed and nothing else changes |
| ModelGenerator.ParseOutputFileExtension | model-generator.js:76-87 | a truthy configured extension wins; with no extension and no template the result is `.txt` |
| ModelGenerator.LastPiece | model-generator.js:83-84 | `split(".").pop()`; `SplitLastPiece` and `TemplateExtensionAt` state what it picks |
| ModelGenerator.TemplateExtensionShape | model-generator.js:80-85 | a template path gives a dot followed by a dot-free segment |
| ModelGenerator.TemplateExtensionAt | model-generator.js:80-85 | for a `.hbs` path, the result is the segment between the last dot before `.hbs` and `.hbs` |
| ModelGenerator.TemplateExtension | model-generator.js:80-85 | `base.ext.hbs` gives `.ext` |
| ModelGenerator.DefaultTemplateExtension | model-generator.js:60-63 | the default template `php.eloquent.model.php.hbs` gives `.php` |
| ModelGenerator.UnescapedDotInHbsPattern | model-generator.js:82 | any character, not only a dot, before `hbs` is stripped with it |
| ModelGenerator.UnescapedDotExample | model-generator.js:82-84 | `page.xhbs` gives the bare extension `.` |
| ModelGenerator.OutputDir | model-generator.js:188 | the directory ends in `/`, with one appended iff it was missing |
| ModelGenerator.ModelFilePath | model-generator.js:204 | a model file path is the output directory, then exactly the class name, then the extension |
| ModelGenerator.DocFilePath | model-generator.js:219 | the doc file is named like a model file of class `api-doc` |
| ModelGenerator.ModelFilePathInjective | model-generator.js:204 | distinct class names give distinct file paths |
| ModelGenerator.ChooseCommand | model-generator.js:225-235 | `models` generates models, `doc` and `documentation` generate the doc, and anything else does neither |
| ModelGenerator.PlanModelFiles | model-generator.js:200-209 | the loop plans one file path per table, in order |
| ModelGenerator.PlannedFilesDistinct | model-generator.js:200-209 | planned files of tables with distinct class names never collide |

### Behaviours of the code that are easy to assume wrongly

- `defineRelation` never deduplicates reciprocal edges (`EdgeCount`, `RunTwice`).
- `customTableMap` is never consulted when relations are inferred (`ParentColumnNotOverridden`). The only override applied is the `create_by`/`created_by` to `ms_user` alias in `findTable`.
- `normalizeTableName` removes both the prefix and the `_id` suffix, because its pattern has the global flag (`NormalizeStripsBoth`).
- The digit rewrite is keyed on the first digit of the name, not on the last (`ReplaceCharacterisation`).
- The `.hbs` pattern has an unescaped dot (`UnescapedDotInHbsPattern`).

## Left out

- Database I/O is left out. This covers connecting, querying, closing, pool creation and the X DevAPI session wrapper (mysqlx-utils.js is not part of this model). The clients are modelled on rows already fetched.
- Promise sequencing, `queue`, `timeout` and `Promise.all` are left out. Only the synchronous step of `reloadTableDeffinition` is modelled, with the loaded results as a parameter.
- CLI parsing (yargs), handlebars compilation and rendering, file reads and writes, `require` of JSON data, exceljs streaming and the JSON write stream are foreign libraries and side effects. Their inputs are parameters, and the worksheet is a map of cells. index.js:128 refers to an undefined `pool` and is not modelled.
- The pascal-case, camel-case and pluralise libraries are uninterpreted function parameters. Only properties that hold for every implementation are stated.
- TableUtils.TryParseInt: JavaScript number coercion is not modelled. A non-empty string of decimal digits is numeric, a missing value (SQL NULL) gives NaN, and every other string is non-numeric. Strings such as `" 1"`, `"1.5"`, `"0x1A"` or `"-5"`, which JavaScript would coerce, are treated as text. Numbers are unbounded integers, so `parseInt`'s rounding to a double is not modelled: a digit string above 2^53 such as `9007199254740993` gives its exact value here, and 9007199254740992 in JavaScript.
- `tableMap` is a true map: lookups of `Object.prototype` keys such as `constructor` are not modelled.
- The hidden `lastIndex` state of the global `_id` regex is not modelled. Each test inside `defineRelation` is followed by a replace or fails, and both reset it, so `isColumnId` is a pure suffix check there.
- Object aliasing between table and column objects is modelled by positions in `tables`, not by shared references.
- RelationInference.EdgeCount: the count is stated with an explicit parameter equal to the number of tables, rather than that number itself.
- The PostgreSQL constructor's defaults and its catalogue query are left out; only the row shaping is modelled.
- PostgresClient.DescribeTable takes the list of rows. postgres.js:59-62 call `fields.map` on what `client.query` resolves to (postgres.js:49), which is a `pg` result object whose rows are in its `rows` property. As written, `describeTable` therefore rejects with a TypeError rather than returning a table. The model describes what the shaping does to the rows.
- Strings are sequences of Unicode scalar values, while JavaScript strings and regular expressions work on UTF-16 code units. Where a pattern matches a single character, as `.` in `/.hbs$/` (`StripHbs`) does, a character outside the Basic Multilingual Plane counts as one character here but as two code units in JavaScript.
