# Relational files into a key-value store, and projection queries over it

Two small programs move relational data into a Redis-style key-value store and
query it back.

- **The import program** (`src/InsertRelations.py`) reads a *relational info
  file*. The first non-blank line is the table name. The lines after it, up to
  a lone `;`, are attribute names. Every later line is a `;`-separated data
  row. The table name and attribute names are normalised: stripped,
  lower-cased, spaces turned into `_`. Each row with one value per attribute
  becomes one store hash. Its key is `table:id`, where `id` is the normalised
  first value. It maps each attribute to its stripped value. A row of the
  wrong arity is rejected with a message.
- **The query program** (`src/QueryRedis.py`) reads a *query file*.
  - Line 0 is a projection line `rel.attr, rel.attr, ...`. It is parsed into a
    map from relation to its ordered list of requested attributes.
  - Line 1 is a FROM line `rel, rel, ...`.
  - For every FROM relation, in order, the program lists the store keys
    `rel:*`. It prints the requested attribute names, then one line per
    record: the requested values in order, each in single quotes.

The model is split into four modules:

- `Wrappers` holds `Option` and `Result`.
- `Strings` holds Python's `str.strip`, `str.lower`, `str.replace` and
  `str.split(sep)` on ASCII text, with their facts as lemmas. For example,
  `Split("", sep) == [""]`, `Split(s, sep)` has one more piece than `s` has
  separators, and `Join` and `Split` are inverses.
- `InsertRelations` models the import program.
  - The four variables of the reading loop are the fields of the class
    `RelationParser`.
  - `ProcessLine` is one loop iteration. It is proved equal to the pure step
    `Step`, and `ParseFile` is the loop, proved equal to the fold `Run`.
  - The lemmas state what the file format promises: the phases, the schema of
    the header, the key and fields of each record, and which lines yield
    records.
- `QueryRedis` models the query program.
  - The store is a `map<string, map<string, string>>`.
  - `ScanKeys` returns the keys with prefix `table:` in an order the model
    leaves open, because the store promises none.
  - `RunQuery` returns what it printed, the error that stopped it (if any) and
    the key order of each scan. Its output equals the pure function `Output`
    applied to those orders.
  - The lemmas about `Output` hold for every order.

## Model

| member | source | states |
|---|---|---|
| Strings.StripShape | src/InsertRelations.py:62 | `Strip(s)` is `s` with a maximal whitespace prefix and suffix removed: a slice of `s` that neither starts nor ends with whitespace |
| Strings.StripEmpty | src/InsertRelations.py:62-63 | `Strip(s)` is empty exactly when every character of `s` is whitespace |
| Strings.StripIdempotent | src/InsertRelations.py:82 | stripping twice is stripping once |
| Strings.LowerChar | src/QueryRedis.py:24-25 | lower-casing maps `A`-`Z` to `a`-`z`, leaves every other character alone and never yields an upper-case letter |
| Strings.LowerAt | src/QueryRedis.py:24-25 | `Lower` keeps the length and lower-cases character by character |
| Strings.ReplaceAt | src/InsertRelations.py:68 | `Replace` keeps the length and swaps exactly the occurrences of the one character |
| Strings.NormaliseShape | src/InsertRelations.py:68 | a normalised name has no space and no upper-case letter, does not start or end with whitespace, and is empty exactly when the stripped line is |
| Strings.NormaliseIdempotent | src/InsertRelations.py:82 | normalising a normalised name changes nothing |
| Strings.Split | src/InsertRelations.py:76 | `split(sep)` always yields at least one piece |
| Strings.SplitPieces | src/QueryRedis.py:20-23 | `Split(s, sep)` has one piece more than `s` has separators; no piece contains the separator; a single piece exactly when `s` holds no separator, and then that piece is `s` |
| Strings.JoinSplit | src/InsertRelations.py:76 | joining the pieces with the separator gives back the line |
| Strings.SplitJoin | src/InsertRelations.py:76 | splitting a join of separator-free pieces gives back the pieces |
| InsertRelations.AddKeyValue | src/InsertRelations.py:18-23 | the new map has the old keys plus `key`; `key` maps to the stripped value; every other key is unchanged |
| InsertRelations.HashOfKeys | src/InsertRelations.py:85-87 | a row's hash, built from an empty map, has exactly the attribute names as keys, so nothing from an earlier row survives |
| InsertRelations.HashOfValues | src/InsertRelations.py:18-87 | each attribute maps to the stripped value at the position of its last occurrence, so a later duplicate attribute overwrites an earlier one |
| InsertRelations.HashOfFields | src/InsertRelations.py:85-87 | the previous two facts together |
| InsertRelations.StepSpec | src/InsertRelations.py:62-87 | one line, phase by phase. A blank line changes nothing. Before the separator, the first non-blank line sets the normalised table name, which has no space. A lone `;` sets the separator flag and adds no attribute. Any other line appends its normalised name. After the separator the state is frozen. A line yields a record exactly when the separator was seen and the line is non-blank with one value per attribute; otherwise the mismatch reports both counts. A record's key is `table:` followed by the normalised first value, and its fields are exactly the attributes. The phases are only entered in order (`Inv`). |
| InsertRelations.RunDataPhase | src/InsertRelations.py:66-87 | once the separator is seen, the state never changes again; the records are exactly the accepted data lines, one per line, in file order (`AcceptedRows`) |
| InsertRelations.NoRecordsBeforeSeparator | src/InsertRelations.py:66-74 | no record is produced while the separator has not been seen |
| InsertRelations.RecordsMatchSchema | src/InsertRelations.py:82-87 | every record read from a file is keyed `table:...` under the table that file declared, and carries exactly the declared attributes |
| InsertRelations.NormaliseAll | src/InsertRelations.py:74 | one normalised name per attribute line, in order |
| InsertRelations.RunAttributes | src/InsertRelations.py:70-74 | after the table name, attribute lines before the `;` are appended, normalised, in file order, and produce no record |
| InsertRelations.SeparatorLine | src/InsertRelations.py:71-72 | a lone `;` in the header phase only sets the separator flag |
| InsertRelations.NameLine | src/InsertRelations.py:67-69 | the first line of a file sets the normalised table name and nothing else |
| InsertRelations.NameAndAttributes | src/InsertRelations.py:66-74 | a name line followed by attribute lines gives the name and the normalised attributes, and no record |
| InsertRelations.HeaderSchema | src/InsertRelations.py:66-74 | a complete header gives exactly the normalised name and attributes, with the separator set, and no record |
| InsertRelations.FileRecords | src/InsertRelations.py:59-87 | a file made of a header and data lines yields exactly the accepted data rows under that header's schema, in order |
| InsertRelations.BuildHash | src/InsertRelations.py:85-87 | the pairwise `add_key_value` loop from an empty map computes `HashOf` |
| InsertRelations.RelationParser.constructor | src/InsertRelations.py:40-50 | a new reader has an empty name, no attributes and both flags false |
| InsertRelations.RelationParser.ProcessLine | src/InsertRelations.py:62-87 | one iteration of the reading loop: the new fields and the outcome are exactly `Step` of the old fields |
| InsertRelations.ParseFile | src/InsertRelations.py:59-90 | the reading loop emits exactly the records of `Run` over the file's lines |
| QueryRedis.ParseItemDot | src/QueryRedis.py:23-25 | a projection item is rejected exactly when it has no `.` |
| QueryRedis.ParseItemsSpec | src/QueryRedis.py:20-25 | the items parse exactly when every one has a `.`. Item `j` then gives pair `j`, the stripped and lower-cased first two components; later components are ignored. Otherwise the error names the first item without a `.`. |
| QueryRedis.AttrsOfEmpty | src/QueryRedis.py:27-30 | no attribute is collected for a relation exactly when no item names it |
| QueryRedis.GroupedSpec | src/QueryRedis.py:27-30 | the projection map's keys are exactly the relations the items name. Each maps to its attributes in order of appearance, repeats kept, and the list is never empty. |
| QueryRedis.ProjectionSpec | src/QueryRedis.py:20-30 | a projection line gives a map exactly when every item has a `.`; the map's keys and lists are then as in `GroupedSpec` |
| QueryRedis.ParseProjection | src/QueryRedis.py:18-30 | the loop that builds the `attributes` dict computes `ProjectionOf`, or stops at the first item without a `.` |
| QueryRedis.ScanKeys | src/QueryRedis.py:35 | `KEYS table:*` lists every store key with prefix `table:` exactly once, and no other, in some order |
| QueryRedis.ScanCount | src/QueryRedis.py:35-40 | a scan lists as many keys as the store holds under the prefix |
| QueryRedis.RowForSpec | src/QueryRedis.py:43-46 | a record projects exactly when it has every requested attribute. The row then has one entry per requested attribute, in order, each the value in single quotes. Otherwise the error names the first missing attribute. |
| QueryRedis.ProjectRecord | src/QueryRedis.py:43-45 | the `vals` loop computes `RowFor` |
| QueryRedis.TableRowsSpec | src/QueryRedis.py:40-46 | one printed line per scanned key, in scan order, each that record's projection. A missing attribute stops the relation at that record, after the lines of the records before it. |
| QueryRedis.ProjectRows | src/QueryRedis.py:40-46 | the loop over the keys computes `TableRows` |
| QueryRedis.OutputPrefixErr | src/QueryRedis.py:33-50 | once a query has failed, further relations change nothing: output stops at the first error |
| QueryRedis.OutputNamesTables | src/QueryRedis.py:33-37 | a query that ends without error named every FROM relation (stripped, lower-cased) in its projection |
| QueryRedis.OutputUnknownRelation | src/QueryRedis.py:37 | a FROM relation absent from the projection map is an error |
| QueryRedis.OutputComplete | src/QueryRedis.py:33-46 | a query that ends without error printed exactly one header line per FROM relation and one line per store key under its prefix, whatever order the scans returned |
| QueryRedis.ProjectTables | src/QueryRedis.py:32-46 | the FROM loop scans the relations in FROM-line order, each name stripped and lower-cased. What it prints equals `Output` over the scan orders it met. It scans every relation when no error occurs; otherwise it stops at the first relation that fails. |
| QueryRedis.RunQuery | src/QueryRedis.py:16-46 | the whole query. A file without line 0, a projection error or a file without line 1 ends it before anything is printed. Otherwise it behaves as `ProjectTables` on the parsed projection and the FROM line's items. |

## Left out

- Store I/O: the Redis connection, the pipeline and `hmset`/`execute`, `keys` and `hgetall`. The import program's output is the sequence of records it would store. The query program reads a store given as a map.
- Bulk-insert batching and the `total_hashes`/`succeeded_hashes` counters (src/InsertRelations.py:93-102). They depend on the store's replies.
- File opening, `input()` prompts, the yes/no loop, the `FileNotFoundError` path and the message text of the exception handlers. An error is modelled as a `QueryError` value, or as the `ArityMismatch` outcome for the import program's printed message.
- Print formatting: a printed line is modelled as its sequence of words, not as a space-joined string.
- The UTF-8 `encode`/`decode` of store bytes (src/QueryRedis.py:45). Keys, field names and values are strings.
- Non-ASCII whitespace and case: `Strip` removes the ASCII characters Python's `str.isspace` accepts (space, `\t`-`\r`, `\x1c`-`\x1f`), and `Lower` maps only `A`-`Z`.
- QueryRedis.ScanKeys: glob metacharacters (`*`, `?`, `[`) in a FROM relation name are matched literally as a prefix, not as a pattern.
- The `IndexError` of a query file with fewer than two lines is modelled as `MissingLine(0)` or `MissingLine(1)`. The `IndexError` of an item without `.` is modelled as `MissingDot`. The `KeyError` of an unknown relation is `UnknownRelation`, and that of a missing attribute is `MissingAttribute`.
- A store that changes between the scan and the record reads is not modelled: every scanned key is read from the same map.
