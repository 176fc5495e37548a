# Voice data agent: catalogue tools and session windows

This project models two parts of a voice assistant that answers questions
about a PostgreSQL database. The models are written in Dafny, and the
properties are proved about them.

**The agent's database tools** (`agent.py`):
- `listar_tabelas_banco` lists the tables of every user schema. It hides
  PostGIS system tables, groups the rest by schema, and prints at most ten
  names per schema, with schemas in sorted order.
- `explorar_estrutura_tabela` splits a requested `schema.tabela` name and
  picks one of two catalogue queries. It renders one line per column, each
  with the column's nullability.
- `executar_query_customizada` works in these steps:
  - it accepts only queries that start with `SELECT`, after stripping
    whitespace and ignoring case;
  - it caps the requested limit at 100;
  - it appends ` LIMIT n` unless the text already mentions `LIMIT`;
  - it publishes the result set and replies with a message chosen from the
    result's shape.

**The web client's session view** (`frontend/components/session-view.tsx`):
- `isAgentAvailable`.
- The data-channel handler, which keeps two sliding windows: the last three
  charts (topic `grafico`) and the last two SQL results (topic
  `sql-result`).
- The close button (remove by index) and the clear-all button of each
  window.

**Modules:**
- `Outcomes`: the `Option` and `Result` types.
- `Strings`: the Python string operations the tools rely on. These are
  `strip` (with Python's whitespace set), `upper`, `startswith`, `in`,
  `join`, `<` on strings, and decimal formatting of integers.
- `CustomQuery`, `TableListing`, `TableStructure` and `SessionView`: the
  modelled code itself.

**Database, network and JSON decoding:**
- The database is a parameter: a function from query to result, or the
  rows already fetched.
- A failing connection or publish is an optional error text.
- JSON decoding is a parameter from bytes to an optional value.

**Loops become methods:**
- `GroupBySchema` builds the grouping dictionary.
- `AppendSections` accumulates the listing text.
- `AppendColumnLines` accumulates the structure text.

Each is proved equal to a specification function. That function's
properties are proved as lemmas. The client's state is the class
`SessionView.Windows`. It has one method per event handler or button.

## Model

| member | source | states |
|---|---|---|
| Strings.StripUpper | agent.py:452 | Stripping and upper-casing commute, so the order `strip().upper()` does not matter for the guard |
| Strings.ContainsIffOccurs | agent.py:463 | The substring test `'LIMIT' in s` holds exactly when `LIMIT` occurs at some position of `s` |
| Strings.IntToStringRoundTrip | agent.py:464 | The decimal text written for the limit reads back as the same integer, negative values included |
| Strings.BelowTotal | agent.py:340 | Python's string order used by `sorted` is total on distinct strings |
| Strings.BelowTransitive | agent.py:340 | Python's string order is transitive |
| CustomQuery.IsSelectQuery | agent.py:452 | The guard `strip().upper().startswith('SELECT')`. `GuardCharacterisation`, `GuardIgnoresCase` and `GuardIgnoresLeadingSpace` state what it accepts |
| CustomQuery.GuardCharacterisation | agent.py:452-453 | A query passes the guard exactly when, after its leading whitespace, its first six characters read `SELECT` in any letter case |
| CustomQuery.GuardIgnoresCase | agent.py:452 | Two queries that differ only in letter case are both accepted or both rejected |
| CustomQuery.GuardIgnoresLeadingSpace | agent.py:452 | Leading whitespace never changes the guard's decision |
| CustomQuery.CapLimit | agent.py:456-457 | The limit used is at most the requested one and at most 100, and is one of the two |
| CustomQuery.WithLimit | agent.py:463-464 | Appends ` LIMIT n` unless the upper-cased text contains `LIMIT`. `WithLimitShape`, `WithLimitMentionsLimit` and `WithLimitIdempotent` state its effect |
| CustomQuery.WithLimitShape | agent.py:463-464 | The rewritten query starts with the original one. It is unchanged exactly when the upper-cased text contains `LIMIT`. Otherwise it gains ` LIMIT n`, where `n` reads back as the limit |
| CustomQuery.WithLimitMentionsLimit | agent.py:463-464 | After the rewrite the query always mentions `LIMIT` |
| CustomQuery.WithLimitIdempotent | agent.py:463-464 | Rewriting an already rewritten query changes nothing, whatever limit is given |
| CustomQuery.LimitInsideNameSuppressesCap | agent.py:463 | A table named `unlimited` counts as an existing `LIMIT`, so no cap is appended |
| CustomQuery.ConfirmationMessage | agent.py:497-507 | The reply chosen from the shape of the fetched rows. `ConfirmationMessageShape` states the three cases |
| CustomQuery.ErrorReply | agent.py:509-511 | The reply after an exception: the error text followed by the query text at that point |
| CustomQuery.ConfirmationMessageShape | agent.py:497-507 | No rows gives the empty-result text. One row of one field gives `campo = valor`, and only that shape does. Any other result gives the record count, which reads back as the number of rows |
| CustomQuery.ExecuteCustomQuery | agent.py:424-511 | `limite` defaults to 10. The contract covers every path: a rejected query never connects, a connection failure reports the original query, the executed text is the capped and rewritten query, and a failed execute or publish reports the executed text. On success the published payload carries the query, columns, rows and row count, and the reply is the shape message |
| CustomQuery.RunAcceptedQuery | agent.py:459-511 | For an accepted query: a connection failure reports the original query and executes nothing. Otherwise the executed text is the `LIMIT`-rewritten query. A failed execute or publish reports that text and publishes nothing. On success the payload carries query, columns, rows and row count, and the reply is the shape message |
| TableListing.FilterTables | agent.py:318-323 | The list comprehension dropping PostGIS system tables, in catalogue order. `FilterTablesKeeps` and `FilterTablesAppend` state what it keeps |
| TableListing.FilterTablesKeeps | agent.py:318-323 | Every row is kept, with its multiplicity, unless its name starts with `spatial_` or is one of the four PostGIS views |
| TableListing.FilterTablesAppend | agent.py:318-323 | Filtering works row by row: filtering a concatenation concatenates the filtered parts |
| TableListing.AddTable | agent.py:328-331 | One loop step: append the name to its schema's entry, creating the entry at the end when the schema is new |
| TableListing.Group | agent.py:326-331 | The dictionary built by the loop over the kept rows, grouping the pairs directly. `GroupFaithful` and `GroupSizesSum` state what it holds |
| TableListing.AddTableKeepsGroups | agent.py:328-331 | Appending a table keeps the grouping exact: one entry per schema, holding exactly that schema's names in arrival order |
| TableListing.GroupFaithful | agent.py:326-331 | The grouping has one non-empty entry per schema. Each entry lists exactly that schema's table names in catalogue order, and every row's schema has an entry |
| TableListing.GroupSizesSum | agent.py:326-331 | The entries' table counts add up to the number of kept rows |
| TableListing.GroupBySchema | agent.py:326-331 | The corrected dictionary-building loop: it groups the `(schema, nome)` pairs directly instead of splitting the joined text, and yields the grouping specification. The loop as written is `GroupQualifiedAsWritten` |
| TableListing.SortBySchema | agent.py:340 | `sorted(schemas.items())` as an insertion sort; its result is a permutation of the entries, and `SortBySchemaSorted` proves it sorted |
| TableListing.SortBySchemaSorted | agent.py:340 | Sorting the schema entries gives strictly increasing schema names |
| TableListing.SortBySchemaTotal | agent.py:340 | Sorting keeps the total number of tables |
| TableListing.LineOf | agent.py:341-345 | A schema's paragraph shows its first names, at most ten, in order. It shows all of them when there are at most ten. The `(+k mais)` count is exactly the number not shown |
| TableListing.ListingProperties | agent.py:336-347 | The listing has strictly sorted schemas and names every schema of a kept table. Each paragraph describes its schema's tables truthfully |
| TableListing.ListingCounts | agent.py:337 | The header's table count is the number of kept rows, and its schema count is the number of paragraphs |
| TableListing.NoTablesReplyExactly | agent.py:336-350 | The "no tables" reply is given exactly when the query succeeded and every row was filtered out |
| TableListing.ReplyFirstChar | agent.py:336-354 | The first character tells the replies apart: `E` after an exception, the check-mark emoji for a non-empty listing |
| TableListing.SchemaSection | agent.py:341-345 | One schema's paragraph: title with count, the shown names joined by commas, the `(+k mais)` tail when more than ten, and a blank line. `LineOf` states what is shown |
| TableListing.ListTablesReply | agent.py:303-354 | The corrected reply for each catalogue outcome: error text, "no tables" text, or header, paragraphs and footer. `NoTablesReplyExactly`, `ReplyFirstChar` and `ListingProperties` state its properties |
| TableListing.AppendSections | agent.py:340-345 | The accumulation loop produces the specified paragraphs in sorted schema order |
| TableListing.ListTables | agent.py:303-354 | The corrected tool, which groups the pairs directly: it returns the specified reply `ListTablesReply` for every catalogue outcome. The tool as written is `ListTablesReplyAsWritten` |
| TableListing.UnpackSchemaAndName | agent.py:328 | `schema, nome = tabela.split('.')`: exactly one dot splits into two names; no dot or more than one raises the unpacking error |
| TableListing.GroupQualifiedAsWritten | agent.py:326-331 | The grouping loop as written, over joined `schema.nome` texts; it stops at the first text that fails to unpack |
| TableListing.ListTablesReplyAsWritten | agent.py:318-354 | The tool's reply as written, grouping through the joined texts. `AsWrittenListingAgrees` and `DottedTableNameBreaksListing` relate it to the corrected reply |
| TableListing.UnpackQualified | agent.py:328 | Splitting a joined `schema.name` at its dot gives the row back when neither part holds a dot |
| TableListing.AsWrittenListingAgrees | agent.py:318-354 | Without dots in schema and table names, the join-then-split listing gives the same reply as the direct grouping |
| TableListing.DottedRowTooManyParts | agent.py:328 | A row whose schema or name holds a dot fails to unpack with "too many values to unpack" |
| TableListing.DottedTableNameBreaksListing | agent.py:318-354 | One such row makes the listing as written answer with the error text. The corrected listing still shows every kept schema |
| TableStructure.SplitTableName | agent.py:380-384 | There is a schema exactly when the name holds a dot. The schema is dot-free, and schema, dot and table rebuild the name. Without a dot the table is the whole name |
| TableStructure.SplitJoinRoundTrip | agent.py:380-384 | Splitting and joining again gives the requested name back |
| TableStructure.JoinSplitRoundTrip | agent.py:380-381 | A dot-free schema joined to any table splits back into the same parts, even when the table holds dots |
| TableStructure.LookupFor | agent.py:387-400 | The query filters by schema exactly when the schema is present and non-empty, and always filters by the table part |
| TableStructure.LookupWithSchema | agent.py:380-393 | A `schema.tabela` name queries by that schema and table |
| TableStructure.LeadingDotSearchesEverySchema | agent.py:380-400 | A name starting with a dot has an empty schema, which is falsy, so the lookup searches every schema |
| TableStructure.NoDotSearchesEverySchema | agent.py:380-400 | A name without a dot searches every schema for that table |
| TableStructure.Nullability | agent.py:410 | The text is `NULL` exactly when `is_nullable` is `YES`, and `NOT NULL` otherwise |
| TableStructure.ColumnLine | agent.py:410-411 | One column's line: bullet, name, type in parentheses and the nullability text. `OneLinePerColumn` states that it is one line |
| TableStructure.AppendColumnLines | agent.py:409-411 | The accumulation loop appends the specified line for each column, in order |
| TableStructure.DescribeReply | agent.py:375-421 | The reply for each outcome of the chosen lookup: error text, "not found" text, or header, column lines, count and suggested query. `ReplyKinds` states which outcome gives which |
| TableStructure.DescribeTable | agent.py:375-421 | The tool queries with the lookup chosen from the name and returns the specified reply for every outcome |
| TableStructure.OneLinePerColumn | agent.py:409-411 | Each column contributes exactly one line |
| TableStructure.ReplyKinds | agent.py:407-421 | The structure, "not found" and error replies are given exactly for non-empty columns, no columns and an exception respectively |
| TableStructure.SuggestedQueryRunsUnchanged | agent.py:414 | The suggested `SELECT * FROM t LIMIT 10` passes the custom-query guard and is executed unchanged by the `LIMIT` rewrite |
| SessionView.IsAgentAvailable | frontend/components/session-view.tsx:32-34 | Listening, thinking or speaking. `AvailableIffStarted` states it as the complement of the start-up states |
| SessionView.AvailableIffStarted | frontend/components/session-view.tsx:32-34 | The agent is available exactly when it is past disconnected, connecting, pre-connect buffering and initialising |
| SessionView.AppendBounded | frontend/components/session-view.tsx:92-99 | The window after an arrival is the newest `min(n+1, cap)` entries of the old window plus the new item |
| SessionView.AppendBoundedNewestLast | frontend/components/session-view.tsx:92-99 | The new item is last. Below capacity the window just grows. At capacity the oldest entry is evicted |
| SessionView.FullWindowEvictsOldest | frontend/components/session-view.tsx:94-96 | A full window drops exactly its first entry |
| SessionView.WindowStep | frontend/components/session-view.tsx:92-99 | One arrival on the newest `cap` entries of a stream gives the newest `cap` entries of the extended stream |
| SessionView.ReplayKeepsNewest | frontend/components/session-view.tsx:90-100 | After any stream of arrivals from an empty window, the window holds exactly the newest `cap` arrivals in arrival order |
| SessionView.RemoveAt | frontend/components/session-view.tsx:234 | Removing at an index in range deletes exactly that entry, and an index out of range leaves the list unchanged |
| SessionView.RemoveAtKeepsOthers | frontend/components/session-view.tsx:295 | Removal in range shortens the list by one, keeps the others in relative order, and loses only the removed entry |
| SessionView.Windows.constructor | frontend/components/session-view.tsx:56-57 | Both windows start empty |
| SessionView.Windows.HandleDataReceived | frontend/components/session-view.tsx:72-129 | `grafico` affects only the charts and `sql-result` only the SQL results. An unparsable payload or any other topic changes nothing. The windows stay within 3 and 2 entries |
| SessionView.Windows.CloseChart | frontend/components/session-view.tsx:295 | Removes the chart at the index and leaves the SQL results alone |
| SessionView.Windows.CloseSqlResult | frontend/components/session-view.tsx:234 | Removes the SQL result at the index and leaves the charts alone |
| SessionView.Windows.ClearCharts | frontend/components/session-view.tsx:262 | Empties the charts and leaves the SQL results alone |
| SessionView.Windows.ClearSqlResults | frontend/components/session-view.tsx:201 | Empties the SQL results and leaves the charts alone |

## Left out

- Strings.Upper: upper-cases ASCII letters only. Python's full Unicode case mapping (for example `'ß'.upper() == 'SS'`, which changes the length) is not modelled.
- JSON values hold integers only. Floating-point numbers are not modelled.
- The psycopg2 connection, cursor, `execute` and `fetchall` calls are not modelled. Their results are inputs: the fetched rows, or an error text.
- LiveKit `publish_data`, the job context, the agent session and worker start-up are not modelled. A publish failure is an optional error text.
- `json.dumps`, `JSON.parse` and `TextDecoder` are not modelled. Decoding is a parameter that succeeds or fails.
- The `timestamp` field of the published SQL payload is left out. It comes from the clock.
- `gerar_grafico`, the chart tool, is not part of this model.
- The prompt text, the knowledge-base file reading and the credential checks are left out. They are configuration and file I/O.
- The 10-second availability timeout, its toast and the room disconnect are left out. They are timer-driven side effects.
- All JSX, animation and the "n de 2 consultas" counter are left out. They are rendering only.
- The chart and SQL-result display components are not part of this model.
- CustomQuery.ConfirmationMessageShape: `RealDictRow` collapses duplicate column names, so a row here is a list of distinct-named fields as fetched.
- TableListing.DottedRowTooManyParts: exception texts are inputs, except the tuple-unpacking message. Its wording, "too many values to unpack (expected 2)", is that of CPython 3.13 and earlier. CPython 3.14 adds the count of values when unpacking a list, as in "(expected 2, got 3)".
- SessionView.Windows.CloseChart: React's closure captures the index at render time. The model takes the index at click time and does not model a stale index.
- SessionView.Windows.HandleDataReceived: the React setter's deferred, batched application is not modelled. Each packet updates the state at once.

## Findings

| source | as written | input that shows it | evidently intended | confidence | as-written member | corrected member |
|---|---|---|---|---|---|---|
| agent.py:318-331 | Kept rows are joined into `schema.nome` and split back with `split('.')` into exactly two names. This raises `ValueError` when a schema or table name holds a dot, and the whole listing turns into the error reply | the catalogue row `("public", "vendas.2024")`, a quoted identifier | group the `(schema, nome)` pairs directly, so every kept table is listed | not executed | TableListing.DottedTableNameBreaksListing | TableListing.ListTables |
