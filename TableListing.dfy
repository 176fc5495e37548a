/** The catalogue tool `listar_tabelas_banco` of agent.py: the rows of
    `information_schema.tables` (already fetched, in the order the query
    returns them) are filtered of PostGIS system tables, grouped by schema in
    a dictionary built by a loop, and rendered schema by schema in sorted
    order with at most ten table names per schema. */
module TableListing {

  import opened Outcomes
  import opened Strings

  /** One `(table_schema, table_name)` row of the catalogue query. */
  datatype TableRow = TableRow(schema: string, name: string)

  /** One entry `schemas[schema] = [names...]` of the grouping dictionary. */
  datatype SchemaGroup = SchemaGroup(schema: string, tables: seq<string>)

  /** What one schema's paragraph of the listing shows: its table count, the
      names printed, and how many are summarised as `(+k mais)`. */
  datatype SchemaLine = SchemaLine(schema: string, count: nat, shown: seq<string>, more: nat)

  /** PostGIS catalogue views hidden from the listing. */
  const PostgisViews: seq<string> := ["geography_columns", "geometry_columns", "raster_columns", "raster_overviews"]

  /** The most table names printed for one schema. */
  const ShownPerSchema: nat := 10

  const NoTablesReply: string := "Nenhuma tabela encontrada no banco de dados."
  const ListingFooter: string := "Use explorar_estrutura_tabela('schema.tabela') para ver a estrutura."
  const ListingErrorPrefix: string := "Erro ao listar tabelas: "

  // ---------------------------------------------------------------------
  // Filtering

  predicate IsPostgisTable(name: string) {
    StartsWith(name, "spatial_") || name in PostgisViews
  }

  /** The list comprehension `tabelas_filtradas`: the rows whose name neither
      starts with `spatial_` nor is one of the four PostGIS views, each kept as
      many times as it occurs. */
  function FilterTables(rows: seq<TableRow>): seq<TableRow> {
    if rows == [] then []
    else (if IsPostgisTable(rows[0].name) then [] else [rows[0]]) + FilterTables(rows[1..])
  }

  /** The filter keeps every row that is not a PostGIS table, as many times
      as it occurs, and nothing else. */
  lemma {:induction false} FilterTablesKeeps(rows: seq<TableRow>)
    ensures forall t :: multiset(FilterTables(rows))[t] == if IsPostgisTable(t.name) then 0 else multiset(rows)[t]
    ensures forall t :: t in FilterTables(rows) <==> t in rows && !IsPostgisTable(t.name)
  {
    if rows != [] {
      FilterTablesKeeps(rows[1..]);
      assert rows == [rows[0]] + rows[1..];
      var kept := FilterTables(rows);
      forall t
        ensures t in kept <==> t in rows && !IsPostgisTable(t.name)
      {
        assert t in kept <==> t in multiset(kept);
        assert t in rows <==> t in multiset(rows);
      }
    }
  }

  /** Filtering commutes with concatenation, so the kept rows stay in their
      input order. */
  lemma {:induction false} FilterTablesAppend(a: seq<TableRow>, b: seq<TableRow>)
    ensures FilterTables(a + b) == FilterTables(a) + FilterTables(b)
  {
    if a == [] {
      assert a + b == b;
    } else {
      assert (a + b)[0] == a[0] && (a + b)[1..] == a[1..] + b;
      FilterTablesAppend(a[1..], b);
    }
  }

  // ---------------------------------------------------------------------
  // Grouping by schema

  /** The position of `schema` among the groups, or `|groups|` when it has no
      group yet (`schema not in schemas`). */
  function SchemaIndex(groups: seq<SchemaGroup>, schema: string): (i: nat)
    ensures i <= |groups|
    ensures i < |groups| ==> groups[i].schema == schema
    ensures forall j :: 0 <= j < i ==> groups[j].schema != schema
  {
    if groups == [] then 0
    else if groups[0].schema == schema then 0
    else 1 + SchemaIndex(groups[1..], schema)
  }

  /** One iteration of the grouping loop: create the schema's list when it is
      missing, then append the table name to it. */
  function AddTable(groups: seq<SchemaGroup>, row: TableRow): seq<SchemaGroup> {
    var i := SchemaIndex(groups, row.schema);
    if i == |groups| then groups + [SchemaGroup(row.schema, [row.name])]
    else groups[i := SchemaGroup(row.schema, groups[i].tables + [row.name])]
  }

  /** The dictionary after the grouping loop has run over all of `rows`, its
      entries in insertion order. */
  function Group(rows: seq<TableRow>): seq<SchemaGroup>
    decreases |rows|
  {
    if rows == [] then [] else AddTable(Group(rows[..|rows| - 1]), rows[|rows| - 1])
  }

  /** The names of the rows of `schema`, in their order in `rows`. */
  function NamesIn(rows: seq<TableRow>, schema: string): seq<string>
    decreases |rows|
  {
    if rows == [] then []
    else NamesIn(rows[..|rows| - 1], schema) + (if rows[|rows| - 1].schema == schema then [rows[|rows| - 1].name] else [])
  }

  predicate DistinctSchemas(groups: seq<SchemaGroup>) {
    forall i, j :: 0 <= i < j < |groups| ==> groups[i].schema != groups[j].schema
  }

  predicate HasSchema(groups: seq<SchemaGroup>, schema: string) {
    exists i :: 0 <= i < |groups| && groups[i].schema == schema
  }

  /** The number of tables across all groups. */
  function TotalTables(groups: seq<SchemaGroup>): nat
    decreases |groups|
  {
    if groups == [] then 0 else TotalTables(groups[..|groups| - 1]) + |groups[|groups| - 1].tables|
  }

  lemma {:induction false} NamesInNone(rows: seq<TableRow>, schema: string)
    requires forall r :: r in rows ==> r.schema != schema
    ensures NamesIn(rows, schema) == []
    decreases |rows|
  {
    if rows != [] {
      NamesInNone(rows[..|rows| - 1], schema);
    }
  }

  /** `groups` is the grouping of `rows`: one group per schema, each
      listing exactly the names of that schema in input order, none empty,
      and every row's schema present. */
  predicate GroupsOf(groups: seq<SchemaGroup>, rows: seq<TableRow>) {
    && DistinctSchemas(groups)
    && (forall i :: 0 <= i < |groups| ==> groups[i].tables == NamesIn(rows, groups[i].schema) && groups[i].tables != [])
    && (forall r :: r in rows ==> HasSchema(groups, r.schema))
  }

  lemma AddTableKeepsGroups(groups: seq<SchemaGroup>, rows: seq<TableRow>, row: TableRow)
    requires GroupsOf(groups, rows)
    ensures GroupsOf(AddTable(groups, row), rows + [row])
  {
    var all := rows + [row];
    assert all[..|all| - 1] == rows && all[|all| - 1] == row;
    var next := AddTable(groups, row);
    var i := SchemaIndex(groups, row.schema);
    forall j | 0 <= j < |groups| && groups[j].schema != row.schema
      ensures NamesIn(all, groups[j].schema) == groups[j].tables
    {
    }
    if i == |groups| {
      forall r | r in rows
        ensures r.schema != row.schema
      {
        var j :| 0 <= j < |groups| && groups[j].schema == r.schema;
      }
      NamesInNone(rows, row.schema);
      assert next[i].tables == NamesIn(all, row.schema);
      forall r | r in all
        ensures HasSchema(next, r.schema)
      {
        if r in rows {
          var j :| 0 <= j < |groups| && groups[j].schema == r.schema;
          assert next[j] == groups[j];
        } else {
          assert next[i].schema == r.schema;
        }
      }
    } else {
      assert next[i].tables == NamesIn(all, row.schema);
      forall r | r in all
        ensures HasSchema(next, r.schema)
      {
        if r in rows {
          var j :| 0 <= j < |groups| && groups[j].schema == r.schema;
          assert next[j].schema == r.schema;
        } else {
          assert next[i].schema == r.schema;
        }
      }
    }
  }

  /** The grouping puts every row in the group of its schema, one group per
      schema: each group lists exactly the names of that schema, in input
      order, and no group is empty. */
  lemma {:induction false} GroupFaithful(rows: seq<TableRow>)
    ensures GroupsOf(Group(rows), rows)
    decreases |rows|
  {
    if rows != [] {
      var init := rows[..|rows| - 1];
      GroupFaithful(init);
      assert init + [rows[|rows| - 1]] == rows;
      AddTableKeepsGroups(Group(init), init, rows[|rows| - 1]);
    }
  }

  lemma {:induction false} TotalTablesAppend(groups: seq<SchemaGroup>, g: SchemaGroup)
    ensures TotalTables(groups + [g]) == TotalTables(groups) + |g.tables|
  {
    assert (groups + [g])[..|groups|] == groups;
  }

  lemma {:induction false} TotalTablesUpdate(groups: seq<SchemaGroup>, i: nat, g: SchemaGroup)
    requires i < |groups|
    ensures TotalTables(groups[i := g]) + |groups[i].tables| == TotalTables(groups) + |g.tables|
    decreases |groups|
  {
    var n := |groups|;
    if i == n - 1 {
      assert groups[i := g][..n - 1] == groups[..n - 1];
    } else {
      assert groups[i := g][..n - 1] == groups[..n - 1][i := g];
      TotalTablesUpdate(groups[..n - 1], i, g);
    }
  }

  /** Grouping loses and duplicates nothing: the group sizes add up to the
      number of filtered tables. */
  lemma {:induction false} GroupSizesSum(rows: seq<TableRow>)
    ensures TotalTables(Group(rows)) == |rows|
    decreases |rows|
  {
    if rows != [] {
      var init, last := rows[..|rows| - 1], rows[|rows| - 1];
      GroupSizesSum(init);
      var groups := Group(init);
      var i := SchemaIndex(groups, last.schema);
      if i == |groups| {
        TotalTablesAppend(groups, SchemaGroup(last.schema, [last.name]));
      } else {
        TotalTablesUpdate(groups, i, SchemaGroup(last.schema, groups[i].tables + [last.name]));
      }
    }
  }

  /** The grouping loop (`for tabela in tabelas_filtradas: ...
      schemas[schema].append(nome)`), building the dictionary in place. */
  method GroupBySchema(rows: seq<TableRow>) returns (groups: seq<SchemaGroup>)
    ensures groups == Group(rows)
  {
    groups := [];
    var k := 0;
    while k < |rows|
      invariant 0 <= k <= |rows|
      invariant groups == Group(rows[..k])
    {
      var row := rows[k];
      assert rows[..k + 1][..k] == rows[..k];
      ghost var next := AddTable(groups, row);
      assert Group(rows[..k + 1]) == next;
      var i := SchemaIndex(groups, row.schema);
      if i == |groups| {
        groups := groups + [SchemaGroup(row.schema, [])];
        assert groups[i].tables + [row.name] == [row.name];
      }
      groups := groups[i := SchemaGroup(row.schema, groups[i].tables + [row.name])];
      assert groups == next;
      k := k + 1;
    }
    assert rows[..|rows|] == rows;
  }

  // ---------------------------------------------------------------------
  // The grouping as written: join then split

  /** `f"{schema}.{nome}"`, the element type of `tabelas_filtradas`. */
  function Qualified(row: TableRow): string {
    row.schema + "." + row.name
  }

  function QualifiedNames(rows: seq<TableRow>): (names: seq<string>)
    ensures |names| == |rows|
  {
    seq(|rows|, i requires 0 <= i < |rows| => Qualified(rows[i]))
  }

  /** `schema, nome = tabela.split('.')`: succeeds only when the text holds
      exactly one dot, and raises `ValueError` otherwise. */
  function UnpackSchemaAndName(qualified: string): Result<TableRow> {
    var dots := CountOf(qualified, '.');
    if dots == 1 then
      var i := IndexOf(qualified, '.');
      Ok(TableRow(qualified[..i], qualified[i + 1..]))
    else if dots == 0 then Err("not enough values to unpack (expected 2, got 1)")
    else Err("too many values to unpack (expected 2)")
  }

  /** The grouping loop exactly as written: over the joined names, splitting
      each one back; the first name that does not split in two aborts it. */
  function GroupQualifiedAsWritten(names: seq<string>): Result<seq<SchemaGroup>>
    decreases |names|
  {
    if names == [] then Ok([])
    else
      match GroupQualifiedAsWritten(names[..|names| - 1])
      case Err(e) => Err(e)
      case Ok(groups) =>
        match UnpackSchemaAndName(names[|names| - 1])
        case Err(e) => Err(e)
        case Ok(row) => Ok(AddTable(groups, row))
  }

  predicate DotFree(row: TableRow) {
    '.' !in row.schema && '.' !in row.name
  }

  /** Splitting a joined name gives back its schema and table when neither
      holds a dot. */
  lemma UnpackQualified(row: TableRow)
    requires DotFree(row)
    ensures UnpackSchemaAndName(Qualified(row)) == Ok(row)
  {
    var q := Qualified(row);
    assert q[|row.schema|] == '.';
    assert forall j :: 0 <= j < |row.schema| ==> q[j] == row.schema[j];
    var i := IndexOf(q, '.');
    assert i == |row.schema|;
    CountOfAppend(row.schema + ".", row.name, '.');
    CountOfAppend(row.schema, ".", '.');
    assert q[..i] == row.schema && q[i + 1..] == row.name;
  }

  /** Without dots in schema and table names, the join-then-split grouping is
      the direct grouping. */
  lemma {:induction false} AsWrittenAgreesWithoutDots(rows: seq<TableRow>)
    requires forall r :: r in rows ==> DotFree(r)
    ensures GroupQualifiedAsWritten(QualifiedNames(rows)) == Ok(Group(rows))
    decreases |rows|
  {
    if rows != [] {
      var n := |rows|;
      var names := QualifiedNames(rows);
      assert names[..n - 1] == QualifiedNames(rows[..n - 1]);
      assert names[n - 1] == Qualified(rows[n - 1]);
      assert rows[n - 1] in rows;
      forall r | r in rows[..n - 1]
        ensures DotFree(r)
      {
        assert r in rows;
      }
      AsWrittenAgreesWithoutDots(rows[..n - 1]);
      UnpackQualified(rows[n - 1]);
    }
  }

  // ---------------------------------------------------------------------
  // Sorting the schemas

  /** Insert a group before the first group whose schema is not below its
      own. */
  function InsertBySchema(g: SchemaGroup, sorted: seq<SchemaGroup>): (r: seq<SchemaGroup>)
    ensures multiset(r) == multiset(sorted) + multiset{g}
  {
    if sorted == [] || !Below(sorted[0].schema, g.schema) then [g] + sorted
    else
      assert sorted == [sorted[0]] + sorted[1..];
      [sorted[0]] + InsertBySchema(g, sorted[1..])
  }

  /** `sorted(schemas.items())`, as an insertion sort on the schema name. */
  function SortBySchema(groups: seq<SchemaGroup>): (r: seq<SchemaGroup>)
    ensures multiset(r) == multiset(groups)
  {
    if groups == [] then []
    else
      assert groups == [groups[0]] + groups[1..];
      InsertBySchema(groups[0], SortBySchema(groups[1..]))
  }

  predicate StrictlySortedBySchema(groups: seq<SchemaGroup>) {
    forall i, j :: 0 <= i < j < |groups| ==> Below(groups[i].schema, groups[j].schema)
  }

  lemma {:induction false} InsertBySchemaSorted(g: SchemaGroup, sorted: seq<SchemaGroup>)
    requires StrictlySortedBySchema(sorted)
    requires forall x :: x in sorted ==> x.schema != g.schema
    ensures StrictlySortedBySchema(InsertBySchema(g, sorted))
    decreases |sorted|
  {
    var r := InsertBySchema(g, sorted);
    if sorted == [] {
    } else if !Below(sorted[0].schema, g.schema) {
      BelowTotal(g.schema, sorted[0].schema);
      forall j | 1 <= j < |r|
        ensures Below(r[0].schema, r[j].schema)
      {
        if j > 1 {
          BelowTransitive(g.schema, sorted[0].schema, sorted[j - 1].schema);
        }
      }
    } else {
      InsertBySchemaSorted(g, sorted[1..]);
      var rest := InsertBySchema(g, sorted[1..]);
      forall j | 0 <= j < |rest|
        ensures Below(sorted[0].schema, rest[j].schema)
      {
        assert rest[j] in multiset(rest);
        if rest[j] != g {
          assert rest[j] in sorted[1..];
        }
      }
    }
  }

  /** Sorting groups with distinct schemas puts the schemas in strictly
      increasing order. */
  lemma {:induction false} SortBySchemaSorted(groups: seq<SchemaGroup>)
    requires DistinctSchemas(groups)
    ensures StrictlySortedBySchema(SortBySchema(groups))
    decreases |groups|
  {
    if groups != [] {
      SortBySchemaSorted(groups[1..]);
      var rest := SortBySchema(groups[1..]);
      forall x | x in rest
        ensures x.schema != groups[0].schema
      {
        assert x in multiset(rest);
        assert x in groups[1..];
      }
      InsertBySchemaSorted(groups[0], rest);
    }
  }

  lemma {:induction false} InsertBySchemaTotal(g: SchemaGroup, sorted: seq<SchemaGroup>)
    ensures TotalTables(InsertBySchema(g, sorted)) == TotalTables(sorted) + |g.tables|
    decreases |sorted|
  {
    if sorted != [] && Below(sorted[0].schema, g.schema) {
      InsertBySchemaTotal(g, sorted[1..]);
      TotalTablesPrepend(sorted[0], InsertBySchema(g, sorted[1..]));
      TotalTablesPrepend(sorted[0], sorted[1..]);
      assert sorted == [sorted[0]] + sorted[1..];
    } else {
      TotalTablesPrepend(g, sorted);
    }
  }

  lemma {:induction false} TotalTablesPrepend(g: SchemaGroup, groups: seq<SchemaGroup>)
    ensures TotalTables([g] + groups) == |g.tables| + TotalTables(groups)
    decreases |groups|
  {
    if groups != [] {
      var n := |groups|;
      assert ([g] + groups)[..n] == [g] + groups[..n - 1];
      TotalTablesPrepend(g, groups[..n - 1]);
    } else {
      assert [g] + groups == [g];
      assert [g][..0] == [];
    }
  }

  /** Sorting keeps the total number of tables. */
  lemma {:induction false} SortBySchemaTotal(groups: seq<SchemaGroup>)
    ensures TotalTables(SortBySchema(groups)) == TotalTables(groups)
    decreases |groups|
  {
    if groups != [] {
      SortBySchemaTotal(groups[1..]);
      InsertBySchemaTotal(groups[0], SortBySchema(groups[1..]));
      TotalTablesPrepend(groups[0], groups[1..]);
      assert groups == [groups[0]] + groups[1..];
    }
  }

  // ---------------------------------------------------------------------
  // The listing

  /** What the listing prints for one schema: `tabelas[:10]` and, past ten,
      the number left out. */
  function LineOf(g: SchemaGroup): (line: SchemaLine)
    ensures line.schema == g.schema && line.count == |g.tables|
    ensures |line.shown| <= |g.tables|
    ensures |line.shown| <= ShownPerSchema && (|line.shown| == ShownPerSchema || |line.shown| == line.count)
    ensures line.shown == g.tables[..|line.shown|]
    ensures line.more == line.count - |line.shown|
  {
    var shown := if |g.tables| <= ShownPerSchema then g.tables else g.tables[..ShownPerSchema];
    SchemaLine(g.schema, |g.tables|, shown, if |g.tables| > ShownPerSchema then |g.tables| - ShownPerSchema else 0)
  }

  function Lines(groups: seq<SchemaGroup>): (lines: seq<SchemaLine>)
    ensures |lines| == |groups|
  {
    seq(|groups|, i requires 0 <= i < |groups| => LineOf(groups[i]))
  }

  /** The schema paragraphs of the listing, in printing order. */
  function Listing(kept: seq<TableRow>): seq<SchemaLine> {
    Lines(SortBySchema(Group(kept)))
  }

  /** The listing shows every schema of the kept tables exactly once, in
      strictly increasing order; each paragraph counts exactly that schema's
      tables and prints a prefix of them, in input order, of at most ten
      names, summarising the rest. */
  lemma ListingProperties(kept: seq<TableRow>)
    ensures forall i, j :: 0 <= i < j < |Listing(kept)| ==> Below(Listing(kept)[i].schema, Listing(kept)[j].schema)
    ensures forall r :: r in kept ==> ListsSchema(Listing(kept), r.schema)
    ensures forall i :: 0 <= i < |Listing(kept)| ==> LineDescribes(Listing(kept)[i], kept)
  {
    var groups := Group(kept);
    var sorted := SortBySchema(groups);
    GroupFaithful(kept);
    SortBySchemaSorted(groups);
    ListedLinesDescribe(kept, groups, sorted);
    ListedSchemasCover(kept, groups, sorted);
  }

  predicate ListsSchema(lines: seq<SchemaLine>, schema: string) {
    exists i :: 0 <= i < |lines| && lines[i].schema == schema
  }

  /** A paragraph of the listing is faithful to the kept tables of its
      schema. */
  predicate LineDescribes(line: SchemaLine, kept: seq<TableRow>) {
    var names := NamesIn(kept, line.schema);
    line.count == |names| > 0 && |line.shown| <= ShownPerSchema &&
    |line.shown| <= |names| && line.shown == names[..|line.shown|] &&
    line.more == line.count - |line.shown|
  }

  lemma ListedLinesDescribe(kept: seq<TableRow>, groups: seq<SchemaGroup>, sorted: seq<SchemaGroup>)
    requires GroupsOf(groups, kept)
    requires multiset(sorted) == multiset(groups)
    ensures forall i :: 0 <= i < |sorted| ==> LineDescribes(Lines(sorted)[i], kept)
  {
    forall i | 0 <= i < |sorted|
      ensures LineDescribes(Lines(sorted)[i], kept)
    {
      assert sorted[i] in multiset(groups);
      var j :| 0 <= j < |groups| && groups[j] == sorted[i];
    }
  }

  lemma ListedSchemasCover(kept: seq<TableRow>, groups: seq<SchemaGroup>, sorted: seq<SchemaGroup>)
    requires GroupsOf(groups, kept)
    requires multiset(sorted) == multiset(groups)
    ensures forall r :: r in kept ==> ListsSchema(Lines(sorted), r.schema)
  {
    forall r | r in kept
      ensures ListsSchema(Lines(sorted), r.schema)
    {
      var j :| 0 <= j < |groups| && groups[j].schema == r.schema;
      assert groups[j] in multiset(sorted);
      var i :| 0 <= i < |sorted| && sorted[i] == groups[j];
      assert Lines(sorted)[i].schema == r.schema;
    }
  }

  /** The listing counts every kept table once and names every schema once. */
  lemma ListingCounts(kept: seq<TableRow>)
    ensures TotalTables(SortBySchema(Group(kept))) == |kept|
    ensures |Listing(kept)| == |Group(kept)|
  {
    GroupSizesSum(kept);
    SortBySchemaTotal(Group(kept));
    assert |SortBySchema(Group(kept))| == |multiset(Group(kept))|;
  }

  // ---------------------------------------------------------------------
  // Rendering

  function ListingHeader(tableCount: nat, schemaCount: nat): string {
    "✅ Encontrei " + NatToString(tableCount) + " tabelas em " + NatToString(schemaCount) + " schemas:\n\n"
  }

  function SectionTitle(schema: string, count: nat): string {
    "📂 **" + schema + "** (" + NatToString(count) + " tabelas):\n"
  }

  function SectionNames(shown: seq<string>): string {
    "   " + Join(shown, ", ")
  }

  function SectionMore(more: nat): string {
    "... (+" + NatToString(more) + " mais)"
  }

  /** One schema's paragraph, as the loop body appends it. */
  function SchemaSection(line: SchemaLine): string {
    SectionTitle(line.schema, line.count) + SectionNames(line.shown) +
    (if line.more > 0 then SectionMore(line.more) else "") + "\n\n"
  }

  function Sections(lines: seq<SchemaLine>): string
    decreases |lines|
  {
    if lines == [] then "" else Sections(lines[..|lines| - 1]) + SchemaSection(lines[|lines| - 1])
  }

  /** The reply for a non-empty list of kept tables. */
  function ListingText(kept: seq<TableRow>): string {
    ListingHeader(|kept|, |Group(kept)|) + Sections(Listing(kept)) + ListingFooter
  }

  lemma ListingTextStart(kept: seq<TableRow>)
    ensures ListingText(kept)[0] == '\U{2705}'
  {
    var header := ListingHeader(|kept|, |Group(kept)|);
    assert header[0] == '\U{2705}';
    assert ListingText(kept) == header + (Sections(Listing(kept)) + ListingFooter);
  }

  /** The reply of the tool, given what the catalogue query returned (or the
      text of the exception it raised). */
  function ListTablesReply(catalogue: Result<seq<TableRow>>): string {
    match catalogue
    case Err(e) => ListingErrorPrefix + e
    case Ok(rows) =>
      var kept := FilterTables(rows);
      if kept == [] then NoTablesReply else ListingText(kept)
  }

  /** The "no tables" reply is given exactly when the query succeeded and
      every row was filtered out. */
  lemma NoTablesReplyExactly(catalogue: Result<seq<TableRow>>)
    ensures ListTablesReply(catalogue) == NoTablesReply <==> catalogue.Ok? && FilterTables(catalogue.value) == []
  {
    ReplyFirstChar(catalogue);
    NoTablesReplyStart();
  }

  lemma NoTablesReplyStart()
    ensures NoTablesReply[0] == 'N'
  {
  }

  lemma ReplyFirstChar(catalogue: Result<seq<TableRow>>)
    ensures catalogue.Err? ==> ListTablesReply(catalogue)[0] == 'E'
    ensures catalogue.Ok? && FilterTables(catalogue.value) != [] ==> ListTablesReply(catalogue)[0] == '\U{2705}'
  {
    if catalogue.Err? {
      assert ListingErrorPrefix[0] == 'E';
      assert ListTablesReply(catalogue) == ListingErrorPrefix + catalogue.message;
    } else if FilterTables(catalogue.value) != [] {
      ListingTextStart(FilterTables(catalogue.value));
    }
  }

  lemma SectionsStep(sorted: seq<SchemaGroup>, k: nat)
    requires k < |sorted|
    ensures Sections(Lines(sorted[..k + 1])) == Sections(Lines(sorted[..k])) + SchemaSection(LineOf(sorted[k]))
  {
    var lines := Lines(sorted[..k + 1]);
    assert lines[..k] == Lines(sorted[..k]);
    assert lines[k] == LineOf(sorted[k]);
  }

  /** The loop `for schema, tabelas in sorted(...)`, appending each schema's
      paragraph to the text built so far. */
  method AppendSections(header: string, sorted: seq<SchemaGroup>) returns (reply: string)
    ensures reply == header + Sections(Lines(sorted))
  {
    reply := header;
    var k := 0;
    assert Lines(sorted[..0]) == [];
    while k < |sorted|
      invariant 0 <= k <= |sorted|
      invariant reply == header + Sections(Lines(sorted[..k]))
    {
      var section := SchemaSection(LineOf(sorted[k]));
      SectionsStep(sorted, k);
      AppendAssociates(header, Sections(Lines(sorted[..k])), section);
      reply := reply + section;
      k := k + 1;
    }
    assert sorted[..|sorted|] == sorted;
  }

  /** `listar_tabelas_banco`: filter, group with the loop, sort, and append
      the paragraphs one schema at a time. */
  method ListTables(catalogue: Result<seq<TableRow>>) returns (reply: string)
    ensures reply == ListTablesReply(catalogue)
  {
    if catalogue.Err? {
      reply := ListingErrorPrefix + catalogue.message;
      return;
    }
    var kept := FilterTables(catalogue.value);
    var groups := GroupBySchema(kept);
    if kept == [] {
      reply := NoTablesReply;
      return;
    }
    var sorted := SortBySchema(groups);
    reply := AppendSections(ListingHeader(|kept|, |groups|), sorted);
    reply := reply + ListingFooter;
  }

  // ---------------------------------------------------------------------
  // The listing as written

  /** The tool's reply exactly as written, grouping through the joined
      `schema.table` names. */
  function ListTablesReplyAsWritten(catalogue: Result<seq<TableRow>>): string {
    match catalogue
    case Err(e) => ListingErrorPrefix + e
    case Ok(rows) =>
      var kept := FilterTables(rows);
      match GroupQualifiedAsWritten(QualifiedNames(kept))
      case Err(e) => ListingErrorPrefix + e
      case Ok(groups) =>
        if kept == [] then NoTablesReply
        else ListingHeader(|kept|, |groups|) + Sections(Lines(SortBySchema(groups))) + ListingFooter
  }

  /** When no kept row's schema or table name holds a dot, the listing as
      written and the corrected listing give the same reply. */
  lemma AsWrittenListingAgrees(catalogue: Result<seq<TableRow>>)
    requires catalogue.Ok? ==> forall r :: r in FilterTables(catalogue.value) ==> DotFree(r)
    ensures ListTablesReplyAsWritten(catalogue) == ListTablesReply(catalogue)
  {
    if catalogue.Ok? {
      FilterTablesKeeps(catalogue.value);
      AsWrittenAgreesWithoutDots(FilterTables(catalogue.value));
    }
  }

  /** A qualified name with a dot inside the schema or table name splits
      into more than two parts. */
  lemma {:induction false} DottedRowTooManyParts(row: TableRow)
    requires !DotFree(row)
    ensures UnpackSchemaAndName(Qualified(row)) == Err("too many values to unpack (expected 2)")
  {
    CountOfAppend(row.schema + ".", row.name, '.');
    CountOfAppend(row.schema, ".", '.');
    assert CountOf(".", '.') == 1 by { assert "."[1..] == ""; }
  }

  lemma AsWrittenStep(names: seq<string>)
    requires names != []
    ensures GroupQualifiedAsWritten(names).Err? <==>
            GroupQualifiedAsWritten(names[..|names| - 1]).Err? || UnpackSchemaAndName(names[|names| - 1]).Err?
  {
  }

  /** The unpacking loop as written fails as soon as one qualified name
      does not split into exactly two parts. */
  lemma {:induction false} AsWrittenFailsOnBadName(names: seq<string>, i: nat)
    requires i < |names| && UnpackSchemaAndName(names[i]).Err?
    decreases |names|
    ensures GroupQualifiedAsWritten(names).Err?
  {
    AsWrittenStep(names);
    if i < |names| - 1 {
      var init := names[..|names| - 1];
      assert init[i] == names[i];
      AsWrittenFailsOnBadName(init, i);
    }
  }

  /** One table whose schema or name holds a dot (a quoted identifier) makes
      the listing as written fail as a whole, while the corrected listing
      shows every table. */
  lemma DottedTableNameBreaksListing(rows: seq<TableRow>, row: TableRow)
    requires row in rows && !IsPostgisTable(row.name) && !DotFree(row)
    ensures ListingErrorPrefix <= ListTablesReplyAsWritten(Ok(rows))
    ensures ListTablesReply(Ok(rows)) == ListingText(FilterTables(rows))
    ensures ListTablesReply(Ok(rows))[0] == '\U{2705}'
    ensures forall r :: r in rows && !IsPostgisTable(r.name) ==> ListsSchema(Listing(FilterTables(rows)), r.schema)
  {
    var kept := FilterTables(rows);
    FilterTablesKeeps(rows);
    assert row in kept;
    var i :| 0 <= i < |kept| && kept[i] == row;
    var names := QualifiedNames(kept);
    DottedRowTooManyParts(row);
    AsWrittenFailsOnBadName(names, i);
    ListingTextStart(kept);
    ListingProperties(kept);
  }


}
