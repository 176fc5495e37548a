// The `explorar_estrutura_tabela` tool of the voice agent: it splits the
// requested name into schema and table, asks the catalogue for the table's
// columns, and renders one line per column followed by a count and a
// suggested query.

module TableStructure {
  import opened Outcomes
  import opened Strings
  import opened CustomQuery

  // ---------------------------------------------------------------------
  // Splitting the requested name

  /** The name as the tool understands it: an optional schema and a table. */
  datatype TableRef = TableRef(schema: Option<string>, table: string)

  /** `nome_tabela.split('.', 1)` when the name holds a dot: the schema is
      everything before the first dot, the table everything after it (dots
      included). Without a dot there is no schema. */
  function SplitTableName(name: string): (r: TableRef)
    ensures r.schema.Some? <==> '.' in name
    ensures r.schema.Some? ==> '.' !in r.schema.value && r.schema.value + "." + r.table == name
    ensures r.schema.None? ==> r.table == name
  {
    if '.' in name then
      var i := IndexOf(name, '.');
      assert name[..i] + "." + name[i + 1..] == name;
      TableRef(Some(name[..i]), name[i + 1..])
    else TableRef(None, name)
  }

  /** The name a reference reads as, the inverse of splitting. */
  function JoinTableName(r: TableRef): string {
    match r.schema
    case Some(s) => s + "." + r.table
    case None => r.table
  }

  /** Splitting loses nothing: joining the parts gives the name back. */
  lemma SplitJoinRoundTrip(name: string)
    ensures JoinTableName(SplitTableName(name)) == name
  {
  }

  /** Joining a dot-free schema to any table and splitting again gives the
      same parts back. */
  lemma JoinSplitRoundTrip(schema: string, table: string)
    requires '.' !in schema
    ensures SplitTableName(schema + "." + table) == TableRef(Some(schema), table)
  {
    var name := schema + "." + table;
    assert name[|schema|] == '.';
    assert forall j :: 0 <= j < |schema| ==> name[j] == schema[j];
    assert IndexOf(name, '.') == |schema|;
    assert name[..|schema|] == schema && name[|schema| + 1..] == table;
  }

  // ---------------------------------------------------------------------
  // Choosing the catalogue query

  /** The two catalogue queries: filtered by schema and table, or by table
      alone. */
  datatype ColumnLookup =
    | BySchemaAndTable(schema: string, table: string)
    | ByTable(table: string)

  /** `if schema:` -- an empty schema (a name starting with a dot) is falsy
      and falls back to the query by table alone. */
  function LookupFor(r: TableRef): (l: ColumnLookup)
    ensures l.table == r.table
    ensures l.BySchemaAndTable? <==> r.schema.Some? && r.schema.value != []
    ensures l.BySchemaAndTable? ==> l.schema == r.schema.value
  {
    match r.schema
    case Some(s) => if s != [] then BySchemaAndTable(s, r.table) else ByTable(r.table)
    case None => ByTable(r.table)
  }

  /** A name with a schema queries by schema and table; the schema is the
      part before the first dot, the table keeps any later dots. */
  lemma LookupWithSchema(schema: string, table: string)
    requires '.' !in schema && schema != []
    ensures LookupFor(SplitTableName(schema + "." + table)) == BySchemaAndTable(schema, table)
  {
    JoinSplitRoundTrip(schema, table);
  }

  /** A name starting with a dot drops the dot and searches every schema. */
  lemma LeadingDotSearchesEverySchema(table: string)
    ensures LookupFor(SplitTableName("." + table)) == ByTable(table)
  {
    JoinSplitRoundTrip("", table);
    assert "" + "." + table == "." + table;
  }

  /** A name without a dot searches every schema for that table. */
  lemma NoDotSearchesEverySchema(name: string)
    requires '.' !in name
    ensures LookupFor(SplitTableName(name)) == ByTable(name)
  {
  }

  // ---------------------------------------------------------------------
  // Rendering the columns

  /** A row of `information_schema.columns`: name, type and the
      `is_nullable` text. */
  datatype ColumnRow = ColumnRow(name: string, dataType: string, isNullable: string)

  const NotNullText: string := "NOT NULL"
  const NullText: string := "NULL"

  /** Only the exact text `YES` marks a nullable column. */
  function Nullability(isNullable: string): (text: string)
    ensures text == NullText <==> isNullable == "YES"
    ensures text == NullText || text == NotNullText
  {
    if isNullable == "YES" then NullText else NotNullText
  }

  function ColumnLine(c: ColumnRow): string {
    "  • " + c.name + " (" + c.dataType + ") - " + Nullability(c.isNullable) + "\n"
  }

  function ColumnLines(columns: seq<ColumnRow>): string
    decreases |columns|
  {
    if columns == [] then "" else ColumnLines(columns[..|columns| - 1]) + ColumnLine(columns[|columns| - 1])
  }

  function StructureHeader(name: string): string {
    "📊 Estrutura da tabela '" + name + "':\n\n"
  }

  /** The query the reply suggests for reading the table's first rows. */
  function SuggestedQuery(name: string): string {
    "SELECT * FROM " + name + " LIMIT 10"
  }

  function StructureFooter(name: string, count: nat): string {
    "\nTotal de colunas: " + NatToString(count) +
    "\n\nAgora você pode consultar dados usando:\nexecutar_query_customizada('" + SuggestedQuery(name) + "')"
  }

  function StructureText(name: string, columns: seq<ColumnRow>): string {
    StructureHeader(name) + ColumnLines(columns) + StructureFooter(name, |columns|)
  }

  function NotFoundReply(name: string): string {
    "❌ Tabela '" + name + "' não encontrada.\n\nUse listar_tabelas_banco para ver as tabelas disponíveis."
  }

  function StructureErrorReply(error: string): string {
    "Erro: " + error
  }

  /** The reply of the tool, given what the catalogue returns for each
      lookup (or the text of the exception raised on the way). */
  function DescribeReply(name: string, columnsOf: ColumnLookup -> Result<seq<ColumnRow>>): string {
    match columnsOf(LookupFor(SplitTableName(name)))
    case Err(e) => StructureErrorReply(e)
    case Ok(columns) => if columns == [] then NotFoundReply(name) else StructureText(name, columns)
  }

  lemma ColumnLinesStep(columns: seq<ColumnRow>, k: nat)
    requires k < |columns|
    ensures ColumnLines(columns[..k + 1]) == ColumnLines(columns[..k]) + ColumnLine(columns[k])
  {
    assert columns[..k + 1][..k] == columns[..k];
  }

  /** The loop `for col in columns:`, appending one line per column. */
  method AppendColumnLines(header: string, columns: seq<ColumnRow>) returns (text: string)
    ensures text == header + ColumnLines(columns)
  {
    text := header;
    var k := 0;
    while k < |columns|
      invariant 0 <= k <= |columns|
      invariant text == header + ColumnLines(columns[..k])
    {
      var line := ColumnLine(columns[k]);
      ColumnLinesStep(columns, k);
      AppendAssociates(header, ColumnLines(columns[..k]), line);
      text := text + line;
      k := k + 1;
    }
    assert columns[..|columns|] == columns;
  }

  /** `explorar_estrutura_tabela`: choose the lookup, fetch the columns, and
      build the reply line by line. */
  method DescribeTable(name: string, columnsOf: ColumnLookup -> Result<seq<ColumnRow>>)
    returns (reply: string, lookup: ColumnLookup)
    ensures lookup == LookupFor(SplitTableName(name))
    ensures reply == DescribeReply(name, columnsOf)
  {
    var schema: Option<string>, table: string;
    if '.' in name {
      var i := IndexOf(name, '.');
      schema, table := Some(name[..i]), name[i + 1..];
    } else {
      schema, table := None, name;
    }
    if schema.Some? && schema.value != [] {
      lookup := BySchemaAndTable(schema.value, table);
    } else {
      lookup := ByTable(table);
    }
    var fetched := columnsOf(lookup);
    if fetched.Err? {
      reply := StructureErrorReply(fetched.message);
      return;
    }
    var columns := fetched.value;
    if columns == [] {
      reply := NotFoundReply(name);
      return;
    }
    var text := AppendColumnLines(StructureHeader(name), columns);
    reply := text + StructureFooter(name, |columns|);
  }

  // ---------------------------------------------------------------------
  // Properties of the reply

  /** Each column gets exactly one line, when no name or type holds a line
      break. */
  lemma {:induction false} OneLinePerColumn(columns: seq<ColumnRow>)
    requires forall i :: 0 <= i < |columns| ==> '\n' !in columns[i].name && '\n' !in columns[i].dataType
    decreases |columns|
    ensures CountOf(ColumnLines(columns), '\n') == |columns|
  {
    if columns != [] {
      var init := columns[..|columns| - 1];
      var c := columns[|columns| - 1];
      OneLinePerColumn(init);
      CountOfAppend(ColumnLines(init), ColumnLine(c), '\n');
      ColumnLineOneBreak(c);
    }
  }

  lemma ColumnLineOneBreak(c: ColumnRow)
    requires '\n' !in c.name && '\n' !in c.dataType
    ensures CountOf(ColumnLine(c), '\n') == 1
  {
    var nullable := Nullability(c.isNullable);
    assert '\n' !in nullable;
    assert '\n' !in "  • " && '\n' !in " (" && '\n' !in ") - ";
    var head := "  • " + c.name + " (" + c.dataType + ") - " + nullable;
    assert '\n' !in head;
    assert ColumnLine(c) == head + "\n";
    CountOfAppend(head, "\n", '\n');
    assert CountOf("\n", '\n') == 1 by { assert "\n"[1..] == ""; }
  }

  /** The three replies are told apart by their first character: the
      structure, the "not found" text, and the error text. */
  lemma ReplyKinds(name: string, columnsOf: ColumnLookup -> Result<seq<ColumnRow>>)
    ensures var fetched := columnsOf(LookupFor(SplitTableName(name)));
            var reply := DescribeReply(name, columnsOf);
            (reply[0] == '\U{1F4CA}' <==> fetched.Ok? && fetched.value != []) &&
            (reply[0] == '\U{274C}' <==> fetched.Ok? && fetched.value == []) &&
            (reply[0] == 'E' <==> fetched.Err?)
  {
    var fetched := columnsOf(LookupFor(SplitTableName(name)));
    match fetched
    case Err(e) =>
      assert StructureErrorReply(e)[0] == 'E';
    case Ok(columns) =>
      if columns == [] {
        assert NotFoundReply(name)[0] == '\U{274C}';
      } else {
        assert StructureText(name, columns)[0] == StructureHeader(name)[0] == '\U{1F4CA}';
      }
  }

  /** The suggested query passes the `SELECT`-only guard of
      `executar_query_customizada` and already carries its own `LIMIT`, so
      that tool runs it unchanged. */
  lemma SuggestedQueryRunsUnchanged(name: string, limit: int)
    ensures IsSelectQuery(SuggestedQuery(name))
    ensures WithLimit(SuggestedQuery(name), limit) == SuggestedQuery(name)
  {
    SuggestedQueryAccepted(name);
    var front := "SELECT * FROM " + name;
    var q := SuggestedQuery(name);
    assert q == front + (" LIMIT " + "10");
    UpperAppend(front, " LIMIT " + "10");
    assert Upper(" LIMIT " + "10") == " LIMIT " + "10";
    LimitClauseOccurs(Upper(front), "10");
    ContainsIffOccurs(Upper(q), "LIMIT");
  }

  lemma SuggestedQueryAccepted(name: string)
    ensures IsSelectQuery(SuggestedQuery(name))
  {
    var q := SuggestedQuery(name);
    assert q[0] == 'S' && !IsSpace(q[0]);
    assert LStrip(q) == q;
    assert q[..6] == "SELECT";
    assert Upper("SELECT") == "SELECT";
    GuardCharacterisation(q);
  }

}
