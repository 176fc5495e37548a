/** The ad-hoc query tool `executar_query_customizada` of agent.py: the
    read-only guard, the row cap, the `LIMIT` rewrite, the structured result
    published on the `sql-result` topic, and the confirmation text returned to
    the language model. The database and the room are parameters: the outcome
    of opening a connection, a function from the executed SQL text to its
    result set, and the outcome of publishing. */
module CustomQuery {

  import opened Outcomes
  import opened Strings

  /** The most rows a query may ask for. */
  const MaxRows: int := 100

  /** The row limit used when the caller gives none. */
  const DefaultLimit: int := 10

  const RejectionReply: string := "❌ Erro: Apenas queries SELECT são permitidas por segurança."
  const NoRowsReply: string := "✅ Query executada mas não retornou resultados."
  const SingleValuePrefix: string := "✅ Resultado exibido na tela: "
  const RecordsPrefix: string := "✅ Query executada! Exibindo "
  const RecordsSuffix: string := " registros na tela."

  /** One fetched row as a `RealDictRow`: column name and the `str()` of its
      value, in column order, one entry per distinct column name. */
  type Row = seq<(string, string)>

  /** What the cursor yields: the names in `cursor.description` and the rows. */
  datatype ResultSet = ResultSet(columns: seq<string>, rows: seq<Row>)

  /** The object published on the `sql-result` topic (its timestamp is not
      modelled). */
  datatype SqlResultPayload = SqlResultPayload(query: string, columns: seq<string>, rows: seq<Row>, rowCount: nat)

  // ---------------------------------------------------------------------
  // The read-only guard

  /** `query_sql.strip().upper().startswith('SELECT')`. */
  predicate IsSelectQuery(query: string) {
    StartsWith(Upper(Strip(query)), "SELECT")
  }

  /** The guard reads only the first six characters after the leading
      whitespace, and compares them with `select` in any letter case;
      trailing whitespace plays no part. */
  lemma GuardCharacterisation(query: string)
    ensures IsSelectQuery(query) <==> |LStrip(query)| >= 6 && Upper(LStrip(query)[..6]) == "SELECT"
  {
    var t := LStrip(query);
    var r := RStrip(t);
    if |t| >= 6 && Upper(t[..6]) == "SELECT" {
      SelectSurvivesRStrip(t);
    }
    if IsSelectQuery(query) {
      SameFirstSix(t, r);
    }
  }

  /** Trailing whitespace cannot reach a leading `SELECT`. */
  lemma SelectSurvivesRStrip(t: string)
    requires |t| >= 6 && Upper(t[..6]) == "SELECT"
    ensures StartsWith(Upper(RStrip(t)), "SELECT")
  {
    var r := RStrip(t);
    assert UpperChar(t[5]) == Upper(t[..6])[5] == 'T';
    assert !IsSpace(t[5]);
    RStripKeeps(t, 5);
    SameFirstSix(t, r);
  }

  /** A prefix of at least six characters has the same first six, upper-cased. */
  lemma SameFirstSix(t: string, r: string)
    requires |r| <= |t| && r == t[..|r|] && |r| >= 6
    ensures Upper(r)[..6] == Upper(t[..6])
  {
    assert r[..6] == t[..6];
  }

  /** Two queries that differ only in the case of their letters are treated
      alike by the guard. */
  lemma GuardIgnoresCase(a: string, b: string)
    requires Upper(a) == Upper(b)
    ensures IsSelectQuery(a) <==> IsSelectQuery(b)
  {
    StripUpper(a);
    StripUpper(b);
    UpperIdempotent(Strip(a));
    UpperIdempotent(Strip(b));
  }

  lemma {:induction false} LStripSkipsSpace(pre: string, s: string)
    requires AllSpace(pre)
    ensures LStrip(pre + s) == LStrip(s)
    decreases |pre|
  {
    if pre == [] {
      assert pre + s == s;
    } else {
      assert (pre + s)[0] == pre[0] && (pre + s)[1..] == pre[1..] + s;
      LStripSkipsSpace(pre[1..], s);
    }
  }

  /** Leading whitespace never changes the guard's decision. */
  lemma GuardIgnoresLeadingSpace(pre: string, query: string)
    requires AllSpace(pre)
    ensures IsSelectQuery(pre + query) <==> IsSelectQuery(query)
  {
    LStripSkipsSpace(pre, query);
    GuardCharacterisation(pre + query);
    GuardCharacterisation(query);
  }

  // ---------------------------------------------------------------------
  // The row cap

  /** The effective limit after `if limite > 100: limite = 100`: the smaller
      of the requested limit and 100. */
  function CapLimit(limite: int): (limit: int)
    ensures limit <= limite && limit <= MaxRows
    ensures limit == limite || limit == MaxRows
  {
    if limite > MaxRows then MaxRows else limite
  }

  // ---------------------------------------------------------------------
  // The LIMIT rewrite

  /** The executed text: the query itself when `LIMIT` occurs anywhere in its
      upper-cased text, otherwise the query followed by ` LIMIT <limit>`. */
  function WithLimit(query: string, limit: int): string {
    if Contains(Upper(query), "LIMIT") then query else query + " LIMIT " + IntToString(limit)
  }

  /** The rewrite only ever appends: the query is left unchanged exactly when
      its text already mentions `LIMIT` in any case, and otherwise gains a
      ` LIMIT ` clause whose number reads back as the limit. */
  lemma WithLimitShape(query: string, limit: int)
    ensures StartsWith(WithLimit(query, limit), query)
    ensures WithLimit(query, limit) == query <==> Contains(Upper(query), "LIMIT")
    ensures !Contains(Upper(query), "LIMIT") ==>
              exists n :: WithLimit(query, limit) == query + " LIMIT " + n && ParseInt(n) == Some(limit)
  {
    var sql := WithLimit(query, limit);
    assert sql[..|query|] == query;
    if !Contains(Upper(query), "LIMIT") {
      IntToStringRoundTrip(limit);
      assert |sql| > |query|;
    }
  }

  /** Whatever the rewrite returns mentions `LIMIT`. */
  lemma WithLimitMentionsLimit(query: string, limit: int)
    ensures Contains(Upper(WithLimit(query, limit)), "LIMIT")
  {
    if !Contains(Upper(query), "LIMIT") {
      var n := IntToString(limit);
      assert WithLimit(query, limit) == query + (" LIMIT " + n);
      UpperAppend(query, " LIMIT " + n);
      UpperLimitClause(n);
      LimitClauseOccurs(Upper(query), Upper(n));
      ContainsIffOccurs(Upper(query) + (" LIMIT " + Upper(n)), "LIMIT");
    }
  }

  lemma UpperLimitClause(n: string)
    ensures Upper(" LIMIT " + n) == " LIMIT " + Upper(n)
  {
    UpperAppend(" LIMIT ", n);
    assert Upper(" LIMIT ") == " LIMIT ";
  }

  lemma LimitClauseOccurs(front: string, n: string)
    ensures OccursAt(front + (" LIMIT " + n), "LIMIT", |front| + 1)
  {
    var clause := " LIMIT " + n;
    assert (front + clause)[|front| + 1..|front| + 6] == clause[1..6];
  }

  lemma WithLimitIdempotent(query: string, first: int, second: int)
    ensures WithLimit(WithLimit(query, first), second) == WithLimit(query, first)
  {
    WithLimitMentionsLimit(query, first);
  }

  /** The test is a plain substring test: a table whose name contains the
      word suppresses the clause, and the query runs without a row cap. */
  lemma LimitInsideNameSuppressesCap()
    ensures WithLimit("SELECT * FROM unlimited", 10) == "SELECT * FROM unlimited"
  {
    var u := Upper("SELECT * FROM unlimited");
    assert u == "SELECT * FROM UNLIMITED";
    assert OccursAt(u, "LIMIT", 16);
    ContainsIffOccurs(u, "LIMIT");
  }

  // ---------------------------------------------------------------------
  // The confirmation text

  /** The reply chosen from the shape of the fetched rows. */
  function ConfirmationMessage(rows: seq<Row>): string {
    if rows == [] then NoRowsReply
    else if |rows| == 1 && |rows[0]| == 1 then SingleValuePrefix + rows[0][0].0 + " = " + rows[0][0].1
    else RecordsPrefix + NatToString(|rows|) + RecordsSuffix
  }

  /** The three replies are told apart by their text: the "no results" text
      exactly for no rows; the single-value text, naming the column and its
      value, exactly for one row of one column; otherwise a record count that
      reads back as the number of rows. */
  lemma ConfirmationMessageShape(rows: seq<Row>)
    ensures ConfirmationMessage(rows) == NoRowsReply <==> rows == []
    ensures StartsWith(ConfirmationMessage(rows), SingleValuePrefix) <==> |rows| == 1 && |rows[0]| == 1
    ensures |rows| == 1 && |rows[0]| == 1 ==>
              ConfirmationMessage(rows) == SingleValuePrefix + rows[0][0].0 + " = " + rows[0][0].1
    ensures rows != [] && !(|rows| == 1 && |rows[0]| == 1) ==>
              exists n :: ConfirmationMessage(rows) == RecordsPrefix + n + RecordsSuffix && ParseInt(n) == Some(|rows|)
  {
    var reply := ConfirmationMessage(rows);
    assert NoRowsReply[2] == 'Q' && RecordsPrefix[2] == 'Q' && SingleValuePrefix[2] == 'R';
    assert NoRowsReply[17] == ' ' && RecordsPrefix[17] == '!';
    if rows == [] {
      assert !StartsWith(reply, SingleValuePrefix) by {
        assert reply[2] != SingleValuePrefix[2];
      }
    } else if |rows| == 1 && |rows[0]| == 1 {
      assert reply[2] != NoRowsReply[2];
    } else {
      assert reply[2] != SingleValuePrefix[2];
      assert reply[17] != NoRowsReply[17];
      IntToStringRoundTrip(|rows|);
      assert IntToString(|rows|) == NatToString(|rows|);
    }
  }

  // ---------------------------------------------------------------------
  // The tool

  /** The text returned when connecting, executing or publishing raised. */
  function ErrorReply(error: string, query: string): string {
    "❌ Erro ao executar query: " + error + "\n\nQuery tentada: " + query
  }

  /** The part of `executar_query_customizada` after the guard and the cap:
      connect, add the `LIMIT` clause when missing, execute, publish and
      reply. */
  method RunAcceptedQuery(query: string, limit: int, connectError: Option<string>,
                          execute: string -> Result<ResultSet>, publishError: Option<string>)
    returns (reply: string, executed: Option<string>, published: Option<SqlResultPayload>)
    ensures connectError.Some? ==>
              reply == ErrorReply(connectError.value, query) && executed == None && published == None
    ensures connectError.None? ==> executed == Some(WithLimit(query, limit))
    ensures executed.Some? && execute(executed.value).Err? ==>
              reply == ErrorReply(execute(executed.value).message, executed.value) && published == None
    ensures executed.Some? && execute(executed.value).Ok? && publishError.Some? ==>
              reply == ErrorReply(publishError.value, executed.value) && published == None
    ensures executed.Some? && execute(executed.value).Ok? && publishError.None? ==>
              var rs := execute(executed.value).value;
              published == Some(SqlResultPayload(executed.value, rs.columns, rs.rows, |rs.rows|)) &&
              reply == ConfirmationMessage(rs.rows)
  {
    executed, published := None, None;
    if connectError.Some? {
      reply := ErrorReply(connectError.value, query);
      return;
    }
    var sql := query;
    if !Contains(Upper(sql), "LIMIT") {
      sql := sql + " LIMIT " + IntToString(limit);
    }
    executed := Some(sql);
    var outcome := execute(sql);
    if outcome.Err? {
      reply := ErrorReply(outcome.message, sql);
      return;
    }
    var results := outcome.value;
    if publishError.Some? {
      reply := ErrorReply(publishError.value, sql);
      return;
    }
    published := Some(SqlResultPayload(sql, results.columns, results.rows, |results.rows|));
    reply := ConfirmationMessage(results.rows);
  }

  /** `executar_query_customizada(query, limite)`.
      `connected` says whether a connection was opened, `executed` is the SQL
      text handed to `cursor.execute` (if any) and `published` the payload
      sent on the `sql-result` topic (if any). */
  method ExecuteCustomQuery(query: string, limite: int := DefaultLimit, connectError: Option<string>,
                            execute: string -> Result<ResultSet>, publishError: Option<string>)
    returns (reply: string, connected: bool, executed: Option<string>, published: Option<SqlResultPayload>)
    ensures connected <==> IsSelectQuery(query)
    ensures !connected ==> reply == RejectionReply && executed == None && published == None
    ensures connected && connectError.Some? ==>
              reply == ErrorReply(connectError.value, query) && executed == None && published == None
    ensures connected && connectError.None? ==> executed == Some(WithLimit(query, CapLimit(limite)))
    ensures executed.Some? && execute(executed.value).Err? ==>
              reply == ErrorReply(execute(executed.value).message, executed.value) && published == None
    ensures executed.Some? && execute(executed.value).Ok? && publishError.Some? ==>
              reply == ErrorReply(publishError.value, executed.value) && published == None
    ensures executed.Some? && execute(executed.value).Ok? && publishError.None? ==>
              var rs := execute(executed.value).value;
              published == Some(SqlResultPayload(executed.value, rs.columns, rs.rows, |rs.rows|)) &&
              reply == ConfirmationMessage(rs.rows)
  {
    if !StartsWith(Upper(Strip(query)), "SELECT") {
      reply, connected, executed, published := RejectionReply, false, None, None;
      return;
    }
    var limit := limite;
    if limit > MaxRows {
      limit := MaxRows;
    }
    connected := true;
    reply, executed, published := RunAcceptedQuery(query, limit, connectError, execute, publishError);
  }
}
