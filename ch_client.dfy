/** `CHClient`: the DDL statements the putters send to ClickHouse, how the
    server reads them, and the set of databases and tables they act on. */
module ChClient {
  import opened Common
  import opened PyStr
  import opened PyDict

  /** `CHClient.if_exists` */
  function IfExists(x: bool): string {
    if x then "IF EXISTS" else ""
  }

  /** `CHClient.if_not_exists` */
  function IfNotExists(x: bool): string {
    if x then "IF NOT EXISTS" else ""
  }

  /** The `name type` entry of each column, in the order of the columns dict. */
  function Entries(columns: Dict<string, string>): (r: seq<string>)
    ensures |r| == |columns|
    ensures forall i :: 0 <= i < |columns| ==> r[i] == columns[i].0 + " " + columns[i].1
  {
    seq(|columns|, i requires 0 <= i < |columns| => columns[i].0 + " " + columns[i].1)
  }

  /** `ch_columns_str` of the putters: the entries joined by `,\n    `. */
  function ColumnsStr(columns: Dict<string, string>): string {
    Join(",\n    ", Entries(columns))
  }

  /** One column alone is its entry, with no separator. */
  lemma ColumnsStrSingle(name: string, chType: string)
    ensures ColumnsStr([(name, chType)]) == name + " " + chType
  {
  }

  /** Declaring one more column appends the separator and its entry at the
      end, so the text lists the columns in declaration order. */
  lemma ColumnsStrSnoc(columns: Dict<string, string>, name: string, chType: string)
    requires columns != []
    ensures ColumnsStr(columns + [(name, chType)]) == ColumnsStr(columns) + ",\n    " + name + " " + chType
  {
    assert Entries(columns + [(name, chType)]) == Entries(columns) + [name + " " + chType];
    JoinSnoc(",\n    ", Entries(columns), name + " " + chType);
  }

  datatype TableName = TableName(db: string, table: string)

  /** The statements of ClickHouse's grammar the client emits, as the server
      reads them. */
  datatype Statement =
    | CreateDatabase(ifNotExists: bool, db: string)
    | CreateTable(ifNotExists: bool, name: TableName)
    | DropTable(ifExists: bool, name: TableName)
    | ExistsTable(name: TableName)
    | Unrecognised

  /** A `db.table` token. */
  function ParseName(t: string): Option<TableName> {
    var parts := SplitOn(t, '.');
    if |parts| == 2 && parts[0] != "" && parts[1] != "" then Some(TableName(parts[0], parts[1])) else None
  }

  function NameStatement(name: Option<TableName>, mk: TableName -> Statement): Statement {
    if name.Some? then mk(name.value) else Unrecognised
  }

  /** The server's reading of a query text: keywords and names are separated
      by whitespace, and a `CREATE TABLE` head may be followed by the column
      list and engine clauses of the template. */
  function ParseStatement(query: string): Statement {
    var ts := Split(query);
    if |ts| == 6 && ts[..5] == ["CREATE", "DATABASE", "IF", "NOT", "EXISTS"] then CreateDatabase(true, ts[5])
    else if |ts| == 3 && ts[..2] == ["CREATE", "DATABASE"] then CreateDatabase(false, ts[2])
    else if |ts| >= 6 && ts[..5] == ["CREATE", "TABLE", "IF", "NOT", "EXISTS"] then
      NameStatement(ParseName(ts[5]), n => CreateTable(true, n))
    else if |ts| >= 3 && ts[..2] == ["CREATE", "TABLE"] then NameStatement(ParseName(ts[2]), n => CreateTable(false, n))
    else if |ts| == 5 && ts[..4] == ["DROP", "TABLE", "IF", "EXISTS"] then NameStatement(ParseName(ts[4]), n => DropTable(true, n))
    else if |ts| == 3 && ts[..2] == ["DROP", "TABLE"] then NameStatement(ParseName(ts[2]), n => DropTable(false, n))
    else if |ts| == 3 && ts[..2] == ["EXISTS", "TABLE"] then NameStatement(ParseName(ts[2]), n => ExistsTable(n))
    else Unrecognised
  }

  // ---------------------------------------------------------------------
  // The query texts of `CHClient`

  function QualifiedName(db: string, table: string): string {
    db + "." + table
  }

  /** `create_db` */
  function CreateDbQuery(db: string): string {
    "CREATE" + " " + "DATABASE" + " " + "IF" + " " + "NOT" + " " + "EXISTS" + " " + db
  }

  /** `drop_table` */
  function DropTableQuery(db: string, table: string, notExistsOk: bool): string {
    "DROP TABLE " + IfExists(notExistsOk) + " " + QualifiedName(db, table)
  }

  /** `exists_table` */
  function ExistsTableQuery(db: string, table: string): string {
    "EXISTS TABLE " + QualifiedName(db, table)
  }

  /** The head of every `create_*.sql` template,
      `CREATE TABLE {if_not_exists} {db}.{table}`, followed by the rest of the
      template on the next line. */
  function CreateTableQuery(ifNotExists: bool, db: string, table: string, body: string): string {
    "CREATE TABLE " + IfNotExists(ifNotExists) + " " + QualifiedName(db, table) + "\n" + body
  }

  /** A database or table name the server reads back as written. */
  predicate IsIdent(s: string) {
    IsToken(s) && '.' !in s
  }

  // ---------------------------------------------------------------------
  // What the server makes of those texts

  lemma SplitWord(w: string, c: char, rest: string)
    requires IsToken(w) && IsSpace(c)
    ensures Split(w + [c] + rest) == [w] + Split(rest)
  {
    SplitAround(w, c, rest);
    SplitToken(w);
  }

  lemma QualifiedNameToken(db: string, table: string)
    requires IsIdent(db) && IsIdent(table)
    ensures IsToken(QualifiedName(db, table))
    ensures Split(QualifiedName(db, table)) == [QualifiedName(db, table)]
    ensures ParseName(QualifiedName(db, table)) == Some(TableName(db, table))
  {
    var q := QualifiedName(db, table);
    forall i | 0 <= i < |q| ensures !IsSpace(q[i]) {
      if i < |db| {
        assert q[i] == db[i];
      } else if i > |db| {
        assert q[i] == table[i - |db| - 1];
      }
    }
    SplitToken(q);
    SplitOnPair(db, '.', table);
  }

  lemma KeywordToken(k: string)
    requires k in {"IF", "NOT", "EXISTS", "CREATE", "DATABASE", "TABLE", "DROP"}
    ensures IsToken(k)
  {
  }

  /** Three words separated by single spaces split back into the words. */
  lemma SplitThree(a: string, b: string, c: string)
    requires IsToken(a) && IsToken(b) && IsToken(c)
    ensures Split(a + " " + b + " " + c) == [a, b, c]
  {
    assert a + " " + b + " " + c == a + [' '] + (b + [' '] + c);
    SplitWord(a, ' ', b + [' '] + c);
    SplitWord(b, ' ', c);
    SplitToken(c);
  }

  lemma IfExistsWords(x: bool)
    ensures Split(IfExists(x)) == if x then ["IF", "EXISTS"] else []
  {
    if x {
      KeywordToken("IF");
      KeywordToken("EXISTS");
      assert IfExists(x) == "IF" + [' '] + "EXISTS";
      SplitWord("IF", ' ', "EXISTS");
      SplitToken("EXISTS");
    }
  }

  lemma IfNotExistsWords(x: bool)
    ensures Split(IfNotExists(x)) == if x then ["IF", "NOT", "EXISTS"] else []
  {
    if x {
      KeywordToken("IF");
      KeywordToken("NOT");
      KeywordToken("EXISTS");
      assert IfNotExists(x) == "IF" + " " + "NOT" + " " + "EXISTS";
      SplitThree("IF", "NOT", "EXISTS");
    }
  }

  lemma CreateDbWords(db: string)
    requires IsToken(db)
    ensures Split(CreateDbQuery(db)) == ["CREATE", "DATABASE", "IF", "NOT", "EXISTS", db]
  {
    KeywordToken("CREATE");
    KeywordToken("DATABASE");
    KeywordToken("IF");
    KeywordToken("NOT");
    KeywordToken("EXISTS");
    var tail := "NOT" + " " + "EXISTS" + " " + db;
    SplitThree("NOT", "EXISTS", db);
    assert CreateDbQuery(db) == "CREATE" + [' '] + ("DATABASE" + [' '] + ("IF" + [' '] + tail));
    SplitWord("IF", ' ', tail);
    SplitWord("DATABASE", ' ', "IF" + [' '] + tail);
    SplitWord("CREATE", ' ', "DATABASE" + [' '] + ("IF" + [' '] + tail));
  }

  /** `create_db` always asks for `IF NOT EXISTS`. */
  lemma ParseCreateDbQuery(db: string)
    requires IsToken(db)
    ensures ParseStatement(CreateDbQuery(db)) == CreateDatabase(true, db)
  {
    CreateDbWords(db);
    var ts := Split(CreateDbQuery(db));
    assert ts[..5] == ["CREATE", "DATABASE", "IF", "NOT", "EXISTS"];
  }

  lemma DropWords(db: string, table: string, notExistsOk: bool)
    requires IsIdent(db) && IsIdent(table)
    ensures Split(DropTableQuery(db, table, notExistsOk)) ==
            ["DROP", "TABLE"] + Split(IfExists(notExistsOk)) + [QualifiedName(db, table)]
  {
    var qn := QualifiedName(db, table);
    QualifiedNameToken(db, table);
    var tail := IfExists(notExistsOk) + [' '] + qn;
    assert DropTableQuery(db, table, notExistsOk) == "DROP" + [' '] + ("TABLE" + [' '] + tail);
    SplitWord("DROP", ' ', "TABLE" + [' '] + tail);
    SplitWord("TABLE", ' ', tail);
    SplitAround(IfExists(notExistsOk), ' ', qn);
  }

  /** `drop_table` sends `IF EXISTS` exactly when `not_exists_ok` is set. */
  lemma ParseDropTableQuery(db: string, table: string, notExistsOk: bool)
    requires IsIdent(db) && IsIdent(table)
    ensures ParseStatement(DropTableQuery(db, table, notExistsOk)) == DropTable(notExistsOk, TableName(db, table))
  {
    var qn := QualifiedName(db, table);
    QualifiedNameToken(db, table);
    DropWords(db, table, notExistsOk);
    IfExistsWords(notExistsOk);
    var ts := Split(DropTableQuery(db, table, notExistsOk));
    if notExistsOk {
      assert ts == ["DROP", "TABLE", "IF", "EXISTS", qn];
      assert ts[..2] == ["DROP", "TABLE"] && ts[..2] != ["CREATE", "TABLE"];
      assert ts[..4] == ["DROP", "TABLE", "IF", "EXISTS"] && ts[4] == qn;
    } else {
      assert ts == ["DROP", "TABLE", qn];
      assert ts[..2] == ["DROP", "TABLE"];
    }
  }

  lemma ParseExistsTableQuery(db: string, table: string)
    requires IsIdent(db) && IsIdent(table)
    ensures ParseStatement(ExistsTableQuery(db, table)) == ExistsTable(TableName(db, table))
  {
    var qn := QualifiedName(db, table);
    QualifiedNameToken(db, table);
    assert ExistsTableQuery(db, table) == "EXISTS" + [' '] + ("TABLE" + [' '] + qn);
    SplitWord("EXISTS", ' ', "TABLE" + [' '] + qn);
    SplitWord("TABLE", ' ', qn);
    var ts := Split(ExistsTableQuery(db, table));
    assert ts == ["EXISTS", "TABLE", qn];
    assert ts[..2] == ["EXISTS", "TABLE"];
  }

  lemma CreateTableWords(ifNotExists: bool, db: string, table: string, body: string)
    requires IsIdent(db) && IsIdent(table)
    ensures Split(CreateTableQuery(ifNotExists, db, table, body)) ==
            ["CREATE", "TABLE"] + Split(IfNotExists(ifNotExists)) + [QualifiedName(db, table)] + Split(body)
  {
    var qn := QualifiedName(db, table);
    QualifiedNameToken(db, table);
    var clause := IfNotExists(ifNotExists);
    var tail := clause + [' '] + (qn + ['\n'] + body);
    assert CreateTableQuery(ifNotExists, db, table, body) == "CREATE" + [' '] + ("TABLE" + [' '] + tail);
    SplitWord("CREATE", ' ', "TABLE" + [' '] + tail);
    SplitWord("TABLE", ' ', tail);
    SplitAround(clause, ' ', qn + ['\n'] + body);
    SplitWord(qn, '\n', body);
  }

  /** A `CREATE TABLE` template carries `IF NOT EXISTS` exactly when asked to. */
  lemma ParseCreateTableQuery(ifNotExists: bool, db: string, table: string, body: string)
    requires IsIdent(db) && IsIdent(table)
    ensures ParseStatement(CreateTableQuery(ifNotExists, db, table, body)) == CreateTable(ifNotExists, TableName(db, table))
  {
    var qn := QualifiedName(db, table);
    QualifiedNameToken(db, table);
    CreateTableWords(ifNotExists, db, table, body);
    IfNotExistsWords(ifNotExists);
    var ts := Split(CreateTableQuery(ifNotExists, db, table, body));
    if ifNotExists {
      assert ts == ["CREATE", "TABLE", "IF", "NOT", "EXISTS", qn] + Split(body);
      assert ts[..5] == ["CREATE", "TABLE", "IF", "NOT", "EXISTS"] && ts[5] == qn;
    } else {
      assert ts == ["CREATE", "TABLE", qn] + Split(body);
      assert ts[..2] == ["CREATE", "TABLE"] && ts[2] == qn;
      assert !(|ts| >= 6 && ts[..5] == ["CREATE", "TABLE", "IF", "NOT", "EXISTS"]) by {
        assert qn != "IF" by {
          assert qn[|db|] == '.';
        }
        if |ts| >= 6 {
          assert ts[..5][2] == qn;
        }
      }
    }
  }

  /** One end of an `oid` range: the grid of a partitioned insert starts
      at -inf and ends at +inf. */
  datatype Bound = NegInf | Finite(v: int) | PosInf

  /** Which rows of its source an insert takes: all of them, or those between
      two grid points (the `begin_oid`/`end_oid` template parameters). */
  datatype Range = All | Between(begin: Bound, end: Bound)

  /** A batch of rows a table received: from a file or from an
      `INSERT ... SELECT` template, over a range. */
  datatype Batch = Batch(source: string, range: Range)

  /** The server's catalogue: its databases, and each table with the batches
      inserted into it since it was created. */
  datatype Store = Store(databases: set<string>, tables: map<TableName, seq<Batch>>)

  /** Every table lives in an existing database. */
  predicate Consistent(s: Store) {
    forall n :: n in s.tables ==> n.db in s.databases
  }

  /** Rows of a result set. */
  type Rows = seq<seq<int>>

  /** What the server does with a statement: its answer and its new catalogue. */
  function Apply(s: Store, st: Statement): (Result<Rows>, Store) {
    match st
    case CreateDatabase(ifNotExists, db) =>
      if db !in s.databases then (Success([]), s.(databases := s.databases + {db}))
      else if ifNotExists then (Success([]), s)
      else (Failure(ServerError("DATABASE_ALREADY_EXISTS")), s)
    case CreateTable(ifNotExists, n) =>
      if n.db !in s.databases then (Failure(ServerError("UNKNOWN_DATABASE")), s)
      else if n !in s.tables then (Success([]), s.(tables := s.tables[n := []]))
      else if ifNotExists then (Success([]), s)
      else (Failure(ServerError("TABLE_ALREADY_EXISTS")), s)
    case DropTable(ifExists, n) =>
      if n in s.tables then (Success([]), s.(tables := s.tables - {n}))
      else if ifExists then (Success([]), s)
      else (Failure(ServerError("UNKNOWN_TABLE")), s)
    case ExistsTable(n) => (Success([[if n in s.tables then 1 else 0]]), s)
    case Unrecognised => (Failure(ServerError("SYNTAX_ERROR")), s)
  }

  /** No statement leaves a table without its database. */
  lemma ApplyConsistent(s: Store, st: Statement)
    requires Consistent(s)
    ensures Consistent(Apply(s, st).1)
  {
  }

  /** `create_db` twice is `create_db` once. */
  lemma CreateDbIdempotent(s: Store, db: string)
    requires IsToken(db)
    ensures var once := Apply(s, ParseStatement(CreateDbQuery(db)));
            once.0.Success? && once.1.databases == s.databases + {db} && once.1.tables == s.tables &&
            Apply(once.1, ParseStatement(CreateDbQuery(db))) == (Success([]), once.1)
  {
    ParseCreateDbQuery(db);
  }

  /** `exists_table`'s reading of the first value of the result: 1 and 0 are
      answers, any other value is a `RuntimeError`.  The `except KeyError`
      around `result[0][0]` never fires: indexing an empty result raises
      `IndexError`, which escapes. */
  function DecodeExists(rows: Rows): Result<bool> {
    if |rows| == 0 || |rows[0]| == 0 then Failure(IndexError)
    else if rows[0][0] == 1 then Success(true)
    else if rows[0][0] == 0 then Success(false)
    else Failure(RuntimeError("Unexpected result from ClickHouse"))
  }

  lemma DecodeExistsSpec(rows: Rows)
    ensures DecodeExists(rows) == Success(true) <==> |rows| > 0 && |rows[0]| > 0 && rows[0][0] == 1
    ensures DecodeExists(rows) == Success(false) <==> |rows| > 0 && |rows[0]| > 0 && rows[0][0] == 0
    ensures DecodeExists(rows).Failure? && DecodeExists(rows).error.RuntimeError? <==>
            |rows| > 0 && |rows[0]| > 0 && rows[0][0] != 0 && rows[0][0] != 1
  {
  }

  /** The answer to an `EXISTS TABLE` reads back as membership. */
  lemma ExistsAnswer(s: Store, db: string, table: string)
    requires IsIdent(db) && IsIdent(table)
    ensures var (r, s') := Apply(s, ParseStatement(ExistsTableQuery(db, table)));
            r.Success? && DecodeExists(r.value) == Success(TableName(db, table) in s.tables) && s' == s
  {
    ParseExistsTableQuery(db, table);
  }

  /** The client, with the server's catalogue as its state. */
  class CHClient {
    var databases: set<string>
    var tables: map<TableName, seq<Batch>>

    function State(): Store
      reads this
    {
      Store(databases, tables)
    }

    constructor(s: Store)
      ensures State() == s
    {
      databases := s.databases;
      tables := s.tables;
    }

    /** `client.execute(query)` */
    method Execute(query: string) returns (r: Result<Rows>)
      modifies this
      ensures (r, State()) == Apply(old(State()), ParseStatement(query))
    {
      var (res, s) := Apply(State(), ParseStatement(query));
      databases := s.databases;
      tables := s.tables;
      r := res;
    }

    /** `create_db`: the database exists afterwards, whatever was there. */
    method CreateDb(db: string) returns (r: Result<()>)
      modifies this
      ensures IsToken(db) ==> r.Success? && databases == old(databases) + {db} && tables == old(tables)
      ensures !IsToken(db) ==> State() == Apply(old(State()), ParseStatement(CreateDbQuery(db))).1
    {
      if IsToken(db) {
        ParseCreateDbQuery(db);
      }
      var res := Execute(CreateDbQuery(db));
      r := if res.Success? then Success(()) else Failure(res.error);
    }

    /** `drop_table`: without `not_exists_ok` a missing table is an error. */
    method DropTable(db: string, table: string, notExistsOk: bool) returns (r: Result<()>)
      modifies this
      ensures IsIdent(db) && IsIdent(table) ==>
                var n := TableName(db, table);
                && databases == old(databases)
                && tables == old(tables) - {n}
                && (r.Success? <==> n in old(tables) || notExistsOk)
      ensures !(IsIdent(db) && IsIdent(table)) ==>
                State() == Apply(old(State()), ParseStatement(DropTableQuery(db, table, notExistsOk))).1
    {
      if IsIdent(db) && IsIdent(table) {
        ParseDropTableQuery(db, table, notExistsOk);
      }
      var res := Execute(DropTableQuery(db, table, notExistsOk));
      r := if res.Success? then Success(()) else Failure(res.error);
    }

    /** `exists_table`: whether the table is in the catalogue. */
    method ExistsTable(db: string, table: string) returns (r: Result<bool>)
      modifies this
      ensures IsIdent(db) && IsIdent(table) ==>
                r == Success(TableName(db, table) in old(tables)) && State() == old(State())
      ensures !(IsIdent(db) && IsIdent(table)) ==>
                State() == Apply(old(State()), ParseStatement(ExistsTableQuery(db, table))).1
    {
      if IsIdent(db) && IsIdent(table) {
        ExistsAnswer(State(), db, table);
      }
      var res := Execute(ExistsTableQuery(db, table));
      if res.Failure? {
        return Failure(res.error);
      }
      r := DecodeExists(res.value);
    }

    /** `exe_query('create_*.sql', if_not_exists=..., db=..., table=...)`:
        a new table starts empty; an existing one is kept as it is. */
    method CreateTable(ifNotExists: bool, db: string, table: string, body: string) returns (r: Result<()>)
      modifies this
      ensures IsIdent(db) && IsIdent(table) ==>
                var n := TableName(db, table);
                && databases == old(databases)
                && (r.Success? <==> db in old(databases) && (n !in old(tables) || ifNotExists))
                && tables == if r.Success? && n !in old(tables) then old(tables)[n := []] else old(tables)
      ensures var (res, s) := Apply(old(State()), ParseStatement(CreateTableQuery(ifNotExists, db, table, body)));
              State() == s && r == if res.Success? then Success(()) else Failure(res.error)
    {
      if IsIdent(db) && IsIdent(table) {
        ParseCreateTableQuery(ifNotExists, db, table, body);
      }
      var res := Execute(CreateTableQuery(ifNotExists, db, table, body));
      r := if res.Success? then Success(()) else Failure(res.error);
    }

    /** An insert into `n` (a shell script loading a file, or an
        `INSERT ... SELECT` template): the table receives the batch, or the
        server reports that it does not exist. */
    method Insert(n: TableName, batch: Batch) returns (r: Result<()>)
      modifies this
      ensures databases == old(databases)
      ensures n in old(tables) ==> r.Success? && tables == old(tables)[n := old(tables)[n] + [batch]]
      ensures n !in old(tables) ==> r == Failure(ServerError("UNKNOWN_TABLE")) && tables == old(tables)
    {
      if n !in tables {
        return Failure(ServerError("UNKNOWN_TABLE"));
      }
      tables := tables[n := tables[n] + [batch]];
      r := Success(());
    }
  }
}
