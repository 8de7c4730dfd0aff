/** The database side: `app/dao/db_connection.py` turns the environment into connection
    parameters, and the psycopg2 driver with the PostgreSQL server behind it is an oracle.
    A `Server` hands out `Connection`s; a `Connection` hands out `Cursor`s; what a query
    yields is decided by the `Database` function, not modelled. */
module Db {
  import opened Py

  /** The record a result row is mapped to (`Livro` in the models package). */
  datatype Livro = Livro(isbn: Scalar, titulo: Scalar, autor: Scalar)

  /** A result row: a tuple of column values. */
  type Row = seq<Scalar>

  /** What the database does with one `execute(sql, params)`: the statement fails, the
      statement runs but fetching fails, or it yields rows. */
  datatype Answer =
    | ExecuteFails(err: Exception)
    | FetchFails(err: Exception)
    | Rows(rows: seq<Row>)

  type Database = (string, seq<Value>) -> Answer

  /** The keyword arguments given to `psycopg2.connect`. */
  datatype ConnParams = ConnParams(
    host: string, port: string, dbname: string, user: string, password: string,
    options: Option<string>)

  /** `os.getenv(name, default)`. */
  function GetEnv(env: map<string, string>, name: string, default: string): (v: string)
    ensures name in env ==> v == env[name]
    ensures name !in env ==> v == default
  {
    if name in env then env[name] else default
  }

  const SEARCH_PATH_OPTION := "-c search_path="

  /** The parameters the live `conectar` passes to `psycopg2.connect`. */
  function ParamsFromEnv(env: map<string, string>): (p: ConnParams)
    ensures p.options.Some?
  {
    ConnParams(
      host := GetEnv(env, "DB_HOST", "db"),
      port := GetEnv(env, "DB_PORT", "5432"),
      dbname := GetEnv(env, "DB_NAME", "mvc_biblioteca_db"),
      user := GetEnv(env, "DB_USER", "postgres"),
      password := GetEnv(env, "DB_PASSWORD", "postgres"),
      options := Some(SEARCH_PATH_OPTION + GetEnv(env, "DB_SEARCH_PATH", "biblioteca,public")))
  }

  /** Each `DB_*` variable that is not set gives its own parameter its default, whatever the
      other variables hold; without `DB_SEARCH_PATH` the search path is `biblioteca,public`. */
  lemma ParamsDefaults(env: map<string, string>)
    ensures var p := ParamsFromEnv(env);
      ("DB_HOST" !in env ==> p.host == "db") &&
      ("DB_PORT" !in env ==> p.port == "5432") &&
      ("DB_NAME" !in env ==> p.dbname == "mvc_biblioteca_db") &&
      ("DB_USER" !in env ==> p.user == "postgres") &&
      ("DB_PASSWORD" !in env ==> p.password == "postgres") &&
      ("DB_SEARCH_PATH" !in env ==> p.options == Some("-c search_path=biblioteca,public"))
  {
    assert SEARCH_PATH_OPTION + "biblioteca,public" == "-c search_path=biblioteca,public";
  }

  /** Each `DB_*` variable that is set is passed verbatim, even when it is empty, whatever the
      other variables hold; `options` is exactly the search-path switch followed by the search
      path. */
  lemma ParamsVerbatim(env: map<string, string>)
    ensures var p := ParamsFromEnv(env);
      ("DB_HOST" in env ==> p.host == env["DB_HOST"]) &&
      ("DB_PORT" in env ==> p.port == env["DB_PORT"]) &&
      ("DB_NAME" in env ==> p.dbname == env["DB_NAME"]) &&
      ("DB_USER" in env ==> p.user == env["DB_USER"]) &&
      ("DB_PASSWORD" in env ==> p.password == env["DB_PASSWORD"]) &&
      ("DB_SEARCH_PATH" in env ==> p.options == Some("-c search_path=" + env["DB_SEARCH_PATH"]))
  {
  }

  /** A psycopg2 cursor over an oracle database. It records every statement it was given. */
  class Cursor {
    const db: Database
    var executed: seq<(string, seq<Value>)>
    /** The answer to the last successful `execute`, and how many of its rows were fetched. */
    var current: Option<Answer>
    var fetched: nat
    var closeCalls: nat

    constructor (db: Database)
      ensures this.db == db && executed == [] && current == None && fetched == 0 && closeCalls == 0
    {
      this.db := db;
      executed := [];
      current := None;
      fetched := 0;
      closeCalls := 0;
    }

    /** `cur.execute(sql, params)`: raises when the database rejects the statement. */
    method Execute(sql: string, params: seq<Value>) returns (o: Outcome)
      modifies this
      ensures executed == old(executed) + [(sql, params)] && closeCalls == old(closeCalls)
      ensures db(sql, params).ExecuteFails? ==>
                o == Failed(db(sql, params).err) && current == old(current) && fetched == old(fetched)
      ensures !db(sql, params).ExecuteFails? ==>
                o == Done && current == Some(db(sql, params)) && fetched == 0
    {
      executed := executed + [(sql, params)];
      var answer := db(sql, params);
      if answer.ExecuteFails? {
        o := Failed(answer.err);
      } else {
        current := Some(answer);
        fetched := 0;
        o := Done;
      }
    }

    /** `cur.fetchall()`: the rows not fetched yet. Fetching before any statement is a
        `psycopg2.ProgrammingError`. */
    method FetchAll() returns (r: Result<seq<Row>>)
      modifies this
      ensures executed == old(executed) && closeCalls == old(closeCalls) && current == old(current)
      ensures current == None ==> r.Raised? && r.exc.cls == DatabaseError
      ensures current.Some? && !current.value.Rows? ==> r == Raised(current.value.err)
      ensures current.Some? && current.value.Rows? ==>
                r == Ok(current.value.rows[min(old(fetched), |current.value.rows|)..]) &&
                fetched == |current.value.rows|
    {
      if current == None {
        r := Raised(Exception(DatabaseError, "no results to fetch"));
      } else if !current.value.Rows? {
        r := Raised(current.value.err);
      } else {
        var rows := current.value.rows;
        r := Ok(rows[min(fetched, |rows|)..]);
        fetched := |rows|;
      }
    }

    /** `cur.fetchone()`: the next row, or `None` when every row was fetched. */
    method FetchOne() returns (r: Result<Option<Row>>)
      modifies this
      ensures executed == old(executed) && closeCalls == old(closeCalls) && current == old(current)
      ensures current == None ==> r.Raised? && r.exc.cls == DatabaseError
      ensures current.Some? && !current.value.Rows? ==> r == Raised(current.value.err)
      ensures current.Some? && current.value.Rows? && old(fetched) < |current.value.rows| ==>
                r == Ok(Some(current.value.rows[old(fetched)])) && fetched == old(fetched) + 1
      ensures current.Some? && current.value.Rows? && old(fetched) >= |current.value.rows| ==>
                r == Ok(None)
    {
      if current == None {
        r := Raised(Exception(DatabaseError, "no results to fetch"));
      } else if !current.value.Rows? {
        r := Raised(current.value.err);
      } else if fetched < |current.value.rows| {
        r := Ok(Some(current.value.rows[fetched]));
        fetched := fetched + 1;
      } else {
        r := Ok(None);
      }
    }

    method Close()
      modifies this
      ensures closeCalls == old(closeCalls) + 1
      ensures executed == old(executed) && current == old(current) && fetched == old(fetched)
    {
      closeCalls := closeCalls + 1;
    }
  }

  function min(a: nat, b: nat): nat {
    if a < b then a else b
  }

  /** A connection object. `closed` is its `closed` attribute (`None`: the object has none);
      psycopg2 keeps it at 0 while the connection is open. */
  class Connection {
    const db: Database
    var closed: Option<Value>
    var closeCalls: nat
    var cursors: seq<Cursor>

    constructor Open(db: Database)
      ensures this.db == db && closed == Some(Int(0)) && closeCalls == 0 && cursors == []
    {
      this.db := db;
      closed := Some(Int(0));
      closeCalls := 0;
      cursors := [];
    }

    /** `getattr(conn, "closed", 1) == 0`. */
    predicate IsOpen()
      reads this
    {
      closed.Some? && EqualsZero(closed.value)
    }

    /** `conn.cursor()`: a new cursor on the same database. */
    method NewCursor() returns (c: Cursor)
      modifies this
      ensures fresh(c) && c.db == db && c.executed == [] && c.current == None && c.closeCalls == 0
      ensures cursors == old(cursors) + [c]
      ensures closed == old(closed) && closeCalls == old(closeCalls)
    {
      c := new Cursor(db);
      cursors := cursors + [c];
    }

    /** `conn.close()`. */
    method Close()
      modifies this
      ensures closeCalls == old(closeCalls) + 1 && closed == Some(Int(1))
      ensures cursors == old(cursors)
    {
      closeCalls := closeCalls + 1;
      closed := Some(Int(1));
    }
  }

  /** `psycopg2.connect` and the server behind it. Whether connecting fails is an oracle
      (`refuse`); every attempt and every connection handed out is recorded. */
  class Server {
    const db: Database
    const refuse: ConnParams -> Option<Exception>
    var attempts: seq<ConnParams>
    var issued: seq<Connection>

    constructor (db: Database, refuse: ConnParams -> Option<Exception>)
      ensures this.db == db && this.refuse == refuse && attempts == [] && issued == []
    {
      this.db := db;
      this.refuse := refuse;
      attempts := [];
      issued := [];
    }

    method Connect(params: ConnParams) returns (r: Result<Connection>)
      modifies this
      ensures attempts == old(attempts) + [params]
      ensures refuse(params).Some? ==> r == Raised(refuse(params).value) && issued == old(issued)
      ensures refuse(params).None? ==>
                r.Ok? && fresh(r.value) && issued == old(issued) + [r.value] &&
                r.value.db == db && r.value.IsOpen() && r.value.closeCalls == 0 && r.value.cursors == []
    {
      attempts := attempts + [params];
      var refusal := refuse(params);
      if refusal.Some? {
        r := Raised(refusal.value);
      } else {
        var c := new Connection.Open(db);
        issued := issued + [c];
        r := Ok(c);
      }
    }
  }

  /** The live `conectar` of `app/dao/db_connection.py`: connect with the parameters taken
      from the environment; a failure is logged and re-raised unchanged. */
  method Conectar(server: Server, env: map<string, string>) returns (r: Result<Connection>, logged: bool)
    modifies server
    ensures server.attempts == old(server.attempts) + [ParamsFromEnv(env)]
    ensures logged <==> r.Raised?
    ensures r.Raised? ==> server.refuse(ParamsFromEnv(env)).Some? && r.exc == server.refuse(ParamsFromEnv(env)).value && server.issued == old(server.issued)
    ensures r.Ok? ==> server.refuse(ParamsFromEnv(env)).None? &&
                      fresh(r.value) && server.issued == old(server.issued) + [r.value] &&
                      r.value.db == server.db && r.value.IsOpen() && r.value.closeCalls == 0 &&
                      r.value.cursors == []
  {
    r := server.Connect(ParamsFromEnv(env));
    logged := r.Raised?;
  }
}
