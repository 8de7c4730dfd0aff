/** `LivroDAO` of `app/dao/livro_dao.py`: it keeps one connection and reuses it while it is
    open, searches books by author with a case-insensitive pattern, maps each result row to a
    `Livro` by position, and turns every database error into an empty result. */
module LivroDao {
  import opened Py
  import opened Db

  /** The statement `pesquisar_por_autor` executes. */
  const SQL := SELECT_FROM + WHERE_CLAUSE + "\n             " + ORDER_CLAUSE + "\n        "
  const SELECT_FROM := "\n            SELECT isbn, titulo, autor\n              FROM biblioteca.livros\n             "
  const WHERE_CLAUSE := "WHERE autor ILIKE %s"
  const ORDER_CLAUSE := "ORDER BY titulo"

  /** The only parameter of the statement: `f"%{autor}%"`, the author between two wildcards. */
  function LikePattern(autor: string): (p: string)
    ensures |p| == |autor| + 2
    ensures p[0] == '%' && p[|p| - 1] == '%' && p[1..|p| - 1] == autor
  {
    "%" + autor + "%"
  }

  /** An empty author gives the pattern that matches every author. */
  lemma LikePatternEmpty()
    ensures LikePattern("") == "%%"
  {
  }

  /** The statement filters with `ILIKE` on the author and orders by title. */
  lemma SqlFiltersAndOrders()
    ensures Contains(SQL, "WHERE autor ILIKE %s")
    ensures Contains(SQL, "ORDER BY titulo")
  {
    var nl, end := "\n             ", "\n        ";
    FoundInMiddle(SELECT_FROM, WHERE_CLAUSE, nl + ORDER_CLAUSE + end);
    FoundInMiddle(SELECT_FROM + WHERE_CLAUSE + nl, ORDER_CLAUSE, end);
    Regroup(SELECT_FROM, WHERE_CLAUSE, nl, ORDER_CLAUSE, end);
  }

  lemma Regroup(a: string, b: string, c: string, d: string, e: string)
    ensures a + b + c + d + e == a + b + (c + d + e)
  {
  }

  /** `[Livro(isbn=r[0], titulo=r[1], autor=r[2]) for r in rows]`; a row with fewer than three
      columns raises `IndexError`. */
  function ToLivros(rows: seq<Row>): (r: Result<seq<Livro>>)
    ensures r.Ok? <==> forall k :: 0 <= k < |rows| ==> |rows[k]| >= 3
    ensures r.Raised? ==> r.exc.cls == IndexError
    ensures r.Ok? ==> |r.value| == |rows| &&
                      forall k :: 0 <= k < |rows| ==> r.value[k] == Livro(rows[k][0], rows[k][1], rows[k][2])
  {
    if rows == [] then Ok([])
    else if |rows[0]| < 3 then Raised(Exception(IndexError, "tuple index out of range"))
    else
      match ToLivros(rows[1..])
      case Raised(e) => Raised(e)
      case Ok(rest) => Ok([Livro(rows[0][0], rows[0][1], rows[0][2])] + rest)
  }

  /** What `pesquisar_por_autor` returns, and whether it reported a database error. */
  datatype Reply = Reply(result: Result<seq<Livro>>, reported: bool)

  /** `except psycopg2.Error`: a database error is reported and gives `[]`; anything else
      propagates. */
  function Caught(e: Exception): (r: Reply)
    ensures r.reported <==> e.cls == DatabaseError
    ensures r.reported ==> r.result == Ok([])
    ensures !r.reported ==> r.result == Raised(e)
  {
    if e.cls == DatabaseError then Reply(Ok([]), true) else Reply(Raised(e), false)
  }

  /** The outcome of `pesquisar_por_autor(autor)` once `_conn` has produced a connection to
      `conn` (or raised). */
  function Search(conn: Result<Database>, autor: string): Reply
  {
    match conn
    case Raised(e) => Caught(e)
    case Ok(db) =>
      match db(SQL, [Str(LikePattern(autor))])
      case ExecuteFails(e) => Caught(e)
      case FetchFails(e) => Caught(e)
      case Rows(rows) => Reply(if rows == [] then Ok([]) else ToLivros(rows), false)
  }

  /** A database error while connecting, executing or fetching is reported and gives `[]`. */
  lemma SearchAbsorbsDatabaseErrors(conn: Result<Database>, autor: string)
    requires conn.Raised? ==> conn.exc.cls == DatabaseError
    requires conn.Ok? ==>
      var answer := conn.value(SQL, [Str(LikePattern(autor))]);
      !answer.Rows? && answer.err.cls == DatabaseError
    ensures Search(conn, autor) == Reply(Ok([]), true)
  {
  }

  /** No database error escapes the search, and nothing is reported unless one occurred. */
  lemma SearchNoDatabaseErrorEscapes(conn: Result<Database>, autor: string)
    ensures Search(conn, autor).result.Raised? ==> Search(conn, autor).result.exc.cls != DatabaseError
    ensures Search(conn, autor).reported ==> Search(conn, autor).result == Ok([])
  {
  }

  /** Rows of at least three columns give one book per row, in row order, with `isbn`, `titulo`
      and `autor` taken from columns 0, 1 and 2; zero rows give `[]`. */
  lemma SearchMapsRows(db: Database, autor: string, rows: seq<Row>)
    requires db(SQL, [Str(LikePattern(autor))]) == Rows(rows)
    requires forall k :: 0 <= k < |rows| ==> |rows[k]| >= 3
    ensures var r := Search(Ok(db), autor);
      !r.reported && r.result.Ok? && |r.result.value| == |rows| &&
      forall k :: 0 <= k < |rows| ==> r.result.value[k] == Livro(rows[k][0], rows[k][1], rows[k][2])
  {
  }

  /** When the database only ever fails with database errors and returns the three selected
      columns, the search never raises. */
  lemma SearchNeverRaises(conn: Result<Database>, autor: string)
    requires conn.Raised? ==> conn.exc.cls == DatabaseError
    requires conn.Ok? ==>
      var answer := conn.value(SQL, [Str(LikePattern(autor))]);
      (!answer.Rows? ==> answer.err.cls == DatabaseError) &&
      (answer.Rows? ==> forall k :: 0 <= k < |answer.rows| ==> |answer.rows[k]| >= 3)
    ensures Search(conn, autor).result.Ok?
  {
  }

  function OptSet(c: Option<Connection>): set<Connection>
  {
    if c.Some? then {c.value} else {}
  }

  class LivroDAO {
    var conexao: Option<Connection>

    constructor (conexao: Option<Connection>)
      ensures this.conexao == conexao
    {
      this.conexao := conexao;
    }

    /** The stored connection can be reused: it is not `None` and its `closed` equals 0. */
    predicate Reusable()
      reads this, OptSet(conexao)
    {
      conexao.Some? && conexao.value.IsOpen()
    }

    /** What `_conn` hands over, as a database or the exception it raises. */
    ghost function Connected(server: Server, env: map<string, string>): Result<Database>
      reads this, OptSet(conexao)
    {
      if Reusable() then Ok(conexao.value.db)
      else match server.refuse(ParamsFromEnv(env))
        case Some(e) => Raised(e)
        case None => Ok(server.db)
    }

    /** `_conn`: reuse the stored connection while it is open, otherwise call `conectar` once
        and store what it returns. */
    method Conn(server: Server, env: map<string, string>) returns (r: Result<Connection>)
      modifies this, server
      ensures old(Reusable()) ==>
        r == Ok(old(conexao).value) && conexao == old(conexao) &&
        server.attempts == old(server.attempts) && server.issued == old(server.issued)
      ensures !old(Reusable()) ==> server.attempts == old(server.attempts) + [ParamsFromEnv(env)]
      ensures !old(Reusable()) && r.Ok? ==>
        fresh(r.value) && server.issued == old(server.issued) + [r.value] && r.value.IsOpen() &&
        r.value.closeCalls == 0 && r.value.cursors == []
      ensures r.Ok? ==> conexao == Some(r.value) && old(Connected(server, env)) == Ok(r.value.db)
      ensures r.Raised? ==> conexao == old(conexao) && old(Connected(server, env)) == Raised(r.exc)
      ensures r.Raised? ==> server.issued == old(server.issued)
    {
      if conexao.None? || !conexao.value.IsOpen() {
        var c, _ := Conectar(server, env);
        if c.Ok? {
          conexao := Some(c.value);
        }
        r := c;
      } else {
        r := Ok(conexao.value);
      }
    }

    /** `pesquisar_por_autor(autor)`. The cursor it opens runs the one statement and is closed
        on leaving the `with` block; the connection stays open. */
    method PesquisarPorAutor(autor: string, server: Server, env: map<string, string>)
      returns (r: Result<seq<Livro>>, reported: bool, ghost cur: Option<Cursor>)
      modifies this, server, if Reusable() then OptSet(conexao) else {}
      ensures Reply(r, reported) == Search(old(Connected(server, env)), autor)
      ensures old(Reusable()) ==>
        conexao == old(conexao) && server.attempts == old(server.attempts) &&
        server.issued == old(server.issued) && conexao.value.closed == old(conexao.value.closed) &&
        conexao.value.closeCalls == old(conexao.value.closeCalls)
      ensures !old(Reusable()) ==> server.attempts == old(server.attempts) + [ParamsFromEnv(env)]
      ensures old(Connected(server, env)).Raised? ==> cur.None? && conexao == old(conexao)
      ensures old(Connected(server, env)).Ok? ==>
        cur.Some? && fresh(cur.value) && conexao.Some? &&
        cur.value.executed == [(SQL, [Str(LikePattern(autor))])] && cur.value.closeCalls == 1 &&
        conexao.value.cursors == old(if Reusable() then conexao.value.cursors else []) + [cur.value]
      ensures old(Connected(server, env)).Ok? ==> Reusable()
      ensures !old(Reusable()) && old(Connected(server, env)).Ok? ==>
        fresh(conexao.value) && server.issued == old(server.issued) + [conexao.value]
      ensures old(Connected(server, env)).Raised? ==> server.issued == old(server.issued)
    {
      ghost var wasReusable := Reusable();
      ghost var oldCursors := if Reusable() then conexao.value.cursors else [];
      var c := Conn(server, env);
      if c.Raised? {
        var caught := Caught(c.exc);
        r, reported, cur := caught.result, caught.reported, None;
        return;
      }
      var conn := c.value;
      var cursor := conn.NewCursor();
      cur := Some(cursor);
      var params := [Str(LikePattern(autor))];
      var o := cursor.Execute(SQL, params);
      if o.Failed? {
        cursor.Close();
        var caught := Caught(o.exc);
        r, reported := caught.result, caught.reported;
        return;
      }
      var rows := cursor.FetchAll();
      cursor.Close();
      if rows.Raised? {
        var caught := Caught(rows.exc);
        r, reported := caught.result, caught.reported;
        return;
      }
      r := if rows.value == [] then Ok([]) else ToLivros(rows.value);
      reported := false;
    }
  }
}
