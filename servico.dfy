/** `ServicoPesquisaLivros.pesquisa_por_autor` of `app/models/servico_pesquisa_livros.py`, the
    older search service: it connects with fixed parameters, fetches one row matching the
    author exactly, and closes cursor and connection in a `finally` block. */
module Servico {
  import opened Py
  import opened Db

  /** The fixed arguments of its `psycopg2.connect` call. */
  const SERVICO_PARAMS := ConnParams(host := "db", port := "5432", dbname := "bib_db",
                                     user := "postgres", password := "postgres", options := None)

  const SQL_EXACT := "SELECT * FROM livros WHERE autor = %s"

  /** `isbn, autor, titulo = row` followed by `Livro(isbn, autor, titulo)`; a row that is not a
      triple raises `ValueError`. */
  function Unpack(row: Row): (r: Result<Livro>)
    ensures r.Ok? <==> |row| == 3
    ensures r.Ok? ==> r.value.isbn == row[0] && r.value.autor == row[1] && r.value.titulo == row[2]
    ensures r.Raised? ==> r.exc.cls == ValueError
  {
    if |row| == 3 then Ok(Livro(isbn := row[0], titulo := row[2], autor := row[1]))
    else if |row| < 3 then Raised(Exception(ValueError, "not enough values to unpack"))
    else Raised(Exception(ValueError, "too many values to unpack"))
  }

  /** What `pesquisa_por_autor` returns or raises, and whether it printed a database error. */
  datatype Reply = Reply(result: Result<Option<Livro>>, reported: bool)

  const UNBOUND_CON := Exception(UnboundLocalError, "cannot access local variable 'con'")

  /** `except psycopg2.Error` inside the `try`: a database error is printed and gives `None`. */
  function Caught(e: Exception): (r: Reply)
    ensures r.reported <==> e.cls == DatabaseError
    ensures r.reported ==> r.result == Ok(None)
    ensures !r.reported ==> r.result == Raised(e)
  {
    if e.cls == DatabaseError then Reply(Ok(None), true) else Reply(Raised(e), false)
  }

  /** The outcome of `pesquisa_por_autor(autor)`, given what connecting does (`refusal`) and
      the database. When `connect` raises, `con` is never bound and the `finally` block's
      `if con:` raises `UnboundLocalError`, replacing whatever the `try` produced. */
  function Pesquisa(refusal: Option<Exception>, db: Database, autor: Value): Reply
  {
    match refusal
    case Some(e) => Reply(Raised(UNBOUND_CON), e.cls == DatabaseError)
    case None =>
      match db(SQL_EXACT, [autor])
      case ExecuteFails(e) => Caught(e)
      case FetchFails(e) => Caught(e)
      case Rows(rows) =>
        if rows == [] || rows[0] == [] then Reply(Ok(None), false)
        else
          match Unpack(rows[0])
          case Ok(b) => Reply(Ok(Some(b)), false)
          case Raised(e) => Reply(Raised(e), false)
  }

  /** Only the first row counts; it is read as `(isbn, autor, titulo)`, so the book's ISBN is
      column 0. */
  lemma PesquisaFirstRow(db: Database, autor: Value, rows: seq<Row>)
    requires db(SQL_EXACT, [autor]) == Rows(rows)
    requires rows != [] && |rows[0]| == 3
    ensures var r := Pesquisa(None, db, autor);
      !r.reported && r.result.Ok? && r.result.value.Some? &&
      r.result.value.value == Livro(isbn := rows[0][0], titulo := rows[0][2], autor := rows[0][1])
  {
  }

  /** No row gives `None`, without a report. */
  lemma PesquisaNoRow(db: Database, autor: Value)
    requires db(SQL_EXACT, [autor]) == Rows([])
    ensures Pesquisa(None, db, autor) == Reply(Ok(None), false)
  {
  }

  /** A database error after connecting is printed and gives `None`. */
  lemma PesquisaDatabaseError(db: Database, autor: Value)
    requires !db(SQL_EXACT, [autor]).Rows? && db(SQL_EXACT, [autor]).err.cls == DatabaseError
    ensures Pesquisa(None, db, autor) == Reply(Ok(None), true)
  {
  }

  /** A failed `connect` never gives `None`: the call raises `UnboundLocalError`. */
  lemma PesquisaConnectFails(e: Exception, db: Database, autor: Value)
    ensures Pesquisa(Some(e), db, autor).result.Raised?
    ensures Pesquisa(Some(e), db, autor).result.exc.cls == UnboundLocalError
  {
  }

  /** `pesquisa_por_autor(autor)`. Once connected, the cursor and the connection are each
      closed exactly once, whichever way the call ends. */
  method PesquisaPorAutor(autor: Value, server: Server)
    returns (r: Result<Option<Livro>>, reported: bool, ghost conn: Option<Connection>, ghost cur: Option<Cursor>)
    modifies server
    ensures server.attempts == old(server.attempts) + [SERVICO_PARAMS]
    ensures Reply(r, reported) == Pesquisa(server.refuse(SERVICO_PARAMS), server.db, autor)
    ensures conn.Some? <==> server.refuse(SERVICO_PARAMS).None?
    ensures conn.Some? ==>
      fresh(conn.value) && server.issued == old(server.issued) + [conn.value] &&
      conn.value.closeCalls == 1 && cur.Some? && conn.value.cursors == [cur.value] &&
      cur.value.executed == [(SQL_EXACT, [autor])] && cur.value.closeCalls == 1
  {
    var c := server.Connect(SERVICO_PARAMS);
    if c.Raised? {
      // `con` is unbound: the `finally` block raises before anything is closed.
      r, reported, conn, cur := Raised(UNBOUND_CON), c.exc.cls == DatabaseError, None, None;
      return;
    }
    var con := c.value;
    var cursor := con.NewCursor();
    conn, cur := Some(con), Some(cursor);
    var o := cursor.Execute(SQL_EXACT, [autor]);
    if o.Failed? {
      var caught := Caught(o.exc);
      r, reported := caught.result, caught.reported;
    } else {
      var row := cursor.FetchOne();
      if row.Raised? {
        var caught := Caught(row.exc);
        r, reported := caught.result, caught.reported;
      } else if row.value.None? || row.value.value == [] {
        r, reported := Ok(None), false;
      } else {
        var b := Unpack(row.value.value);
        r := if b.Ok? then Ok(Some(b.value)) else Raised(b.exc);
        reported := false;
      }
    }
    // finally
    cursor.Close();
    con.Close();
  }
}
