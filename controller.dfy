/** `listar_livro` of `app/controller/livro_controller.py`: connect once, search through a
    `LivroDAO` on that connection, close it, then render the first book found or answer
    `("Livro não encontrado", 404)`. */
module Controller {
  import opened Py
  import opened Db
  import opened LivroDao
  import Views

  const NOT_FOUND_TEXT := "Livro n\U{E3}o encontrado"

  /** The not-found result, a `(body, status)` tuple. */
  const NOT_FOUND: Value := Tuple([Str(NOT_FOUND_TEXT), Int(404)])

  /** The page of one book: `exibe_livro(titulo, autor, isbn)`. */
  function Page(b: Livro): string
  {
    Views.ExibeLivro(b.titulo, b.autor, b.isbn)
  }

  /** The branch after the search: `if livro_pesquisado:` renders the first book, otherwise the
      not-found tuple. `None` stands for a search that gave `None`. */
  function Decide(found: Option<seq<Livro>>): (v: Value)
  {
    if found.Some? && found.value != [] then Str(Page(found.value[0])) else NOT_FOUND
  }

  /** First match wins: the books after the first one play no part. */
  lemma DecideFirstMatchWins(b: Livro, rest: seq<Livro>, rest2: seq<Livro>)
    ensures Decide(Some([b] + rest)) == Decide(Some([b] + rest2)) == Str(Page(b))
  {
  }

  /** `[]` and `None` both give exactly `("Livro não encontrado", 404)`, and nothing else does. */
  lemma DecideNotFound(found: Option<seq<Livro>>)
    ensures Decide(found) == NOT_FOUND <==> found.None? || found.value == []
  {
  }

  /** What `listar_livro(autor)` returns or raises, given what connecting does (`refusal`)
      and the database behind the connection. */
  function Listar(refusal: Option<Exception>, db: Database, autor: string): Result<Value>
  {
    match refusal
    case Some(e) => Raised(e)
    case None =>
      match Search(Ok(db), autor).result
      case Raised(e) => Raised(e)
      case Ok(books) => Ok(Decide(Some(books)))
  }

  /** When the database finds rows, the page shows the first one: title from column 1, author
      from column 2 and ISBN from column 0. */
  lemma ListarFound(db: Database, autor: string, rows: seq<Row>)
    requires db(SQL, [Str(LikePattern(autor))]) == Rows(rows)
    requires rows != [] && forall k :: 0 <= k < |rows| ==> |rows[k]| >= 3
    ensures Listar(None, db, autor) == Ok(Str(Views.ExibeLivro(rows[0][1], rows[0][2], rows[0][0])))
  {
    SearchMapsRows(db, autor, rows);
  }

  /** No rows, or a database error during the search, give the not-found tuple. */
  lemma ListarNotFound(db: Database, autor: string)
    requires var answer := db(SQL, [Str(LikePattern(autor))]);
      answer == Rows([]) || (!answer.Rows? && answer.err.cls == DatabaseError)
    ensures Listar(None, db, autor) == Ok(NOT_FOUND)
  {
  }

  /** `listar_livro` raises only when connecting fails, or when the search lets an exception
      through, which is never a database error. */
  lemma ListarRaises(refusal: Option<Exception>, db: Database, autor: string)
    requires Listar(refusal, db, autor).Raised?
    ensures refusal.Some? || Listar(refusal, db, autor).exc.cls != DatabaseError
  {
    if refusal.None? {
      SearchNoDatabaseErrorEscapes(Ok(db), autor);
    }
  }

  /** `listar_livro(autor)`. `conn` is the connection `conectar` returned, `cur` the cursor the
      search ran on. */
  method ListarLivro(autor: string, server: Server, env: map<string, string>)
    returns (r: Result<Value>, ghost conn: Option<Connection>, ghost cur: Option<Cursor>)
    modifies server
    ensures server.attempts == old(server.attempts) + [ParamsFromEnv(env)]
    ensures r == Listar(server.refuse(ParamsFromEnv(env)), server.db, autor)
    ensures conn.Some? <==> server.refuse(ParamsFromEnv(env)).None?
    ensures conn.Some? ==>
      fresh(conn.value) && server.issued == old(server.issued) + [conn.value] &&
      conn.value.closeCalls == (if r.Ok? then 1 else 0) &&
      cur.Some? && conn.value.cursors == [cur.value] &&
      cur.value.executed == [(SQL, [Str(LikePattern(autor))])] && cur.value.closeCalls == 1
  {
    var c, _ := Conectar(server, env);
    if c.Raised? {
      r, conn, cur := Raised(c.exc), None, None;
      return;
    }
    var conexao := c.value;
    conn := Some(conexao);
    var dao := new LivroDAO(Some(conexao));
    var found, _, used := dao.PesquisarPorAutor(autor, server, env);
    cur := used;
    if found.Raised? {
      r := Raised(found.exc);
      return;
    }
    conexao.Close();
    r := Ok(Decide(Some(found.value)));
  }
}
