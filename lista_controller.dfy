/** `listar_livros` of `controller/livro_controller.py`, the older list page: connect, ask the
    DAO for every book, close the connection, then build `<h1>Lista de Livros</h1><ul>`, one
    `<li>titulo - autor</li>` per book and `</ul>`, or answer `("Livro não encontrado", 404)`. */
module ListaController {
  import opened Py
  import opened Db

  const H1_OPEN := "<h1>"
  const LIST_TITLE := "Lista de Livros"
  const H1_CLOSE := "</h1>"
  const LIST_OPEN := "<ul>"
  const LIST_HEAD := H1_OPEN + LIST_TITLE + H1_CLOSE + LIST_OPEN
  const LIST_TAIL := "</ul>"
  const LI := "<li>"
  const END_LI := "</li>"

  const NOT_FOUND: Value := Tuple([Str("Livro n\U{E3}o encontrado"), Int(404)])

  /** `f'<li>{livro.titulo} - {livro.autor}</li>'`. */
  function ListItem(b: Livro): string
  {
    LI + (ToStr(b.titulo) + " - " + ToStr(b.autor)) + END_LI
  }

  /** The items of `books`, in list order. */
  function Items(books: seq<Livro>): string
  {
    if books == [] then "" else Items(books[..|books| - 1]) + ListItem(books[|books| - 1])
  }

  /** The page for a non-empty listing. */
  function ListPage(books: seq<Livro>): string
  {
    LIST_HEAD + Items(books) + LIST_TAIL
  }

  /** What `listar_livros()` returns or raises, given what connecting does (`refusal`) and what
      `dao.listar()` gives (`listing`; `None` is a listing of `None`). */
  function Listar(refusal: Option<Exception>, listing: Result<Option<seq<Livro>>>): Result<Value>
  {
    if refusal.Some? then Raised(refusal.value)
    else if listing.Raised? then Raised(listing.exc)
    else if listing.value.None? || listing.value.value == [] then Ok(NOT_FOUND)
    else Ok(Str(ListPage(listing.value.value)))
  }

  /** `listar_livros()`. `conn` is the connection it opened; it is closed once, before the page
      is built, unless `dao.listar()` raised. */
  method ListarLivros(server: Server, env: map<string, string>, listing: Result<Option<seq<Livro>>>)
    returns (r: Result<Value>, ghost conn: Option<Connection>)
    modifies server
    ensures server.attempts == old(server.attempts) + [ParamsFromEnv(env)]
    ensures r == Listar(server.refuse(ParamsFromEnv(env)), listing)
    ensures conn.Some? <==> server.refuse(ParamsFromEnv(env)).None?
    ensures conn.Some? ==>
      fresh(conn.value) && server.issued == old(server.issued) + [conn.value] &&
      conn.value.closeCalls == (if listing.Ok? then 1 else 0)
  {
    var c, _ := Conectar(server, env);
    if c.Raised? {
      r, conn := Raised(c.exc), None;
      return;
    }
    var connection := c.value;
    conn := Some(connection);
    if listing.Raised? {
      r := Raised(listing.exc);
      return;
    }
    var livros := listing.value;
    connection.Close();
    if livros.Some? && livros.value != [] {
      var html := BuildPage(livros.value);
      r := Ok(Str(html));
    } else {
      r := Ok(NOT_FOUND);
    }
  }

  /** The `html +=` loop: the head, one item per book in list order, and `</ul>`. */
  method BuildPage(books: seq<Livro>) returns (html: string)
    ensures html == ListPage(books)
  {
    html := LIST_HEAD;
    var i := 0;
    while i < |books|
      invariant 0 <= i <= |books|
      invariant html == LIST_HEAD + Items(books[..i])
    {
      ItemsSnoc(books, i);
      Assoc(LIST_HEAD, Items(books[..i]), ListItem(books[i]));
      html := html + ListItem(books[i]);
      i := i + 1;
    }
    assert books[..|books|] == books;
    html := html + LIST_TAIL;
  }

  lemma ItemsSnoc(books: seq<Livro>, i: nat)
    requires i < |books|
    ensures Items(books[..i + 1]) == Items(books[..i]) + ListItem(books[i])
  {
    assert books[..i + 1][..i] == books[..i];
  }

  lemma Assoc(a: string, b: string, c: string)
    ensures a + b + c == a + (b + c)
  {
  }

  // ---------------------------------------------------------------------------------------
  // Counting items

  /** How many times `<li>` occurs in `s`. */
  function CountLi(s: string): nat
  {
    if |s| < 4 then 0 else (if s[..4] == LI then 1 else 0) + CountLi(s[1..])
  }

  /** None of the last three characters of `s` is `<`, so no `<li>` starts there. */
  predicate EndsClosed(s: string) {
    forall k :: 0 <= k < |s| && k + 3 >= |s| ==> s[k] != '<'
  }

  lemma {:induction false} CountLiNone(s: string)
    requires '<' !in s
    ensures CountLi(s) == 0
  {
    if |s| >= 4 {
      assert s[0] in s;
      assert s[..4][0] == s[0];
      CountLiNone(s[1..]);
    }
  }

  /** Counting is additive when no `<li>` can straddle the seam. */
  lemma {:induction false} CountLiAppend(a: string, b: string)
    requires EndsClosed(a)
    ensures CountLi(a + b) == CountLi(a) + CountLi(b)
  {
    if a == [] {
      assert a + b == b;
    } else {
      assert (a + b)[1..] == a[1..] + b;
      CountLiAppend(a[1..], b);
      if |a| >= 4 {
        assert (a + b)[..4] == a[..4];
      } else if |a + b| >= 4 {
        assert (a + b)[..4][0] == a[0] != '<';
      }
    }
  }

  lemma ClosedConcat(a: string, b: string)
    requires EndsClosed(a) && EndsClosed(b)
    ensures EndsClosed(a + b)
  {
    var s := a + b;
    forall k | 0 <= k < |s| && k + 3 >= |s| ensures s[k] != '<' {
      if k >= |a| {
        assert s[k] == b[k - |a|];
      } else {
        assert s[k] == a[k];
      }
    }
  }

  lemma NoTagClosed(s: string)
    requires '<' !in s
    ensures EndsClosed(s) && CountLi(s) == 0
  {
    CountLiNone(s);
    forall k | 0 <= k < |s| && k + 3 >= |s| ensures s[k] != '<' {
      assert s[k] in s;
    }
  }

  /** A tag of four or five characters that is not `<li>` and whose tail holds no `<`. */
  lemma OtherTag(t: string)
    requires 4 <= |t| <= 5 && t[1] != 'l' && '<' !in t[1..]
    ensures CountLi(t) == 0 && EndsClosed(t)
  {
    assert t[..4][1] != LI[1];
    NoTagClosed(t[1..]);
    forall k | 0 <= k < |t| && k + 3 >= |t| ensures t[k] != '<' {
      assert t[k] == t[1..][k - 1];
      assert t[1..][k - 1] in t[1..];
    }
  }

  /** Text without `<` holds no `<`. */
  lemma NoTagConcat(a: string, b: string)
    requires '<' !in a && '<' !in b
    ensures '<' !in a + b
  {
    forall k | 0 <= k < |a + b| ensures (a + b)[k] != '<' {
      if k < |a| {
        assert (a + b)[k] == a[k];
        assert a[k] in a;
      } else {
        assert (a + b)[k] == b[k - |a|];
        assert b[k - |a|] in b;
      }
    }
  }

  /** A list item holds exactly one `<li>` when its fields hold no `<`. */
  lemma ListItemCount(b: Livro)
    requires '<' !in ToStr(b.titulo) && '<' !in ToStr(b.autor)
    ensures CountLi(ListItem(b)) == 1 && EndsClosed(ListItem(b))
  {
    var t, a := ToStr(b.titulo), ToStr(b.autor);
    NoTagConcat(t, " - ");
    NoTagConcat(t + " - ", a);
    var mid := t + " - " + a;
    var x := LI + mid;
    assert x[..4] == LI;
    assert x[1..] == "li>" + mid;
    NoTagConcat("li>", mid);
    NoTagClosed("li>" + mid);
    assert CountLi(x) == 1;
    assert EndsClosed(x) by {
      forall k | 0 <= k < |x| && k + 3 >= |x| ensures x[k] != '<' {
        assert x[k] == x[1..][k - 1];
        assert x[1..][k - 1] in x[1..];
      }
    }
    OtherTag(END_LI);
    CountLiAppend(x, END_LI);
    ClosedConcat(x, END_LI);
  }

  /** The items of `books` hold one `<li>` per book. */
  lemma {:induction false} ItemsCount(books: seq<Livro>)
    requires forall k :: 0 <= k < |books| ==> '<' !in ToStr(books[k].titulo) && '<' !in ToStr(books[k].autor)
    ensures CountLi(Items(books)) == |books| && EndsClosed(Items(books))
    decreases |books|
  {
    if books != [] {
      var init := books[..|books| - 1];
      ItemsCount(init);
      ListItemCount(books[|books| - 1]);
      CountLiAppend(Items(init), ListItem(books[|books| - 1]));
      ClosedConcat(Items(init), ListItem(books[|books| - 1]));
    } else {
      NoTagClosed("");
    }
  }

  /** Counting, and the closed end, both carry over a concatenation. */
  lemma Concat(a: string, b: string)
    requires EndsClosed(a) && EndsClosed(b)
    ensures CountLi(a + b) == CountLi(a) + CountLi(b) && EndsClosed(a + b)
  {
    CountLiAppend(a, b);
    ClosedConcat(a, b);
  }

  /** The literal pieces of the page hold no `<li>` and end closed. */
  lemma H1OpenFacts()
    ensures CountLi(H1_OPEN) == 0 && EndsClosed(H1_OPEN)
  {
    OtherTag(H1_OPEN);
  }
  lemma TitleFacts()
    ensures CountLi(LIST_TITLE) == 0 && EndsClosed(LIST_TITLE)
  {
    NoTagClosed(LIST_TITLE);
  }
  lemma H1CloseFacts()
    ensures CountLi(H1_CLOSE) == 0 && EndsClosed(H1_CLOSE)
  {
    OtherTag(H1_CLOSE);
  }
  lemma ListOpenFacts()
    ensures CountLi(LIST_OPEN) == 0 && EndsClosed(LIST_OPEN)
  {
    OtherTag(LIST_OPEN);
  }
  lemma ListTailFacts()
    ensures CountLi(LIST_TAIL) == 0 && EndsClosed(LIST_TAIL)
  {
    OtherTag(LIST_TAIL);
  }

  /** The head of the page holds no `<li>`. */
  lemma HeadCount()
    ensures CountLi(LIST_HEAD) == 0 && EndsClosed(LIST_HEAD)
  {
    H1OpenFacts();
    TitleFacts();
    H1CloseFacts();
    ListOpenFacts();
    Concat(H1_OPEN, LIST_TITLE);
    Concat(H1_OPEN + LIST_TITLE, H1_CLOSE);
    Concat(H1_OPEN + LIST_TITLE + H1_CLOSE, LIST_OPEN);
  }

  /** The page holds exactly one `<li>` per book, when titles and authors hold no `<`. */
  lemma ListPageCount(books: seq<Livro>)
    requires forall k :: 0 <= k < |books| ==> '<' !in ToStr(books[k].titulo) && '<' !in ToStr(books[k].autor)
    ensures CountLi(ListPage(books)) == |books|
  {
    HeadCount();
    ItemsCount(books);
    Concat(LIST_HEAD, Items(books));
    CountLiAppend(LIST_HEAD + Items(books), LIST_TAIL);
    ListTailFacts();
  }
}
