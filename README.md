# MVC-biblioteca, modelled in Dafny

MVC-biblioteca is a small book-lookup web application. An HTTP handler (`main.py`) routes
GET requests:

- `/static/…` is served from `app/static`;
- `/pesquisa?autor=…` searches books by author through a controller, a DAO and PostgreSQL, and
  answers with an HTML page for the first book found or with `("Livro não encontrado", 404)`;
- `/` and `/index` render the `index.html` template;
- anything else answers 404.

Beside this live path the repository keeps older variants: a search service with fixed
connection parameters, a list-all controller and a second page template. They are modelled too.

The project has one module per source file, plus helper modules for the Python and library
behaviour the code relies on:

| module | models |
|---|---|
| `Py` | Python values, truthiness, `str()`, exceptions, `str.split`/`find`/`startswith` |
| `Utf8` | UTF-8 `encode`, strict `decode` and `errors='replace'` decode, with both round trips |
| `Paths` | `pathlib` resolution, done lexically; `Path.name`; the string-prefix and component-wise containment tests |
| `Url` | `urlparse` for origin-form targets, `parse_qs`/`unquote`, and the client-side percent-encoding they undo |
| `Db` | `app/dao/db_connection.py`, plus psycopg2 as classes (`Server`, `Connection`, `Cursor`) over an oracle `Database` that decides what each statement yields |
| `LivroDao` | `app/dao/livro_dao.py` |
| `Controller` | `app/controller/livro_controller.py` |
| `Views` | `app/view/pagina_dados_livro.py` and `app/views/pagina_dados_livro.py` |
| `Servico` | `app/models/servico_pesquisa_livros.py` |
| `ListaController` | `controller/livro_controller.py` |
| `Handler` | `main.py` |

**Pure and stateful parts.**
- Code that computes a value is a function, with lemmas about it.
- Code that changes objects is a method on a class:
  - the DAO's stored connection;
  - connections and cursors that get closed;
  - the handler's response.
- Each such method's `ensures` ties the new state to a specification function, and the lemmas
  are stated about that function.

**How the handler's output is recorded.** The handler's response is a list of actions, in the
order they are performed:
- `send_response`;
- each `send_header`;
- `end_headers`;
- each write to `wfile`;
- or one whole `send_error`.

**Behaviour the model keeps as written.**
- **Page templates.** They interpolate their fields without escaping. As a result, a page does
  not determine its fields (`Views.ExibeLivroNotInjective`). Fields without `<` can be read
  back (`Views.ExibeLivroInjective`).
- **`ServicoPesquisaLivros.pesquisa_por_autor` when `connect` fails.** The method's own
  `except` would return `None`. Instead, its `finally` block reads the unbound `con` and raises
  `UnboundLocalError`.

## Model

| member | source | states |
|---|---|---|
| `Db.ParamsDefaults` | app/dao/db_connection.py:20-27 | for any environment, each `DB_*` variable that is not set gives its own parameter its default (host `db`, port `5432`, database `mvc_biblioteca_db`, user and password `postgres`, `-c search_path=biblioteca,public`), whatever the other variables hold |
| `Db.ParamsVerbatim` | app/dao/db_connection.py:21-26 | for any environment, each `DB_*` variable that is set is passed verbatim to its own parameter, even when empty and whatever the other variables hold; `options` is the search-path switch followed by `DB_SEARCH_PATH` |
| `Db.Conectar` | app/dao/db_connection.py:18-31 | one connection attempt with the environment's parameters; a failure is logged and re-raised unchanged; a success is a fresh open connection with no cursors |
| `LivroDao.LikePattern` | app/dao/livro_dao.py:21 | the parameter is the author between two `%` wildcards: two characters longer, `%` at both ends, the author in between |
| `LivroDao.LikePatternEmpty` | app/dao/livro_dao.py:21 | an empty author gives `%%`, the pattern that matches every author |
| `LivroDao.SqlFiltersAndOrders` | app/dao/livro_dao.py:15-20 | the statement contains the `ILIKE` filter on the author and orders by title |
| `LivroDao.ToLivros` | app/dao/livro_dao.py:27 | the mapping succeeds exactly when every row has at least three columns; otherwise it raises `IndexError`; book k takes isbn, titulo and autor from columns 0, 1 and 2 of row k |
| `LivroDao.Caught` | app/dao/livro_dao.py:28-30 | a database error is reported and gives `[]`; any other exception propagates unreported |
| `LivroDao.SearchAbsorbsDatabaseErrors` | app/dao/livro_dao.py:22-30 | a database error while connecting, executing or fetching gives `[]`, reported |
| `LivroDao.SearchNoDatabaseErrorEscapes` | app/dao/livro_dao.py:22-30 | no database error escapes the search, and a report always comes with `[]` |
| `LivroDao.SearchMapsRows` | app/dao/livro_dao.py:24-27 | rows of three or more columns give one book per row, in row order, mapped by position |
| `LivroDao.SearchNeverRaises` | app/dao/livro_dao.py:22-30 | if the database fails only with database errors and returns three-column rows, the search never raises |
| `LivroDao.LivroDAO.constructor` | app/dao/livro_dao.py:6-7 | the DAO stores the connection it is given, or none |
| `LivroDao.LivroDAO.Conn` | app/dao/livro_dao.py:9-12 | an open stored connection is reused without connecting; otherwise `conectar` is called once and its connection is stored; a failure leaves the stored one in place and issues no connection |
| `LivroDao.LivroDAO.PesquisarPorAutor` | app/dao/livro_dao.py:14-30 | the result is `Search` of the connection `_conn` yields; one fresh cursor runs exactly the statement with the pattern and is closed once; a reused connection is neither closed nor replaced; after a reconnect the stored connection is the fresh one `conectar` issued, the connection it replaced is untouched, and whenever a connection was obtained the DAO is left holding an open one, so the next call reuses it without connecting |
| `Controller.DecideFirstMatchWins` | app/controller/livro_controller.py:15-16 | only the first book found is rendered; the rest play no part |
| `Controller.DecideNotFound` | app/controller/livro_controller.py:15-17 | the not-found tuple is returned exactly when the search gave `[]` or `None` |
| `Controller.ListarFound` | app/controller/livro_controller.py:10-16 | when the database finds rows, the answer is the page of row 0, with title from column 1, author from column 2 and ISBN from column 0 |
| `Controller.ListarNotFound` | app/controller/livro_controller.py:13-17 | no rows, or a database error during the search, give `("Livro não encontrado", 404)` |
| `Controller.ListarRaises` | app/controller/livro_controller.py:10-17 | `listar_livro` raises only when connecting fails or a non-database error escapes the search |
| `Controller.ListarLivro` | app/controller/livro_controller.py:10-17 | connects once; the result is `Listar` of the refusal and the database; the connection is closed exactly once when a value is returned; one cursor runs the search |
| `Views.ItemListOrder` | app/view/pagina_dados_livro.py:12-16 | the list block holds `<ul>`, then the título, autor and ISBN items in that order, then `</ul>` |
| `Views.ExibeLivroContents` | app/view/pagina_dados_livro.py:7-17 | the page declares UTF-8 and links the stylesheet; these come before the `<h1>` heading, which comes before the list with the three items in order |
| `Views.ExibeLivroH4Contents` | app/views/pagina_dados_livro.py:6-14 | the `<h4>` heading comes before the list with the three items in order |
| `Views.ExibeLivroH4Empty` | app/views/pagina_dados_livro.py:10-12 | empty fields leave each item as `<li> name:  </li>` |
| `Views.ExibeLivroInjective` | app/view/pagina_dados_livro.py:8-17 | for fields without `<`, equal pages have equal fields |
| `Views.ExibeLivroNotInjective` | app/view/pagina_dados_livro.py:13-14 | a title that closes its item and opens a fake `Autor` item gives the same page as a different title and author |
| `Servico.Unpack` | app/models/servico_pesquisa_livros.py:22-23 | unpacking succeeds exactly for a row of three columns, read as isbn, autor, titulo; otherwise it raises `ValueError` |
| `Servico.Caught` | app/models/servico_pesquisa_livros.py:25-27 | a database error is printed and gives `None`; anything else propagates |
| `Servico.PesquisaFirstRow` | app/models/servico_pesquisa_livros.py:19-23 | a three-column first row gives the book with ISBN from column 0, author from column 1 and title from column 2 |
| `Servico.PesquisaNoRow` | app/models/servico_pesquisa_livros.py:20-24 | no row gives `None`, with no report |
| `Servico.PesquisaDatabaseError` | app/models/servico_pesquisa_livros.py:25-27 | a database error after connecting is printed and gives `None` |
| `Servico.PesquisaConnectFails` | app/models/servico_pesquisa_livros.py:10-31 | a failed `connect` never gives `None`: the `finally` block raises `UnboundLocalError` |
| `Servico.PesquisaPorAutor` | app/models/servico_pesquisa_livros.py:9-31 | the outcome is `Pesquisa` of the refusal and the database; once connected, the cursor and the connection are each closed exactly once, however the call ends |
| `ListaController.ListarLivros` | controller/livro_controller.py:8-19 | connects once; the result is `Listar` of the refusal and the listing; the connection is closed once, before the page is built, unless the listing raised |
| `ListaController.BuildPage` | controller/livro_controller.py:13-18 | the loop builds the list page: the heading, one item per book in list order, and `</ul>` |
| `ListaController.ListItemCount` | controller/livro_controller.py:16 | each item holds exactly one `<li>` when title and author hold no `<` |
| `ListaController.ItemsCount` | controller/livro_controller.py:15-16 | the items hold one `<li>` per book |
| `ListaController.ListPageCount` | controller/livro_controller.py:13-17 | the page holds exactly as many `<li>` as there are books |
| `Handler.RespondText` | main.py:188-195 | a `str` body is sent with the given status as its UTF-8 encoding, which decodes back to the same text |
| `Handler.RespondPairOrder` | main.py:177-183 | `(html, status)` and `(status, html)` send the same response, and the `status` argument is ignored |
| `Handler.RespondOtherTuples` | main.py:184-186 | any other tuple sends its first element; an empty tuple raises `IndexError` and sends nothing |
| `Handler.RespondShape` | main.py:192-195 | the status line is always followed by `Content-Type` and the end of the headers; the body is written exactly when nothing is raised |
| `Handler.BibliotecaMVCHandler.Respond` | main.py:155-195 | appends exactly what `RespondPlan` sends and returns its exception |
| `Handler.TemplatesDirFromEnv` | main.py:48-50 | a non-empty `TEMPLATES_DIR` wins, resolved from the working directory, whatever the file system holds, `/app/app/templates` included |
| `Handler.TemplatesDirDocker` | main.py:48-55 | without a non-empty `TEMPLATES_DIR`, an existing `/app/app/templates` is the templates directory, whatever the working directory and the module directory |
| `Handler.TemplatesDirFallback` | main.py:53-59 | with no `TEMPLATES_DIR` and no `/app/app/templates`, templates come from `templates` beside `main.py` |
| `Handler.TemplatesDirEmptyEnv` | main.py:48-50 | an empty `TEMPLATES_DIR` counts as unset |
| `Handler.Newlines` | main.py:78 | `read_text` leaves no carriage return; text without one is unchanged, and the result is never longer |
| `Handler.TemplatePathConfined` | main.py:71-73 | whatever the file name, the lookup is a file directly in the templates directory, the directory itself, or its parent for the name `..` |
| `Handler.RenderVerbatim` | main.py:75-83 | a template that is valid UTF-8 and has no carriage returns is sent byte for byte, with status 200 |
| `Handler.RenderOutcomes` | main.py:69-85 | 404 `Template não encontrado` exactly when the path is not a file; an exception exactly when the file is not UTF-8 |
| `Handler.BibliotecaMVCHandler.RenderTemplate` | main.py:61-85 | appends exactly what `RenderPlan` sends and returns its exception |
| `Handler.MimeOrDefault` | main.py:144-145 | the guessed type is used when it is present and non-empty; otherwise `application/octet-stream` is used, never an empty type |
| `Handler.StaticConfined` | main.py:136-150 | a static file is served, with its own bytes, exactly when it is a file inside the static root; otherwise the answer is 404 `Arquivo estático não encontrado` |
| `Handler.StaticAgreesInside` | main.py:142 | on paths that resolve inside the root, the corrected test and the written test agree |
| `Handler.StaticNoDotDotInside` | main.py:136-139 | a relative path without `..` always resolves inside the static root |
| `Handler.StaticAsWrittenAdmitsSibling` | main.py:142 | the written prefix test serves `app/static<suffix>/<file>` for `/static/../static<suffix>/<file>`; the corrected test refuses it |
| `Handler.BibliotecaMVCHandler.ServeStatic` | main.py:127-150 | appends exactly what `StaticPlan` sends |
| `Handler.RouteSearch` | main.py:99-109 | `/pesquisa?autor=` followed by the percent-encoded author reaches the search with exactly that author, the empty one included |
| `Handler.RouteCases` | main.py:99-122 | for every target, the route depends only on the parsed path, in four exclusive cases: `/static/…` serves that path; any path starting with `/pesquisa` searches; exactly `/` or `/index` renders the index; anything else is unknown |
| `Handler.RouteIgnoresQuery` | main.py:99-118 | adding a query string never changes which route a path takes; it only supplies the search's author, which is `""` without one |
| `Handler.RouteSearchSuffix` | main.py:106-109 | `/pesquisa` followed by anything (`/pesquisa` itself, `/pesquisaX`) is a search, for the author `""` when there is no query |
| `Handler.RouteIndex` | main.py:118-122 | `/` and `/index` render the index; `/index.html` is not found |
| `Handler.GetSearchFound` | main.py:106-116 | end to end, a found author gives 200 and the UTF-8 page of the first row |
| `Handler.GetSearchNotFound` | main.py:106-116 | end to end, no rows or a database error give 404 with `Livro não encontrado` as the body |
| `Handler.GetSearchConnectFails` | main.py:106-116 | end to end, a refused connection escapes `do_GET`, and nothing is sent |
| `Handler.GetUnknown` | main.py:118-122 | a path that is not a static file, not a search and neither `/` nor `/index` gets exactly one `send_error(404, 'Página não encontrada')` and nothing else |
| `Handler.BibliotecaMVCHandler.DoGet` | main.py:90-122 | appends exactly what `Get` sends and returns its outcome, so `RouteCases`, `RouteIgnoresQuery`, `GetUnknown` and the `GetSearch…` lemmas hold of what it sends; only the search route connects to the database, exactly once |
| `Paths.ResolveIdempotent` | main.py:138-139 | resolving a resolved path changes nothing |
| `Paths.ResolveJoin` | main.py:138 | `(root / rel).resolve()` resolves a relative `rel` from the root, while an absolute `rel` replaces the root |
| `Paths.NormalizeDescends` | main.py:137-138 | without `..`, resolution never leaves the starting directory |
| `Paths.InsideImpliesStringInside` | main.py:142 | the prefix test never refuses a path that really is inside the root |
| `Paths.StringInsideAdmitsSibling` | main.py:142 | the prefix test admits `/srv/static2/x` for the root `/srv/static` |
| `Url.ParsePathQuery` | main.py:99-100 | a target made of a plain path and a query parses into exactly that path and that query |
| `Url.UnquoteQuote` | main.py:108-109 | percent-decoding undoes percent-encoding |
| `Url.QueryRoundTrip` | main.py:108-109 | `parse_qs(name=<quoted value>).get(name, [''])[0]` gives back the value as it was typed |
| `Utf8.DecodeEncode` | main.py:189-190 | decoding an encoded text gives the text back |
| `Utf8.EncodeDecode` | main.py:78-83 | re-encoding decoded bytes gives the same bytes |
| `Utf8.EncodeInjective` | main.py:189-190 | different texts are sent as different bytes |
| `Py.DigitsRoundTrip` | app/view/pagina_dados_livro.py:13-15 | the decimal digits `str()` prints for a number read back as that number |

## Left out

- No I/O is modelled:
  - sockets, the `HTTPServer` loop and the request parsing of `BaseHTTPRequestHandler` are left out;
  - `send_response` records its status as given, and its `%d` formatting is not modelled;
  - `send_error` is one action, and the error page it generates is not modelled.
- `print` and `logging` calls are not modelled as output. A boolean (`reported`, `logged`) says whether they ran.
- The environment, the file system, the working directory, the directory of `main.py` and `mimetypes.guess_type` are inputs (`Handler.Host`).
- Paths are resolved lexically. Symbolic links are not followed.
- Url.UrlParse: has no scheme detection. `urlparse` splits off a scheme such as `http:` and then the `//` authority. An absolute-form target such as `GET http://h/pesquisa?autor=x`, which `BaseHTTPRequestHandler` accepts, is therefore routed on its path `/pesquisa` and runs the search. The model keeps `http://h/pesquisa` as the path, so such a target gets the 404 `Página não encontrada` in the model. The stripping of whitespace and control characters is left out as well.
- Url.UrlParse: never raises. Python's `urlsplit` raises `ValueError("Invalid IPv6 URL")` when a `//` authority holds an unbalanced `[` or `]`, which would escape `do_GET` with nothing sent; the model routes such a target to the 404 instead. `BaseHTTPRequestHandler.parse_request` collapses a leading `//` in the request path on current Python, so such a target hardly reaches `do_GET`.
- psycopg2 and PostgreSQL are an oracle:
  - what a statement yields, including `ILIKE` matching and `ORDER BY`, is the `Database` function's answer;
  - whether `connect` fails is the `Server`'s `refuse` function;
  - a cursor on a closed connection and a failing `con.cursor()` are not modelled.
- `app/model/livro.py` and `app/models/livro.py` are not part of this model. `Livro` is a record of `isbn`, `titulo` and `autor`. The older search service calls `Livro(isbn, autor, titulo)` positionally; the model assumes the constructor takes its parameters in that order.
- `controller/livro_controller.py` calls `dao.listar()`, which the `LivroDAO` of `dao/livro_dao.py` does not define. What it returns or raises is an input of `ListaController.ListarLivros`; the `AttributeError` is its raised case. `dao/db_connection.py` is not part of this model: `ListaController.ListarLivros` connects through `Db.Conectar`.
- The first `conectar` in `app/dao/db_connection.py` is dead code, because the second definition replaces it. It is not modelled.
- `str()` is modelled for `str`, `int`, `bool` and `None` fields. Page fields of any other type are not modelled.
- The Flask glue (`app/main.py`, `app.py`, `app/controllers`) and the tests are not modelled.
- `Handler.BibliotecaMVCHandler.ServeStatic` and `Handler.Get` use the corrected containment test (see Findings). `Handler.StaticAsWritten` is the test as written.

## Findings

| source | as written | input that shows it | evidently intended | confidence | as-written member | corrected member |
|---|---|---|---|---|---|---|
| main.py:142 | `str(wanted).startswith(str(root))` compares strings, so a sibling directory whose name extends `static` passes the test | `GET /static/../static2/x`, with a file at `app/static2/x` beside `main.py` | serve only paths that are the static root or lie below it, compared component by component | medium, not executed | `Handler.StaticAsWrittenAdmitsSibling` | `Handler.StaticConfined` |
