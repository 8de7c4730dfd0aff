/** `BibliotecaMVCHandler` of `main.py`: the HTTP handler that routes a GET request to a static
    file, to the book search, to the index template or to a 404, and sends the answer through
    `respond`, `render_template`, `serve_static` or `send_error`.

    What the handler sends is recorded as a list of actions, in the order it performs them:
    the status line, each header, the end of the headers, each write to the body, or a whole
    `send_error`. */
module Handler {
  import opened Py
  import Utf8
  import Paths
  import Url
  import Db
  import Views
  import LivroDao
  import Controller

  const HTML := "text/html; charset=utf-8"
  const OCTET_STREAM := "application/octet-stream"
  const CONTENT_TYPE := "Content-Type"

  const STATIC_PREFIX := "/static/"
  const SEARCH_PREFIX := "/pesquisa"
  const AUTOR := "autor"
  const INDEX_TEMPLATE := "index.html"
  const DOCKER_TEMPLATES := "/app/app/templates"

  const PAGE_NOT_FOUND := "P\U{E1}gina n\U{E3}o encontrada"
  const TEMPLATE_NOT_FOUND := "Template n\U{E3}o encontrado"
  const STATIC_NOT_FOUND := "Arquivo est\U{E1}tico n\U{E3}o encontrado"

  /** One thing the handler does to its response. `SendError` stands for the whole of
      `send_error(code, message)`. */
  datatype Action =
    | SendResponse(code: Value)
    | SendHeader(name: string, value: string)
    | EndHeaders
    | SendError(errorCode: int, message: string)
    | Write(data: seq<byte>)

  /** What a handler method sends, and the exception it lets escape afterwards, if any. */
  datatype Plan = Plan(actions: seq<Action>, raised: Option<Exception>)

  function OutcomeOf(p: Plan): Outcome
  {
    if p.raised.Some? then Failed(p.raised.value) else Done
  }

  /** A complete answer: status line, `Content-Type`, end of headers, then the body. */
  function Answer(code: Value, contentType: string, body: seq<byte>): seq<Action>
  {
    [SendResponse(code), SendHeader(CONTENT_TYPE, contentType), EndHeaders, Write(body)]
  }

  /** The files and directories the handler can see, by resolved path. */
  datatype FileSystem = FileSystem(files: map<seq<string>, seq<byte>>, dirs: set<seq<string>>)

  /** Everything outside the request that the handler reads: the environment, the file
      system, the directory of `main.py` (resolved), the working directory and what
      `mimetypes.guess_type` answers for a path. */
  datatype Host = Host(env: map<string, string>, fs: FileSystem, moduleDir: seq<string>,
                       cwd: seq<string>, guessType: string -> Option<string>)

  predicate Resolved(h: Host) {
    Paths.AllNames(h.moduleDir) && Paths.AllNames(h.cwd)
  }

  // ---------------------------------------------------------------------------------------
  // respond

  /** What `respond(content, status, content_type)` sends. A pair carries its status on
      whichever side holds an `int` (a `bool` counts as one) and overrides `status`; any other
      tuple is replaced by its first element, and an empty one raises `IndexError` before
      anything is sent. A `str` body is sent UTF-8-encoded, `bytes` as they are; any other body
      makes the final write raise `TypeError` after the headers are out. */
  function RespondPlan(content: Value, status: Value, contentType: string): Plan
  {
    var folded :=
      if !content.Tuple? then Ok((content, status))
      else if |content.items| == 2 then
        (if IsInt(content.items[0]) then Ok((content.items[1], content.items[0]))
         else Ok((content.items[0], content.items[1])))
      else if content.items == [] then Raised(Exception(IndexError, "tuple index out of range"))
      else Ok((content.items[0], status));
    match folded
    case Raised(e) => Plan([], Some(e))
    case Ok(pair) =>
      var (body, code) := pair;
      var head := [SendResponse(code), SendHeader(CONTENT_TYPE, contentType), EndHeaders];
      match body
      case Str(s) => Plan(head + [Write(Utf8.Encode(s))], None)
      case Bytes(bs) => Plan(head + [Write(bs)], None)
      case _ => Plan(head, Some(Exception(TypeError, "a bytes-like object is required")))
  }

  /** A text body is sent with the given status as its UTF-8 encoding, which decodes back to
      exactly the text. */
  lemma RespondText(s: string, status: Value, contentType: string)
    ensures RespondPlan(Str(s), status, contentType) == Plan(Answer(status, contentType, Utf8.Encode(s)), None)
    ensures Utf8.Decode(RespondPlan(Str(s), status, contentType).actions[3].data) == Some(s)
  {
    Utf8.DecodeEncode(s);
  }

  /** `(html, status)` and `(status, html)` send the same response, whatever `status` was
      passed beside them. */
  lemma RespondPairOrder(html: string, code: int, status1: Value, status2: Value, contentType: string)
    ensures RespondPlan(Tuple([Str(html), Int(code)]), status1, contentType) ==
            RespondPlan(Tuple([Int(code), Str(html)]), status2, contentType) ==
            Plan(Answer(Int(code), contentType, Utf8.Encode(html)), None)
  {
  }

  /** A tuple of any other length sends its first element with the given status (a first
      element that is itself a tuple is not unpacked again, and fails the write); the empty
      tuple raises `IndexError` and sends nothing. */
  lemma RespondOtherTuples(items: seq<Value>, status: Value, contentType: string)
    requires |items| != 2
    ensures items == [] ==> RespondPlan(Tuple(items), status, contentType) ==
                            Plan([], Some(Exception(IndexError, "tuple index out of range")))
    ensures items != [] && !items[0].Tuple? ==>
              RespondPlan(Tuple(items), status, contentType) == RespondPlan(items[0], status, contentType)
    ensures items != [] && items[0].Tuple? ==>
              RespondPlan(Tuple(items), status, contentType).raised.value.cls == TypeError
  {
  }

  /** Whenever the status line goes out, the headers and their end follow; the body is
      written exactly when nothing was raised. */
  lemma RespondShape(content: Value, status: Value, contentType: string)
    ensures var p := RespondPlan(content, status, contentType);
      (p.actions == [] <==> p.raised == Some(Exception(IndexError, "tuple index out of range"))) &&
      (p.actions != [] ==> |p.actions| >= 3 && p.actions[0].SendResponse? &&
                           p.actions[1] == SendHeader(CONTENT_TYPE, contentType) && p.actions[2] == EndHeaders) &&
      (p.raised.None? <==> |p.actions| == 4)
  {
  }

  // ---------------------------------------------------------------------------------------
  // Templates

  /** `resolve_templates_dir()`: a non-empty `TEMPLATES_DIR` resolved from the working
      directory; else `/app/app/templates` if it exists; else `templates` beside `main.py`. */
  function TemplatesDir(h: Host): (d: seq<string>)
    requires Resolved(h)
    ensures Paths.AllNames(d)
  {
    var docker := Paths.Resolve(h.cwd, DOCKER_TEMPLATES);
    if TEMPLATES_DIR in h.env && h.env[TEMPLATES_DIR] != "" then Paths.Resolve(h.cwd, h.env[TEMPLATES_DIR])
    else if docker in h.fs.files || docker in h.fs.dirs then docker
    else Paths.Resolve(h.cwd, Paths.JoinPath(Paths.Render(h.moduleDir), "templates"))
  }

  const TEMPLATES_DIR := "TEMPLATES_DIR"

  /** Without `TEMPLATES_DIR` and without the container layout, templates come from the
      `templates` directory next to `main.py`. */
  lemma TemplatesDirFallback(h: Host)
    requires Resolved(h)
    requires TEMPLATES_DIR !in h.env
    requires Paths.Resolve(h.cwd, DOCKER_TEMPLATES) !in h.fs.files
    requires Paths.Resolve(h.cwd, DOCKER_TEMPLATES) !in h.fs.dirs
    ensures TemplatesDir(h) == h.moduleDir + ["templates"]
  {
    BesideModule(h.cwd, h.moduleDir);
  }

  lemma BesideModule(cwd: seq<string>, moduleDir: seq<string>)
    requires Paths.AllNames(cwd) && Paths.AllNames(moduleDir)
    ensures Paths.Resolve(cwd, Paths.JoinPath(Paths.Render(moduleDir), "templates")) == moduleDir + ["templates"]
  {
    Paths.ResolveJoin(cwd, moduleDir, "templates");
    Paths.SplitNoSepSegments("templates");
    Paths.NormalizeNames(moduleDir, ["templates"]);
  }

  /** A non-empty `TEMPLATES_DIR` wins, resolved from the working directory, whatever the
      file system holds (`/app/app/templates` included). */
  lemma TemplatesDirFromEnv(h: Host, fs: FileSystem)
    requires Resolved(h)
    requires TEMPLATES_DIR in h.env && h.env[TEMPLATES_DIR] != ""
    ensures TemplatesDir(h) == Paths.Resolve(h.cwd, h.env[TEMPLATES_DIR])
    ensures TemplatesDir(h.(fs := fs)) == TemplatesDir(h)
  {
  }

  /** Without a non-empty `TEMPLATES_DIR`, an existing `/app/app/templates` wins over the
      directory beside `main.py`, whatever the working directory. */
  lemma TemplatesDirDocker(h: Host)
    requires Resolved(h)
    requires TEMPLATES_DIR !in h.env || h.env[TEMPLATES_DIR] == ""
    requires ["app", "app", "templates"] in h.fs.files || ["app", "app", "templates"] in h.fs.dirs
    ensures TemplatesDir(h) == ["app", "app", "templates"]
  {
    DockerTemplates(h.cwd);
  }

  /** `/app/app/templates` is absolute: it resolves to the same place from any directory. */
  lemma DockerTemplates(cwd: seq<string>)
    requires Paths.AllNames(cwd)
    ensures Paths.Resolve(cwd, DOCKER_TEMPLATES) == ["app", "app", "templates"]
  {
    assert Paths.Render(["app", "app", "templates"]) == DOCKER_TEMPLATES;
    Paths.ResolveRender(cwd, ["app", "app", "templates"]);
  }

  /** An empty `TEMPLATES_DIR` counts as unset. */
  lemma TemplatesDirEmptyEnv(h: Host)
    requires Resolved(h)
    requires TEMPLATES_DIR in h.env && h.env[TEMPLATES_DIR] == ""
    ensures TemplatesDir(h) == TemplatesDir(h.(env := h.env - {TEMPLATES_DIR}))
  {
  }

  /** `read_text()`'s universal newlines: `\r\n` and a lone `\r` both become `\n`. */
  function Newlines(s: string): (r: string)
    ensures '\r' !in r
    ensures '\r' !in s ==> r == s
    ensures |r| <= |s|
  {
    if s == [] then []
    else if s[0] == '\r' then
      "\n" + Newlines(if |s| > 1 && s[1] == '\n' then s[2..] else s[1..])
    else
      assert '\r' !in s ==> '\r' !in s[1..] by {
        forall k | 0 <= k < |s[1..]| ensures '\r' !in s ==> s[1..][k] != '\r' {
          assert s[1..][k] == s[k + 1] && s[k + 1] in s;
        }
      }
      [s[0]] + Newlines(s[1..])
  }

  /** The file `render_template(filename)` looks up: only the last component of `filename`
      (`Path(filename).name`), placed in the templates directory and resolved. */
  function TemplatePath(tdir: seq<string>, cwd: seq<string>, filename: string): seq<string>
    requires Paths.AllNames(tdir) && Paths.AllNames(cwd)
  {
    Paths.Resolve(cwd, Paths.JoinPath(Paths.Render(tdir), Paths.Name(filename)))
  }

  /** Whatever `filename` holds (absolute paths and `../` included), the lookup stays in the
      templates directory: a file directly inside it, the directory itself (empty name), or
      its parent (a name equal to `..`). */
  lemma TemplatePathConfined(tdir: seq<string>, cwd: seq<string>, filename: string)
    requires Paths.AllNames(tdir) && Paths.AllNames(cwd)
    ensures var n := Paths.Name(filename);
      TemplatePath(tdir, cwd, filename) ==
        if n == "" then tdir
        else if n == ".." then (if tdir == [] then [] else tdir[..|tdir| - 1])
        else tdir + [n]
  {
    var n := Paths.Name(filename);
    Paths.ResolveJoin(cwd, tdir, n);
    Paths.SplitNoSepSegments(n);
    assert [n][1..] == [];
  }

  /** What `render_template(filename)` sends: 404 `Template não encontrado` when the path is not
      a file; the text, newline-translated and re-encoded, when it decodes as UTF-8; otherwise
      the `UnicodeDecodeError` of `read_text` escapes and nothing is sent. */
  function RenderPlan(tdir: seq<string>, fs: FileSystem, cwd: seq<string>, filename: string): Plan
    requires Paths.AllNames(tdir) && Paths.AllNames(cwd)
  {
    var path := TemplatePath(tdir, cwd, filename);
    if path !in fs.files then Plan([SendError(404, TEMPLATE_NOT_FOUND)], None)
    else match Utf8.Decode(fs.files[path])
      case None => Plan([], Some(Exception(UnicodeDecodeError, "invalid utf-8")))
      case Some(text) => Plan(Answer(Int(200), HTML, Utf8.Encode(Newlines(text))), None)
  }

  /** A template that is valid UTF-8 without carriage returns is sent byte for byte. */
  lemma RenderVerbatim(tdir: seq<string>, fs: FileSystem, cwd: seq<string>, filename: string)
    requires Paths.AllNames(tdir) && Paths.AllNames(cwd)
    requires var path := TemplatePath(tdir, cwd, filename);
      path in fs.files && Utf8.Decode(fs.files[path]).Some? && '\r' !in Utf8.Decode(fs.files[path]).value
    ensures RenderPlan(tdir, fs, cwd, filename) ==
            Plan(Answer(Int(200), HTML, fs.files[TemplatePath(tdir, cwd, filename)]), None)
  {
    Utf8.EncodeDecode(fs.files[TemplatePath(tdir, cwd, filename)]);
  }

  /** `render_template` answers 404 exactly when the looked-up path is not a file, and raises
      only on a file that is not UTF-8. */
  lemma RenderOutcomes(tdir: seq<string>, fs: FileSystem, cwd: seq<string>, filename: string)
    requires Paths.AllNames(tdir) && Paths.AllNames(cwd)
    ensures var p := RenderPlan(tdir, fs, cwd, filename);
      var path := TemplatePath(tdir, cwd, filename);
      (p.actions == [SendError(404, TEMPLATE_NOT_FOUND)] <==> path !in fs.files) &&
      (p.raised.Some? <==> path in fs.files && Utf8.Decode(fs.files[path]).None?)
  {
  }

  // ---------------------------------------------------------------------------------------
  // Static files

  /** `STATIC_ROOT.resolve()`: `app/static` beside `main.py`. */
  function StaticRoot(moduleDir: seq<string>): seq<string>
  {
    moduleDir + ["app", "static"]
  }

  /** The path without its `/static/` prefix. */
  function StaticRel(path: string): string
  {
    if StartsWith(path, STATIC_PREFIX) then path[|STATIC_PREFIX|..] else path
  }

  /** `(STATIC_ROOT / rel).resolve()`. */
  function Wanted(root: seq<string>, cwd: seq<string>, path: string): seq<string>
    requires Paths.AllNames(cwd)
  {
    Paths.Resolve(cwd, Paths.JoinPath(Paths.Render(root), StaticRel(path)))
  }

  /** `mime or 'application/octet-stream'`. */
  function MimeOrDefault(guess: Option<string>): (t: string)
    ensures t != ""
    ensures guess.Some? && guess.value != "" ==> t == guess.value
  {
    if guess.Some? && guess.value != "" then guess.value else OCTET_STREAM
  }

  /** Serve `wanted` when it is a file the containment test admits, else 404. */
  function ServeWanted(wanted: seq<string>, admitted: bool, fs: FileSystem,
                       guessType: string -> Option<string>): Plan
  {
    if wanted in fs.files && admitted then
      Plan(Answer(Int(200), MimeOrDefault(guessType(Paths.Render(wanted))), fs.files[wanted]), None)
    else Plan([SendError(404, STATIC_NOT_FOUND)], None)
  }

  /** `serve_static(path)` as written: its containment test is
      `str(wanted).startswith(str(root))`. */
  function StaticAsWritten(root: seq<string>, fs: FileSystem, cwd: seq<string>,
                           guessType: string -> Option<string>, path: string): Plan
    requires Paths.AllNames(cwd)
  {
    var wanted := Wanted(root, cwd, path);
    ServeWanted(wanted, Paths.StringInside(wanted, root), fs, guessType)
  }

  /** `serve_static(path)` with the containment its comments promise: the resolved path must
      be the static root or lie below it, component by component. */
  function StaticPlan(root: seq<string>, fs: FileSystem, cwd: seq<string>,
                      guessType: string -> Option<string>, path: string): Plan
    requires Paths.AllNames(cwd)
  {
    var wanted := Wanted(root, cwd, path);
    ServeWanted(wanted, Paths.Inside(wanted, root), fs, guessType)
  }

  /** A static file is served exactly when the resolved path is a file inside the root, and
      then with its own bytes; nothing outside the root is ever served. */
  lemma StaticConfined(root: seq<string>, fs: FileSystem, cwd: seq<string>,
                       guessType: string -> Option<string>, path: string)
    requires Paths.AllNames(cwd)
    ensures var p := StaticPlan(root, fs, cwd, guessType, path);
      var wanted := Wanted(root, cwd, path);
      (p.actions[0] == SendResponse(Int(200)) <==> wanted in fs.files && Paths.Inside(wanted, root)) &&
      (p.actions[0] == SendResponse(Int(200)) ==> p.actions[3] == Write(fs.files[wanted])) &&
      (p.actions[0] != SendResponse(Int(200)) ==> p == Plan([SendError(404, STATIC_NOT_FOUND)], None))
  {
  }

  /** The corrected test never refuses a file the written one would serve from inside the
      root: the two agree on every path that resolves inside it. */
  lemma StaticAgreesInside(root: seq<string>, fs: FileSystem, cwd: seq<string>,
                           guessType: string -> Option<string>, path: string)
    requires Paths.AllNames(cwd)
    requires Paths.Inside(Wanted(root, cwd, path), root)
    ensures StaticPlan(root, fs, cwd, guessType, path) == StaticAsWritten(root, fs, cwd, guessType, path)
  {
    Paths.InsideImpliesStringInside(Wanted(root, cwd, path), root);
  }

  /** A relative path without `..` always resolves inside the root. */
  lemma StaticNoDotDotInside(root: seq<string>, cwd: seq<string>, rel: string)
    requires Paths.AllNames(root) && Paths.AllNames(cwd)
    requires !Paths.IsAbsolute(rel)
    requires forall k :: 0 <= k < |Paths.Segments(rel)| ==> Paths.Segments(rel)[k] != ".."
    ensures Paths.Inside(Wanted(root, cwd, STATIC_PREFIX + rel), root)
  {
    StaticRelOf(rel);
    Paths.ResolveJoin(cwd, root, rel);
    Paths.NormalizeDescends(root, Paths.Segments(rel));
  }

  lemma StaticRelOf(rel: string)
    ensures StaticRel(STATIC_PREFIX + rel) == rel
  {
    assert (STATIC_PREFIX + rel)[..|STATIC_PREFIX|] == STATIC_PREFIX;
  }

  /** Where `/static/../static<suffix>/<file>` resolves: beside the static root, not in it. */
  lemma SiblingWanted(moduleDir: seq<string>, cwd: seq<string>, suffix: string, file: string)
    requires Paths.AllNames(moduleDir) && Paths.AllNames(cwd)
    requires Paths.IsName("static" + suffix) && Paths.IsName(file)
    ensures Wanted(StaticRoot(moduleDir), cwd, STATIC_PREFIX + ("../" + ("static" + suffix) + "/" + file)) ==
            moduleDir + ["app", "static" + suffix, file]
  {
    var root := StaticRoot(moduleDir);
    var sib := "static" + suffix;
    var rel := "../" + sib + "/" + file;
    StaticRelOf(rel);
    assert rel == ".." + "/" + sib + "/" + file;
    Paths.ResolveJoin(cwd, root, rel);
    Paths.SegmentsOfThree("..", sib, file);
    assert ["..", sib, file][1..] == [sib, file];
    assert root[..|root| - 1] == moduleDir + ["app"];
    Paths.NormalizeNames(moduleDir + ["app"], [sib, file]);
    assert moduleDir + ["app"] + [sib, file] == moduleDir + ["app", sib, file];
  }

  /** The written test lets a request climb out of `app/static` into a sibling directory whose
      name starts with `static`: `/static/../static<suffix>/<file>` serves
      `app/static<suffix>/<file>`. The corrected test refuses it. */
  lemma StaticAsWrittenAdmitsSibling(moduleDir: seq<string>, fs: FileSystem, cwd: seq<string>,
                                     guessType: string -> Option<string>, suffix: string, file: string)
    requires Paths.AllNames(moduleDir) && Paths.AllNames(cwd)
    requires Paths.IsName("static" + suffix) && suffix != "" && Paths.IsName(file)
    requires moduleDir + ["app", "static" + suffix, file] in fs.files
    ensures var path := STATIC_PREFIX + ("../" + ("static" + suffix) + "/" + file);
      var p := StaticAsWritten(StaticRoot(moduleDir), fs, cwd, guessType, path);
      p.actions[0] == SendResponse(Int(200)) &&
      p.actions[3] == Write(fs.files[moduleDir + ["app", "static" + suffix, file]]) &&
      StaticPlan(StaticRoot(moduleDir), fs, cwd, guessType, path) == Plan([SendError(404, STATIC_NOT_FOUND)], None)
  {
    var root := StaticRoot(moduleDir);
    var wanted := moduleDir + ["app", "static" + suffix, file];
    SiblingWanted(moduleDir, cwd, suffix, file);
    Paths.SiblingPrefix(moduleDir + ["app"], "static", suffix, file);
    assert moduleDir + ["app"] + ["static" + suffix, file] == wanted;
    assert moduleDir + ["app"] + ["static"] == root;
    assert !Paths.Inside(wanted, root) by {
      assert wanted[..|root|][|root| - 1] == "static" + suffix;
      assert |"static" + suffix| != |"static"|;
    }
  }

  // ---------------------------------------------------------------------------------------
  // Routing

  /** Where `do_GET` sends a request. */
  datatype Route = StaticFile(path: string) | Search(autor: string) | Index | Unknown

  /** The route of a request target, decided on the path `urlparse` extracts: `/static/…`,
      then any path starting with `/pesquisa` (its `autor` query value, `""` if absent), then
      exactly `/` or `/index`. */
  function RouteOf(target: string): Route
  {
    var parsed := Url.UrlParse(target);
    var path := parsed.path;
    if StartsWith(path, STATIC_PREFIX) then StaticFile(path)
    else if StartsWith(path, SEARCH_PREFIX) then Search(Url.FirstValue(Url.ParseQsl(parsed.query), AUTOR))
    else if path == "/" || path == "/index" then Index
    else Unknown
  }

  /** A search link built by percent-encoding the author reaches the search with the author
      exactly as typed. */
  lemma RouteSearch(autor: string)
    ensures RouteOf(SEARCH_PREFIX + "?" + (AUTOR + "=" + Url.Quote(autor))) == Search(autor)
  {
    var q := AUTOR + "=" + Url.Quote(autor);
    SearchPrefixFacts();
    Url.QuoteAlphabet(autor);
    assert '#' !in q by {
      forall k | 0 <= k < |q| ensures q[k] != '#' {
        if k >= |AUTOR| + 1 {
          assert q[k] == Url.Quote(autor)[k - |AUTOR| - 1];
        }
      }
    }
    Url.ParsePathQuery(SEARCH_PREFIX, q);
    assert StartsWith(SEARCH_PREFIX, SEARCH_PREFIX);
    Url.QueryRoundTrip(AUTOR, autor);
  }

  lemma SearchPrefixFacts()
    ensures '?' !in SEARCH_PREFIX && '#' !in SEARCH_PREFIX && ';' !in SEARCH_PREFIX
    ensures |SEARCH_PREFIX| >= 2 && SEARCH_PREFIX[0] == '/' && SEARCH_PREFIX[1] != '/'
    ensures !StartsWith(SEARCH_PREFIX, STATIC_PREFIX)
    ensures AUTOR != "" && '&' !in AUTOR && '=' !in AUTOR && '%' !in AUTOR && '+' !in AUTOR
  {
    assert SEARCH_PREFIX[..|STATIC_PREFIX|][1] != STATIC_PREFIX[1];
  }

  /** `/` and `/index` reach the index page; `/index.html` does not. */
  lemma RouteIndex()
    ensures RouteOf("/") == Index && RouteOf("/index") == Index
    ensures RouteOf("/index.html") == Unknown
  {
    Url.ParsePath("/");
    Url.ParsePath("/index");
    Url.ParsePath("/index.html");
    assert !StartsWith("/index.html", STATIC_PREFIX) by {
      assert "/index.html"[..|STATIC_PREFIX|][1] != STATIC_PREFIX[1];
    }
    assert !StartsWith("/index.html", SEARCH_PREFIX) by {
      assert "/index.html"[..|SEARCH_PREFIX|][1] != SEARCH_PREFIX[1];
    }
  }

  /** `/static/` and `/pesquisa` exclude each other, and neither `/` nor `/index` starts with
      either, so the order of the tests in `do_GET` only matters through its final `else`. */
  lemma PrefixesDisjoint(p: string)
    ensures StartsWith(p, SEARCH_PREFIX) ==> !StartsWith(p, STATIC_PREFIX)
    ensures !StartsWith("/", STATIC_PREFIX) && !StartsWith("/", SEARCH_PREFIX)
    ensures !StartsWith("/index", STATIC_PREFIX) && !StartsWith("/index", SEARCH_PREFIX)
  {
    if StartsWith(p, SEARCH_PREFIX) {
      assert p[1] == SEARCH_PREFIX[1];
      assert p[..|STATIC_PREFIX|][1] != STATIC_PREFIX[1];
    }
  }

  /** The route is decided by the path `urlparse` extracts alone, in four exclusive cases:
      `/static/…`; any path starting with `/pesquisa` (`/pesquisa` itself and `/pesquisaX`
      included); exactly `/` or `/index`; anything else. */
  lemma RouteCases(target: string)
    ensures var p := Url.UrlParse(target).path;
      (RouteOf(target) == StaticFile(p) <==> StartsWith(p, STATIC_PREFIX)) &&
      (RouteOf(target).Search? <==> StartsWith(p, SEARCH_PREFIX)) &&
      (RouteOf(target) == Index <==> p == "/" || p == "/index") &&
      (RouteOf(target) == Unknown <==>
         !StartsWith(p, STATIC_PREFIX) && !StartsWith(p, SEARCH_PREFIX) && p != "/" && p != "/index")
  {
    PrefixesDisjoint(Url.UrlParse(target).path);
  }

  /** The query string never changes which route a path takes: it only supplies the author of
      a search, which is `""` without a query. */
  lemma RouteIgnoresQuery(p: string, q: string)
    requires '?' !in p && '#' !in p && ';' !in p && '#' !in q
    requires |p| >= 2 ==> p[1] != '/'
    ensures RouteOf(p + "?" + q).Search? <==> RouteOf(p).Search?
    ensures !RouteOf(p).Search? ==> RouteOf(p + "?" + q) == RouteOf(p)
    ensures RouteOf(p).Search? ==>
      RouteOf(p) == Search("") && RouteOf(p + "?" + q) == Search(Url.FirstValue(Url.ParseQsl(q), AUTOR))
  {
    Url.ParsePathQuery(p, q);
    Url.ParsePath(p);
  }

  /** Every path that starts with `/pesquisa`, `/pesquisa` itself and `/pesquisaX` included,
      is a search; without a query the author is `""`. */
  lemma RouteSearchSuffix(suffix: string)
    requires '?' !in suffix && '#' !in suffix && ';' !in suffix
    ensures RouteOf(SEARCH_PREFIX + suffix) == Search("")
  {
    var p := SEARCH_PREFIX + suffix;
    SearchPrefixFacts();
    assert p[1] == SEARCH_PREFIX[1];
    assert '?' !in p && '#' !in p && ';' !in p by {
      forall k | 0 <= k < |p| ensures p[k] != '?' && p[k] != '#' && p[k] != ';' {
        if k < |SEARCH_PREFIX| {
          assert p[k] == SEARCH_PREFIX[k] && SEARCH_PREFIX[k] in SEARCH_PREFIX;
        } else {
          assert p[k] == suffix[k - |SEARCH_PREFIX|] && suffix[k - |SEARCH_PREFIX|] in suffix;
        }
      }
    }
    Url.ParsePath(p);
    assert p[..|SEARCH_PREFIX|] == SEARCH_PREFIX;
    RouteCases(p);
  }

  // ---------------------------------------------------------------------------------------
  // do_GET

  /** What `do_GET` sends for `target`, given what connecting does (`refusal`) and the
      database the search reaches. An exception from `listar_livro` escapes before anything
      is sent. */
  function Get(h: Host, target: string, refusal: Option<Exception>, db: Db.Database): Plan
    requires Resolved(h)
  {
    match RouteOf(target)
    case StaticFile(path) => StaticPlan(StaticRoot(h.moduleDir), h.fs, h.cwd, h.guessType, path)
    case Search(autor) =>
      (match Controller.Listar(refusal, db, autor)
       case Raised(e) => Plan([], Some(e))
       case Ok(v) => RespondPlan(v, Int(200), HTML))
    case Index => RenderPlan(TemplatesDir(h), h.fs, h.cwd, INDEX_TEMPLATE)
    case Unknown => Plan([SendError(404, PAGE_NOT_FOUND)], None)
  }

  /** End to end: searching for an author the database finds sends 200 with the page of the
      first book, as UTF-8. */
  lemma GetSearchFound(h: Host, db: Db.Database, autor: string, rows: seq<Db.Row>)
    requires Resolved(h)
    requires db(LivroDao.SQL, [Str(LivroDao.LikePattern(autor))]) == Db.Rows(rows)
    requires rows != [] && forall k :: 0 <= k < |rows| ==> |rows[k]| >= 3
    ensures Get(h, SEARCH_PREFIX + "?" + (AUTOR + "=" + Url.Quote(autor)), None, db) ==
            Plan(Answer(Int(200), HTML, Utf8.Encode(Views.ExibeLivro(rows[0][1], rows[0][2], rows[0][0]))), None)
  {
    RouteSearch(autor);
    Controller.ListarFound(db, autor, rows);
  }

  /** End to end: an author the database does not find, or a database error during the
      search, gives 404 with `Livro não encontrado` as the body. */
  lemma GetSearchNotFound(h: Host, db: Db.Database, autor: string)
    requires Resolved(h)
    requires var answer := db(LivroDao.SQL, [Str(LivroDao.LikePattern(autor))]);
      answer == Db.Rows([]) || (!answer.Rows? && answer.err.cls == DatabaseError)
    ensures Get(h, SEARCH_PREFIX + "?" + (AUTOR + "=" + Url.Quote(autor)), None, db) ==
            Plan(Answer(Int(404), HTML, Utf8.Encode(Controller.NOT_FOUND_TEXT)), None)
  {
    RouteSearch(autor);
    Controller.ListarNotFound(db, autor);
    RespondPairOrder(Controller.NOT_FOUND_TEXT, 404, Int(200), Int(200), HTML);
  }

  /** End to end: when the database refuses the connection, the error escapes `do_GET` and
      nothing is sent. */
  lemma GetSearchConnectFails(h: Host, db: Db.Database, autor: string, e: Exception)
    requires Resolved(h)
    ensures Get(h, SEARCH_PREFIX + "?" + (AUTOR + "=" + Url.Quote(autor)), Some(e), db) == Plan([], Some(e))
  {
    RouteSearch(autor);
  }

  /** Any path that is not a static file, not a search and neither `/` nor `/index` gets
      404 `Página não encontrada`, and nothing else is sent. */
  lemma GetUnknown(h: Host, target: string, refusal: Option<Exception>, db: Db.Database)
    requires Resolved(h)
    requires var p := Url.UrlParse(target).path;
      !StartsWith(p, STATIC_PREFIX) && !StartsWith(p, SEARCH_PREFIX) && p != "/" && p != "/index"
    ensures Get(h, target, refusal, db) == Plan([SendError(404, "P\U{E1}gina n\U{E3}o encontrada")], None)
  {
    RouteCases(target);
  }

  // ---------------------------------------------------------------------------------------
  // The handler

  /** One handler, for one request: `target` is `self.path`; `sent` records, in order,
      everything it has sent. */
  class BibliotecaMVCHandler {
    const target: string
    const host: Host
    const server: Db.Server
    var sent: seq<Action>

    constructor (target: string, host: Host, server: Db.Server)
      ensures this.target == target && this.host == host && this.server == server && sent == []
    {
      this.target := target;
      this.host := host;
      this.server := server;
      sent := [];
    }

    /** `respond(content, status, content_type)`. */
    method Respond(content: Value, status: Value, contentType: string) returns (o: Outcome)
      modifies this
      ensures sent == old(sent) + RespondPlan(content, status, contentType).actions
      ensures o == OutcomeOf(RespondPlan(content, status, contentType))
    {
      var body, code := content, status;
      if body.Tuple? {
        if |body.items| == 2 {
          var a, b := body.items[0], body.items[1];
          if IsInt(a) {
            code, body := a, b;
          } else {
            body, code := a, b;
          }
        } else if body.items == [] {
          o := Failed(Exception(IndexError, "tuple index out of range"));
          return;
        } else {
          body := body.items[0];
        }
      }
      if body.Str? {
        body := Bytes(Utf8.Encode(body.s));
      }
      sent := sent + [SendResponse(code)];
      sent := sent + [SendHeader(CONTENT_TYPE, contentType)];
      sent := sent + [EndHeaders];
      if !body.Bytes? {
        o := Failed(Exception(TypeError, "a bytes-like object is required"));
        return;
      }
      sent := sent + [Write(body.bs)];
      o := Done;
    }

    /** `render_template(filename)`. */
    method RenderTemplate(filename: string) returns (o: Outcome)
      requires Resolved(host)
      modifies this
      ensures var p := RenderPlan(TemplatesDir(host), host.fs, host.cwd, filename);
        sent == old(sent) + p.actions && o == OutcomeOf(p)
    {
      var templatesDir := TemplatesDir(host);
      var path := TemplatePath(templatesDir, host.cwd, filename);
      if path !in host.fs.files {
        sent := sent + [SendError(404, TEMPLATE_NOT_FOUND)];
        return Done;
      }
      var content := Utf8.Decode(host.fs.files[path]);
      if content.None? {
        return Failed(Exception(UnicodeDecodeError, "invalid utf-8"));
      }
      sent := sent + [SendResponse(Int(200))];
      sent := sent + [SendHeader(CONTENT_TYPE, HTML)];
      sent := sent + [EndHeaders];
      sent := sent + [Write(Utf8.Encode(Newlines(content.value)))];
      assert sent == old(sent) + Answer(Int(200), HTML, Utf8.Encode(Newlines(content.value)));
      o := Done;
    }

    /** `serve_static(path)`, with the containment test of `StaticPlan`. */
    method ServeStatic(path: string)
      requires Resolved(host)
      modifies this
      ensures sent == old(sent) + StaticPlan(StaticRoot(host.moduleDir), host.fs, host.cwd, host.guessType, path).actions
    {
      var rel := StaticRel(path);
      var root := StaticRoot(host.moduleDir);
      var wanted := Paths.Resolve(host.cwd, Paths.JoinPath(Paths.Render(root), rel));
      if wanted in host.fs.files && Paths.Inside(wanted, root) {
        sent := sent + [SendResponse(Int(200))];
        var mime := host.guessType(Paths.Render(wanted));
        sent := sent + [SendHeader(CONTENT_TYPE, MimeOrDefault(mime))];
        sent := sent + [EndHeaders];
        sent := sent + [Write(host.fs.files[wanted])];
        return;
      }
      sent := sent + [SendError(404, STATIC_NOT_FOUND)];
    }

    /** `do_GET()`. Only the search route connects to the database, and it connects once. */
    method DoGet() returns (o: Outcome)
      requires Resolved(host)
      modifies this, server
      ensures var p := Get(host, target, server.refuse(Db.ParamsFromEnv(host.env)), server.db);
        sent == old(sent) + p.actions && o == OutcomeOf(p)
      ensures RouteOf(target).Search? ==>
        server.attempts == old(server.attempts) + [Db.ParamsFromEnv(host.env)]
      ensures !RouteOf(target).Search? ==>
        server.attempts == old(server.attempts) && server.issued == old(server.issued)
    {
      var parsed := Url.UrlParse(target);
      var path := parsed.path;
      if StartsWith(path, STATIC_PREFIX) {
        ServeStatic(path);
        return Done;
      }
      if StartsWith(path, SEARCH_PREFIX) {
        var autor := Url.FirstValue(Url.ParseQsl(parsed.query), AUTOR);
        var html, _, _ := Controller.ListarLivro(autor, server, host.env);
        if html.Raised? {
          return Failed(html.exc);
        }
        o := Respond(html.value, Int(200), HTML);
        return;
      }
      if path == "/" || path == "/index" {
        o := RenderTemplate(INDEX_TEMPLATE);
        return;
      }
      sent := sent + [SendError(404, PAGE_NOT_FOUND)];
      o := Done;
    }
  }
}
