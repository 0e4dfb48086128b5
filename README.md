# Exact-match request multiplexer, modelled in Dafny

The repository's HTTP servers route requests with a hand-written `multiplexer`. It is
defined twice, identically, in `main.go` and in `server.go`. It is a routing table from
request path to `http.Handler`:

- `Handle(uri, handler)` inserts a route or overwrites an existing one.
- `ServeHTTP(w, r)` looks up `r.URL.Path` by exact string equality.
  - On a hit it hands `w` and `r` to the stored handler and writes nothing of its own.
  - On a miss it writes status 404 and the body `Page not found`.

`main.go` also has `loggerMiddleware`. It wraps a handler so that each request prints
`I got a request` and is then passed on to the wrapped handler. `server.go` installs the
connection-context hook `modifyConnectionContext`, which returns the context it is given.

The model has four modules:

- `Http` (`http.dfy`) covers the request and the observable trace of serving one request.
  - `Request` holds the method, `r.URL.Path` and `r.URL.RawQuery`.
  - The class `Recorder` stands for the `http.ResponseWriter`. It records, in one timeline:
    - `WriteHeader` as `Status(code)`;
    - `Write` as `Bytes(data)`;
    - a run of an application handler as `Ran(id, request)`;
    - `fmt.Println` as `Printed(line)`.
  - The functions `Response`, `Logs` and `Invoked` project a trace. They give what the
    client receives, what was printed, and which application handlers ran.
- `Handlers` (`handler.dfy`) covers the handler values the table stores.
  - A handler is either an application handler, known only by an id, or the closure that
    `loggerMiddleware` returns.
  - `Handler.Output` says what serving a request does. `Handler.ServeHTTP` does it on a
    `Recorder`.
- `Router` (`router.dfy`) covers the multiplexer itself. It is a class whose field
  `endpoints: map<string, Handler>` is the routing table.
  - `Handle` modifies the table.
  - `ServeHTTP` modifies only the recorder. It is specified by the function `Dispatch`.
  - Lemmas state the properties of registration and dispatch.
- `Connection` (`connection.dfy`) covers the connection-context hook.

`Handle` accepts any string, the empty one included (server.go:86-90), so the model puts no
requirement on `uri`.

## Model

| member | source | states |
|---|---|---|
| Router.Multiplexer.constructor | main.go:107-112 | `NewMultiplexer` returns a multiplexer whose routing table is empty |
| Router.Multiplexer.Handle | server.go:86-90 | after `Handle(uri, h)`, `uri` maps to `h`; every other path keeps its handler or stays absent; the table grows by one exactly when `uri` was new |
| Router.Multiplexer.ServeHTTP | server.go:74-84 | serving leaves the multiplexer, and so its table, unchanged, and appends to the writer exactly what `Dispatch` says for the current table |
| Router.Dispatch | main.go:114-124 | on a registered path: the output is exactly the stored handler's, so that handler's application handler runs once on the same request and the client receives only its output. On an unregistered path: no handler runs, nothing is logged, and the output is status 404 then the not-found body |
| Router.NotFoundBodyEncodesText | main.go:122-123 | the 404 body is the text `Page not found`, one byte per character |
| Router.Registered | server.go:89 | the paths in the table after a series of `Handle` calls are exactly the paths those calls named |
| Router.LastRegistrationWins | main.go:126-130 | after a series of `Handle` calls, each path maps to the handler of the latest call for it, whatever else was registered around it |
| Router.NeverRegisteredIsNotFound | server.go:82-83 | a path that no `Handle` call named gets status 404 and the not-found body, whatever the registrations |
| Router.HandleLeavesOtherRoutes | server.go:86-90 | registering one path does not change how any other path is served |
| Router.ReregistrationOverwrites | main.go:129 | registering a path twice leaves the table as if only the second call had been made, without growing it, and the path is then served by the second handler only |
| Router.OnlyThePathMatters | main.go:118 | two requests with the same path and a different query string or method run the same application handler and print the same logger lines, or are both not found with identical output |
| Router.LoggerLinesIgnoreRequest | main.go:135 | the lines printed while a request is served are the logger layers' fixed `I got a request` line, so they are the same whatever the request |
| Router.MatchingIsExact | server.go:78 | a table holding `/hello` does not match the paths `/hello/`, `/Hello`, `hello`, ` /hello` or a path containing a literal `?` (percent-encoded `%3F`) such as `/hello?x=1`: no trimming, case folding or slash handling. These are instances of `Dispatch`'s contract for an absent path |
| Router.Replay | server.go:67-90 | a new multiplexer followed by a series of `Handle` calls holds exactly the table `Registered` gives for those calls, so `LastRegistrationWins` and `NeverRegisteredIsNotFound` hold of the class |
| Router.LoggedRouteServesTheSame | main.go:24-28 | registering a path with the logger-wrapped handler gives the client the same response, and runs the same application handler, as registering the handler itself |
| Router.ServeExampleRoutes | main.go:22-33 | with the `/health` and `/hello` routes of `main`, `/health?verbose=1` prints one log line and then runs the health handler on that request; `/nope` gets 404 and the not-found body |
| Handlers.Handler.Output | main.go:133-137 | serving with a handler is one printed line per logger layer followed by the application handler's own run |
| Handlers.OutputShape | main.go:133-137 | whatever its logger layers, a handler runs its application handler exactly once, on the request it was given. The client receives only that handler's output, and one `I got a request` line is printed per logger layer |
| Handlers.Handler.ServeHTTP | main.go:134-137 | `handler.ServeHTTP(w, r)` appends exactly `Output(r)` to `w`; the logger closure prints its line before the wrapped handler does anything |
| Handlers.LoggerMiddleware | main.go:133-138 | the wrapped handler prints one log line and then behaves exactly as `next`, with the same application handler at its centre |
| Handlers.LoggerIsTransparent | main.go:133-137 | wrapping a handler leaves the client's response and the handlers that run unchanged, and adds exactly one log line, printed before all of the wrapped handler's lines |
| Connection.ModifyConnectionContext | server.go:93-95 | the hook returns the context it is given, whatever the connection |

## Left out

- The `sync.RWMutex` of both multiplexers (main.go:103, 115-116, 127-128; server.go:63, 75-76, 87-88) is left out. This is concurrency. Each locked region is one atomic step on the table.
- The `main` functions (main.go:11-99, server.go:11-59) are left out. They configure `http.Server`, call `ListenAndServe` and wire routes, which is process startup and I/O. `ServeExampleRoutes` replays only the first two `mux.Handle` calls of main.go.
- The file and video handlers (main.go:35-68) are left out. They do file-system and stream I/O with `os.Open`, `Stat`, `http.ServeContent` and `io.Copy`. Like every application handler, they are an opaque `Func(id)` whose output is summed up in one `Ran` event.
- The standard library's `http.NewServeMux`, `http.FileServer` and `http.StripPrefix` (main.go:13-20, server.go:13-18) are left out. Their code is in net/http, which is not part of this model.
- `handlers.go` is left out. `newHandlers` only registers one closure on a standard-library `ServeMux`.
- URL parsing that produces `r.URL.Path` is left out. The path and raw query are already-split fields of `Request`.
- Request headers and body are left out. The router never reads them, and handlers receive them untouched.
- `fmt.Println` is a `Printed(line)` event. Its trailing newline and the stdout stream are not modelled.
- The `(int, error)` results of `w.Write` are left out. The source ignores them.
- net/http's implicit status 200 on a first `Write` is left out.
- Response headers (`w.Header().Set`) are left out. They are used only by the file handlers.
- Application handlers are modelled as printing nothing: their whole effect is one `Ran` event. This holds for every handler this program registers (main.go:25-73, server.go:22-37); the only printing is loggerMiddleware's fixed line (main.go:135).
- A handler that panics is left out. The router does not catch failures, and the model's handlers always complete.
- Go's `loggerMiddleware` accepts only an `http.HandlerFunc`. The model lets it wrap any `Handler`, which includes that case.
