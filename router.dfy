/** The hand-written exact-match request multiplexer: a routing table from request path to
    handler, filled by Handle and consulted by ServeHTTP. */
module Router {
  import opened Http
  import opened Handlers

  /** http.StatusNotFound. */
  const StatusNotFound := 404

  const NotFoundText := "Page not found"

  /** []byte("Page not found"), byte by byte. */
  const NotFoundBody: seq<byte> := [80, 97, 103, 101, 32, 110, 111, 116, 32, 102, 111, 117, 110, 100]

  /** The not-found body is the not-found text, one byte per (ASCII) character. */
  lemma NotFoundBodyEncodesText()
    ensures |NotFoundBody| == |NotFoundText|
    ensures forall i :: 0 <= i < |NotFoundText| ==> NotFoundBody[i] as int == NotFoundText[i] as int
  {
  }

  /** What ServeHTTP does for `r` given the routing table `endpoints`. The path alone
      selects, by exact string equality; on a hit the stored handler serves the request
      and the multiplexer adds nothing of its own; on a miss no handler runs and the
      client receives status 404 and the fixed body. */
  function Dispatch(endpoints: map<string, Handler>, r: Request): (t: seq<Event>)
    ensures r.path in endpoints ==> t == endpoints[r.path].Output(r)
    ensures r.path in endpoints ==>
      Invoked(t) == [endpoints[r.path].Inner()] && Response(t) == [Ran(endpoints[r.path].Inner(), r)]
    ensures r.path !in endpoints ==>
      t == [Status(StatusNotFound), Bytes(NotFoundBody)] && Invoked(t) == [] && Logs(t) == []
  {
    if r.path in endpoints then
      OutputShape(endpoints[r.path], r);
      endpoints[r.path].Output(r)
    else
      var t := [Status(StatusNotFound), Bytes(NotFoundBody)];
      assert Invoked(t) == Invoked(t[1..]) && Logs(t) == Logs(t[1..]);
      t
  }

  /** One call of Handle(uri, handler), in the order the calls are made. */
  datatype Registration = Registration(uri: string, handler: Handler)

  /** The routing table after the given Handle calls on a new multiplexer. */
  function Registered(regs: seq<Registration>): (endpoints: map<string, Handler>)
    ensures endpoints.Keys == set i | 0 <= i < |regs| :: regs[i].uri
  {
    if regs == [] then map[]
    else
      var prefix, last := regs[..|regs| - 1], regs[|regs| - 1];
      assert (set i | 0 <= i < |regs| :: regs[i].uri)
          == (set i | 0 <= i < |prefix| :: prefix[i].uri) + {last.uri};
      Registered(prefix)[last.uri := last.handler]
  }

  /** Last registration wins: the table holds, for each path, the handler of the latest
      Handle call for that path, whatever else was registered before or after it. */
  lemma {:induction false} LastRegistrationWins(regs: seq<Registration>, i: nat)
    requires i < |regs|
    requires forall j :: i < j < |regs| ==> regs[j].uri != regs[i].uri
    ensures regs[i].uri in Registered(regs)
    ensures Registered(regs)[regs[i].uri] == regs[i].handler
  {
    if i < |regs| - 1 {
      var prefix := regs[..|regs| - 1];
      assert forall j :: i < j < |prefix| ==> prefix[j] == regs[j];
      LastRegistrationWins(prefix, i);
    }
  }

  /** A path that was never registered is not found, whatever was registered. */
  lemma NeverRegisteredIsNotFound(regs: seq<Registration>, r: Request)
    requires forall i :: 0 <= i < |regs| ==> regs[i].uri != r.path
    ensures Dispatch(Registered(regs), r) == [Status(StatusNotFound), Bytes(NotFoundBody)]
  {
  }

  /** Registering `uri` changes how no other path is served. */
  lemma HandleLeavesOtherRoutes(endpoints: map<string, Handler>, uri: string, h: Handler, r: Request)
    requires r.path != uri
    ensures Dispatch(endpoints[uri := h], r) == Dispatch(endpoints, r)
  {
  }

  /** Registering `uri` a second time replaces the first handler, without error and
      without growing the table. */
  lemma ReregistrationOverwrites(endpoints: map<string, Handler>, uri: string, h1: Handler, h2: Handler, r: Request)
    requires r.path == uri
    ensures endpoints[uri := h1][uri := h2] == endpoints[uri := h2]
    ensures |endpoints[uri := h1][uri := h2]| == |endpoints[uri := h1]|
    ensures Dispatch(endpoints[uri := h1][uri := h2], r) == h2.Output(r)
  {
    assert endpoints[uri := h1][uri := h2].Keys == endpoints[uri := h1].Keys;
  }

  /** Only the path takes part in matching: the query string and the method select
      nothing, so two requests for the same path run the same handler, print the same
      lines, or are both not found. */
  lemma OnlyThePathMatters(endpoints: map<string, Handler>, r1: Request, r2: Request)
    requires r1.path == r2.path
    ensures Invoked(Dispatch(endpoints, r1)) == Invoked(Dispatch(endpoints, r2))
    ensures Logs(Dispatch(endpoints, r1)) == Logs(Dispatch(endpoints, r2))
    ensures r1.path !in endpoints ==> Dispatch(endpoints, r1) == Dispatch(endpoints, r2)
  {
    if r1.path in endpoints {
      LoggerLinesIgnoreRequest(endpoints[r1.path], r1, r2);
    }
  }

  /** The only lines printed while a request is served are the logger layers' fixed line,
      so they do not depend on the request. */
  lemma LoggerLinesIgnoreRequest(h: Handler, r1: Request, r2: Request)
    ensures Logs(h.Output(r1)) == Logs(h.Output(r2))
  {
    OutputShape(h, r1);
    OutputShape(h, r2);
    var l1, l2 := Logs(h.Output(r1)), Logs(h.Output(r2));
    forall i | 0 <= i < |l1|
      ensures l1[i] == l2[i]
    {
      assert l1[i] in l1 && l2[i] in l2;
    }
  }

  /** Matching is exact: no trimming, case folding or trailing-slash handling, so a table
      holding only "/hello" finds none of these neighbours of it. "/hello?x=1" here is a
      path that itself contains a `?` (sent percent-encoded as %3F); a request for
      "/hello" with the query "x=1" has the path "/hello" and does match. These are
      instances of Dispatch's contract for a path not in the table. */
  lemma MatchingIsExact(h: Handler, r: Request)
    requires r.path in {"/hello/", "/Hello", "hello", " /hello", "/hello?x=1"}
    ensures Dispatch(map["/hello" := h], r) == [Status(StatusNotFound), Bytes(NotFoundBody)]
  {
    assert r.path != "/hello" by {
      assert |r.path| != 6 || r.path[0] != '/' || r.path[1] != 'h';
    }
  }

  /** Logging a route changes nothing the client receives from it, nor which handler
      runs. */
  lemma LoggedRouteServesTheSame(endpoints: map<string, Handler>, uri: string, h: Handler, r: Request)
    ensures Response(Dispatch(endpoints[uri := LoggerMiddleware(h)], r)) == Response(Dispatch(endpoints[uri := h], r))
    ensures Invoked(Dispatch(endpoints[uri := LoggerMiddleware(h)], r)) == Invoked(Dispatch(endpoints[uri := h], r))
  {
    if r.path == uri {
      LoggerIsTransparent(h, r);
    }
  }

  /** The multiplexer. Its read-write lock is not modelled: each locked region (the whole
      of Handle, the whole of ServeHTTP) is one atomic step. */
  class Multiplexer {
    var endpoints: map<string, Handler>

    /** NewMultiplexer: a multiplexer with an empty routing table. */
    constructor ()
      ensures endpoints == map[]
    {
      endpoints := map[];
    }

    /** Handle(uri, handler): inserts the route or overwrites it; every other path keeps
        its handler or stays absent. */
    method Handle(uri: string, handler: Handler)
      modifies this
      ensures endpoints == old(endpoints)[uri := handler]
      ensures uri in endpoints && endpoints[uri] == handler
      ensures forall p :: p != uri ==> (p in endpoints <==> p in old(endpoints))
      ensures forall p :: p != uri && p in endpoints ==> endpoints[p] == old(endpoints)[p]
      ensures |endpoints| == if uri in old(endpoints) then |old(endpoints)| else |old(endpoints)| + 1
    {
      endpoints := endpoints[uri := handler];
    }

    /** ServeHTTP(w, r): only reads the table, and does to `w` exactly what Dispatch
        says. */
    method ServeHTTP(w: Recorder, r: Request)
      modifies w
      ensures unchanged(this)
      ensures w.events == old(w.events) + Dispatch(endpoints, r)
    {
      ghost var before := w.events;
      if r.path in endpoints {
        var handler := endpoints[r.path];
        handler.ServeHTTP(w, r);
        assert Dispatch(endpoints, r) == handler.Output(r);
        return;
      }
      w.WriteHeader(StatusNotFound);
      w.Write(NotFoundBody);
      assert w.events == before + [Status(StatusNotFound), Bytes(NotFoundBody)];
    }
  }

  /** The multiplexer after NewMultiplexer and then the given Handle calls, in order, is
      the table Registered describes. */
  method Replay(regs: seq<Registration>) returns (mux: Multiplexer)
    ensures fresh(mux)
    ensures mux.endpoints == Registered(regs)
  {
    mux := new Multiplexer();
    for i := 0 to |regs|
      invariant mux.endpoints == Registered(regs[..i])
    {
      assert regs[..i + 1][..i] == regs[..i];
      mux.Handle(regs[i].uri, regs[i].handler);
    }
    assert regs[..|regs|] == regs;
  }

  /** Application handlers of the example routes. */
  const HealthHandler: HandlerId := 0
  const HelloHandler: HandlerId := 1

  /** The first routes main.go sets up: "/health" behind the logger, then "/hello". A
      request for "/health" carrying a query string is served by the health handler after
      one log line; a request for "/nope" is not found. */
  method ServeExampleRoutes() returns (health: seq<Event>, missing: seq<Event>)
    ensures health == [Printed(RequestLogMessage), Ran(HealthHandler, Request("GET", "/health", "verbose=1"))]
    ensures missing == [Status(StatusNotFound), Bytes(NotFoundBody)]
  {
    var mux := new Multiplexer();
    mux.Handle("/health", LoggerMiddleware(Func(HealthHandler)));
    mux.Handle("/hello", Func(HelloHandler));
    var w := new Recorder();
    mux.ServeHTTP(w, Request("GET", "/health", "verbose=1"));
    health := w.events;
    w := new Recorder();
    mux.ServeHTTP(w, Request("GET", "/nope", ""));
    missing := w.events;
  }
}
