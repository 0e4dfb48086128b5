/** The http.Handler values the multiplexer stores: application handlers, and the closure
    that loggerMiddleware wraps around one. */
module Handlers {
  import opened Http

  /** The line loggerMiddleware prints for every request it sees. */
  const RequestLogMessage := "I got a request"

  datatype Handler =
    | Func(id: HandlerId)      // an application http.HandlerFunc
    | WithLogger(next: Handler) // the closure returned by loggerMiddleware(next)
  {
    /** The application handler at the centre of the logger layers. */
    function Inner(): HandlerId {
      match this
      case Func(id) => id
      case WithLogger(next) => next.Inner()
    }

    /** How many times loggerMiddleware wraps the application handler. */
    function Layers(): nat {
      match this
      case Func(_) => 0
      case WithLogger(next) => next.Layers() + 1
    }

    /** What serving `r` with this handler does, in order: each logger layer prints its
        line, then the application handler serves `r`. */
    function Output(r: Request): (t: seq<Event>)
      ensures |t| == Layers() + 1
    {
      match this
      case Func(id) => [Ran(id, r)]
      case WithLogger(next) => [Printed(RequestLogMessage)] + next.Output(r)
    }

    /** handler.ServeHTTP(w, r): an application handler serves the request; the logger
        closure prints its line and then hands the same writer and request to `next`. */
    method ServeHTTP(w: Recorder, r: Request)
      modifies w
      ensures w.events == old(w.events) + Output(r)
      decreases this
    {
      match this
      case Func(id) =>
        w.Run(id, r);
      case WithLogger(next) =>
        ghost var before := w.events;
        w.Println(RequestLogMessage);
        next.ServeHTTP(w, r);
        assert w.events == before + ([Printed(RequestLogMessage)] + next.Output(r));
    }
  }

  /** Whatever the layering, the client receives only what the application handler
      writes for `r`, that handler runs exactly once, on `r` itself, and one log line is
      printed per logger layer. */
  lemma {:induction false} OutputShape(h: Handler, r: Request)
    ensures Response(h.Output(r)) == [Ran(h.Inner(), r)]
    ensures Invoked(h.Output(r)) == [h.Inner()]
    ensures |Logs(h.Output(r))| == h.Layers()
    ensures forall line :: line in Logs(h.Output(r)) ==> line == RequestLogMessage
  {
    match h
    case Func(_) =>
    case WithLogger(next) =>
      OutputShape(next, r);
      ResponseDistributes([Printed(RequestLogMessage)], next.Output(r));
      LogsDistribute([Printed(RequestLogMessage)], next.Output(r));
      InvokedDistributes([Printed(RequestLogMessage)], next.Output(r));
  }

  /** loggerMiddleware(next): a handler that prints one log line and then passes control,
      unconditionally and once, to `next`. */
  function LoggerMiddleware(next: Handler): (h: Handler)
    ensures h.Inner() == next.Inner()
    ensures h.Layers() == next.Layers() + 1
    ensures forall r :: h.Output(r) == [Printed(RequestLogMessage)] + next.Output(r)
  {
    WithLogger(next)
  }

  /** Wrapping a handler in the logger leaves the client's response and the handlers run
      exactly as they were, and adds exactly one log line, printed before anything of the
      wrapped handler's. */
  lemma LoggerIsTransparent(next: Handler, r: Request)
    ensures Response(LoggerMiddleware(next).Output(r)) == Response(next.Output(r))
    ensures Invoked(LoggerMiddleware(next).Output(r)) == Invoked(next.Output(r))
    ensures Logs(LoggerMiddleware(next).Output(r)) == [RequestLogMessage] + Logs(next.Output(r))
  {
    ResponseDistributes([Printed(RequestLogMessage)], next.Output(r));
    LogsDistribute([Printed(RequestLogMessage)], next.Output(r));
    InvokedDistributes([Printed(RequestLogMessage)], next.Output(r));
  }
}
