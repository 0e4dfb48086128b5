/** The parts of net/http that the multiplexer touches: the request it routes on, and a
    record of everything observable while a request is served (what is written to the
    http.ResponseWriter, and the lines printed to the process's standard output, in one
    timeline so that their relative order can be stated). */
module Http {

  /** An octet, as in Go's []byte. */
  newtype byte = x: int | 0 <= x < 256

  /** What a handler receives of an *http.Request. `path` is r.URL.Path, which the URL
      parser has already split from the query string; `rawQuery` is r.URL.RawQuery. */
  datatype Request = Request(httpMethod: string, path: string, rawQuery: string)

  /** Names an application handler whose body is not part of this model (a closure given
      to http.HandlerFunc, a file or video server). */
  type HandlerId = nat

  datatype Event =
    | Status(code: int)                          // w.WriteHeader(code)
    | Bytes(data: seq<byte>)                     // w.Write(data)
    | Ran(handler: HandlerId, request: Request)  // application handler `handler` served `request`
    | Printed(line: string)                      // fmt.Println(line) to standard output

  /** What the client receives: every event except the printed log lines, in order. */
  function Response(t: seq<Event>): (rt: seq<Event>)
    ensures |rt| <= |t|
    ensures forall e :: e in rt <==> e in t && !e.Printed?
  {
    if t == [] then []
    else if t[0].Printed? then Response(t[1..])
    else [t[0]] + Response(t[1..])
  }

  /** The log lines printed, in order. */
  function Logs(t: seq<Event>): (lines: seq<string>)
    ensures |lines| + |Response(t)| == |t|
    ensures forall line :: line in lines <==> Printed(line) in t
  {
    if t == [] then []
    else if t[0].Printed? then [t[0].line] + Logs(t[1..])
    else Logs(t[1..])
  }

  /** The application handlers that ran, in order, once per run. */
  function Invoked(t: seq<Event>): (ids: seq<HandlerId>)
    ensures |ids| <= |Response(t)|
    ensures ids == [] <==> forall e :: e in t ==> !e.Ran?
  {
    if t == [] then []
    else if t[0].Ran? then [t[0].handler] + Invoked(t[1..])
    else Invoked(t[1..])
  }

  /** Each projection of a trace that happens in two parts is the two parts'
      projections, one after the other. */
  lemma {:induction false} ResponseDistributes(a: seq<Event>, b: seq<Event>)
    ensures Response(a + b) == Response(a) + Response(b)
  {
    if a != [] {
      assert (a + b)[0] == a[0] && (a + b)[1..] == a[1..] + b;
      ResponseDistributes(a[1..], b);
      if a[0].Printed? {
        assert Response(a + b) == Response(a[1..] + b);
        assert Response(a) == Response(a[1..]);
      } else {
        assert Response(a + b) == [a[0]] + Response(a[1..] + b);
        assert Response(a) == [a[0]] + Response(a[1..]);
      }
    } else {
      assert a + b == b;
    }
  }

  lemma {:induction false} LogsDistribute(a: seq<Event>, b: seq<Event>)
    ensures Logs(a + b) == Logs(a) + Logs(b)
  {
    if a != [] {
      assert (a + b)[0] == a[0] && (a + b)[1..] == a[1..] + b;
      LogsDistribute(a[1..], b);
      if a[0].Printed? {
        assert Logs(a + b) == [a[0].line] + Logs(a[1..] + b);
        assert Logs(a) == [a[0].line] + Logs(a[1..]);
      } else {
        assert Logs(a + b) == Logs(a[1..] + b);
        assert Logs(a) == Logs(a[1..]);
      }
    } else {
      assert a + b == b;
    }
  }

  lemma {:induction false} InvokedDistributes(a: seq<Event>, b: seq<Event>)
    ensures Invoked(a + b) == Invoked(a) + Invoked(b)
  {
    if a != [] {
      assert (a + b)[0] == a[0] && (a + b)[1..] == a[1..] + b;
      InvokedDistributes(a[1..], b);
    } else {
      assert a + b == b;
    }
  }

  /** Records, in order, what is done to one http.ResponseWriter while one request is
      served, together with the lines printed meanwhile. */
  class Recorder {
    var events: seq<Event>

    constructor ()
      ensures events == []
    {
      events := [];
    }

    method WriteHeader(code: int)
      modifies this
      ensures events == old(events) + [Status(code)]
    {
      events := events + [Status(code)];
    }

    method Write(data: seq<byte>)
      modifies this
      ensures events == old(events) + [Bytes(data)]
    {
      events := events + [Bytes(data)];
    }

    method Println(line: string)
      modifies this
      ensures events == old(events) + [Printed(line)]
    {
      events := events + [Printed(line)];
    }

    /** Application handler `id` serves `r` on this writer; what it writes is summed up
        in the one event. */
    method Run(id: HandlerId, r: Request)
      modifies this
      ensures events == old(events) + [Ran(id, r)]
    {
      events := events + [Ran(id, r)];
    }
  }
}
