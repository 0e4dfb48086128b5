/** The ConnContext hook that server.go installs on its http.Server. */
module Connection {

  /** modifyConnectionContext(ctx, c): the context of a new connection is the server's
      base context itself, whatever the connection. */
  function ModifyConnectionContext<Context, Conn>(ctx: Context, c: Conn): (r: Context)
    ensures r == ctx
  {
    ctx
  }
}
