/**
 * The external `Service` and the future its `call` returns, as scripted oracles.
 *
 * Neither is part of the adapter: they are foreign code whose only observable
 * behaviour, from the adapter's side, is the sequence of poll outcomes they
 * report. Each is a value that carries the outcomes still to come; polling it
 * yields the next outcome together with the oracle advanced past it. A script
 * that has run out keeps answering `Pending`, as a collaborator that never
 * wakes the task again would.
 */
module ServiceOracle {
  import opened Task

  /** `S::Future`: successive polls report the entries of `script`. */
  datatype ResponseFuture<Resp, E> = ResponseFuture(script: seq<Poll<Result<Resp, E>>>)

  /** `Future::poll` on the response future: the next outcome and the future after it. */
  function PollFuture<Resp, E>(f: ResponseFuture<Resp, E>): (Poll<Result<Resp, E>>, ResponseFuture<Resp, E>)
  {
    if f.script == [] then (Pending, f) else (f.script[0], ResponseFuture(f.script[1..]))
  }

  /**
   * A `Service<Req>`: `readiness` scripts the answers of `poll_ready`, and
   * `respond` gives the future that `call` returns for each request.
   */
  datatype Service<!Req, Resp, E> = Service(
    readiness: seq<Poll<Result<(), E>>>,
    respond: Req -> ResponseFuture<Resp, E>)

  /** `Service::poll_ready`: the next readiness outcome and the service after it. */
  function PollReady<Req, Resp, E>(svc: Service<Req, Resp, E>): (Poll<Result<(), E>>, Service<Req, Resp, E>)
  {
    if svc.readiness == [] then (Pending, svc)
    else (svc.readiness[0], svc.(readiness := svc.readiness[1..]))
  }

  /** `Service::call`: the response future for `req`. */
  function Call<Req, Resp, E>(svc: Service<Req, Resp, E>, req: Req): ResponseFuture<Resp, E>
  {
    svc.respond(req)
  }
}
