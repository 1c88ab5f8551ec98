/**
 * Three concrete runs of `Oneshot`, with integer requests, integer
 * responses and string errors.
 */
module OneshotScenarios {
  import opened Task
  import opened ServiceOracle
  import opened Oneshot
  import opened OneshotPolls

  /** A service whose readiness checks answer `readiness` and whose response to `r` is `r * 10` at once. */
  function Multiplier(readiness: seq<Poll<Result<(), string>>>): Service<int, int, string>
  {
    Service(readiness, (r: int) => ResponseFuture([Ready(Ok(r * 10))]))
  }

  /** A service whose readiness checks answer `readiness` and whose response to any request fails with `e` at once. */
  function Failing(readiness: seq<Poll<Result<(), string>>>, e: string): Service<int, int, string>
  {
    Service(readiness, (r: int) => ResponseFuture([Ready(Err(e))]))
  }

  /** Ready at once, and the call succeeds: one poll returns the response and finishes. */
  lemma ReadyAtOnceSucceeds(req: int)
    ensures var d := Drive(NotReady(Multiplier([Ready(Ok(()))]), Some(req)));
            && d.out == Ready(Ok(req * 10))
            && d.next == Done
            && d.events == [ReadyPolled(Ready(Ok(()))), Invoked(req), FuturePolled(Ready(Ok(req * 10)))]
  {
    var svc := Multiplier([Ready(Ok(()))]);
    PollNotReadyOk(svc, req);
    PollCalled<int, int, string>(Call(PollReady(svc).1, req));
  }

  /**
   * Not ready once, then ready, and the call fails with "E": the first poll
   * returns `Pending`, the second returns the error, and the adapter stays
   * `Called` holding the spent future, because the code does not move to
   * `Done` on an error.
   */
  lemma PendingThenCallFails(req: int)
    ensures var r := Polls(NotReady(Failing([Pending, Ready(Ok(()))], "E"), Some(req)), 2);
            && r.outputs == [Pending, Ready(Err("E"))]
            && r.last == State<int, int, string>.Called(ResponseFuture([]))
            && Calls(r.events) == 1
  {
    var svc := Failing([Pending, Ready(Ok(()))], "E");
    var s := NotReady(svc, Some(req));
    PollNotReadyPending(svc, Some(req));
    var s' := NotReady(PollReady(svc).1, Some(req));
    PollNotReadyOk(s'.svc, req);
    PollCalled<int, int, string>(ResponseFuture([Ready(Err("E"))]));
    PollsCallOnce(s, 2);
  }

  /**
   * The readiness check fails with "F": the poll returns that error, the
   * service is never called, and the request is still in its slot.
   */
  lemma ReadinessFails(req: int)
    ensures var d := Drive(NotReady(Multiplier([Ready(Err("F"))]), Some(req)));
            && d.out == Ready(Err("F"))
            && d.next == NotReady(Multiplier([]), Some(req))
            && Calls(d.events) == 0
  {
    PollNotReadyError(Multiplier([Ready(Err("F"))]), Some(req), "F");
    assert Multiplier([Ready(Err("F"))]).(readiness := []) == Multiplier([]);
  }

  /**
   * The same run as `PendingThenCallFails`, through the adapter object: the
   * contract of `Poll` alone fixes both outputs and the state left behind.
   */
  method PendingThenCallFailsInPlace(req: int) returns (first: Poll<Result<int, string>>, second: Poll<Result<int, string>>)
    ensures first == Pending && second == Ready(Err("E"))
  {
    var o := new Oneshot<int, int, string>(Failing([Pending, Ready(Ok(()))], "E"), req);
    PollNotReadyPending(o.state.svc, o.state.req);
    first := o.Poll();
    PollNotReadyOk(o.state.svc, req);
    PollCalled<int, int, string>(ResponseFuture([Ready(Err("E"))]));
    second := o.Poll();
    assert o.state == Called(ResponseFuture([]));
  }
}
