/**
 * A sequence of `poll` calls on one `Oneshot`, as its executor makes them:
 * every call continues from the state the previous one left, and polling
 * stops once the state is `Done` (polling it again would panic). The code
 * does not move to `Done` on an error, so an executor that keeps polling
 * after an error outcome is modelled too.
 */
module OneshotPolls {
  import opened Task
  import opened ServiceOracle
  import opened Oneshot

  /** What `n` successive polls produce: their outputs, the final state, the interactions made. */
  datatype Run<!Req, Resp, E> =
    Run(outputs: seq<Poll<Result<Resp, E>>>, last: State<Req, Resp, E>, events: seq<Event<Req, Resp, E>>)

  /** Poll the adapter in state `s` up to `n` times, stopping early once it is `Done`. */
  function Polls<Req, Resp, E>(s: State<Req, Resp, E>, n: nat): (r: Run<Req, Resp, E>)
    requires SlotFilled(s)
    ensures SlotFilled(r.last)
    ensures |r.outputs| <= n
    decreases n
  {
    if n == 0 || s.Done? then Run([], s, [])
    else
      DriveAdvances(s);
      var d := Drive(s);
      var rest := Polls(d.next, n - 1);
      Run([d.out] + rest.outputs, rest.last, d.events + rest.events)
  }

  /**
   * Over any number of polls the state only moves forward, never back to
   * `NotReady`, and while it stays `NotReady` the request stays in its slot.
   */
  lemma {:induction false} PollsAdvance<Req, Resp, E>(s: State<Req, Resp, E>, n: nat)
    requires SlotFilled(s)
    ensures Rank(Polls(s, n).last) <= Rank(s)
    ensures Polls(s, n).last.NotReady? ==> s.NotReady? && Polls(s, n).last.req == s.req
    decreases n
  {
    if n > 0 && !s.Done? {
      DriveAdvances(s);
      PollsAdvance(Drive(s).next, n - 1);
    }
  }

  /**
   * Over any number of polls the service is called at most once, and it has
   * been called exactly when the state has left `NotReady`.
   */
  lemma {:induction false} PollsCallOnce<Req, Resp, E>(s: State<Req, Resp, E>, n: nat)
    requires SlotFilled(s)
    ensures Calls(Polls(s, n).events) == (if s.NotReady? && !Polls(s, n).last.NotReady? then 1 else 0)
    decreases n
  {
    if n > 0 && !s.Done? {
      DriveAdvances(s);
      var d := Drive(s);
      var rest := Polls(d.next, n - 1);
      PollsCallOnce(d.next, n - 1);
      PollsAdvance(d.next, n - 1);
      DriveThenCallOnce(s, rest.events, rest.last);
    }
  }

  /** One poll followed by interactions `b` that call the service once exactly when they leave `NotReady`. */
  lemma DriveThenCallOnce<Req, Resp, E>(s: State<Req, Resp, E>, b: seq<Event<Req, Resp, E>>, last: State<Req, Resp, E>)
    requires MayPoll(s)
    requires Calls(b) == (if Drive(s).next.NotReady? && !last.NotReady? then 1 else 0)
    requires last.NotReady? ==> Drive(s).next.NotReady?
    ensures Calls(Drive(s).events + b) == (if s.NotReady? && !last.NotReady? then 1 else 0)
  {
    DriveAdvances(s);
    DriveCallsOnce(s);
    CallsAppend(Drive(s).events, b);
  }

  /**
   * Joining the interactions of one poll (from `s` to `t`) with those of
   * the later polls keeps every call right after a successful readiness
   * check and made with the request held by `s`.
   */
  lemma CallsAfterReadyJoin<Req, Resp, E>(
    a: seq<Event<Req, Resp, E>>, b: seq<Event<Req, Resp, E>>, s: State<Req, Resp, E>, t: State<Req, Resp, E>)
    requires t.NotReady? ==> s.NotReady? && t.req == s.req
    requires a != [] && !a[0].Invoked? && CallsFollowReady(a)
    requires CallsWith(a, Slot(s))
    requires (b != [] ==> !b[0].Invoked?) && CallsFollowReady(b)
    requires CallsWith(b, Slot(t))
    ensures !(a + b)[0].Invoked? && CallsFollowReady(a + b)
    ensures CallsWith(a + b, Slot(s))
  {
    CallsFollowReadyAppend(a, b);
    forall i | 0 <= i < |a + b| && (a + b)[i].Invoked?
      ensures Slot(s) == Some((a + b)[i].request)
    {
      if i >= |a| {
        assert (a + b)[i] == b[i - |a|];
      }
    }
  }

  /** One poll followed by interactions `b` that keep the call discipline from its new state. */
  lemma DriveThenCallsAfterReady<Req, Resp, E>(s: State<Req, Resp, E>, b: seq<Event<Req, Resp, E>>)
    requires MayPoll(s)
    requires (b != [] ==> !b[0].Invoked?) && CallsFollowReady(b) && CallsWith(b, Slot(Drive(s).next))
    ensures var all := Drive(s).events + b;
            !all[0].Invoked? && CallsFollowReady(all) && CallsWith(all, Slot(s))
  {
    DriveAdvances(s);
    DriveCallsOnce(s);
    CallsAfterReadyJoin(Drive(s).events, b, s, Drive(s).next);
  }

  /**
   * Over any number of polls every call of the service comes right after a
   * readiness check that succeeded, and is made with the request that was
   * in the slot.
   */
  lemma {:induction false} PollsCallAfterReady<Req, Resp, E>(s: State<Req, Resp, E>, n: nat)
    requires SlotFilled(s)
    ensures var r := Polls(s, n);
            && (r.events != [] ==> !r.events[0].Invoked?)
            && CallsFollowReady(r.events)
            && CallsWith(r.events, Slot(s))
    decreases n
  {
    if n > 0 && !s.Done? {
      DriveAdvances(s);
      var d := Drive(s);
      var rest := Polls(d.next, n - 1);
      assert Polls(s, n).events == d.events + rest.events;
      PollsCallAfterReady(d.next, n - 1);
      DriveThenCallsAfterReady(s, rest.events);
    }
  }

  /**
   * Over any number of polls at most one output is a success: it is the
   * last one, and the adapter is then `Done`; conversely the adapter only
   * becomes `Done` by returning a success.
   */
  lemma {:induction false} PollsSucceedOnce<Req, Resp, E>(s: State<Req, Resp, E>, n: nat)
    requires SlotFilled(s)
    ensures var r := Polls(s, n);
            && (forall i :: 0 <= i < |r.outputs| && IsSuccess(r.outputs[i]) ==>
                  i == |r.outputs| - 1 && r.last.Done?)
            && (r.last.Done? && !s.Done? ==> r.outputs != [] && IsSuccess(r.outputs[|r.outputs| - 1]))
    decreases n
  {
    if n > 0 && !s.Done? {
      DriveAdvances(s);
      DriveReports(s);
      var d := Drive(s);
      var rest := Polls(d.next, n - 1);
      PollsSucceedOnce(d.next, n - 1);
      var r := Polls(s, n);
      assert r.outputs == [d.out] + rest.outputs;
      if d.next.Done? {
        assert rest.outputs == [];
      }
    }
  }

  /** A readiness script that answers `Pending` `k` times, then ready. */
  function PendingThenReady<E>(k: nat): (script: seq<Poll<Result<(), E>>>)
    ensures |script| == k + 1 && IsSuccess(script[k])
    ensures forall i :: 0 <= i < k ==> script[i].Pending?
  {
    if k == 0 then [Ready(Ok(()))] else [Pending] + PendingThenReady(k - 1)
  }

  /** `k` pending outputs. */
  function Pendings<T>(k: nat): (ps: seq<Poll<T>>)
    ensures |ps| == k && forall i :: 0 <= i < k ==> ps[i].Pending?
  {
    if k == 0 then [] else [Pending] + Pendings(k - 1)
  }

  /** Not ready `k` times, then a response that succeeds at once: the outputs and the final state. */
  lemma {:induction false} PendingThenSuccessOutputs<Req, Resp, E>(
    respond: Req -> ResponseFuture<Resp, E>, req: Req, v: Resp, k: nat)
    requires respond(req).script != [] && respond(req).script[0] == Ready(Ok(v))
    ensures var r := Polls(NotReady(Service(PendingThenReady(k), respond), Some(req)), k + 1);
            r.outputs == Pendings(k) + [Ready(Ok(v))] && r.last.Done?
  {
    var s := NotReady(Service(PendingThenReady(k), respond), Some(req));
    if k == 0 {
      assert PollReady(s.svc).0 == Ready(Ok(()));
      PollNotReadyOk(s.svc, req);
      PollCalled<Req, Resp, E>(respond(req));
    } else {
      var next := NotReady(Service(PendingThenReady(k - 1), respond), Some(req));
      assert PollReady(s.svc) == (Pending, next.svc);
      assert Drive(s) == Outcome(Pending, next, [ReadyPolled(Pending)]);
      PendingThenSuccessOutputs(respond, req, v, k - 1);
      assert Pendings<Result<Resp, E>>(k) == [Pending] + Pendings(k - 1);
    }
  }

  /**
   * A service that is not ready `k` times and then ready, whose response to
   * `req` succeeds at once with `v`: the first `k` polls return `Pending`,
   * poll `k + 1` returns `Ready(Ok(v))` and finishes, and the service is
   * called once, with `req`.
   */
  lemma PollsPendingThenSuccess<Req, Resp, E>(
    respond: Req -> ResponseFuture<Resp, E>, req: Req, v: Resp, k: nat)
    requires respond(req).script != [] && respond(req).script[0] == Ready(Ok(v))
    ensures var r := Polls(NotReady(Service(PendingThenReady(k), respond), Some(req)), k + 1);
            && r.outputs == Pendings(k) + [Ready(Ok(v))]
            && r.last.Done?
            && Calls(r.events) == 1
            && forall i :: 0 <= i < |r.events| && r.events[i].Invoked? ==> r.events[i].request == req
  {
    var s := NotReady(Service(PendingThenReady(k), respond), Some(req));
    PendingThenSuccessOutputs(respond, req, v, k);
    PollsCallOnce(s, k + 1);
    PollsCallAfterReady(s, k + 1);
  }
}
