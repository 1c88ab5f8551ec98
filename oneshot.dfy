/**
 * `Oneshot`: a future that owns a service and one request, waits until the
 * service is ready, calls it exactly once with the request, and then waits on
 * the future that call returned.
 *
 * `Step` is one pass through the body of `poll`'s loop and `Drive` is a whole
 * call of `poll`, as functions of the state; the class `Oneshot` holds the
 * state as a mutable field and its `Poll` method runs the loop, proved to
 * agree with `Drive`. The ghost `trace` records, in order, every interaction
 * with the service and its future, so that the call protocol (readiness
 * before the call, at most one call, always with the owned request) can be
 * stated as an invariant.
 */
module Oneshot {
  import opened Task
  import opened ServiceOracle

  /** `State<S, Req>`: waiting for readiness, waiting on the call's future, or finished. */
  datatype State<!Req, Resp, E> =
    | NotReady(svc: Service<Req, Resp, E>, req: Option<Req>)
    | Called(fut: ResponseFuture<Resp, E>)
    | Done

  /** One interaction of the adapter with its collaborators. */
  datatype Event<Req, Resp, E> =
    | ReadyPolled(readiness: Poll<Result<(), E>>)
    | Invoked(request: Req)
    | FuturePolled(outcome: Poll<Result<Resp, E>>)

  /** The state only ever moves down this rank: `NotReady`, then `Called`, then `Done`. */
  function Rank<Req, Resp, E>(s: State<Req, Resp, E>): nat
  {
    match s
    case NotReady(_, _) => 2
    case Called(_) => 1
    case Done => 0
  }

  /** A poll that reported success: a ready service, or a response. */
  predicate IsSuccess<T, E>(p: Poll<Result<T, E>>)
  {
    p.Ready? && p.value.Ok?
  }

  /** The request slot of `s`: the `Option<Req>` held while `NotReady`, and nothing after. */
  function Slot<Req, Resp, E>(s: State<Req, Resp, E>): Option<Req>
  {
    if s.NotReady? then s.req else None
  }

  /** A `NotReady` state still holds its request: the `Debug` impl's `unreachable!` arm is not reached. */
  predicate SlotFilled<Req, Resp, E>(s: State<Req, Resp, E>)
  {
    s.NotReady? ==> s.req.Some?
  }

  /** The number of `Service::call` invocations recorded in `events`. */
  function Calls<Req, Resp, E>(events: seq<Event<Req, Resp, E>>): nat
  {
    if events == [] then 0 else (if events[0].Invoked? then 1 else 0) + Calls(events[1..])
  }

  /** Every call is immediately preceded by a `poll_ready` that reported the service ready. */
  ghost predicate CallsFollowReady<Req, Resp, E>(events: seq<Event<Req, Resp, E>>)
  {
    forall i :: 0 <= i < |events| && events[i].Invoked? ==>
      0 < i && events[i - 1].ReadyPolled? && IsSuccess(events[i - 1].readiness)
  }

  /** Every call in `events` is made with the request in `slot`; with an empty slot there is no call. */
  ghost predicate CallsWith<Req, Resp, E>(events: seq<Event<Req, Resp, E>>, slot: Option<Req>)
  {
    forall i :: 0 <= i < |events| && events[i].Invoked? ==> slot == Some(events[i].request)
  }

  /**
   * `out` is exactly what the collaborator reported in `last`: a pending poll,
   * the future's own result, or the readiness error passed through unchanged.
   */
  ghost predicate Reports<Req, Resp, E>(last: Event<Req, Resp, E>, out: Poll<Result<Resp, E>>)
  {
    if out.Pending? then
      (last.ReadyPolled? && last.readiness.Pending?) || (last.FuturePolled? && last.outcome.Pending?)
    else
      (last.FuturePolled? && last.outcome == out) ||
      (last.ReadyPolled? && last.readiness.Ready? && last.readiness.value.Err? &&
       out == Ready(Err(last.readiness.value.error)))
  }

  /**
   * `poll` may run on `s` without panicking: not in `Done` ("polled after
   * complete"), and not in `NotReady` with an empty request slot once the
   * service reports ready ("already called").
   */
  predicate MayPoll<Req, Resp, E>(s: State<Req, Resp, E>)
  {
    match s
    case NotReady(svc, req) => IsSuccess(PollReady(svc).0) ==> req.Some?
    case Called(_) => true
    case Done => false
  }

  /** The result of one pass through the loop body: go round again, or return `out`. */
  datatype Iteration<!Req, Resp, E> =
    | Continue(next: State<Req, Resp, E>, events: seq<Event<Req, Resp, E>>)
    | Return(out: Poll<Result<Resp, E>>, next: State<Req, Resp, E>, events: seq<Event<Req, Resp, E>>)

  /**
   * One pass through the body of `poll`'s loop, from state `s`. The loop goes
   * round again only from `NotReady` to `Called`, so a second pass always
   * returns: `Rank` bounds the number of passes.
   */
  function Step<Req, Resp, E>(s: State<Req, Resp, E>): (r: Iteration<Req, Resp, E>)
    requires MayPoll(s)
    ensures r.Continue? ==> s.NotReady? && r.next.Called? && Rank(r.next) < Rank(s)
  {
    match s
    case NotReady(svc, req) =>
      var (ready, svc') := PollReady(svc);
      if ready.Pending? then Return(Pending, NotReady(svc', req), [ReadyPolled(ready)])
      else if ready.value.Err? then Return(Ready(Err(ready.value.error)), NotReady(svc', req), [ReadyPolled(ready)])
      else Continue(Called(Call(svc', req.value)), [ReadyPolled(ready), Invoked(req.value)])
    case Called(fut) =>
      var (polled, fut') := PollFuture(fut);
      if polled.Pending? then Return(Pending, Called(fut'), [FuturePolled(polled)])
      else if polled.value.Err? then Return(Ready(Err(polled.value.error)), Called(fut'), [FuturePolled(polled)])
      else Return(Ready(Ok(polled.value.value)), Done, [FuturePolled(polled)])
  }

  /** What one call of `poll` produces: its output, the new state, and the interactions made. */
  datatype Outcome<!Req, Resp, E> =
    Outcome(out: Poll<Result<Resp, E>>, next: State<Req, Resp, E>, events: seq<Event<Req, Resp, E>>)

  /** One call of `poll` from state `s`: the loop run until it returns. */
  function Drive<Req, Resp, E>(s: State<Req, Resp, E>): (r: Outcome<Req, Resp, E>)
    requires MayPoll(s)
    ensures Rank(r.next) <= Rank(s) && r.events != []
    decreases Rank(s)
  {
    match Step(s)
    case Return(out, next, events) => Outcome(out, next, events)
    case Continue(next, events) =>
      var rest := Drive(next);
      Outcome(rest.out, rest.next, events + rest.events)
  }

  /** A loop pass that returns ends the call of `poll` with that pass's result. */
  lemma DriveReturns<Req, Resp, E>(s: State<Req, Resp, E>, out: Poll<Result<Resp, E>>,
                                   next: State<Req, Resp, E>, events: seq<Event<Req, Resp, E>>)
    requires MayPoll(s) && Step(s) == Return(out, next, events)
    ensures Drive(s) == Outcome(out, next, events)
  {
  }

  /** A loop pass that goes round again leaves the rest of the call to the next pass. */
  lemma DriveContinues<Req, Resp, E>(s: State<Req, Resp, E>, next: State<Req, Resp, E>,
                                     events: seq<Event<Req, Resp, E>>)
    requires MayPoll(s) && Step(s) == Continue(next, events)
    ensures MayPoll(next)
    ensures Drive(s) == Outcome(Drive(next).out, Drive(next).next, events + Drive(next).events)
  {
  }

  /**
   * In `NotReady`, a pending readiness check makes `poll` return `Pending`
   * with the request slot as it was and the service not called; the slot
   * may even be empty, since `expect` is reached only once the service is ready.
   */
  lemma PollNotReadyPending<Req, Resp, E>(svc: Service<Req, Resp, E>, req: Option<Req>)
    requires PollReady(svc).0.Pending?
    ensures MayPoll(NotReady(svc, req))
    ensures Drive(NotReady(svc, req)) == Outcome(Pending, NotReady(PollReady(svc).1, req), [ReadyPolled(Pending)])
  {
  }

  /**
   * In `NotReady`, a readiness error is returned unchanged; the service is
   * not called, the request stays in its slot and the state stays `NotReady`.
   */
  lemma PollNotReadyError<Req, Resp, E>(svc: Service<Req, Resp, E>, req: Option<Req>, e: E)
    requires PollReady(svc).0 == Ready(Err(e))
    ensures MayPoll(NotReady(svc, req))
    ensures Drive(NotReady(svc, req)) ==
      Outcome(Ready(Err(e)), NotReady(PollReady(svc).1, req), [ReadyPolled(Ready(Err(e)))])
  {
  }

  /**
   * In `NotReady`, once the service is ready the request is taken from its
   * slot and passed to `call`, the state becomes `Called`, and the returned
   * future is polled in the same call of `poll`, exactly once.
   */
  lemma PollNotReadyOk<Req, Resp, E>(svc: Service<Req, Resp, E>, req: Req)
    requires IsSuccess(PollReady(svc).0)
    ensures MayPoll(NotReady(svc, Some(req)))
    ensures var d := Drive(NotReady(svc, Some(req)));
            var f := Call(PollReady(svc).1, req);
            var rest := Drive(State<Req, Resp, E>.Called(f));
            && d == Outcome(rest.out, rest.next, [ReadyPolled(PollReady(svc).0), Invoked(req)] + rest.events)
            && rest.events == [FuturePolled(PollFuture(f).0)]
  {
  }

  /**
   * In `Called`, a pending future leaves the state `Called`; a successful one
   * moves it to `Done` and its value is returned as is; an error is returned
   * as is and leaves the state `Called`.
   */
  lemma PollCalled<Req, Resp, E>(fut: ResponseFuture<Resp, E>)
    ensures MayPoll(State<Req, Resp, E>.Called(fut))
    ensures var d, (polled, fut') := Drive(State<Req, Resp, E>.Called(fut)), PollFuture(fut);
            && d.events == [FuturePolled(polled)]
            && (polled.Pending? ==> d.out.Pending? && d.next == Called(fut'))
            && (polled.Ready? && polled.value.Ok? ==> d.out == Ready(Ok(polled.value.value)) && d.next.Done?)
            && (polled.Ready? && polled.value.Err? ==> d.out == Ready(Err(polled.value.error)) && d.next == Called(fut'))
  {
  }

  /**
   * `poll` only moves the state forward, and leaves the request slot alone
   * unless it moves on from `NotReady`.
   */
  lemma DriveAdvances<Req, Resp, E>(s: State<Req, Resp, E>)
    requires MayPoll(s)
    ensures Rank(Drive(s).next) <= Rank(s)
    ensures Drive(s).next.NotReady? ==> s.NotReady? && Drive(s).next.req == s.req
  {
  }

  /**
   * `poll` calls the service at most once, exactly when it leaves `NotReady`,
   * always right after a readiness check that succeeded and always with the
   * request held in the slot.
   */
  lemma DriveCallsOnce<Req, Resp, E>(s: State<Req, Resp, E>)
    requires MayPoll(s)
    ensures var d := Drive(s);
            && Calls(d.events) == (if s.NotReady? && !d.next.NotReady? then 1 else 0)
            && d.events != [] && !d.events[0].Invoked? && CallsFollowReady(d.events)
            && CallsWith(d.events, Slot(s))
  {
    match Step(s)
    case Return(_, _, events) =>
    case Continue(next, events) =>
      var rest := Drive(next);
      assert events[1..] == [events[1]] && events[1..][1..] == [];
      CallsAppend(events, rest.events);
      CallsFollowReadyAppend(events, rest.events);
  }

  /**
   * `poll` finishes (`Done`) exactly when it returns a success, and what it
   * returns is exactly what the service or its future last reported: errors
   * from either are passed through unchanged.
   */
  lemma DriveReports<Req, Resp, E>(s: State<Req, Resp, E>)
    requires MayPoll(s)
    ensures Drive(s).next.Done? <==> IsSuccess(Drive(s).out)
    ensures Reports(Drive(s).events[|Drive(s).events| - 1], Drive(s).out)
  {
  }

  lemma {:induction false} CallsAppend<Req, Resp, E>(a: seq<Event<Req, Resp, E>>, b: seq<Event<Req, Resp, E>>)
    ensures Calls(a + b) == Calls(a) + Calls(b)
  {
    if a != [] {
      assert (a + b)[1..] == a[1..] + b;
      CallsAppend(a[1..], b);
    } else {
      assert a + b == b;
    }
  }

  lemma CallsFollowReadyAppend<Req, Resp, E>(a: seq<Event<Req, Resp, E>>, b: seq<Event<Req, Resp, E>>)
    requires CallsFollowReady(a) && CallsFollowReady(b)
    requires b != [] ==> !b[0].Invoked?
    ensures CallsFollowReady(a + b)
  {
    forall i | 0 <= i < |a + b| && (a + b)[i].Invoked?
      ensures 0 < i && (a + b)[i - 1].ReadyPolled? && IsSuccess((a + b)[i - 1].readiness)
    {
      if i >= |a| {
        assert (a + b)[i] == b[i - |a|];
        assert (a + b)[i - 1] == b[i - 1 - |a|];
      }
    }
  }

  /**
   * The `Debug` impl's variant names. A `NotReady` state with an empty slot
   * is `unreachable!()` there; the precondition says so, and `Oneshot.Valid`
   * guarantees it.
   */
  function DebugName<Req, Resp, E>(s: State<Req, Resp, E>): (name: string)
    requires SlotFilled(s)
    ensures name == "State::NotReady" <==> s.NotReady?
    ensures name == "State::Called" <==> s.Called?
    ensures name == "State::Done" <==> s.Done?
  {
    match s
    case NotReady(_, Some(_)) => "State::NotReady"
    case Called(_) => "State::Called"
    case Done => "State::Done"
  }

  /**
   * The ownership protocol, for a state `s` reached from a fresh adapter
   * built with `request` after the interactions `trace`: while `NotReady` the
   * slot still holds the request and the service has not been called;
   * afterwards it has been called exactly once, right after a successful
   * readiness check, and with that request.
   */
  ghost predicate Protocol<Req, Resp, E>(s: State<Req, Resp, E>, trace: seq<Event<Req, Resp, E>>, request: Req)
  {
    && (s.NotReady? ==> s.req == Some(request) && Calls(trace) == 0)
    && (!s.NotReady? ==> Calls(trace) == 1)
    && CallsFollowReady(trace)
    && CallsWith(trace, Some(request))
  }

  lemma CallsWithAppend<Req, Resp, E>(a: seq<Event<Req, Resp, E>>, b: seq<Event<Req, Resp, E>>, slot: Option<Req>)
    requires CallsWith(a, slot) && CallsWith(b, slot)
    ensures CallsWith(a + b, slot)
  {
    forall i | 0 <= i < |a + b| && (a + b)[i].Invoked?
      ensures slot == Some((a + b)[i].request)
    {
      if i >= |a| {
        assert (a + b)[i] == b[i - |a|];
      }
    }
  }

  /** One pass through the loop body keeps the protocol, and never reaches a panic. */
  lemma ProtocolStep<Req, Resp, E>(s: State<Req, Resp, E>, trace: seq<Event<Req, Resp, E>>, request: Req)
    requires Protocol(s, trace, request) && !s.Done?
    ensures MayPoll(s)
    ensures Protocol(Step(s).next, trace + Step(s).events, request)
  {
    var it := Step(s);
    if it.Continue? {
      assert it.events[1..] == [it.events[1]] && it.events[1..][1..] == [];
      assert !it.events[0].Invoked? && it.events[1].Invoked?;
      assert Calls(it.events[1..]) == 1;
    } else {
      assert |it.events| == 1 && !it.events[0].Invoked?;
      assert it.events[1..] == [];
    }
    assert Calls(it.events) == (if it.Continue? then 1 else 0);
    CallsAppend(trace, it.events);
    CallsFollowReadyAppend(trace, it.events);
    CallsWithAppend(trace, it.events, Some(request));
  }

  /** A whole call of `poll` keeps the protocol, and never reaches a panic. */
  lemma ProtocolDrive<Req, Resp, E>(s: State<Req, Resp, E>, trace: seq<Event<Req, Resp, E>>, request: Req)
    requires Protocol(s, trace, request) && !s.Done?
    ensures MayPoll(s)
    ensures Protocol(Drive(s).next, trace + Drive(s).events, request)
  {
    var d := Drive(s);
    DriveCallsOnce(s);
    DriveAdvances(s);
    CallsAppend(trace, d.events);
    CallsFollowReadyAppend(trace, d.events);
    CallsWithAppend(trace, d.events, Some(request));
  }

  /** The adapter itself: `Oneshot<S, Req>` with its pinned `state` field. */
  class Oneshot<!Req, Resp, E> {
    var state: State<Req, Resp, E>
    /** The request handed over at construction. */
    ghost const request: Req
    /** Every interaction with the service and its future so far, in order. */
    ghost var trace: seq<Event<Req, Resp, E>>

    ghost predicate Valid()
      reads this
    {
      Protocol(state, trace, request)
    }

    /** `Oneshot::new`: takes the service and the request; nothing is polled or called. */
    constructor (svc: Service<Req, Resp, E>, req: Req)
      ensures Valid()
      ensures state == NotReady(svc, Some(req)) && request == req && trace == []
    {
      state := NotReady(svc, Some(req));
      request := req;
      trace := [];
    }

    /**
     * One pass through the body of `poll`'s loop, in place: `Some(out)` where
     * the code returns `out`, `None` where it goes round the loop again.
     * As `req.take()` does, the slot is emptied before the service is called.
     * Requires a state other than `Done` ("polled after complete"); the
     * "already called" panic cannot happen because `Valid` keeps the slot
     * full while `NotReady`.
     */
    method PollPass() returns (ret: Option<Poll<Result<Resp, E>>>)
      requires Valid() && !state.Done?
      modifies this
      ensures Valid() && MayPoll(old(state))
      ensures Step(old(state)) == (if ret.Some? then Return(ret.value, state, Step(old(state)).events)
                                   else Continue(state, Step(old(state)).events))
      ensures trace == old(trace) + Step(old(state)).events
    {
      ghost var s, before := state, trace;
      ProtocolStep(s, before, request);
      match state {
        case NotReady(svc, slot) =>
          var polled := PollReady(svc);
          var ready, svc' := polled.0, polled.1;
          trace := trace + [ReadyPolled(ready)];
          if ready.Pending? {
            state := NotReady(svc', slot);
            return Some(Pending);
          }
          if ready.value.Err? {
            state := NotReady(svc', slot);
            return Some(Ready(Err(ready.value.error)));
          }
          var req := slot.value;
          state := NotReady(svc', None);
          var f := Call(svc', req);
          trace := trace + [Invoked(req)];
          state := Called(f);
          assert trace == before + [ReadyPolled(ready), Invoked(req)];
          return None;
        case Called(fut) =>
          var polled := PollFuture(fut);
          var outcome, fut' := polled.0, polled.1;
          trace := trace + [FuturePolled(outcome)];
          if outcome.Pending? {
            state := Called(fut');
            return Some(Pending);
          }
          if outcome.value.Err? {
            state := Called(fut');
            return Some(Ready(Err(outcome.value.error)));
          }
          state := Done;
          return Some(Ready(Ok(outcome.value.value)));
      }
    }

    /**
     * `Future::poll`: runs loop passes until one returns. Requires a state
     * other than `Done` ("polled after complete").
     */
    method Poll() returns (p: Poll<Result<Resp, E>>)
      requires Valid() && !state.Done?
      modifies this
      ensures Valid()
      ensures p == Drive(old(state)).out && state == Drive(old(state)).next
      ensures trace == old(trace) + Drive(old(state)).events
    {
      ghost var start := state;
      while true
        invariant Valid() && !state.Done?
        invariant Drive(start).out == Drive(state).out && Drive(start).next == Drive(state).next
        invariant old(trace) + Drive(start).events == trace + Drive(state).events
        decreases Rank(state)
      {
        ghost var s := state;
        var ret := PollPass();
        if ret.Some? {
          DriveReturns(s, ret.value, state, Step(s).events);
          return ret.value;
        }
        DriveContinues(s, state, Step(s).events);
      }
    }
  }
}
