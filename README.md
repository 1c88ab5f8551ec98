# Oneshot: a verified model of tower's single-use service call

Tower's `Oneshot` (in `tower/src/util/oneshot.rs`) is a future that owns a
`Service` and one request. When polled it waits until the service says it is
ready, then calls the service once with the request, then waits on the
future that the call returned. It is a three-state machine: `NotReady(svc,
Option<Req>)`, `Called(fut)` and `Done`. A single `poll` runs a `loop` that
can pass from `NotReady` to `Called` and poll the new future in the same call.

The model has five modules:

- `Task` (`task.dfy`): `Option`, `Result` and `Poll` as datatypes.
- `ServiceOracle` (`service_oracle.dfy`): the service and its response future
  as scripted oracles. A `Service` carries the outcomes its `poll_ready` will
  report and a function giving the future `call` returns for each request. A
  `ResponseFuture` carries the outcomes its polls will report. Polling either
  one yields the next outcome and the oracle advanced past it. An exhausted
  script keeps answering `Pending`.
- `Oneshot` (`oneshot.dfy`): the `State` enum and the adapter. `Step` is one
  pass through the body of `poll`'s loop and `Drive` is one whole call of
  `poll`, both as functions of the state. The class `Oneshot` keeps `state`
  as a mutable field. Its `Poll` method runs the loop in place and is proved
  equal to `Drive`. Each pass is the method `PollPass`. Like `req.take()`,
  it empties the request slot before it calls the service. A ghost `trace` records every interaction with the
  service and its future (readiness polled, service called, future polled).
  The class invariant `Valid` states the ownership protocol. While `NotReady`,
  the request is still in its slot and the service has not been called.
  After that, the service has been called exactly once, right after a
  readiness check that succeeded, and with the request given to `new`.
- `OneshotPolls` (`oneshot_polls.dfy`): any number of successive `poll` calls
  (`Polls`). Polling stops once the state is `Done`. The lemmas here state the
  properties that hold across calls.
- `OneshotScenarios` (`oneshot_scenarios.dfy`): three concrete runs, one of them also through the adapter object.

The two panics of `poll` are preconditions. `"polled after complete"` is
polling in `Done`. `"already called"` is reaching `expect` with an empty slot.
`MayPoll` states both. The class invariant shows that the second panic can
never happen. The same invariant shows that the `unreachable!()` in the
`Debug` impl can never be reached.

On error paths the model follows the code as written. Neither `?` (lines
72 and 77) sets `Done`. A readiness error is returned and leaves the state
`NotReady` with the request still in its slot, so a later `poll` checks
readiness again. A future error is returned and leaves the state `Called`,
so a later `poll` polls the same future again. Only a successful response
sets `Done`. `PendingThenCallFails` and `ReadinessFails` pin this behaviour
down.

## Model

| member | source | states |
|---|---|---|
| `Oneshot.Oneshot.constructor` | tower/src/util/oneshot.rs:52-56 | `new` gives state `NotReady(svc, Some(req))`; nothing has been polled or called (empty trace); the ownership invariant holds |
| `Oneshot.Oneshot.Poll` | tower/src/util/oneshot.rs:66-84 | the in-place loop returns exactly `Drive`'s output, new state and interactions; it keeps the ownership invariant; it requires a state other than `Done` ("polled after complete") |
| `Oneshot.Oneshot.PollPass` | tower/src/util/oneshot.rs:70-82 | one pass of the loop body in place: its output (`Some` where the code returns, `None` where it goes round again), new state and interactions are exactly those of `Step`; it keeps the ownership invariant, so the "already called" panic cannot happen |
| `Oneshot.Step` | tower/src/util/oneshot.rs:68-82 | a loop pass goes round again only when it moves from `NotReady` to `Called`, and the state rank then strictly decreases, so the loop ends |
| `Oneshot.Drive` | tower/src/util/oneshot.rs:66-84 | one whole call of `poll`: loop passes until one returns, with the interactions of all passes in order; the state never moves back (its rank does not rise), and every call of `poll` interacts with the service or its future at least once |
| `Oneshot.PollNotReadyPending` | tower/src/util/oneshot.rs:71-72 | in `NotReady`, a pending readiness check returns `Pending`; the state stays `NotReady` with the same request slot, and the service is not called |
| `Oneshot.PollNotReadyError` | tower/src/util/oneshot.rs:72 | in `NotReady`, a readiness error `e` returns `Ready(Err(e))`; the service is not called, the request is not taken, and the state stays `NotReady` |
| `Oneshot.PollNotReadyOk` | tower/src/util/oneshot.rs:68-75 | in `NotReady`, a successful readiness check takes the request, calls the service with it, sets `Called(f)`, and polls `f` once in the same `poll` |
| `Oneshot.PollCalled` | tower/src/util/oneshot.rs:76-80 | in `Called`, a pending future returns `Pending` and stays `Called`; `Ok(res)` returns `Ready(Ok(res))` and sets `Done`; `Err(e)` returns `Ready(Err(e))` and stays `Called` |
| `Oneshot.DriveAdvances` | tower/src/util/oneshot.rs:70-81 | one `poll` never moves the state back; while the state stays `NotReady` the request slot is unchanged |
| `Oneshot.DriveCallsOnce` | tower/src/util/oneshot.rs:72-74 | one `poll` calls the service at most once, exactly when it leaves `NotReady`; each call comes right after a successful readiness check and uses the request from the slot |
| `Oneshot.DriveReports` | tower/src/util/oneshot.rs:72-79 | `poll` reaches `Done` exactly when it returns a success; what it returns is exactly what the service or its future reported, with errors passed through unchanged |
| `Oneshot.ProtocolStep` | tower/src/util/oneshot.rs:73-74 | one loop pass from a state reached from `new` cannot panic and keeps the ownership protocol: the slot is emptied only when the state becomes `Called` |
| `Oneshot.ProtocolDrive` | tower/src/util/oneshot.rs:66-84 | one whole `poll` from a state reached from `new` cannot panic and keeps the ownership protocol |
| `Oneshot.DebugName` | tower/src/util/oneshot.rs:33-44 | `Debug` names each of the three variants by its own name, and only that variant; it requires a full slot in `NotReady` (the `unreachable!` arm), which the ownership invariant guarantees |
| `OneshotPolls.Polls` | tower/src/util/oneshot.rs:40 | successive polls keep the request slot of a `NotReady` state full, so the `unreachable!` state never arises |
| `OneshotPolls.PollsAdvance` | tower/src/util/oneshot.rs:70-81 | over any number of polls the state only advances and never returns to `NotReady`; while it stays `NotReady` the request stays in its slot |
| `OneshotPolls.PollsCallOnce` | tower/src/util/oneshot.rs:72-74 | over any number of polls the service is called at most once, and exactly when the state has left `NotReady` |
| `OneshotPolls.PollsCallAfterReady` | tower/src/util/oneshot.rs:72-73 | over any number of polls every call comes right after a successful readiness check and uses the request from the slot |
| `OneshotPolls.PollsSucceedOnce` | tower/src/util/oneshot.rs:76-81 | over any number of polls at most one output is a success; it is the last output and the state is then `Done`; `Done` is reached only by returning a success |
| `OneshotPolls.PollsPendingThenSuccess` | tower/src/util/oneshot.rs:66-84 | a service that is not ready `k` times and whose response succeeds at once with `v`: the first `k` polls return `Pending`, and poll `k + 1` returns `Ready(Ok(v))` and finishes; the service is called once, with the request |
| `OneshotScenarios.ReadyAtOnceSucceeds` | tower/src/util/oneshot.rs:66-84 | ready at once and the call succeeds: a single poll returns the response, reaches `Done`, and makes exactly one readiness check, one call and one future poll |
| `OneshotScenarios.PendingThenCallFails` | tower/src/util/oneshot.rs:72-77 | not ready once, then ready, and the call fails: the polls return `Pending`, then the error; the state stays `Called`; one call |
| `OneshotScenarios.PendingThenCallFailsInPlace` | tower/src/util/oneshot.rs:52-84 | the same run through the adapter object built by `new`: the contract of `Poll` alone fixes the outputs, `Pending` and then the error |
| `OneshotScenarios.ReadinessFails` | tower/src/util/oneshot.rs:72 | the readiness check fails: the poll returns that error, makes no call, and leaves the request in its slot |

## Left out

- Pinning and the `pin_project` projections (lines 14-21 and 65-70) only ensure memory safety in Rust. `state` is an ordinary mutable field here.
- The `Context` and waker registration are not modelled. Waking the task is the job of the service and the executor, so `cx` is dropped.
- Concrete services and their futures are foreign code. They are scripted oracles here. A script that runs out keeps answering `Pending`.
- The model does not keep the service's state after `call`. The code drops the service right after `call`, when it sets `Called`, so nothing can observe that state.
- Only the variant names of the `Debug` output are modelled (lines 28-45). The formatting of the fields is not.
- The `From` conversion in `?` is the identity here, because the error types are the same. Errors pass through unchanged.
- The two panics are preconditions, not modelled aborts. The `Done` panic is a precondition of `Poll`. The "already called" panic is part of `MayPoll`.
- Dropping an unfinished adapter (cancellation) is not modelled. It has no code in this file.
