# A verified model of the gRPC connection pool

This project models `channelPool`, the bounded pool of `*grpc.ClientConn`
handles in `transport/grpc_pool/grpc_pool.go`. The pool is built by `New` from a
`Config`. It keeps idle connections in a buffered channel of capacity `MaxIdle`
and counts open connections in `openingConnections`, which is capped by
`maxActive`. Callers that find the buffer empty at the ceiling wait in a FIFO
queue (`connReqs`), and the next `Put` hands its connection straight to the
oldest of them. `Get`, `Put`, `Close`, `Ping`, `Release` and `Len` are the
operations.

Layout:

- `pool_types.dfy` (`PoolTypes`): handles, the `Conn{c, t}` wrapper, `Config`, errors, and the outcome of `Get`.
- `pool_spec.dfy` (`PoolSpec`): the pool's state as a value (`PoolState`) and one pure step function per operation. Each step is an atomic transition made with the lock held. The module also defines the invariant `Inv` and the counter-accounting predicate `Accounted`.
- `grpc_pool.dfy` (`GrpcPool`): the class `ChannelPool`, whose fields are the pool's own. Its methods update those fields as the Go code does (the `Get` retry loop and the `Release` drain are `while` loops). Each method is proved to make exactly the transition of its step function (`(State(), r) == PoolSpec.Get(old(State()), …)`) and to keep `Valid()`.
- `pool_lemmas.dfy` (`PoolLemmas`): properties of the step functions: bounds, exact counting, FIFO hand-off, what `Get` hands out and discards, and a released pool.
- `release_finding.dfy` (`ReleaseFinding`): `Release` as written. It panics (see Findings).
- `pool_scenarios.dfy` (`PoolScenarios`): two concrete runs.

How the model stands in for things outside the pool:

- Handles are `nat` ids. A nil handle is `None`.
- `time.Now()` is a `now: nat` parameter. `IdleTimeout` is an `int`, because a `time.Duration` can be zero or negative.
- The three callbacks are foreign code, and each is modelled by values passed in:
  - The factory is `factoryOk` plus the new handle `freshId`. During pre-fill it is `produce(i)`, the i-th call's result.
  - The close callback is `closeOk`. Every call of it is logged in `destroyed`.
  - The ping callback is a predicate `probe`.
- The pool only records whether each callback is set, because `Release` clears them.
- A `Get` that would block on its channel returns `Waiting(w)`. `Put` fills waiter `w`'s inbox slot. `Await(w)` is the blocked `Get` receiving. It re-checks only the idle timeout, and on expiry it closes the connection and re-enters the loop.
- The pool does not track which handles its callers hold. The accounting lemmas take that multiset, `held`, as a parameter. `Accounted(s, held)` says `openingConnections` equals idle + held + in-flight connections.

Where the code differs from the pool's stated design, the model follows the code:

- Expiry is `t + IdleTimeout < now`, which is strict. It is not "idle for at least the timeout".
- After `Release`, `Put` goes to `Close`, which returns nil because the callback is gone. It does not return a closed-pool error.
- `Release` never closes waiters' channels. Waiters left at release stay blocked.

## Model

| member | source | states |
|---|---|---|
| PoolSpec.ValidateConfig | transport/grpc_pool/grpc_pool.go:58-66 | no error exactly when `0 <= InitialCap <= MaxIdle <= MaxCap` and both the factory and the close callback are set; the capacity error exactly when the ordering fails |
| PoolSpec.Prefill | transport/grpc_pool/grpc_pool.go:81-88 | pre-fill succeeds exactly when each of the first `n` factory calls succeeds, and then buffers those `n` handles, in call order, stamped `now` |
| PoolSpec.FirstUsable | transport/grpc_pool/grpc_pool.go:107-128 | every idle wrapper before the returned index is unusable (expired, or failing a configured ping), and the one at the index, if any, is usable |
| PoolSpec.Close | transport/grpc_pool/grpc_pool.go:200-211 | closing leaves the idle buffer and the released flag untouched (its state change is given exactly by `PoolLemmas.CloseDestroysOnce`) |
| GrpcPool.ChannelPool.constructor | transport/grpc_pool/grpc_pool.go:68-79 | the `channelPool` literal: counter `InitialCap`, empty buffer of capacity `MaxIdle`, ceiling `MaxCap`, the configured callbacks, no waiters |
| GrpcPool.ChannelPool.New | transport/grpc_pool/grpc_pool.go:57-91 | returns no pool and the first failing check's error, or `FillFailed` when a pre-fill factory call fails (after releasing the partial pool); otherwise a fresh valid pool whose state is `PoolSpec.NewPool` |
| GrpcPool.ChannelPool.Get | transport/grpc_pool/grpc_pool.go:102-106 | a released pool fails with `Closed` and is unchanged; otherwise the acquisition loop runs; keeps `Valid()` |
| GrpcPool.ChannelPool.Acquire | transport/grpc_pool/grpc_pool.go:107-161 | the retry loop's new state and outcome are exactly `PoolSpec.Acquire` of the old state (characterised loop-free by `PoolLemmas.AcquireCharacterised`); keeps `Valid()` |
| GrpcPool.ChannelPool.CreateOrEnqueue | transport/grpc_pool/grpc_pool.go:129-160 | with the buffer empty: at the ceiling a new waiter is queued last under a fresh id and the caller waits; without a factory the result is `Closed`; a failing factory gives `FactoryFailed` and changes nothing; otherwise the counter rises by one and the new handle is returned; all of it is exactly the empty-buffer case of `PoolSpec.Acquire` |
| GrpcPool.ChannelPool.Await | transport/grpc_pool/grpc_pool.go:135-146 | the blocked `Get` receiving from its channel makes exactly the `PoolSpec.Await` transition; keeps `Valid()` |
| GrpcPool.ChannelPool.Put | transport/grpc_pool/grpc_pool.go:165-197 | makes exactly the `PoolSpec.Put` transition and returns its error; keeps `Valid()` |
| GrpcPool.ChannelPool.Close | transport/grpc_pool/grpc_pool.go:200-211 | makes exactly the `PoolSpec.Close` transition and returns its error; keeps `Valid()` |
| GrpcPool.ChannelPool.Ping | transport/grpc_pool/grpc_pool.go:214-219 | a nil handle is rejected; otherwise the result is nil exactly when the probe accepts the handle |
| GrpcPool.ChannelPool.Release | transport/grpc_pool/grpc_pool.go:222-239 | makes exactly the corrected `PoolSpec.Release` transition: the drain loop sends each buffered handle to the close callback, in order; keeps `Valid()` |
| GrpcPool.ChannelPool.Len | transport/grpc_pool/grpc_pool.go:242-244 | between 0 and `MaxIdle`, and 0 once released |
| PoolLemmas.NewPoolOutcome | transport/grpc_pool/grpc_pool.go:57-91 | `New` succeeds if and only if the capacities are ordered, both callbacks are set and every pre-fill call succeeds; otherwise it reports the first failed check in source order |
| PoolLemmas.NewPoolEstablishes | transport/grpc_pool/grpc_pool.go:68-88 | a new pool satisfies the invariant, has `Len() == InitialCap == openingConnections` with the counter exact, holds the factory's handles in order, and has no waiters and nothing destroyed |
| PoolLemmas.ClosePreservesInv | transport/grpc_pool/grpc_pool.go:200-211 | `Close` keeps the invariant |
| PoolLemmas.AcquirePreservesInv | transport/grpc_pool/grpc_pool.go:107-161 | the acquisition loop keeps the invariant (buffer within `MaxIdle`, counter at most `maxActive`, waiter queue well formed) |
| PoolLemmas.GetPreservesInv | transport/grpc_pool/grpc_pool.go:102-161 | `Get` keeps the invariant |
| PoolLemmas.AwaitPreservesInv | transport/grpc_pool/grpc_pool.go:135-146 | receiving a hand-off keeps the invariant |
| PoolLemmas.PutPreservesInv | transport/grpc_pool/grpc_pool.go:165-197 | `Put` keeps the invariant, in particular the buffer never exceeds `MaxIdle` |
| PoolLemmas.ReleasePreservesInv | transport/grpc_pool/grpc_pool.go:222-239 | `Release` keeps the invariant |
| PoolLemmas.AcquireCharacterised | transport/grpc_pool/grpc_pool.go:107-161 | on an open pool the loop equals `AcquireExpected`: it drops the `k` leading unusable idle connections through `Close` (counter down by `k`, each logged once). It then returns the next idle connection; with none left it appends one waiter at the ceiling, fails with the factory's error, or counts one created connection |
| PoolLemmas.GetNeverHandsOutUnusable | transport/grpc_pool/grpc_pool.go:107-128 | every idle connection `Get` skips was expired or failed the ping and went, in order, to the close callback; one handed out from the buffer is neither expired nor (with a ping set) failing it |
| PoolLemmas.GetWaitsAtCeiling | transport/grpc_pool/grpc_pool.go:130-135 | with an empty buffer and `openingConnections >= maxActive`, `Get` appends exactly one new waiter at the end of the queue and changes nothing else |
| PoolLemmas.GetCounter | transport/grpc_pool/grpc_pool.go:130-159 | after `Get` the counter is at most `maxActive`; it rises by one exactly when the factory was called below the ceiling and succeeded, and otherwise only loses the discarded connections |
| PoolLemmas.AwaitTakesHandOff | transport/grpc_pool/grpc_pool.go:139-146 | a delivered connection that has not expired is returned and removed from the inbox, whatever the ping would say |
| PoolLemmas.AwaitDiscardsExpired | transport/grpc_pool/grpc_pool.go:139-145 | an expired delivery is closed (counter down by one, logged once) and the loop starts again |
| PoolLemmas.PutRejectsNil | transport/grpc_pool/grpc_pool.go:166-168 | a nil handle is rejected and nothing changes |
| PoolLemmas.PutServesOldestWaiter | transport/grpc_pool/grpc_pool.go:177-185 | with waiters pending, `Put` delivers `{conn, now}` to the oldest waiter's empty slot, keeps the rest in order, and leaves the buffer, the counter and the destroy log alone |
| PoolLemmas.PutBuffersOrDestroys | transport/grpc_pool/grpc_pool.go:187-195 | with no waiters, `Put` appends `{conn, now}` when the buffer has room; otherwise it destroys the handle exactly once, the counter drops by one and the callback's result is returned |
| PoolLemmas.PutsServeWaitersInOrder | transport/grpc_pool/grpc_pool.go:177-185 | FIFO: `n` successive puts serve the first `n` waiters, the i-th put the i-th waiter, keep earlier deliveries, and leave buffer and counter unchanged |
| PoolLemmas.CloseDestroysOnce | transport/grpc_pool/grpc_pool.go:200-211 | `Close` of a handle decrements the counter by exactly one and calls the callback once; with the callback cleared it returns nil and changes nothing; a nil handle is rejected |
| PoolLemmas.ReleaseFailsFast | transport/grpc_pool/grpc_pool.go:222-244 | `Release` destroys every buffered handle exactly once, in order, and keeps the counter. After it, `Len() == 0`, `Get` fails with `Closed`, `Put` and `Close` return nil and change nothing, and a second `Release` is a no-op |
| PoolLemmas.AcquireAccounted | transport/grpc_pool/grpc_pool.go:107-161 | the acquisition loop keeps the counter equal to idle + held + in-flight connections, counting what it hands out as held |
| PoolLemmas.GetAccounted | transport/grpc_pool/grpc_pool.go:102-161 | `Get` keeps the counter exact |
| PoolLemmas.AwaitAccounted | transport/grpc_pool/grpc_pool.go:135-146 | receiving a hand-off keeps the counter exact |
| PoolLemmas.PutAccounted | transport/grpc_pool/grpc_pool.go:165-197 | returning a held handle keeps the counter exact |
| PoolLemmas.CloseAccounted | transport/grpc_pool/grpc_pool.go:200-211 | closing a held handle keeps the counter exact |
| PoolLemmas.LiveWithinCeiling | transport/grpc_pool/grpc_pool.go:131-157 | on an open pool with an exact counter, the counter is non-negative and the live connections (idle, held, in flight) never exceed `maxActive` |
| ReleaseFinding.ReleaseAsWrittenPanics | transport/grpc_pool/grpc_pool.go:222-239 | as written, `Release` on an open pool with a buffered connection panics on the nil close callback |
| ReleaseFinding.ReleaseAsWrittenAgreesWhenEmpty | transport/grpc_pool/grpc_pool.go:231-238 | with an empty buffer the written and the corrected `Release` agree |
| ReleaseFinding.NewThenReleasePanics | transport/grpc_pool/grpc_pool.go:81-88 | `New` with `InitialCap 1` succeeds, and `Release` on the result panics as written, while the corrected one destroys the one handle |
| ReleaseFinding.NewFillFailureReleasePanics | transport/grpc_pool/grpc_pool.go:81-85 | a factory that fails on its second pre-fill call makes `New` fail, and the `Release` it calls on the partial pool panics as written |
| PoolScenarios.PrefilledPoolRun | transport/grpc_pool/grpc_pool.go:102-161 | `InitialCap 2, MaxIdle 5, MaxCap 5`: `Len 2`; two `Get`s return the pre-filled handles (`Len 0`); a third creates one (counter 3); a `Put` gives `Len 1`; after `Release`, `Get` fails with `Closed` |
| PoolScenarios.CeilingOneHandOff | transport/grpc_pool/grpc_pool.go:130-185 | `MaxCap 1`: the second `Get` waits; `Put` of the first handle hands it to that waiter, who receives the same handle; the counter stays 1 |

## Left out

- The mutex, goroutines and real blocking on `<-req`. Each method body is one atomic step. A blocked `Get` is the `Waiting` outcome plus `Await`.
- `time.Now()` and `time.Duration`. Both are replaced by integer ticks.
- `*grpc.ClientConn`. Handles are opaque ids.
- The factory, close and ping callbacks are foreign code. Their results are parameters. Their errors are opaque, so each is one constant (`FactoryFailed`, `CloseFailed`, `PingFailed`). The text of the wrapped pre-fill error is not kept.
- A factory that returns a nil handle without an error. The model's factory always yields a handle when it succeeds.
- The `!ok` branch returning `ErrMaxActiveConnReached` (transport/grpc_pool/grpc_pool.go:136-137). Nothing ever closes a waiter's channel, so this branch cannot run.
- GrpcPool.ChannelPool.Ping: requires a ping callback for a non-nil handle. The source calls the callback unconditionally, so without one it panics.
- Handles that callers hold are not pool state. The accounting lemmas require a returned or closed handle to be one the caller holds. A `Put` or `Close` of a foreign or already-closed handle changes the counter without a matching live connection; the source allows this and the model follows it.
- The concurrent fast path, where `Get` receives from the channel without the lock, and the races it allows.
- transport/grpc, transport/http and tool/host.go are not part of this model. They are glue over grpc, gin, otel, prometheus and `net`.
- transport/grpc_pool/pool.go holds only the `Pool` interface and `ErrClosed`. `ErrClosed` is the `Closed` error here.
- The tests are not modelled. transport/grpc_pool/grpc_pool_test.go builds a pool with a nil close callback and expects no error, which `New` rejects.

## Findings

| source | as written | input that shows it | evidently intended | confidence | as-written member | corrected member |
|---|---|---|---|---|---|---|
| transport/grpc_pool/grpc_pool.go:228-237 | `Release` sets `c.close = nil`, then its drain loop calls `c.close(...)` on each buffered connection: a call through a nil function value, which panics | `New` with `InitialCap: 1`, then `Release()`. Also, within `New`, a factory that fails after the first success makes `New`'s own `Release` panic | drain with the close callback as it was before clearing, destroying each buffered connection once | high; not executed | ReleaseFinding.ReleaseAsWrittenPanics | PoolLemmas.ReleaseFailsFast |
