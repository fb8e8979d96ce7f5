# Verification of kelvins' concurrent and distributed components

A Dafny model of the components of the kelvins framework that are protocols or exact
arithmetic, with proofs of what holds in every interleaving and every run. `dafny verify
dfyconfig.toml` checks everything.

The concurrent components are transition systems: a `State`, an `Action` for each access to
shared state, and a function `Step(s, a)` that gives the next state, or `None` when the
action is not enabled. `Runs` defines a run as a sequence of actions and proves that what
every step keeps holds at the end of every run, and that a falling measure bounds a run.
There are unboundedly many senders, callers, instances and requests. Beside each system
stands a class (`PoolObject`, `ConnCacheObject`, `ResolverObject`, `LimiterObject`) whose
fields the goroutines update in place, one channel, mutex or cache operation per method
call; each such method performs exactly one step of the system. Methods that run a whole
operation (`SendJob`, `WaitAll`, `FinishRelease`, `GetConn`, `Settle`, `Answer`, `Intercept`)
are composed of such steps. They keep the invariant, which is what shows that no step on
their way is stuck, and promise what the operation is for. The outside world is left free:
`EnvironmentIsFree`, in four of the systems, lists what may happen at any time.

| files | models |
|---|---|
| `Pool*.dfy` | the goroutine pool: workers, dispatcher, job queue, stop handshake, WaitGroup |
| `ConnCache*.dfy` | `ConnClient.GetConn`: the shared cache, the mutex of each service, dialling |
| `Resolver*.dfy` | etcd `Watch`, `listenEtcd`, `ResolveNow` and the rate-limited `watcher` |
| `Registration*.dfy`, `Keys.dfy`, `Discovery.dfy` | registration in etcd, its keys, and the addresses discovered from it |
| `Limiter*.dfy` | the ticket limiter and the interceptors around it, across shutdown |
| `Token.dfy`, `RoundRobin.dfy` | the RPC token and the round-robin picker |
| `Prelude.dfy`, `Runs.dfy`, `Text.dfy` | sets and sequences, runs, decimal and hexadecimal text |

What the proofs show to be different from what one might expect:

- The WaitGroup counter goes below zero when a job sent by a timed call finishes before its
  sender adds (`TimedSendCanGoNegative`); the panic of `Done` is recovered by `runJob`. When
  exactly this can happen is `CounterGoesNegativeIff`, and how far down the counter can come
  from any state is `LowestCounter`. With `SendJob` alone it is never negative
  (`PlainSendsNeverGoNegative`).
- An `Add` to a counter of -2 or less leaves it below zero and so panics in the goroutine of
  the sender, where the pool does not recover it: two timed sends are enough
  (`SendCanPanic`), and `SendPanicsIff` says in which states it can happen. A `SendJob` that
  panics so never sends its job, but has raised the counter for good.
- `Release` may leave accepted jobs in the queue (`ReleaseCanStrandAJob`), exactly when a job
  is queued, or a call has yet to send its job, as it is called (`ReleaseStrandsIff`). What
  the `WaitAll` that `appShutdown` calls next does then depends on the senders. The counter
  never falls again (`StrandedJobBlocksWaitAll`), so with no send in progress a job left
  behind blocks `WaitAll` for good (`WaitAllAfterRelease`). But a timed call that has sent and
  not added makes up for one: `WaitAll` can return although the job never runs
  (`WaitAllCanMissAJob`). `WaitAllCanReturnIff` says when it can return at all. Calling
  `WaitAll` first is safe (`WaitAllThenReleaseIsSafe`).
- `GetConn` can return, without an error, a connection it has just closed
  (`FreshConnectionMayBeClosed`), although its comment promises a valid connection as far as
  possible: exactly when the connection it dialled was neither Idle nor Ready as it checked
  it (`FreshConnectionOutcome`). A connection from the cache was always Idle or Ready when
  checked.
- The limiter admits `maxConcurrent + 1` requests (`BoundIsAttained`). It can admit a request
  after another has taken the shutdown case and stored the flag (`LateAdmission`), exactly as
  long as some request has loaded the flag before and the channel is not closed
  (`LateAdmissionIff`).
- The limiter can panic, under every limit (`LimiterCanPanic`): a request that selects on, or
  closes, the closed channel does. In which states a further panic is possible is `PanicIff`:
  for one, whenever the flag is not stored yet.
- A name, address and port can become impossible to register for good: by a create that
  takes effect although its client saw an error (`AmbiguousWriteHappens`), by a crash of the
  registered instance, a delete that is not sent or gets lost (`RegisteredCanBeAbandoned`), or
  by a value that was in the store from the start. `KeyCanServeIff` says exactly when it is
  registered or still can be, and `AbandonedKeyIsBlocked` what becomes of the key.
- The comment on `GetKeyName` says that a key cannot end with a number; the key of every
  instance ends with a digit (`InstanceKeyEndsWithDigit`). The model follows the code.

## Model

| member | source | states |
|---|---|---|
| PoolInvariants.StepKeepsInv | util/goroutine/grpool.go:20-195 | every operation of every worker, the dispatcher, any sender and Release keeps the invariant on workers, jobs, phases and counter |
| PoolTheorems.EachWorkerInOnePlace | util/goroutine/grpool.go:20-36 | in every run each worker is in exactly one of: about to push itself, idle pool, dispatcher's hand, running, stopping, stopped; the idle pool has no duplicates and a worker's push never blocks |
| PoolTheorems.EachJobInOnePlace | util/goroutine/grpool.go:68-73 | in every run each accepted job is in exactly one of queue, dispatcher's hand, one worker, finished; jobs reach workers once each and in the order they were accepted |
| PoolTheorems.QueueCapacity | util/goroutine/grpool.go:119-125 | in every run the queue holds at most jobQueueLen jobs, or five if that is not positive, and a call about to send finds room exactly below that number |
| PoolTheorems.QueueFills | util/goroutine/grpool.go:119-125 | some run fills the queue to exactly that number |
| PoolTheorems.IdlePoolIsFifo | util/goroutine/grpool.go:20-36 | in every run the dispatcher takes the workers in the order in which they pushed themselves |
| PoolTheorems.JobsEndEitherWay | util/goroutine/grpool.go:38-51 | a job that panics ends like one that returns: finished, the counter lower by one, its worker back in the pool |
| PoolTheorems.ResultsAreHonest | util/goroutine/grpool.go:143-165 | true is reported only for an accepted job, false only for one that never is; a timed call can give up at any time, with or without room |
| PoolTheorems.SendAfterRelease | util/goroutine/grpool.go:167-195 | after Release a SendJob still returns while there is room, and its job stays in the queue in every continuation |
| PoolTheorems.TimedSendAfterRelease | util/goroutine/grpool.go:143-195 | and so does a timed send |
| PoolTheorems.WaitGroupAccounting | util/goroutine/grpool.go:136-184 | the counter = SendJob calls that added but did not send, or panicked as they added + accepted unfinished jobs − timed calls that sent but did not add |
| PoolTheorems.PlainSendsNeverGoNegative | util/goroutine/grpool.go:167-170 | in a run without timed sends the counter is never negative |
| PoolCounter.LowestCounter | util/goroutine/grpool.go:136-184 | the lowest value the counter can come down to, in every reachable state: until the dispatcher takes the stop signal, SendJob calls that panicked − timed calls that have not added; after it, jobs queued + SendJob calls that added but did not send, or panicked − timed calls that sent but did not add. Some run of the calls already made attains it, and no run without a new timed call gets below it |
| PoolCounter.CounterGoesNegativeIff | util/goroutine/grpool.go:143-176 | the calls already made can bring the counter below zero if and only if that value is negative, written out for both phases |
| PoolCounter.SendPanicsIff | util/goroutine/grpool.go:143-184 | the Add of a call already made can panic in its caller if and only if that value is at most −2, written out for both phases |
| PoolCounter.SendCanPanic | util/goroutine/grpool.go:143-151 | in every pool two timed sends can lead to it |
| PoolCounter.TimedSendCanGoNegative | util/goroutine/grpool.go:143-151 | in every pool a single timed send can bring the counter below zero |
| PoolTheorems.ReleaseIsComplete | util/goroutine/grpool.go:192-195 | when Release returns, the stop loop has taken every worker exactly once, all are stopped, the dispatcher holds nothing, and an accepted job is finished exactly when it is not in the queue |
| PoolTheorems.WaitAllAfterRelease | util/goroutine/grpool.go:186-195 | after Release the counter = jobs left in the queue + SendJob calls that panicked, or added but did not send − timed calls that sent but did not add; with no send in progress it is zero exactly when the queue was drained and no SendJob call panicked |
| PoolTheorems.StrandedJobBlocksWaitAll | app/app.go:306-309 | after Release, in every continuation, whatever is called, no job leaves the queue and the counter never falls; it stays positive if jobs left and SendJob calls that panicked, or added but did not send, outnumber the timed calls that sent but did not add |
| PoolTheorems.WaitAllCanReturnIff | app/app.go:306-309 | after Release, some continuation finds the counter at zero if and only if they do not outnumber them |
| PoolShutdown.ReleaseStrandsIff | util/goroutine/grpool.go:68-86 | some run that begins with the call of Release, and makes no new send call, leaves a job in the queue if and only if a job is queued now or some call has not sent yet |
| PoolShutdown.ReleaseCanStrandAJob | util/goroutine/grpool.go:68-86 | in every pool there is a run in which one SendJob has returned and Release leaves its job |
| PoolShutdown.WaitAllCanMissAJob | app/app.go:306-309 | in every pool there is a run in which Release leaves the job of a timed send while the counter is zero |
| PoolShutdown.WaitAllThenReleaseIsSafe | app/app.go:306-309 | if the counter is zero and every send call has ended, then a Release in any run without new sends leaves an empty queue, a zero counter and every accepted job finished |
| PoolProgress.MeasureDrops | util/goroutine/grpool.go:20-86 | every step other than a new call lowers the measure |
| PoolProgress.PendingReleaseCanStep | util/goroutine/grpool.go:74-85 | while Release is pending some step other than a new call is enabled |
| PoolProgress.ReleaseReturns | util/goroutine/grpool.go:192-195 | from any reachable state with Release pending, a run without new calls takes at most the measure's number of steps, and if it can go no further Release has returned |
| PoolObject.GoroutinePool.constructor | util/goroutine/grpool.go:88-134 | starts as many workers as asked for, or two, in a loop, over a queue of the length asked for, or five: the initial state |
| PoolObject.GoroutinePool.SendJob | util/goroutine/grpool.go:167-170 | run with the dispatcher and workers: its job is the next one accepted, after any wait for room, exactly when the counter was at least −1; otherwise it panics with the counter raised and nothing sent |
| PoolObject.GoroutinePool.SendJobTimed | util/goroutine/grpool.go:143-165 | its job is the next one accepted, and it then panics exactly if its Add leaves the counter below zero; or, when the timer fires, nothing is sent or added |
| PoolObject.GoroutinePool.WaitAll | util/goroutine/grpool.go:186-190 | with the dispatcher and workers running and no send in progress every accepted job finishes, and it returns exactly when no SendJob call panicked, each of which holds the counter up by one |
| PoolObject.GoroutinePool.FinishRelease | util/goroutine/grpool.go:68-86 | run with the goroutines it waits for, a pending Release returns: every worker stopped, the queue kept if stop is taken first and drained if jobs are, every other accepted job finished, the counter as in WaitAllAfterRelease |
| ConnCache.CacheKey | util/client_conn/conn_cache.go:54-56 | the prefix "kelvins-" and the service name, which can be read back |
| ConnCacheProofs.StepKeepsInv | util/client_conn/client_conn.go:53-103 | every step of every call, every state change and eviction keeps the invariant on mutexes, holders and connections |
| ConnCacheTheorems.AtMostOneOpen | util/client_conn/client_conn.go:53-103 | while the cache keeps its entries a service has at most one open connection, its cache entry or the local of the mutex holder; in any run at most one beyond the evicted or refused ones |
| ConnCacheTheorems.DialsAreConserved | util/client_conn/client_conn.go:85-102 | for every service: dials = failed dials + closed connections + open connections, so dials ≤ failed + closed + open orphans + 1, and ≤ failed + closed + 1 while the cache keeps its entries |
| ConnCacheTheorems.SingleDial | util/client_conn/client_conn.go:54-102 | if the first connection of a service is never closed and the cache keeps its entries, it is the only one dialled, every other dial had failed, and it is the one every successful call returned |
| ConnCacheHistory.NoDialAfterFirst | util/client_conn/client_conn.go:54-102 | in such a run, from the moment the connection exists no DialContext of the service happens, successful or not, none stands before one, and every call that enters later and returns takes it from the cache |
| ConnCacheTheorems.HitsWereEffective | util/client_conn/client_conn.go:129-140 | for every call returning from the cache there is an earlier moment at which it checked that connection and found its state in {Idle, Ready} |
| ConnCacheHistory.CacheCheckOutcome | util/client_conn/client_conn.go:54-80 | in every run, a cached connection that a call checks is what it returns if its state is Idle or Ready, and is closed by it if it is Connecting, TransientFailure or Shutdown |
| ConnCacheHistory.HitNeedsNoLock | util/client_conn/client_conn.go:54-60 | a cached Idle or Ready connection is returned in three steps, whoever holds the mutex of the service |
| ConnCacheHistory.DialedIsReturned | util/client_conn/client_conn.go:83-102 | a call whose dial succeeded returns that connection, whatever becomes of the store |
| ConnCacheTheorems.StepsOfACallAreBounded | util/client_conn/client_conn.go:53-103 | each step of a call lowers its rank, at most twelve, and no other step moves it |
| ConnCacheTheorems.SomeCallCanMove | util/client_conn/client_conn.go:62-68 | while a call has not returned, some call can take a step: the mutexes cannot deadlock |
| ConnCacheHistory.EveryCallReturns | util/client_conn/client_conn.go:53-103 | a run without new calls has at most twelve steps of each call, and when no call can take a step all have returned |
| ConnCacheHistory.FreshConnectionOutcome | util/client_conn/client_conn.go:91-102 | in every run, a call that returns the connection it dialled had checked it; it stored it if and only if it was Idle or Ready then, and otherwise, and only then, closed it, so that what it returns without error is shut down |
| ConnCacheTheorems.FreshConnectionMayBeClosed | util/client_conn/client_conn.go:91-102 | for every service, the run of a first call whose dial gives any state: it returns the connection without error, closed exactly when that state is neither Idle nor Ready |
| ConnCacheTheorems.EvictionBreaksUniqueness | util/client_conn/conn_cache.go:22-24 | for every service a run with an eviction and two open connections |
| ConnCacheObject.ConnClients.GetConn | util/client_conn/client_conn.go:53-103 | a call that moves alone: a cached Idle or Ready connection comes back and nothing changes; otherwise the cached one is closed and a failed dial is an error; a fresh Idle or Ready one is stored under the key, any other is returned closed and not stored; the mutex is free again |
| ResolverProofs.StepKeepsInv | util/client_conn/resolver.go:52-156 | every step of Watch, listenEtcd, any ResolveNow call and the watcher keeps the invariant |
| ResolverProofs.NoLostUpdate | internal/service/slb/etcdconfig/service_config.go:148-176 | unless stopped, the newest change and the newest request precede the start of the latest resolution, or a token or a goroutine still carries them |
| ResolverProofs.NoticeNeverBlocks | internal/service/slb/etcdconfig/service_config.go:148-174 | Watch's push never blocks; it neither sends on nor closes a closed channel |
| ResolverProofs.BehindMeansEnabled | util/client_conn/resolver.go:129-156 | while a change or request is unresolved and nothing stopped, some step is enabled |
| ResolverProofs.MeasureDrops | util/client_conn/resolver.go:52-156 | every step other than a new event, call or shutdown lowers the measure |
| ResolverProofs.EveryChangeIsResolved | util/client_conn/resolver.go:52-156 | without new events and calls the pipeline rests within a bounded number of steps, and at rest the last resolution began after the last event and request |
| ResolverProofs.ResolvesAtStart | util/client_conn/resolver.go:24-40 | every run that is not stopped and in which no goroutine can move any more has started a resolution, with or without events |
| ResolverProofs.ResolutionsAreCaused | util/client_conn/resolver.go:52-156 | in every run there are no more resolutions than ResolveNow requests, and no more of these than events and outside calls |
| ResolverProofs.StopEndsGoroutines | util/client_conn/resolver.go:52-78 | after Close or the end of the application all goroutines and calls end within a bounded number of steps, and notice is closed |
| ResolverProofs.ResolutionRate | util/client_conn/resolver.go:17-78 | resolutions started in any window of length T number at most T / 3s + 1 |
| ResolverProofs.RateIsAttained | util/client_conn/resolver.go:17-78 | for every k some run starts its k resolutions exactly three seconds apart |
| ResolverObject.KelvinsResolver.Build | util/client_conn/resolver.go:24-40 | starts with both goroutines and one ResolveNow call, the initial state |
| ResolverObject.BuildAndSettle | util/client_conn/resolver.go:24-40 | a resolver built and left alone has resolved, without any event |
| ResolverObject.KelvinsResolver.Settle | util/client_conn/resolver.go:52-156 | run on until none can move, the goroutines come to rest: every call of ResolveNow has returned, and unless stopped the last resolution began after every event and request and both channels are empty |
| ResolverObject.KelvinsResolver.Answer | internal/service/slb/etcdconfig/service_config.go:161-174 | one answer of the etcd watcher, carried through: a change leads to a resolution that starts after it, a "get" at rest to none |
| Keys.GetKeyName | internal/service/slb/etcdconfig/service_config.go:41-47 | the loop yields the directory of the service followed by the sequences |
| Keys.InstanceKeyText | app/app.go:523-528 | the key written out: "/kelvins-service.name.cluster/number_port", the number with the first address byte highest |
| Keys.KeyNameText | internal/service/slb/etcdconfig/service_config.go:41-47 | sequences follow the directory in their order, each after a slash |
| Keys.SequenceInjective | app/app.go:523-528 | two sequences are equal exactly when the address numbers and the port texts are |
| Keys.ChildOfOneDirectory | internal/service/slb/etcdconfig/service_config.go:41-47 | a key under a service's directory is under no other service's directory |
| Keys.InstanceKeyEndsWithDigit | internal/service/slb/etcdconfig/service_config.go:40-47 | the key of every instance ends with a digit, against the comment |
| Keys.InstanceKeyInjective | app/app.go:523-528 | the key is injective over service name, IPv4 address and port |
| Keys.InstanceKeyEqualIff | app/app.go:523-528 | for all addresses: two keys are equal exactly when name and port are and the addresses are equal, or both are 0.0.0.0 or no IPv4 address |
| Keys.HostTextDotted | util/client_conn/resolver.go:113-117 | an IPv4 address is printed as its four numbers in order |
| Keys.AddressInjective | util/client_conn/resolver.go:113-117 | an address ip:port determines the IPv4 address and the port text |
| RegistrationProofs.DrawnPort | app/app.go:465-470 | without a port of its own a process uses the one it draws from [50000, 60000), and different draws give different keys; with one, the draw does not matter |
| RegistrationProofs.LookupDecides | app/app.go:485-501 | after its lookup an instance goes on to write exactly when the key is absent, or readable and of another address number or port |
| RegistrationProofs.StepKeepsInv | app/app.go:464-521 | every step of every instance, request and crash keeps the invariant on phases, store and owners |
| RegistrationProofs.RegistrationOwnership | app/app.go:485-521 | at most one instance is registered for a name, address and port; its key holds its own configuration, and no step of another instance changes that |
| RegistrationProofs.RegistrationLasts | app/grpc.go:85-96 | from registration until the instance's own delete takes effect, in every continuation, through a delete sent, skipped or lost and a crash, the key holds its configuration and nobody else is registered under it |
| RegistrationProofs.FailedNeverDeletes | app/grpc.go:85-96 | in every continuation an instance whose registration returned an error has sent no delete |
| RegistrationProofs.KeyCanServeIff | app/app.go:464-521 | in every reachable state, an IPv4 name, address and port is registered in some continuation if and only if its key is absent, or an owner of it awaits the answer to its create, is registered, or has its delete on the way |
| RegistrationProofs.AbandonedKeyIsBlocked | internal/service/slb/etcdconfig/service_config.go:103-125 | the key of an owner that failed, crashed, or whose delete was not sent or got lost keeps its configuration in every continuation, and nobody registers it |
| RegistrationProofs.RegisteredCanBeAbandoned | app/app.go:439-460 | a crash, a delete not sent and a delete lost each make a registered instance such an owner |
| RegistrationProofs.AmbiguousWriteHappens | internal/service/slb/etcdconfig/service_config.go:117-122 | from every store without the key, the run in which a create takes effect, its client sees an error, and the instance becomes such an owner |
| RegistrationProofs.LateCreateHappens | internal/service/slb/etcdconfig/service_config.go:103-125 | from every state without the key, a run in which the client gives up first, and the create then takes effect and leaves the key behind |
| RegistrationObject.Etcd.WriteConfig | internal/service/slb/etcdconfig/service_config.go:103-125 | creates the key only if it is absent; reports success only if it did |
| RegistrationObject.Etcd.ClearConfig | internal/service/slb/etcdconfig/service_config.go:82-101 | removes the key whoever wrote it, and reports key-not-exist exactly when an answered delete found none |
| RegistrationObject.Process.Register | app/app.go:464-521 | asks for its own port or the one drawn; succeeds exactly when the lookup works, the key was absent and the create is confirmed, and then the key holds the configuration; each of the three errors has its exact condition; a failure changes nothing, or leaves an ambiguous create |
| RegistrationObject.Process.Unregister | app/app.go:439-460 | deletes the key made from the global address and the port; succeeds when the delete is answered, also when the key was gone |
| RegistrationObject.Process.RunGRPC | app/grpc.go:85-96 | after serving, a delete that arrives restores the store exactly; no run ever changes or removes a key that was there before |
| Discovery.ListConfigs | internal/service/slb/etcdconfig/service_config.go:181-216 | fails exactly when the request fails, the directory does not exist (key-not-exist) or a child does not decode, and otherwise returns exactly the decodable children of the directory |
| Discovery.ListingIs | internal/service/slb/etcdconfig/service_config.go:181-216 | in every reachable state and for every service: key-not-exist exactly while the directory was not there from the start and no create below it took effect; otherwise an error exactly when a value there from the start, directly below it, is undecodable; otherwise exactly the decodable values directly below it |
| Discovery.ChildIff | internal/service/slb/etcdconfig/service_config.go:199-212 | a listed key is the directory, a slash and one more part |
| Discovery.AskWithRetry | util/client_conn/resolver.go:89-95 | asks at most three times, up to the first listing; an error is that of the third question |
| Discovery.BuildAddresses | util/client_conn/resolver.go:110-123 | one address for each listed key, each made from that key's configuration |
| Discovery.AddressText | util/client_conn/resolver.go:111-117 | ip:port written out for IPv4 and for any other text, and service name:port exactly for an empty ip |
| Discovery.ResolverServiceConfig | util/client_conn/resolver.go:82-127 | pushes nothing when the listing failed three times or was empty; what it pushes is never empty and has one address per key |
| Discovery.GetEndpoints | util/client_conn/client_conn.go:106-127 | an error and no endpoints, or one endpoint per listed key |
| Discovery.RegisteredIsDiscovered | util/client_conn/resolver.go:106-126 | whatever the store began with: while an instance is registered a listing of its service succeeds if and only if no value there from the start is undecodable; its ip:port is among the addresses, and exactly once if and only if no entry there from the start carries it |
| LimiterProofs.StepKeepsInv | util/middleware/rate_limit.go:23-72 | every load, select, store, close, handler end and return keeps the invariant |
| LimiterProofs.TicketsAreRequestsInFlight | util/middleware/rpc_ratelimit.go:22-46 | in every run, across shutdown, tickets in the channel = requests in flight ≤ maxConcurrent + 1, and ReturnTicket never takes its default branch |
| LimiterProofs.SelectIff | util/middleware/rate_limit.go:49-58 | in every reachable state: a ticket can be taken exactly when the channel is open and at most maxConcurrent requests are in flight, a request is turned away exactly at maxConcurrent + 1 with nothing closed, and the shutdown and the panic exactly when the application and the channel are closed |
| LimiterProofs.BoundIsAttained | util/middleware/rate_limit.go:8-15 | for every limit there is a run with maxConcurrent + 1 requests in flight |
| LimiterProofs.NoAdmissionAfterStore | util/middleware/rate_limit.go:44-46 | once the flag is stored, a request that had not loaded it is never admitted |
| LimiterProofs.NoAdmissionAfterClose | util/middleware/rate_limit.go:52-55 | once the channel is closed nothing is admitted in any continuation |
| LimiterProofs.PanicsOnlyAfterClose | util/middleware/rate_limit.go:49-58 | the limiter panics only once the channel is closed, and such a request holds no ticket |
| LimiterProofs.PanicIff | util/middleware/rate_limit.go:37-59 | in every reachable state, some continuation has a further panic if and only if the flag is not stored, or a request that loaded 0 is not past its select and shutdown while the channel is closed, or two such requests are left |
| LimiterProofs.LimiterCanPanic | util/middleware/rate_limit.go:52-55 | for every limit a run in which the limiter panics |
| LimiterProofs.LateAdmissionIff | util/middleware/rate_limit.go:37-59 | in every reachable state, some continuation admits a request that has not passed its select if and only if the flag is not stored, or the channel is not closed and some request has loaded 0 |
| LimiterProofs.LateAdmission | util/middleware/rate_limit.go:44-55 | for every limit, a run that admits a request after the shutdown flag is stored |
| LimiterObject.KelvinsRateLimit.TakeTicket | util/middleware/rate_limit.go:37-59 | a request that moves alone takes a ticket exactly when the flag is not stored, there is room and the shutdown case is not chosen; the shutdown case stores the flag and closes the channel, and never panics |
| LimiterObject.KelvinsRateLimit.Intercept | util/middleware/rpc_ratelimit.go:22-46 | from whatever state, the ticket is back at the end of the request, also when the handler panics, and the request has finished or was rejected |
| Text.FormatParseInt | util/middleware/rpc_token.go:65-68 | printing and parsing an integer gives it back exactly when it is a 64-bit integer |
| Text.ParsesIff | util/middleware/rpc_token.go:65-68 | exactly the texts that parse, and as what: an optional sign, any zeros, a decimal number, in the 64-bit range |
| Text.HexRoundTrip | util/middleware/rpc_token.go:127-130 | decoding the printed hex gives the bytes back; it contains no dot |
| Text.HexText | util/middleware/rpc_token.go:127-130 | two lower-case digits for each byte, the high one first |
| Text.HexDecodesIff | util/middleware/rpc_token.go:127-130 | exactly the texts of an even number of hexadecimal digits in either case decode |
| Token.TokenRoundTrip | util/middleware/rpc_token.go:113-133 | any signature and any message, dots included, are read back from the printed header with version v1 |
| Token.HeaderText | util/middleware/rpc_token.go:42-50 | the header written out: "Bearer v1.", the hex signature of the seconds, a dot, the seconds |
| Token.EveryHeader | util/middleware/rpc_token.go:86-133 | every header: unauthenticated exactly without a bearer scheme and three parts with hexadecimal in the middle; with them accepted exactly when the version is v1, the signature that of the message and the time inside the window; otherwise denied |
| Token.EqualFoldIff | util/middleware/rpc_token.go:113-117 | the scheme compares equal in small letters and capitals, and nothing else does |
| Token.AcceptedIsSigned | util/middleware/rpc_token.go:91-111 | whatever is accepted is the printed header of its message and signature up to the case of the scheme and of the hex digits, and is timed inside the window |
| Token.TokenWindow | util/middleware/rpc_token.go:59-83 | a token is accepted exactly when its issue time, cut to seconds, is within the validity of the check (thirty seconds if that is negative), and denied otherwise |
| Token.TokenWindowBounds | util/middleware/rpc_token.go:70-82 | accepted from issue − d to issue + d − 1s; denied after issue + d and from issue − d − 1s back |
| RoundRobin.ConsecutivePicksAreAPermutation | util/client_conn/balancer.go:43-49 | any n consecutive picks take each of the n connections exactly once |
| RoundRobin.Fairness | util/client_conn/balancer.go:43-49 | after k picks from any start each connection was picked k/n times, rounded down or up |
| RoundRobin.Picker.Pick | util/client_conn/balancer.go:43-49 | returns the connection whose turn it is and passes the turn on to the next one, after the last to the first |
| RoundRobin.Picker.PickMany | util/client_conn/balancer.go:43-49 | k picks take every connection k/n times, rounded down or up |
| RoundRobin.Build | util/client_conn/balancer.go:23-35 | no picker for no ready connections; otherwise each ready connection exactly once, and the first turn where the random number says |

## Left out

- Durations in the pool: a timed send may expire at any moment, so the one-second substitute for a past deadline is not modelled.
- A second concurrent caller of `Release`, whose stop signals could meet each other, and the panic of `sync.WaitGroup` when an `Add` meets a `Wait` that is about to return.
- Jobs that never end or that send to their own pool; a job that panics ends like any other.
- ConnCacheTheorems.AtMostOneOpen: uniqueness is claimed only beyond connections evicted or refused by the cache, because with an eviction it is false (`EvictionBreaksUniqueness`).
- ConnCacheObject.ConnClients.GetConn: describes a call that finds the mutex of its service free and moves alone; under contention the theorems about runs apply.
- LimiterObject.KelvinsRateLimit.Intercept: describes a request that moves alone, with the handler as one step; interleaved requests are covered by the theorems about runs.
- PoolObject.GoroutinePool.FinishRelease: no job is sent while it runs, and `SendJob`, `SendJobTimed` and `WaitAll` describe one caller before a release; concurrent callers are covered by the theorems about runs.
- gRPC connections beyond their connectivity state, the LRU order and expiry of gcache, dial options and their order.
- Events before the etcd watcher's first `Next`, a failing `NewEtcd` in `Watch`, and retrying a resolution whose listing failed: the source does not retry it either.
- etcd client failover: each request takes effect at most once, and only instances of this framework write to or delete from the store after it began.
- JSON as text: a node's value is a configuration, undecodable or empty; nested etcd directories, which the listing skips, and a create below a key that holds a value.
- Instances whose outbound address is not IPv4: `To4` gives nil for them and the key has 0 for all of them (`InstanceKeyEqualIff`); the theorems about registration are for IPv4.
- `NewKelvinsRateLimit` with a limit of zero or less, which never limits and for which the interceptors are not installed.
- HMAC-SHA256 itself (any function of secret and message), metadata lookup around the authorization header, and overflow of times beyond the 64-bit second count.
- HTTP, cron and queue applications, set-up code, configuration, logging, metrics and process control.
