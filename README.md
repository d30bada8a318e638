# L1 event-processor registry and dispatcher

A Dafny model of `synchronizer/actions/processor_manager` of the zkEVM node:
the part of the L1 synchronizer that decides which event processor handles an
event of a given type under a given fork id, and forwards the event to it.

- `L1EventProcessorsBuilder` (a class) is the builder returned by
  `NewL1EventProcessorsBuilder()`. Its `Register(p)` records `p` under every
  pair of `p.SupportedForkIds() × p.SupportedEvents()` by nested loops that
  update its `processors` map. A ghost history `registered` lists the
  registrations in order, and `Valid()` ties the map to
  `RegisterAll(registered)`. `Build()` freezes the map into an immutable
  `L1EventProcessors` value.
- `L1EventProcessors.Get(forkId, event)` returns the exact `(forkId, event)`
  entry if there is one. Otherwise it returns the entry of
  `(WildcardForkId, event)`. Otherwise it returns `None`, the model of nil.
- `L1EventProcessors.Process(forkId, order)` resolves by `order.name`. It
  returns the resolved processor's outcome unchanged. If nothing resolves,
  it returns `Failure(CantProcessThisEvent(order.name, forkId))`.
- A processor is the capability set of the test's `ProcessorStub`: name,
  supported events, supported fork ids and a fixed processing outcome.
  `Outcome` (`Success` or `Failure(err)`) models Go's `error` return value,
  where nil is `Success`.

The implementation file of the package is not part of this model. Its
behaviour is taken from the contract that `processor_manager_test.go` asserts.
The lemmas state it for every sequence of registrations, not only the tests'.
They cover these properties:

- an exact entry shadows the wildcard entry, whatever the registration order;
- the wildcard entry is the fallback;
- nothing leaks across forks;
- results pass through `Process` unchanged;
- without conflicting declarations, the registration order does not matter.

No test registers two processors for the same pair. The model does a plain
map update, so the last registration wins. `RegisterAllEntry` states this
policy; it is not claimed of the source.

Module layout: `Wrappers` (`Option`), `ProcessorManager` (data, builder,
registry, lemmas), `ProcessorManagerScenarios` (the two tests, as lemmas over
the registrations and as methods driving the builder object).

## Model

| member | source | states |
|---|---|---|
| ProcessorManager.WithProcessor | synchronizer/actions/processor_manager/processor_manager_test.go:63-66 | after registering p, every pair p declares maps to p; every other pair is present and mapped exactly as before |
| ProcessorManager.WithProcessorPointwise | synchronizer/actions/processor_manager/processor_manager_test.go:64-66 | a table holding p on exactly p's fork ids × events, and agreeing with m elsewhere, equals WithProcessor(m, p) |
| ProcessorManager.L1EventProcessorsBuilder.constructor | synchronizer/actions/processor_manager/processor_manager_test.go:63 | a new builder has no registrations and an empty table |
| ProcessorManager.L1EventProcessorsBuilder.Register | synchronizer/actions/processor_manager/processor_manager_test.go:64-66 | the loops over fork ids × events leave the table equal to WithProcessor of the old table; the history grows by p; Valid() is kept |
| ProcessorManager.L1EventProcessorsBuilder.Build | synchronizer/actions/processor_manager/processor_manager_test.go:67 | the registry built is the one specified by the registrations made, in order |
| ProcessorManager.LastClaim | synchronizer/actions/processor_manager/processor_manager_test.go:63-67 | the index returned declares (f, e) and no later registration does, or it is -1 |
| ProcessorManager.RegisterAllEntry | synchronizer/actions/processor_manager/processor_manager_test.go:63-67 | an entry for (f, e) exists iff some registered processor declares (f, e), and it holds the last such processor |
| ProcessorManager.RegisterAllValues | synchronizer/actions/processor_manager/processor_manager_test.go:63-67 | every processor stored in the table is one of the registered processors |
| ProcessorManager.RegisterCoversCrossProduct | synchronizer/actions/processor_manager/processor_manager_test.go:45-67 | right after Register(p), Get returns p for every pair of p's fork ids × events |
| ProcessorManager.L1EventProcessors.Get | synchronizer/actions/processor_manager/processor_manager_test.go:69-74 | the result is a stored processor; it is none iff neither the exact pair nor the wildcard pair has an entry |
| ProcessorManager.GetResolution | synchronizer/actions/processor_manager/processor_manager_test.go:69-74 | Get finds a processor iff the pair or the wildcard pair was declared; the processor found was registered and declares the exact pair when any processor does, else the wildcard pair |
| ProcessorManager.ExactMatchWins | synchronizer/actions/processor_manager/processor_manager_test.go:69-70 | when the concrete pair is declared anywhere in the registration order, Get returns a processor declaring that concrete pair |
| ProcessorManager.UniqueClaimantResolved | synchronizer/actions/processor_manager/processor_manager_test.go:57-70 | when a single processor declares the concrete pair, Get returns it, whatever wildcard processors are registered before or after it |
| ProcessorManager.WildcardFallback | synchronizer/actions/processor_manager/processor_manager_test.go:71-72 | with no concrete declaration of (f, e), Get returns a processor declared for (WildcardForkId, e), when one exists |
| ProcessorManager.UniqueWildcardResolved | synchronizer/actions/processor_manager/processor_manager_test.go:57-72 | with no concrete declaration and a single wildcard claimant for e, Get returns that wildcard processor |
| ProcessorManager.NoCrossForkLeakage | synchronizer/actions/processor_manager/processor_manager_test.go:51-74 | a pair declared neither concretely nor by wildcard resolves to none, even if the event was declared for another fork |
| ProcessorManager.ProcessDispatch | synchronizer/actions/processor_manager/processor_manager_test.go:100-107 | unresolved events fail with CantProcessThisEvent naming the event and fork; resolved ones return verbatim the response of a processor declaring the exact pair if any does, else the wildcard pair; the order's position never matters |
| ProcessorManager.ProcessPassesThrough | synchronizer/actions/processor_manager/processor_manager_test.go:89-104 | with a single claimant, Process returns exactly that processor's response, success or error |
| ProcessorManager.WildcardProcessPassesThrough | synchronizer/actions/processor_manager/processor_manager_test.go:57-72 | with no concrete claimant and a single wildcard claimant, Process returns exactly that wildcard processor's response |
| ProcessorManager.NoConflictsShared | synchronizer/actions/processor_manager/processor_manager_test.go:63-67 | a registration sequence whose processors all occur in a conflict-free one is conflict-free too |
| ProcessorManager.RegistrationOrderIrrelevant | synchronizer/actions/processor_manager/processor_manager_test.go:63-67 | without conflicting declarations, registering the same processors in any order builds the same table |
| ProcessorManager.SameClaimant | synchronizer/actions/processor_manager/processor_manager_test.go:63-67 | without conflicts in qs, each entry built from ps appears with the same processor in the table built from qs, when ps's processors all occur in qs |
| ProcessorManagerScenarios.GetTestResolution | synchronizer/actions/processor_manager/processor_manager_test.go:37-75 | in the Get test's registrations, (1, event1) gives the concrete processor, (2, event1) the wildcard one and (1, event2) none |
| ProcessorManagerScenarios.ProcessTestDispatch | synchronizer/actions/processor_manager/processor_manager_test.go:77-108 | in the Process test's registrations, event1 on fork 1 gives nil, event2 on fork 1 gives the "error2" error, event1 on fork 2 gives CantProcessThisEvent |
| ProcessorManagerScenarios.GetScenario | synchronizer/actions/processor_manager/processor_manager_test.go:63-74 | the Get test, run through the builder object, gives the three results the test requires |
| ProcessorManagerScenarios.ProcessScenario | synchronizer/actions/processor_manager/processor_manager_test.go:95-107 | the Process test, run through the builder object, gives success, the handler's error and the dedicated error |

## Left out

- `context.Context`, `*etherman.Block` and `pgx.Tx` are opaque values passed through to the processor unchanged, so the model omits them.
- The real processors' processing logic is external. Each processor's outcome is a fixed value, as in the stub.
- `Name()` only identifies a processor and plays no part in resolution. It is a field, with no member of its own.
- Two processors registering the same concrete pair is a case no test covers. The model lets the last one win and claims nothing about the source here.
- The width of `actions.ForkIdType` is taken as unsigned 64 bits, an assumption: the `actions` package is not part of this model.
- The numeric value of `WildcardForkId` is defined in the `actions` package, which is not part of this model. It is taken as 0. Only the scenarios depend on the value, and they need only that it differs from 1 and 2.
- The text of the error that `Process` returns when nothing resolves is not modelled, nor whether it wraps `ErrCantProcessThisEvent` or is that value itself. `CantProcessThisEvent` carries the event and fork id, and `errors.Is` becomes a test of that constructor.
- Concurrent readers of the built registry are out of scope, and so is the claim that it is thread-safe.
- Processor identity is value equality of the processor datatype, not pointer identity. The test compares processors with a deep equality that the model's equality agrees with.
