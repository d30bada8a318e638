/**
 * The two registry scenarios of processor_manager_test.go, driven through the
 * builder object exactly as the tests do, with what they require stated as
 * postconditions.
 */
module ProcessorManagerScenarios {

  import opened Wrappers
  import opened ProcessorManager

  const ForkId1: ForkIdType := 1
  const ForkId2: ForkIdType := 2
  const Event1: EventOrder := "event1"
  const Event2: EventOrder := "event2"

  const ProcessorConcrete := Processor("processor_event1_forkid1", [Event1], [ForkId1], Success)
  const ProcessorConcreteForkId2 := Processor("processor_event2_forkid2", [Event2], [ForkId2], Success)
  const ProcessorWildcard := Processor("processor_event1_forkidWildcard", [Event1], [WildcardForkId], Success)
  const ProcessorConcreteEvent2 :=
    Processor("processor_event1_forkid1", [Event2], [ForkId1], Failure(HandlerError("error2")))

  /** The registrations of the Get test, in their order. */
  const GetTestRegistrations := [ProcessorConcrete, ProcessorWildcard, ProcessorConcreteForkId2]

  /** The registrations of the Process test, in their order. */
  const ProcessTestRegistrations := [ProcessorConcrete, ProcessorConcreteEvent2]

  /** Resolution in the Get test: the concrete processor shadows the wildcard
      one registered after it, the wildcard one serves fork 2, and event2 on
      fork 1 finds nothing. */
  lemma GetTestResolution()
    ensures BuildFrom(GetTestRegistrations).Get(ForkId1, Event1) == Some(ProcessorConcrete)
    ensures BuildFrom(GetTestRegistrations).Get(ForkId2, Event1) == Some(ProcessorWildcard)
    ensures BuildFrom(GetTestRegistrations).Get(ForkId1, Event2) == None
  {
    assert Event1 != Event2;
    var ps := GetTestRegistrations;
    UniqueClaimantResolved(ps, 0, ForkId1, Event1);
    assert !Claims(ps[0], ForkId2, Event1) && !Claims(ps[1], ForkId2, Event1) && !Claims(ps[2], ForkId2, Event1);
    UniqueWildcardResolved(ps, 1, ForkId2, Event1);
    assert !Claims(ps[0], ForkId1, Event2) && !Claims(ps[1], ForkId1, Event2) && !Claims(ps[2], ForkId1, Event2);
    assert !Claims(ps[0], WildcardForkId, Event2) && !Claims(ps[1], WildcardForkId, Event2)
      && !Claims(ps[2], WildcardForkId, Event2);
    NoCrossForkLeakage(ps, ForkId1, Event2);
  }

  /** Dispatch in the Process test: success and the "error2" error come back
      as the processors returned them, and event1 on fork 2 fails with
      CantProcessThisEvent. */
  lemma ProcessTestDispatch()
    ensures BuildFrom(ProcessTestRegistrations).Process(ForkId1, Order(Event1, 0)) == ProcessorConcrete.responseProcess
    ensures BuildFrom(ProcessTestRegistrations).Process(ForkId1, Order(Event2, 0))
      == ProcessorConcreteEvent2.responseProcess
    ensures BuildFrom(ProcessTestRegistrations).Process(ForkId2, Order(Event1, 0))
      == Failure(CantProcessThisEvent(Event1, ForkId2))
  {
    assert Event1 != Event2;
    var ps := ProcessTestRegistrations;
    ProcessPassesThrough(ps, 0, ForkId1, Order(Event1, 0));
    ProcessPassesThrough(ps, 1, ForkId1, Order(Event2, 0));
    assert !Claims(ps[0], ForkId2, Event1) && !Claims(ps[1], ForkId2, Event1);
    assert !Claims(ps[0], WildcardForkId, Event1) && !Claims(ps[1], WildcardForkId, Event1);
    ProcessDispatch(ps, ForkId2, Order(Event1, 0));
  }

  /** TestL1EventProcessors_Get, driven through the builder object. */
  method GetScenario() returns (concrete: Option<Processor>, wildcard: Option<Processor>, none: Option<Processor>)
    ensures concrete == Some(ProcessorConcrete)
    ensures wildcard == Some(ProcessorWildcard)
    ensures none == None
  {
    var builder := new L1EventProcessorsBuilder();
    builder.Register(ProcessorConcrete);
    builder.Register(ProcessorWildcard);
    builder.Register(ProcessorConcreteForkId2);
    var sut := builder.Build();
    assert builder.registered == GetTestRegistrations;
    GetTestResolution();
    concrete := sut.Get(ForkId1, Event1);
    wildcard := sut.Get(ForkId2, Event1);
    none := sut.Get(ForkId1, Event2);
  }

  /** TestL1EventProcessors_Process, driven through the builder object. */
  method ProcessScenario() returns (ok: Outcome, handlerErr: Outcome, notFound: Outcome)
    ensures ok == Success
    ensures handlerErr == Failure(HandlerError("error2"))
    ensures notFound.Failure? && notFound.err.CantProcessThisEvent?
  {
    var builder := new L1EventProcessorsBuilder();
    builder.Register(ProcessorConcrete);
    builder.Register(ProcessorConcreteEvent2);
    var sut := builder.Build();
    assert builder.registered == ProcessTestRegistrations;
    ProcessTestDispatch();
    ok := sut.Process(ForkId1, Order(Event1, 0));
    handlerErr := sut.Process(ForkId1, Order(Event2, 0));
    notFound := sut.Process(ForkId2, Order(Event1, 0));
  }
}
