/**
 * The L1 event-processor registry of the synchronizer: a builder that records,
 * for every (fork id, event) pair a processor declares, which processor handles
 * it, and the frozen registry that resolves a pair (exact entry first, then the
 * wildcard fork's entry) and dispatches an event order to the resolved processor.
 */
module ProcessorManager {

  import opened Wrappers

  /** Fork ids, taken as unsigned 64-bit integers (an assumption: the width of
      the fork id type is not part of this model). */
  newtype ForkIdType = x: int | 0 <= x < 0x1_0000_0000_0000_0000

  /** The reserved fork id whose entries apply to every fork. */
  const WildcardForkId: ForkIdType := 0

  /** The name of a class of L1 event ("event1", ...). */
  type EventOrder = string

  /** One occurrence of an event inside a block: its name and its position. */
  datatype Order = Order(name: EventOrder, pos: int)

  /** What processing an event returns: nil, or an error. */
  datatype Error =
    | HandlerError(message: string)
    | CantProcessThisEvent(event: EventOrder, forkId: ForkIdType)

  datatype Outcome = Success | Failure(err: Error)

  /** The capability set of a processor: its name, the events and fork ids it
      supports, and the fixed outcome its processing returns. */
  datatype Processor = Processor(
    name: string,
    supportedEvents: seq<EventOrder>,
    supportedForkIds: seq<ForkIdType>,
    responseProcess: Outcome)
  {
    /** Processing an order gives the processor's own fixed outcome. */
    function Process(order: Order): Outcome
    {
      responseProcess
    }
  }

  /** True when processor p declares support for event e on fork f. */
  predicate Claims(p: Processor, f: ForkIdType, e: EventOrder)
  {
    f in p.supportedForkIds && e in p.supportedEvents
  }

  /** The pairs p declares: its fork ids times its events. */
  function ClaimSet(p: Processor): set<(ForkIdType, EventOrder)>
  {
    set f, e | f in p.supportedForkIds && e in p.supportedEvents :: (f, e)
  }

  type Table = map<(ForkIdType, EventOrder), Processor>

  /** The table after registering p on top of m: every pair p declares now maps
      to p (a pair already present is overwritten), every other entry is kept. */
  function WithProcessor(m: Table, p: Processor): (r: Table)
    ensures forall f, e :: Claims(p, f, e) ==> (f, e) in r && r[(f, e)] == p
    ensures forall f, e :: !Claims(p, f, e) ==> ((f, e) in r <==> (f, e) in m)
    ensures forall f, e :: !Claims(p, f, e) && (f, e) in m ==> r[(f, e)] == m[(f, e)]
  {
    m + map k | k in ClaimSet(p) :: p
  }

  /** A table that holds p on exactly the pairs p declares, and agrees with m
      everywhere else, is WithProcessor(m, p). */
  lemma WithProcessorPointwise(m: Table, t: Table, p: Processor)
    requires forall k :: k in t <==> k in m || (k.0 in p.supportedForkIds && k.1 in p.supportedEvents)
    requires forall k :: k in t && k.0 in p.supportedForkIds && k.1 in p.supportedEvents ==> t[k] == p
    requires forall k :: k in t && !(k.0 in p.supportedForkIds && k.1 in p.supportedEvents) ==> t[k] == m[k]
    ensures t == WithProcessor(m, p)
  {
    assert forall k :: k in ClaimSet(p) <==> k.0 in p.supportedForkIds && k.1 in p.supportedEvents;
  }

  /** The table obtained by registering ps, in order, on a fresh builder. */
  function RegisterAll(ps: seq<Processor>): Table
  {
    if ps == [] then map[]
    else WithProcessor(RegisterAll(ps[..|ps| - 1]), ps[|ps| - 1])
  }

  /** Some processor among ps declares (f, e). */
  ghost predicate ClaimedIn(ps: seq<Processor>, f: ForkIdType, e: EventOrder)
  {
    exists i :: 0 <= i < |ps| && Claims(ps[i], f, e)
  }

  /** No two processors of ps that differ declare the same pair. */
  ghost predicate NoConflicts(ps: seq<Processor>)
  {
    forall i, j, f, e :: 0 <= i < |ps| && 0 <= j < |ps| && Claims(ps[i], f, e) && Claims(ps[j], f, e)
      ==> ps[i] == ps[j]
  }

  /** The frozen registry produced by Build. */
  datatype L1EventProcessors = L1EventProcessors(processors: Table)
  {
    /** The processor for (forkId, event): the exact entry if there is one,
        otherwise the wildcard fork's entry for event, otherwise none. */
    function Get(forkId: ForkIdType, event: EventOrder): (r: Option<Processor>)
      ensures r.Some? ==> r.value in processors.Values
      ensures r.None? <==> (forkId, event) !in processors && (WildcardForkId, event) !in processors
    {
      if (forkId, event) in processors then Some(processors[(forkId, event)])
      else if (WildcardForkId, event) in processors then Some(processors[(WildcardForkId, event)])
      else None
    }

    /** Resolve the processor by the order's name and return its outcome
        unchanged; fail with CantProcessThisEvent when none resolves. */
    function Process(forkId: ForkIdType, order: Order): (r: Outcome)
    {
      match Get(forkId, order.name)
      case Some(p) => p.Process(order)
      case None => Failure(CantProcessThisEvent(order.name, forkId))
    }
  }

  /** The registry built from registering ps in order. */
  function BuildFrom(ps: seq<Processor>): L1EventProcessors
  {
    L1EventProcessors(RegisterAll(ps))
  }

  /** The builder: accumulates registrations, then freezes them. */
  class L1EventProcessorsBuilder {
    var processors: Table
    /** The processors registered so far, in order. */
    ghost var registered: seq<Processor>

    ghost predicate Valid()
      reads this
    {
      processors == RegisterAll(registered)
    }

    /** NewL1EventProcessorsBuilder: an empty builder. */
    constructor ()
      ensures Valid() && registered == [] && processors == map[]
    {
      processors := map[];
      registered := [];
    }

    /** Record p under every pair of p.supportedForkIds times p.supportedEvents. */
    method Register(p: Processor)
      requires Valid()
      modifies this
      ensures Valid()
      ensures registered == old(registered) + [p]
      ensures processors == WithProcessor(old(processors), p)
    {
      var forks := p.supportedForkIds;
      var events := p.supportedEvents;
      ghost var m0, h := processors, registered;
      for i := 0 to |forks|
        invariant forall k :: k in processors <==> k in m0 || (k.0 in forks[..i] && k.1 in events)
        invariant forall k :: k in processors && k.0 in forks[..i] && k.1 in events ==> processors[k] == p
        invariant forall k :: k in processors && !(k.0 in forks[..i] && k.1 in events) ==> processors[k] == m0[k]
      {
        for j := 0 to |events|
          invariant forall k :: k in processors <==>
            k in m0 || (k.0 in forks[..i] && k.1 in events) || (k.0 == forks[i] && k.1 in events[..j])
          invariant forall k :: (k in processors && ((k.0 in forks[..i] && k.1 in events) || (k.0 == forks[i] && k.1 in events[..j]))
            ==> processors[k] == p)
          invariant forall k :: (k in processors && !((k.0 in forks[..i] && k.1 in events) || (k.0 == forks[i] && k.1 in events[..j]))
            ==> processors[k] == m0[k])
        {
          assert events[..j + 1] == events[..j] + [events[j]];
          processors := processors[(forks[i], events[j]) := p];
        }
        assert forks[..i + 1] == forks[..i] + [forks[i]];
        assert events[..|events|] == events;
      }
      assert forks[..|forks|] == forks;
      WithProcessorPointwise(m0, processors, p);
      registered := h + [p];
      assert registered[..|h|] == h;
    }

    /** Freeze the registrations into a registry. */
    method Build() returns (r: L1EventProcessors)
      requires Valid()
      ensures r == BuildFrom(registered)
    {
      r := L1EventProcessors(processors);
    }
  }

  // ---------------------------------------------------------------------
  // Properties of the registrations

  /** The index of the last processor of ps declaring (f, e), or -1 if none does. */
  function LastClaim(ps: seq<Processor>, f: ForkIdType, e: EventOrder): (i: int)
    ensures -1 <= i < |ps|
    ensures i >= 0 ==> Claims(ps[i], f, e)
    ensures forall j :: i < j < |ps| ==> !Claims(ps[j], f, e)
  {
    if ps == [] then -1
    else if Claims(ps[|ps| - 1], f, e) then |ps| - 1
    else LastClaim(ps[..|ps| - 1], f, e)
  }

  /** An entry exists for (f, e) exactly when some registered processor declares
      it, and it holds the last processor that does (the last registration of a
      pair wins). */
  lemma {:induction false} RegisterAllEntry(ps: seq<Processor>, f: ForkIdType, e: EventOrder)
    ensures (f, e) in RegisterAll(ps) <==> LastClaim(ps, f, e) >= 0
    ensures (f, e) in RegisterAll(ps) ==> RegisterAll(ps)[(f, e)] == ps[LastClaim(ps, f, e)]
    ensures ClaimedIn(ps, f, e) <==> LastClaim(ps, f, e) >= 0
  {
    if ps != [] {
      var init := ps[..|ps| - 1];
      RegisterAllEntry(init, f, e);
    }
  }

  /** Every processor the registry holds is one that was registered. */
  lemma {:induction false} RegisterAllValues(ps: seq<Processor>)
    ensures forall k :: k in RegisterAll(ps) ==> RegisterAll(ps)[k] in ps
  {
    forall k | k in RegisterAll(ps)
      ensures RegisterAll(ps)[k] in ps
    {
      RegisterAllEntry(ps, k.0, k.1);
    }
  }

  /** Registering p covers its whole cross product with p. */
  lemma RegisterCoversCrossProduct(ps: seq<Processor>, p: Processor, f: ForkIdType, e: EventOrder)
    requires f in p.supportedForkIds && e in p.supportedEvents
    ensures BuildFrom(ps + [p]).Get(f, e) == Some(p)
  {
  }

  /** Get resolved fully: it finds a processor exactly when the pair or the
      wildcard pair was declared, and the one it finds declares the exact pair
      whenever any registered processor does, else the wildcard pair. */
  lemma GetResolution(ps: seq<Processor>, f: ForkIdType, e: EventOrder)
    ensures BuildFrom(ps).Get(f, e).Some? <==> ClaimedIn(ps, f, e) || ClaimedIn(ps, WildcardForkId, e)
    ensures BuildFrom(ps).Get(f, e).Some? ==>
      var q := BuildFrom(ps).Get(f, e).value;
      q in ps && if ClaimedIn(ps, f, e) then Claims(q, f, e) else Claims(q, WildcardForkId, e)
  {
    RegisterAllEntry(ps, f, e);
    RegisterAllEntry(ps, WildcardForkId, e);
  }

  /** Exact match wins: a concrete declaration of (f, e) anywhere in the
      registration order shadows any wildcard declaration for e. */
  lemma ExactMatchWins(ps: seq<Processor>, f: ForkIdType, e: EventOrder)
    requires ClaimedIn(ps, f, e)
    ensures BuildFrom(ps).Get(f, e).Some?
    ensures BuildFrom(ps).Get(f, e).value in ps && Claims(BuildFrom(ps).Get(f, e).value, f, e)
  {
    GetResolution(ps, f, e);
  }

  /** When one processor alone declares (f, e), Get returns it, wherever the
      wildcard processors stand in the registration order. */
  lemma UniqueClaimantResolved(ps: seq<Processor>, i: nat, f: ForkIdType, e: EventOrder)
    requires i < |ps| && Claims(ps[i], f, e)
    requires forall j :: 0 <= j < |ps| && Claims(ps[j], f, e) ==> ps[j] == ps[i]
    ensures BuildFrom(ps).Get(f, e) == Some(ps[i])
  {
    RegisterAllEntry(ps, f, e);
  }

  /** Wildcard fallback: with no declaration of (f, e), Get returns a processor
      declared for (WildcardForkId, e), when there is one. */
  lemma WildcardFallback(ps: seq<Processor>, f: ForkIdType, e: EventOrder)
    requires !ClaimedIn(ps, f, e) && ClaimedIn(ps, WildcardForkId, e)
    ensures BuildFrom(ps).Get(f, e).Some?
    ensures BuildFrom(ps).Get(f, e).value in ps && Claims(BuildFrom(ps).Get(f, e).value, WildcardForkId, e)
  {
    GetResolution(ps, f, e);
  }

  /** When exactly one processor declares (WildcardForkId, e) and none declares
      (f, e), Get(f, e) returns that wildcard processor. */
  lemma UniqueWildcardResolved(ps: seq<Processor>, i: nat, f: ForkIdType, e: EventOrder)
    requires i < |ps| && Claims(ps[i], WildcardForkId, e)
    requires forall j :: 0 <= j < |ps| && Claims(ps[j], WildcardForkId, e) ==> ps[j] == ps[i]
    requires !ClaimedIn(ps, f, e)
    ensures BuildFrom(ps).Get(f, e) == Some(ps[i])
  {
    RegisterAllEntry(ps, f, e);
    RegisterAllEntry(ps, WildcardForkId, e);
  }

  /** No cross-fork leakage: a pair nobody declared, concretely or by wildcard,
      resolves to nothing. */
  lemma NoCrossForkLeakage(ps: seq<Processor>, f: ForkIdType, e: EventOrder)
    requires !ClaimedIn(ps, f, e) && !ClaimedIn(ps, WildcardForkId, e)
    ensures BuildFrom(ps).Get(f, e) == None
  {
    GetResolution(ps, f, e);
  }

  /** Process returns the resolved processor's outcome verbatim (success or
      error), fails with CantProcessThisEvent naming the event and fork when no
      processor resolves, and ignores the order's position. The processor whose
      response comes back declares the exact pair whenever any processor does,
      and the wildcard pair otherwise. */
  lemma ProcessDispatch(ps: seq<Processor>, f: ForkIdType, order: Order)
    ensures !ClaimedIn(ps, f, order.name) && !ClaimedIn(ps, WildcardForkId, order.name) ==>
      BuildFrom(ps).Process(f, order) == Failure(CantProcessThisEvent(order.name, f))
    ensures ClaimedIn(ps, f, order.name) || ClaimedIn(ps, WildcardForkId, order.name) ==>
      exists q :: q in ps && BuildFrom(ps).Process(f, order) == q.responseProcess
        && if ClaimedIn(ps, f, order.name) then Claims(q, f, order.name) else Claims(q, WildcardForkId, order.name)
    ensures forall pos :: BuildFrom(ps).Process(f, order) == BuildFrom(ps).Process(f, Order(order.name, pos))
  {
    GetResolution(ps, f, order.name);
  }

  /** A handler's error comes back unchanged: when one processor alone declares
      the concrete pair, Process returns exactly its response. */
  lemma ProcessPassesThrough(ps: seq<Processor>, i: nat, f: ForkIdType, order: Order)
    requires i < |ps| && Claims(ps[i], f, order.name)
    requires forall j :: 0 <= j < |ps| && Claims(ps[j], f, order.name) ==> ps[j] == ps[i]
    ensures BuildFrom(ps).Process(f, order) == ps[i].responseProcess
  {
    UniqueClaimantResolved(ps, i, f, order.name);
  }

  /** A wildcard processor's response comes back unchanged too: when no
      processor declares the concrete pair and one alone declares the wildcard
      pair, Process returns exactly that processor's response. */
  lemma WildcardProcessPassesThrough(ps: seq<Processor>, i: nat, f: ForkIdType, order: Order)
    requires i < |ps| && Claims(ps[i], WildcardForkId, order.name)
    requires forall j :: 0 <= j < |ps| && Claims(ps[j], WildcardForkId, order.name) ==> ps[j] == ps[i]
    requires !ClaimedIn(ps, f, order.name)
    ensures BuildFrom(ps).Process(f, order) == ps[i].responseProcess
  {
    UniqueWildcardResolved(ps, i, f, order.name);
  }

  /** Without conflicting declarations, the registration order does not matter:
      the same processors registered in any order build the same table. */
  lemma RegistrationOrderIrrelevant(ps: seq<Processor>, qs: seq<Processor>)
    requires NoConflicts(qs)
    requires forall p :: p in ps <==> p in qs
    ensures RegisterAll(ps) == RegisterAll(qs)
  {
    NoConflictsShared(ps, qs);
    forall k | true
      ensures k in RegisterAll(ps) <==> k in RegisterAll(qs)
      ensures k in RegisterAll(ps) ==> RegisterAll(ps)[k] == RegisterAll(qs)[k]
    {
      SameClaimant(ps, qs, k.0, k.1);
      SameClaimant(qs, ps, k.0, k.1);
    }
  }

  /** One key of RegistrationOrderIrrelevant. */
  lemma SameClaimant(ps: seq<Processor>, qs: seq<Processor>, f: ForkIdType, e: EventOrder)
    requires NoConflicts(qs)
    requires forall p :: p in ps ==> p in qs
    ensures (f, e) in RegisterAll(ps) ==> (f, e) in RegisterAll(qs) && RegisterAll(ps)[(f, e)] == RegisterAll(qs)[(f, e)]
  {
    RegisterAllEntry(ps, f, e);
    RegisterAllEntry(qs, f, e);
    if (f, e) in RegisterAll(ps) {
      var i := LastClaim(ps, f, e);
      assert ps[i] in qs;
      var j :| 0 <= j < |qs| && qs[j] == ps[i];
    }
  }

  /** Freedom from conflicts depends only on which processors occur. */
  lemma NoConflictsShared(ps: seq<Processor>, qs: seq<Processor>)
    requires NoConflicts(qs)
    requires forall p :: p in ps ==> p in qs
    ensures NoConflicts(ps)
  {
    forall i, j, f, e | 0 <= i < |ps| && 0 <= j < |ps| && Claims(ps[i], f, e) && Claims(ps[j], f, e)
      ensures ps[i] == ps[j]
    {
      assert ps[i] in qs && ps[j] in qs;
      var a :| 0 <= a < |qs| && qs[a] == ps[i];
      var b :| 0 <= b < |qs| && qs[b] == ps[j];
    }
  }
}
