/** The buyer side of a trade as a pure transition function.

    Each setter of `BuyerTrade` becomes a function from the current trade to
    a `Step`: the updated trade together with the calls the Java object makes
    on its collaborators, in order (releasing the trade protocol, asking the
    open-offer manager to close an offer, asking the trade manager to evict
    the trade, forwarding a user action to the protocol). The wall clock is a
    parameter `now`. The superclass setters are taken to store the new value
    and nothing more. */
module BuyerTrade {
  import opened Wrappers
  import opened TradeStates

  /** `BuyerAsOffererTrade` is an `OffererTrade`; `BuyerAsTakerTrade` is not. */
  datatype Role = AsOfferer | AsTaker

  datatype Offer = Offer(id: string)

  /** A clock reading, in milliseconds since the epoch. */
  type Date = int

  /** A captured failure cause. */
  datatype Cause = Cause(message: string)

  /** The concrete class of the trade's protocol object. */
  datatype TradeProtocol = BuyerProtocol | SellerProtocol

  /** The mutable fields of a buyer trade; `None` stands for Java's `null`. */
  datatype Trade = Trade(
    role: Role,
    offer: Offer,
    protocol: Option<TradeProtocol>,
    processState: Option<ProcessState>,
    lifeCycleState: Option<LifeCycleState>,
    takeOfferDate: Option<Date>,
    throwable: Option<Cause>)

  /** A call the trade makes on a collaborator: releasing its protocol,
      asking the open-offer manager to close the offer, asking the trade
      manager to evict this failed trade, or passing the user's "fiat payment
      started" action on to the buyer protocol. */
  datatype Effect =
    | DisposeProtocol
    | CloseOpenOffer(offer: Offer)
    | RemoveFailedTrade
    | ForwardFiatPaymentStarted

  datatype Step = Step(trade: Trade, effects: seq<Effect>)

  /** How often `e` occurs among the emitted effects. */
  function Count(effects: seq<Effect>, e: Effect): nat {
    multiset(effects)[e]
  }

  predicate IsOffererTrade(t: Trade) {
    t.role == AsOfferer
  }

  predicate Initialized(t: Trade) {
    t.processState.Some? && t.lifeCycleState.Some?
  }

  /** `initStates`: fill in missing states with the initial ones. */
  function InitStates(t: Trade): (r: Trade)
    ensures t.processState.None? ==> r.processState == Some(Undefined)
    ensures t.processState.Some? ==> r.processState == t.processState
    ensures t.lifeCycleState.None? ==> r.lifeCycleState == Some(Preparation)
    ensures t.lifeCycleState.Some? ==> r.lifeCycleState == t.lifeCycleState
    ensures Initialized(r)
    ensures r.(processState := t.processState, lifeCycleState := t.lifeCycleState) == t
  {
    t.(processState := Some(t.processState.GetOr(Undefined)),
       lifeCycleState := Some(t.lifeCycleState.GetOr(Preparation)))
  }

  /** `onFiatPaymentStarted`: only a trade driven by a buyer protocol may
      forward the user's "payment started" action; for any other protocol
      the Java cast fails, so that is the caller's obligation. */
  function OnFiatPaymentStarted(t: Trade): (r: Step)
    requires t.protocol == Some(BuyerProtocol)
    ensures r.trade == t
    ensures Count(r.effects, ForwardFiatPaymentStarted) == 1 && |r.effects| == 1
  {
    Step(t, [ForwardFiatPaymentStarted])
  }

  /** `setLifeCycleState`: store the new state; a terminal state releases the
      trade protocol. */
  function SetLifeCycleState(t: Trade, s: LifeCycleState): (r: Step)
    ensures r.trade.lifeCycleState == Some(s)
    ensures r.trade.(lifeCycleState := t.lifeCycleState) == t
    ensures Count(r.effects, DisposeProtocol) == (if IsTerminal(s) then 1 else 0)
    ensures forall e :: e in r.effects ==> e == DisposeProtocol
  {
    var u := t.(lifeCycleState := Some(s));
    match s
    case Failed => Step(u, [DisposeProtocol])
    case Completed => Step(u, [DisposeProtocol])
    case _ => Step(u, [])
  }

  /** The common body of the `TIMEOUT` and `FAULT` cases: release the
      protocol, fail the trade (which releases it again), evict the trade. */
  function Abandon(t: Trade): (r: Step)
    ensures r.trade == t.(lifeCycleState := Some(Failed))
    ensures Count(r.effects, DisposeProtocol) == 2
    ensures Count(r.effects, RemoveFailedTrade) == 1
    ensures |r.effects| == 3 && r.effects[2] == RemoveFailedTrade
    ensures forall e :: e in r.effects ==> e == DisposeProtocol || e == RemoveFailedTrade
  {
    var failed := SetLifeCycleState(t, Failed);
    Step(failed.trade, [DisposeProtocol] + failed.effects + [RemoveFailedTrade])
  }

  /** `setProcessState`: store the new state, then react to the new value
      alone (never to the transition). */
  function SetProcessState(t: Trade, s: ProcessState, now: Date): (r: Step)
    ensures r.trade.processState == Some(s)
    ensures r.trade.role == t.role && r.trade.offer == t.offer && r.trade.protocol == t.protocol
    ensures r.trade.throwable == t.throwable
    // the deposit milestone stamps the take-offer date, every time it is set
    ensures r.trade.takeOfferDate == (if s == DepositPublished then Some(now) else t.takeOfferDate)
    // only an offerer closes its offer, and only on the deposit milestone
    ensures Count(r.effects, CloseOpenOffer(t.offer)) == (if s == DepositPublished && IsOffererTrade(t) then 1 else 0)
    // a failure state fails the trade, releases the protocol twice and evicts the trade once
    ensures r.trade.lifeCycleState == (if IsFailure(s) then Some(Failed) else t.lifeCycleState)
    ensures Count(r.effects, DisposeProtocol) == (if IsFailure(s) then 2 else 0)
    ensures Count(r.effects, RemoveFailedTrade) == (if IsFailure(s) then 1 else 0)
    ensures IsFailure(s) ==> |r.effects| > 0 && r.effects[|r.effects| - 1] == RemoveFailedTrade
    // every other state is recorded silently
    ensures s != DepositPublished && !IsFailure(s) ==> r == Step(t.(processState := Some(s)), [])
    // no other call is ever made
    ensures forall e :: e in r.effects ==> e == CloseOpenOffer(t.offer) || e == DisposeProtocol || e == RemoveFailedTrade
  {
    var u := t.(processState := Some(s));
    match s
    case DepositPublished =>
      Step(u.(takeOfferDate := Some(now)),
           if IsOffererTrade(t) then [CloseOpenOffer(t.offer)] else [])
    case Timeout => Abandon(u)
    case Fault => Abandon(u)
    case _ => Step(u, [])
  }

  /** `setThrowable`: record the cause. The transition to a failure state is
      disabled in the source, so neither state changes. */
  function SetThrowable(t: Trade, cause: Cause): (r: Trade)
    ensures r.throwable == Some(cause)
    ensures r.processState == t.processState && r.lifeCycleState == t.lifeCycleState
    ensures r.(throwable := t.throwable) == t
  {
    t.(throwable := Some(cause))
  }

  /** `handleConfidenceResult`: a deposit confirmation advances the trade to
      `DepositConfirmed` only when that is strictly later in the enum. */
  function HandleConfidenceResult(t: Trade, d: Declaration, now: Date): (r: Step)
    requires IsDeclaration(d)
    requires t.processState.Some? && t.processState.value in d
    ensures r.trade.processState.Some? && r.trade.processState.value in d
    ensures Ordinal(d, t.processState.value) < Ordinal(d, DepositConfirmed)
            <==> r.trade.processState != t.processState
    ensures r.trade.processState != t.processState ==> r.trade.processState == Some(DepositConfirmed)
    ensures Ordinal(d, t.processState.value) <= Ordinal(d, r.trade.processState.value)
    ensures r.trade.(processState := t.processState) == t
    ensures r.effects == []
  {
    if Ordinal(d, t.processState.value) < Ordinal(d, DepositConfirmed) then
      SetProcessState(t, DepositConfirmed, now)
    else
      Step(t, [])
  }
}
