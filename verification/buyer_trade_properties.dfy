/** Properties of the buyer trade that relate several calls: repeated
    notifications, the failure path taken twice, and the confirmation guard
    under duplicate confidence results. */
module BuyerTradeProperties {
  import opened Wrappers
  import opened TradeStates
  import opened BuyerTrade

  /** Filling in the initial states a second time changes nothing. */
  lemma InitStatesIdempotent(t: Trade)
    ensures InitStates(InitStates(t)) == InitStates(t)
    ensures Initialized(t) ==> InitStates(t) == t
  {
  }

  /** A duplicate deposit-published notification stamps the take-offer date
      again, with the later clock reading, and an offerer asks for its offer
      to be closed once per notification; the source relies on closing an
      already closed offer being harmless. */
  lemma DepositPublishedTwice(t: Trade, now1: Date, now2: Date)
    ensures var first := SetProcessState(t, DepositPublished, now1);
            var second := SetProcessState(first.trade, DepositPublished, now2);
            && second.trade.takeOfferDate == Some(now2)
            && Count(first.effects + second.effects, CloseOpenOffer(t.offer))
               == (if IsOffererTrade(t) then 2 else 0)
            && Count(first.effects + second.effects, DisposeProtocol) == 0
  {
  }

  /** Taking the failure path twice (a timeout, then a fault, or twice the
      same) releases the protocol four times and asks for eviction twice: the
      trade itself does not make termination idempotent. */
  lemma FailureTwice(t: Trade, s1: ProcessState, s2: ProcessState, now: Date)
    requires IsFailure(s1) && IsFailure(s2)
    ensures var first := SetProcessState(t, s1, now);
            var second := SetProcessState(first.trade, s2, now);
            && second.trade.lifeCycleState == Some(Failed)
            && second.trade.processState == Some(s2)
            && Count(first.effects + second.effects, DisposeProtocol) == 4
            && Count(first.effects + second.effects, RemoveFailedTrade) == 2
  {
  }

  /** A process-state change after failure is still recorded: the trade does
      not treat `Failed` as closing the process-state machine. */
  lemma FailedIsNotTerminalForProcessState(t: Trade, s: ProcessState, now: Date)
    requires t.lifeCycleState == Some(Failed)
    requires !IsFailure(s) && s != DepositPublished
    ensures SetProcessState(t, s, now).trade.processState == Some(s)
    ensures SetProcessState(t, s, now).trade.lifeCycleState == Some(Failed)
  {
  }

  /** A second confidence result right after the first is a no-op. */
  lemma ConfidenceResultIdempotent(t: Trade, d: Declaration, now1: Date, now2: Date)
    requires IsDeclaration(d)
    requires t.processState.Some? && t.processState.value in d
    ensures var first := HandleConfidenceResult(t, d, now1);
            HandleConfidenceResult(first.trade, d, now2) == Step(first.trade, [])
  {
  }

  /** With the deposit milestones declared in protocol order, a confidence
      result confirms a trade that is undefined or whose deposit is published. */
  lemma ConfidenceResultConfirmsEarlyTrade(t: Trade, d: Declaration, now: Date)
    requires IsDeclaration(d) && DepositOrder(d)
    requires t.processState == Some(Undefined) || t.processState == Some(DepositPublished)
    ensures HandleConfidenceResult(t, d, now).trade.processState == Some(DepositConfirmed)
  {
  }

  /** `k` confidence results delivered one after another. */
  function ConfirmRepeatedly(t: Trade, d: Declaration, now: Date, k: nat): (r: Trade)
    requires IsDeclaration(d)
    requires t.processState.Some? && t.processState.value in d
    ensures r.processState.Some? && r.processState.value in d
    ensures Ordinal(d, t.processState.value) <= Ordinal(d, r.processState.value)
    decreases k
  {
    if k == 0 then t
    else ConfirmRepeatedly(HandleConfidenceResult(t, d, now).trade, d, now, k - 1)
  }

  /** Any positive number of duplicate confidence results has exactly the
      effect of one. */
  lemma {:induction false} ConfirmRepeatedlyIsConfirmOnce(t: Trade, d: Declaration, now: Date, k: nat)
    requires IsDeclaration(d)
    requires t.processState.Some? && t.processState.value in d
    requires k >= 1
    ensures ConfirmRepeatedly(t, d, now, k) == HandleConfidenceResult(t, d, now).trade
    decreases k
  {
    var once := HandleConfidenceResult(t, d, now).trade;
    if k > 1 {
      ConfirmRepeatedlyIsConfirmOnce(once, d, now, k - 1);
      ConfidenceResultIdempotent(t, d, now, now);
    }
  }

  /** Recording a failure cause and changing the process state touch
      disjoint fields: in either order the trade ends the same and the same
      calls are made. */
  lemma ThrowableCommutesWithProcessState(t: Trade, c: Cause, s: ProcessState, now: Date)
    ensures var step := SetProcessState(t, s, now);
            SetProcessState(SetThrowable(t, c), s, now) == Step(SetThrowable(step.trade, c), step.effects)
  {
  }

  /** A failure cause recorded before or after a confidence result leads to
      the same trade. */
  lemma ThrowableCommutesWithConfidenceResult(t: Trade, c: Cause, d: Declaration, now: Date)
    requires IsDeclaration(d)
    requires t.processState.Some? && t.processState.value in d
    ensures var step := HandleConfidenceResult(t, d, now);
            HandleConfidenceResult(SetThrowable(t, c), d, now) == Step(SetThrowable(step.trade, c), step.effects)
  {
  }

  /** Setting the same terminal life-cycle state twice leaves the trade as
      the first call left it, yet releases the protocol a second time. */
  lemma TerminalLifeCycleTwice(t: Trade, s: LifeCycleState)
    requires IsTerminal(s)
    ensures var first := SetLifeCycleState(t, s);
            var second := SetLifeCycleState(first.trade, s);
            && second.trade == first.trade
            && Count(first.effects + second.effects, DisposeProtocol) == 2
  {
  }

  /** The trade does not guard the "payment started" action by its state: it
      forwards the action the same way whatever non-failure process state was
      set before, and a repeated action is forwarded again. */
  lemma FiatPaymentStartedIgnoresState(t: Trade, s: ProcessState, now: Date)
    requires t.protocol == Some(BuyerProtocol)
    requires !IsFailure(s)
    ensures var u := SetProcessState(t, s, now).trade;
            u.protocol == Some(BuyerProtocol) && OnFiatPaymentStarted(u).effects == OnFiatPaymentStarted(t).effects
    ensures var first := OnFiatPaymentStarted(t);
            var second := OnFiatPaymentStarted(first.trade);
            Count(first.effects + second.effects, ForwardFiatPaymentStarted) == 2
  {
  }
}
