# Buyer trade state machine and data-response envelope

This project models two small parts of the Bisq peer-to-peer exchange.

- **The buyer side of a trade** (`BuyerTrade`). A trade tracks its progress through the protocol in an ordered
  `ProcessState` and its business status in a `LifeCycleState` (`PREPARATION`, `PENDING`, `FAILED`, `COMPLETED`).
  Each setter is modelled as a pure function that returns a `Step`: the updated trade, plus the list of calls the
  trade makes on its collaborators. Those calls are releasing the trade protocol, closing the open offer, evicting
  the failed trade and forwarding "fiat payment started" to the protocol. The exception is `setThrowable`, which
  makes no call, so it returns the trade alone. Because the calls are recorded rather than hidden, the model can
  state how often each one happens. For example, a timeout or a fault releases the protocol twice: once directly,
  and once more through `setLifeCycleState(FAILED)`.
- **The `GetDataResponse` network message.** This is the reply a node sends to a peer that is catching up on the
  shared data. It is modelled as an immutable record. Its protobuf wire form is a record whose scalar fields may be
  absent and whose repeated fields are lists. `toProtoNetworkEnvelope` and `fromProto` become an encoder and a
  decoder, and the model proves that decoding an encoding gives the original back. Decoding a message from an older
  peer, which lacks the newer fields, falls back to default values. `associatedRequest` is a function of the
  response's update flag.

Modules:

- `Wrappers`: `Option` and `Result`.
- `TradeStates`: the two state enumerations, plus the enum's declaration order and the ordinal function.
- `BuyerTrade`: the trade record and its setters.
- `BuyerTradeProperties`: lemmas about sequences of calls.
- `Collections`: streaming a set into a list, and collecting a list back into a set.
- `StoragePayloads`: the two payload families and the wire messages for each item.
- `GetDataMessages`: the response, its wire form and the codec.
- `GetDataResponseProperties`: lemmas about a response once it has crossed the wire.

The buyer's `ProcessState` enum declaration is not part of this model. The model represents it by the constants the
trade logic names (`UNDEFINED`, `DEPOSIT_PUBLISHED`, `DEPOSIT_CONFIRMED`, `TIMEOUT`, `FAULT`) plus `Milestone(name)`
for every other constant. The declaration order is a parameter: a list of the constants, each appearing once, and the
ordinal of a constant is its position in that list. The only ordering assumption is `DepositOrder`
(`UNDEFINED` < `DEPOSIT_PUBLISHED` < `DEPOSIT_CONFIRMED`). It is a precondition of the one lemma that needs it.

Three behaviours of the code are worth knowing, because they are easy to assume away:

- `takeOfferDate` is overwritten on every `DEPOSIT_PUBLISHED`, so a duplicate notification moves the date to the
  later clock reading (`DepositPublishedTwice`).
- Each failure notification releases the protocol twice and evicts the trade once. Two notifications therefore give
  four releases and two evictions (`FailureTwice`). Any "exactly once" has to come from the collaborators, which
  are not part of this model.
- A `FAILED` trade still accepts process-state changes (`FailedIsNotTerminalForProcessState`).

## Model

| member | source | states |
|---|---|---|
| TradeStates.Ordinal | core/src/main/java/io/bitsquare/trade/BuyerTrade.java:128 | The ordinal of a declared constant is an index into the declaration that holds that constant, and no earlier index holds it. |
| TradeStates.OrdinalInjective | core/src/main/java/io/bitsquare/trade/BuyerTrade.java:128 | In a well-formed declaration, two constants have the same ordinal if and only if they are the same constant. |
| TradeStates.OrdinalUnique | core/src/main/java/io/bitsquare/trade/BuyerTrade.java:128 | In a well-formed declaration, the ordinal is the only index at which a constant is declared. |
| BuyerTrade.InitStates | core/src/main/java/io/bitsquare/trade/BuyerTrade.java:53-60 | A missing process state becomes `UNDEFINED` and a missing life-cycle state becomes `PREPARATION`. States that are present are kept. Role, offer, protocol, take-offer date and throwable are unchanged, and the result is initialised. |
| BuyerTrade.OnFiatPaymentStarted | core/src/main/java/io/bitsquare/trade/BuyerTrade.java:62-65 | Precondition: the trade protocol is a buyer protocol. The action is forwarded to the protocol exactly once, and the trade is unchanged. |
| BuyerTrade.SetLifeCycleState | core/src/main/java/io/bitsquare/trade/BuyerTrade.java:100-112 | The new life-cycle state is stored and no other modelled field changes. The protocol is released exactly once if the new state is `FAILED` or `COMPLETED`, and not at all for `PREPARATION` or `PENDING`. No other call is made. |
| BuyerTrade.Abandon | core/src/main/java/io/bitsquare/trade/BuyerTrade.java:84-96 | The shared failure branch ends with the life cycle `FAILED`. It releases the protocol twice (once directly, once through the life-cycle setter) and then evicts the trade once, as its last call. |
| BuyerTrade.SetProcessState | core/src/main/java/io/bitsquare/trade/BuyerTrade.java:72-98 | The new state is always stored. `DEPOSIT_PUBLISHED` sets the take-offer date to the current clock reading, and closes the offer exactly once if and only if the trade is an offerer trade. `TIMEOUT` and `FAULT` set the life cycle to `FAILED`, release the protocol twice and evict the trade once, last. Any other state is recorded with no call at all, and no call other than these is ever made. Role, offer and throwable stay as they were, and so does the protocol field: releasing the protocol is a recorded call. |
| BuyerTrade.SetThrowable | core/src/main/java/io/bitsquare/trade/BuyerTrade.java:114-119 | The cause is recorded. Process state, life-cycle state and every other field are unchanged, so a failure cause alone never drives a transition. |
| BuyerTrade.HandleConfidenceResult | core/src/main/java/io/bitsquare/trade/BuyerTrade.java:126-130 | The trade moves to `DEPOSIT_CONFIRMED` if and only if its current ordinal is strictly below that of `DEPOSIT_CONFIRMED`. Otherwise the state is unchanged. The ordinal never decreases, no other field changes and no call is made. |
| BuyerTradeProperties.InitStatesIdempotent | core/src/main/java/io/bitsquare/trade/BuyerTrade.java:54-58 | Initialising twice is the same as initialising once. On an initialised trade, initialising is the identity. |
| BuyerTradeProperties.DepositPublishedTwice | core/src/main/java/io/bitsquare/trade/BuyerTrade.java:77-82 | After a duplicate `DEPOSIT_PUBLISHED`, the date holds the second clock reading. An offerer has asked twice for its offer to be closed, and a taker never has. The protocol is never released. |
| BuyerTradeProperties.FailureTwice | core/src/main/java/io/bitsquare/trade/BuyerTrade.java:84-107 | Two failure notifications in a row leave the trade `FAILED`, with four protocol releases and two evictions in total. |
| BuyerTradeProperties.FailedIsNotTerminalForProcessState | core/src/main/java/io/bitsquare/trade/BuyerTrade.java:73-97 | A failed trade still records a later, silent process state, and stays `FAILED`. |
| BuyerTradeProperties.ConfidenceResultIdempotent | core/src/main/java/io/bitsquare/trade/BuyerTrade.java:127-130 | A second confidence result right after the first changes nothing and makes no call. |
| BuyerTradeProperties.ConfidenceResultConfirmsEarlyTrade | core/src/main/java/io/bitsquare/trade/BuyerTrade.java:127-130 | If the deposit milestones are declared in protocol order, an undefined trade or one whose deposit is published becomes `DEPOSIT_CONFIRMED`. |
| BuyerTradeProperties.ConfirmRepeatedly | core/src/main/java/io/bitsquare/trade/BuyerTrade.java:127-130 | After any number of confidence results, the state is still a declared constant and its ordinal has not decreased. |
| BuyerTradeProperties.ConfirmRepeatedlyIsConfirmOnce | core/src/main/java/io/bitsquare/trade/BuyerTrade.java:127-130 | One or more duplicate confidence results have exactly the effect of one. |
| BuyerTradeProperties.ThrowableCommutesWithProcessState | core/src/main/java/io/bitsquare/trade/BuyerTrade.java:72-119 | Recording a cause before or after a process-state change gives the same trade and the same calls. |
| BuyerTradeProperties.ThrowableCommutesWithConfidenceResult | core/src/main/java/io/bitsquare/trade/BuyerTrade.java:114-130 | Recording a cause before or after a confidence result gives the same trade and no calls. |
| BuyerTradeProperties.TerminalLifeCycleTwice | core/src/main/java/io/bitsquare/trade/BuyerTrade.java:100-112 | Setting the same `FAILED` or `COMPLETED` state twice leaves the trade as the first call left it, with two protocol releases in total. |
| BuyerTradeProperties.FiatPaymentStartedIgnoresState | core/src/main/java/io/bitsquare/trade/BuyerTrade.java:62-65 | Whatever non-failure process state was set before, a buyer-protocol trade forwards the action the same way. A repeated action is forwarded again, so two actions give two forwards. |
| Collections.Enumerate | p2p/src/main/java/bisq/network/p2p/peers/getdata/messages/GetDataResponse.java:106-118 | Streaming a set yields each element exactly once, so the list is as long as the set is large. |
| Collections.EnumerationSize | p2p/src/main/java/bisq/network/p2p/peers/getdata/messages/GetDataResponse.java:106-118 | A list that names each element of a set once has the set's size. |
| Collections.CollectToSet | p2p/src/main/java/bisq/network/p2p/peers/getdata/messages/GetDataResponse.java:139-142 | Collecting succeeds if and only if every item decodes. A failure carries the error of the first item that fails, as a sequential stream stops there. The set holds exactly the decoded items, and it is no larger than the list, because duplicates collapse. |
| Collections.CollectWithDuplicate | p2p/src/main/java/bisq/network/p2p/peers/getdata/messages/GetDataResponse.java:139-140 | A list in which one item occurs at two positions collects into a set strictly smaller than the list. |
| Collections.CollectEncoded | p2p/src/main/java/bisq/network/p2p/peers/getdata/messages/GetDataResponse.java:139-142 | If each item's decoder inverts its encoder, collecting an encoded list gives back exactly the list's elements. |
| StoragePayloads.PayloadFromProto | p2p/src/main/java/bisq/network/p2p/peers/getdata/messages/GetDataResponse.java:141-142 | A payload item resolves if and only if its one-of holds a known kind. |
| StoragePayloads.PayloadCodecInverse | p2p/src/main/java/bisq/network/p2p/peers/getdata/messages/GetDataResponse.java:116-118 | Resolving a payload's own wire message gives back the payload. |
| GetDataMessages.NewGetDataResponse | p2p/src/main/java/bisq/network/p2p/peers/getdata/messages/GetDataResponse.java:65-78 | The public constructor passes the entries, payloads, nonce, update flag and truncation flag through unchanged. It stamps the responder's own capabilities, P2P message version and version string. |
| GetDataMessages.AssociatedRequest | p2p/src/main/java/bisq/network/p2p/peers/getdata/messages/GetDataResponse.java:153-156 | The answered request is `GetUpdatedDataRequest` if and only if the update flag is set, and `PreliminaryGetDataRequest` if and only if it is not. |
| GetDataMessages.EncodeEntry | p2p/src/main/java/bisq/network/p2p/peers/getdata/messages/GetDataResponse.java:106-115 | A mailbox entry goes into the mailbox slot of its wrapper, and any other entry into the plain slot. |
| GetDataMessages.DecodeEntry | p2p/src/main/java/bisq/network/p2p/peers/getdata/messages/GetDataResponse.java:139-140 | A wrapper resolves if and only if one slot is set. The entry is a mailbox entry if and only if the mailbox slot was set. |
| GetDataMessages.EntryCodecInverse | p2p/src/main/java/bisq/network/p2p/peers/getdata/messages/GetDataResponse.java:106-115 | Unwrapping an entry's wrapper recovers the entry, including its kind. |
| GetDataMessages.FromIntList | p2p/src/main/java/bisq/network/p2p/peers/getdata/messages/GetDataResponse.java:148 | The decoded capability set holds exactly the integers of the list. |
| GetDataMessages.Encode | p2p/src/main/java/bisq/network/p2p/peers/getdata/messages/GetDataResponse.java:104-123 | The encoding writes one wrapper per protected entry, each resolving back to its entry, one item per payload and one integer per capability. Every scalar field is written, and the envelope carries the message version. |
| GetDataMessages.WithDefaults | p2p/src/main/java/bisq/network/p2p/peers/getdata/messages/GetDataResponse.java:143-150 | The decoded response carries the given sets and the envelope's message version. Its capability set holds the listed integers. An absent nonce, update flag, truncation flag or version becomes 0, false, false or "", and a present one is kept. |
| GetDataMessages.DecodeEntries | p2p/src/main/java/bisq/network/p2p/peers/getdata/messages/GetDataResponse.java:139-140 | The entry list decodes if and only if no wrapper is empty. The error otherwise is the unknown-entry error. The set holds exactly the entries the wrappers resolve to, so it is no larger than the list. |
| GetDataMessages.DecodePayloads | p2p/src/main/java/bisq/network/p2p/peers/getdata/messages/GetDataResponse.java:141-142 | The payload list decodes if and only if every item holds a known kind. The error otherwise is the unknown-payload error. The set holds exactly the payloads the items resolve to, so it is no larger than the list. |
| GetDataMessages.FromProto | p2p/src/main/java/bisq/network/p2p/peers/getdata/messages/GetDataResponse.java:132-151 | Decoding fails exactly when some entry or payload cannot be resolved. An unresolvable entry is reported as the unknown-entry error, which takes precedence. Otherwise the failure is the unknown-payload error. The entry set holds exactly the entries the wrappers resolve to, and the payload set exactly the payloads the items resolve to, so neither is larger than its list. An absent nonce, update flag, truncation flag or version decodes to 0, false, false or "". The capability set holds the listed integers, and the message version comes from the envelope. |
| GetDataMessages.RoundTrip | p2p/src/main/java/bisq/network/p2p/peers/getdata/messages/GetDataResponse.java:104-151 | Whatever order the sets are streamed in, decoding the encoding gives back the same response, field for field. |
| GetDataMessages.ToProtoNetworkEnvelope | p2p/src/main/java/bisq/network/p2p/peers/getdata/messages/GetDataResponse.java:103-130 | The envelope decodes back to the response. The entry, payload and capability lists are as long as their sets are large, and every entry's wrapper is in the list. |
| GetDataResponseProperties.NewResponseAcrossTheWire | p2p/src/main/java/bisq/network/p2p/peers/getdata/messages/GetDataResponse.java:65-78 | A receiver sees the caller's content, nonce and truncation flag, the responder's capabilities and version string, and the request kind the flag names. |
| GetDataResponseProperties.OldPeerMessageDecodes | p2p/src/main/java/bisq/network/p2p/peers/getdata/messages/GetDataResponse.java:135-150 | A message without a payload list, truncation flag or version still decodes: no payloads, not truncated, empty version. |
| GetDataResponseProperties.DuplicateEntriesCollapse | p2p/src/main/java/bisq/network/p2p/peers/getdata/messages/GetDataResponse.java:139-140 | If any wrapper appears twice in the entry list, at any two positions, the received set is strictly smaller than the list. Every wrapper's entry is in the set. |
| GetDataResponseProperties.AssociatedRequestSurvivesWire | p2p/src/main/java/bisq/network/p2p/peers/getdata/messages/GetDataResponse.java:153-156 | The request kind a response answers is the same before and after crossing the wire. |

## Left out

- Logging (`log.info`, `log.trace`) and `Utilities.readableFileSize` are not modelled. They have no behavioural content.
- `serialVersionUID` and Java serialisation are not modelled.
- The constructors of `BuyerTrade` are not modelled. They only pass their arguments on to the superclass `Trade`.
- `Trade` is not part of this model, and neither are `Storage`, the trade and open-offer managers, or the protocol
  objects. The superclass setters are taken to store the new value and nothing more, so the audit trail of previous
  states and persistence are not modelled. The managers and protocols appear only as recorded calls. Whether a
  second `disposeProtocol` or a second `closeOpenOffer` is harmless depends on code outside this model.
- `new Date()` is the parameter `now`, a clock reading supplied by the caller.
- Setting a `null` process state, or a state from another role's enumeration, is not modelled. In the source, the
  cast or the switch on such a value throws. The model's state type only admits the buyer's constants.
- `BuyerTrade.InitStates`: the call to `initStateProperties()` is not modelled. It belongs to the superclass `Trade`,
  which is not part of this model, so the contract speaks only of the modelled fields.
- `BuyerTrade.SetProcessState`: the effect of `disposeProtocol()` on the trade's own protocol field is not modelled.
  That method belongs to `Trade`. The model keeps the field as it was, so after a failure `OnFiatPaymentStarted`
  can still be called on the model.
- `BuyerTrade.HandleConfidenceResult`: a present process state is a precondition. With a `null` process state the
  source throws a `NullPointerException` when it reads the ordinal.
- `BuyerTrade.SetLifeCycleState`: a `null` argument is not modelled. In the source the switch on it throws a
  `NullPointerException`; the model's argument type admits only the four constants. The effect of the
  `disposeProtocol()` call on `FAILED` and `COMPLETED` on the trade's own protocol field is not modelled either. That
  method belongs to `Trade`, and the model keeps the field as it was, so after `COMPLETED` `OnFiatPaymentStarted` can
  still be called on the model.
- `BuyerTrade.Abandon`: the effect of its two `disposeProtocol()` calls on the trade's own protocol field is not
  modelled. The model keeps the field as it was.
- `BuyerTradeProperties.FiatPaymentStartedIgnoresState`: covers only process states other than `TIMEOUT` and
  `FAULT`. After those, whether the trade can still forward the action depends on what `disposeProtocol()` does to
  the protocol field, which is not part of this model.
- `BuyerTrade.OnFiatPaymentStarted`: the role check is a precondition. The model does not distinguish a Java
  `AssertionError` (assertions enabled) from a `ClassCastException` (assertions disabled).
- The protobuf builders, `NetworkEnvelope` internals, each item's `toProtoMessage` and the resolver's `fromProto`
  are not modelled as code. Each item's wire message is modelled as carrying the item's content unchanged, which
  makes encoding injective with the resolver as its inverse. A one-of that holds no known kind is modelled as a
  decoding failure. The source leaves that to the resolver, which is not part of this model.
- `Capabilities.toIntList` and `fromIntList` are not part of this model. Capabilities are modelled as the set of
  integers that name them, and the two conversions are modelled as inverse: streaming the set out, and taking the
  list's elements back. Mapping the integers to enum constants, and dropping unknown ones, is not modelled.
- Java's `int` fields are modelled by the bounded type `int32`, so no value can overflow. The protected entries'
  own numeric fields (sequence number, timestamp) are unbounded, because the model never does arithmetic on them.
- Per-trade locking and concurrent triggers are not modelled. The model is sequential.
- Capability filtering, truncation, nonce matching and the supersede and dedup merge rules are not modelled. They
  belong to the request handlers and the storage, which are not part of this model.
