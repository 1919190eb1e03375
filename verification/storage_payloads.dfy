/** The two payload families a data response carries, and their per-item
    wire messages.

    The classes behind them (`ProtectedStorageEntry`,
    `ProtectedMailboxStorageEntry`, `PersistableNetworkPayload`) and the
    resolver that turns their wire messages back into objects are not part of
    this model. What the response logic relies on is that each item's wire
    message determines the item: here the message carries the item's content
    unchanged, so encoding is injective and the resolver is its inverse. */
module StoragePayloads {
  import opened Wrappers

  type Bytes = seq<bv8>

  /** The signed content every protected entry carries. */
  datatype EntryContent = EntryContent(
    payload: Bytes,
    ownerPubKey: Bytes,
    sequenceNumber: int,
    creationTimeStamp: int,
    signature: Bytes)

  /** A protected storage entry; the mailbox variant adds the receiver's key. */
  datatype ProtectedEntry =
    | PlainEntry(content: EntryContent)
    | MailboxEntry(content: EntryContent, receiversPubKey: Bytes)

  /** An append-only payload, identified by its bytes. */
  datatype NetworkPayload = NetworkPayload(bytes: Bytes)

  // ---- wire messages ----

  datatype ProtectedStorageEntryMsg = ProtectedStorageEntryMsg(content: EntryContent)

  datatype ProtectedMailboxStorageEntryMsg =
    ProtectedMailboxStorageEntryMsg(entry: ProtectedStorageEntryMsg, receiversPubKeyBytes: Bytes)

  /** The wire form of a network payload is a one-of over its concrete
      kinds; `PayloadNotSet` is a message whose one-of holds no known kind. */
  datatype PersistableNetworkPayloadMsg = PayloadMsg(bytes: Bytes) | PayloadNotSet

  /** Why a wire item could not be turned back into an object. */
  datatype DecodeError = UnknownStorageEntryCase | UnknownPayloadCase

  /** `ProtectedStorageEntry.toProtoMessage` for a plain entry. */
  function PlainToProto(c: EntryContent): ProtectedStorageEntryMsg {
    ProtectedStorageEntryMsg(c)
  }

  /** `ProtectedMailboxStorageEntry.toProtoMessage`. */
  function MailboxToProto(c: EntryContent, receiver: Bytes): ProtectedMailboxStorageEntryMsg {
    ProtectedMailboxStorageEntryMsg(PlainToProto(c), receiver)
  }

  /** `PersistableNetworkPayload.toProtoMessage`. */
  function PayloadToProto(p: NetworkPayload): (m: PersistableNetworkPayloadMsg)
    ensures m.PayloadMsg?
  {
    PayloadMsg(p.bytes)
  }

  /** The resolver's decoding of a network payload message. */
  function PayloadFromProto(m: PersistableNetworkPayloadMsg): (r: Result<NetworkPayload, DecodeError>)
    ensures r.Success? <==> m.PayloadMsg?
  {
    match m
    case PayloadMsg(b) => Success(NetworkPayload(b))
    case PayloadNotSet => Failure(UnknownPayloadCase)
  }

  /** Decoding a payload's own message gives the payload back. */
  lemma PayloadCodecInverse(p: NetworkPayload)
    ensures PayloadFromProto(PayloadToProto(p)) == Success(p)
  {
  }
}
