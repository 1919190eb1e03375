/** The `GetDataResponse` network message: a responder's answer to a data
    request, as an immutable record, and its protobuf wire form, as a record
    whose scalar fields may be absent (an older peer did not send them) and
    whose repeated fields are lists.

    Encoding streams each set into a list in whatever order the set yields;
    decoding collects each list back into a set. The envelope's message
    version travels beside the response, in the enclosing network envelope. */
module GetDataMessages {
  import opened Wrappers
  import opened Collections
  import opened StoragePayloads

  /** Java's `int`. */
  newtype int32 = x: int | -0x8000_0000 <= x < 0x8000_0000

  /** The features a peer declares, as the integers that name them. */
  type Capabilities = set<int32>

  datatype GetDataResponse = GetDataResponse(
    dataSet: set<ProtectedEntry>,
    persistableNetworkPayloadSet: set<NetworkPayload>,
    requestNonce: int32,
    isGetUpdatedDataResponse: bool,
    supportedCapabilities: Capabilities,
    wasTruncated: bool,
    messageVersion: int32,
    version: string)

  /** What the responding process knows about itself: its own capabilities
      (`Capabilities.app`), its P2P message version and its software version
      string (`Version.VERSION`). */
  datatype Responder = Responder(capabilities: Capabilities, p2pMessageVersion: int32, version: string)

  /** The public constructor: the caller supplies the content and the
      correlation fields; the responder stamps its own capabilities and
      versions. */
  function NewGetDataResponse(
    dataSet: set<ProtectedEntry>,
    persistableNetworkPayloadSet: set<NetworkPayload>,
    requestNonce: int32,
    isGetUpdatedDataResponse: bool,
    wasTruncated: bool,
    self: Responder): (r: GetDataResponse)
    ensures r.dataSet == dataSet && r.persistableNetworkPayloadSet == persistableNetworkPayloadSet
    ensures r.requestNonce == requestNonce
    ensures r.isGetUpdatedDataResponse == isGetUpdatedDataResponse
    ensures r.wasTruncated == wasTruncated
    ensures r.supportedCapabilities == self.capabilities
    ensures r.messageVersion == self.p2pMessageVersion
    ensures r.version == self.version
  {
    GetDataResponse(dataSet, persistableNetworkPayloadSet, requestNonce, isGetUpdatedDataResponse,
                    self.capabilities, wasTruncated, self.p2pMessageVersion, self.version)
  }

  /** The two request kinds a data response can answer. */
  datatype RequestKind = GetUpdatedDataRequest | PreliminaryGetDataRequest

  /** `associatedRequest`: the response's own flag, not the order of
      arrival, says which pending request it completes. */
  function AssociatedRequest(r: GetDataResponse): (k: RequestKind)
    ensures k == GetUpdatedDataRequest <==> r.isGetUpdatedDataResponse
    ensures k == PreliminaryGetDataRequest <==> !r.isGetUpdatedDataResponse
  {
    if r.isGetUpdatedDataResponse then GetUpdatedDataRequest else PreliminaryGetDataRequest
  }

  // ---- wire form ----

  /** A one-of holding either kind of protected entry; `EntryNotSet` is a
      wrapper whose one-of holds neither. */
  datatype StorageEntryWrapper =
    | ProtectedStorageEntrySlot(entry: ProtectedStorageEntryMsg)
    | ProtectedMailboxStorageEntrySlot(mailboxEntry: ProtectedMailboxStorageEntryMsg)
    | EntryNotSet

  /** The response's wire message. `None` marks a scalar field the sender
      did not write; a repeated field the sender did not write is empty. */
  datatype GetDataResponseProto = GetDataResponseProto(
    dataSet: seq<StorageEntryWrapper>,
    requestNonce: Option<int32>,
    isGetUpdatedDataResponse: Option<bool>,
    supportedCapabilities: seq<int32>,
    persistableNetworkPayloadItems: seq<PersistableNetworkPayloadMsg>,
    wasTruncated: Option<bool>,
    version: Option<string>)

  /** The envelope every network message travels in. */
  datatype NetworkEnvelope = NetworkEnvelope(messageVersion: int32, getDataResponse: GetDataResponseProto)

  /** Wrap one protected entry: a mailbox entry goes into the mailbox slot,
      any other entry into the plain slot. */
  function EncodeEntry(e: ProtectedEntry): (w: StorageEntryWrapper)
    ensures w.ProtectedMailboxStorageEntrySlot? <==> e.MailboxEntry?
    ensures w.ProtectedStorageEntrySlot? <==> e.PlainEntry?
  {
    match e
    case MailboxEntry(c, receiver) => ProtectedMailboxStorageEntrySlot(MailboxToProto(c, receiver))
    case PlainEntry(c) => ProtectedStorageEntrySlot(PlainToProto(c))
  }

  /** The resolver's decoding of a wrapper: the slot that is set decides the
      entry kind; a wrapper with no slot set cannot be resolved. */
  function DecodeEntry(w: StorageEntryWrapper): (r: Result<ProtectedEntry, DecodeError>)
    ensures r.Success? <==> !w.EntryNotSet?
    ensures r.Success? ==> (r.value.MailboxEntry? <==> w.ProtectedMailboxStorageEntrySlot?)
  {
    match w
    case ProtectedStorageEntrySlot(m) => Success(PlainEntry(m.content))
    case ProtectedMailboxStorageEntrySlot(m) => Success(MailboxEntry(m.entry.content, m.receiversPubKeyBytes))
    case EntryNotSet => Failure(UnknownStorageEntryCase)
  }

  /** Unwrapping an entry's wrapper recovers the entry, kind included. */
  lemma EntryCodecInverse(e: ProtectedEntry)
    ensures DecodeEntry(EncodeEntry(e)) == Success(e)
  {
  }

  /** `Capabilities.fromIntList`, taken to be the inverse of listing the
      set's integers. */
  function FromIntList(xs: seq<int32>): (c: Capabilities)
    ensures forall x :: x in c <==> x in xs
  {
    Elements(xs)
  }

  /** The wire form of `r`, given the order in which its sets are streamed. */
  function Encode(r: GetDataResponse, entries: seq<ProtectedEntry>, payloads: seq<NetworkPayload>,
                  capabilities: seq<int32>): (env: NetworkEnvelope)
    requires IsEnumeration(entries, r.dataSet)
    requires IsEnumeration(payloads, r.persistableNetworkPayloadSet)
    requires IsEnumeration(capabilities, r.supportedCapabilities)
    ensures env.messageVersion == r.messageVersion
    // one wrapper per entry, each in the slot of its entry's kind
    ensures |env.getDataResponse.dataSet| == |entries| == |r.dataSet|
    ensures forall i :: 0 <= i < |entries| ==>
              DecodeEntry(env.getDataResponse.dataSet[i]) == Success(entries[i])
    // one item per payload
    ensures |env.getDataResponse.persistableNetworkPayloadItems| == |r.persistableNetworkPayloadSet|
    ensures |env.getDataResponse.supportedCapabilities| == |r.supportedCapabilities|
    // every scalar field is written
    ensures env.getDataResponse.requestNonce.Some? && env.getDataResponse.isGetUpdatedDataResponse.Some?
    ensures env.getDataResponse.wasTruncated.Some? && env.getDataResponse.version.Some?
  {
    EnumerationSize(entries, r.dataSet);
    EnumerationSize(payloads, r.persistableNetworkPayloadSet);
    EnumerationSize(capabilities, r.supportedCapabilities);
    NetworkEnvelope(
      r.messageVersion,
      GetDataResponseProto(
        Map(entries, EncodeEntry),
        Some(r.requestNonce),
        Some(r.isGetUpdatedDataResponse),
        capabilities,
        Map(payloads, PayloadToProto),
        Some(r.wasTruncated),
        Some(r.version)))
  }

  /** Every wrapper of the list has a slot set. */
  predicate EntriesResolvable(ws: seq<StorageEntryWrapper>) {
    forall i :: 0 <= i < |ws| ==> !ws[i].EntryNotSet?
  }

  /** The entries the wrappers of a resolvable list stand for. */
  function ResolvedEntries(ws: seq<StorageEntryWrapper>): set<ProtectedEntry>
    requires EntriesResolvable(ws)
  {
    set i | 0 <= i < |ws| :: DecodeEntry(ws[i]).value
  }

  /** Every payload item of the list holds a known kind. */
  predicate PayloadsResolvable(ms: seq<PersistableNetworkPayloadMsg>) {
    forall i :: 0 <= i < |ms| ==> ms[i].PayloadMsg?
  }

  /** The payloads the items of a resolvable list stand for. */
  function ResolvedPayloads(ms: seq<PersistableNetworkPayloadMsg>): set<NetworkPayload>
    requires PayloadsResolvable(ms)
  {
    set i | 0 <= i < |ms| :: PayloadFromProto(ms[i]).value
  }

  /** Resolve every wrapper of the list and collect the entries into a set. */
  function DecodeEntries(ws: seq<StorageEntryWrapper>): (r: Result<set<ProtectedEntry>, DecodeError>)
    ensures r.Success? <==> EntriesResolvable(ws)
    ensures r.Failure? ==> r.error == UnknownStorageEntryCase
    ensures r.Success? ==> r.value == ResolvedEntries(ws)
    ensures r.Success? ==> |r.value| <= |ws|
  {
    var r := CollectToSet(ws, DecodeEntry);
    assert r.Success? <==> forall i :: 0 <= i < |ws| ==> DecodeEntry(ws[i]).Success?;
    r
  }

  /** Resolve every payload item of the list and collect them into a set. */
  function DecodePayloads(ms: seq<PersistableNetworkPayloadMsg>): (r: Result<set<NetworkPayload>, DecodeError>)
    ensures r.Success? <==> PayloadsResolvable(ms)
    ensures r.Failure? ==> r.error == UnknownPayloadCase
    ensures r.Success? ==> r.value == ResolvedPayloads(ms)
    ensures r.Success? ==> |r.value| <= |ms|
  {
    var r := CollectToSet(ms, PayloadFromProto);
    assert r.Success? <==> forall i :: 0 <= i < |ms| ==> PayloadFromProto(ms[i]).Success?;
    r
  }

  /** The response a wire message stands for, once its lists are resolved:
      every scalar field an older peer may have left out takes its default. */
  function WithDefaults(p: GetDataResponseProto, messageVersion: int32,
                        dataSet: set<ProtectedEntry>, payloads: set<NetworkPayload>): (r: GetDataResponse)
    ensures r.dataSet == dataSet && r.persistableNetworkPayloadSet == payloads
    ensures r.messageVersion == messageVersion
    ensures r.supportedCapabilities == Elements(p.supportedCapabilities)
    ensures r.requestNonce == (if p.requestNonce.Some? then p.requestNonce.value else 0)
    ensures r.isGetUpdatedDataResponse <==> p.isGetUpdatedDataResponse == Some(true)
    ensures r.wasTruncated <==> p.wasTruncated == Some(true)
    ensures r.version == (if p.version.Some? then p.version.value else "")
  {
    GetDataResponse(
      dataSet,
      payloads,
      p.requestNonce.GetOr(0),
      p.isGetUpdatedDataResponse.GetOr(false),
      FromIntList(p.supportedCapabilities),
      p.wasTruncated.GetOr(false),
      messageVersion,
      p.version.GetOr(""))
  }

  /** `fromProto`: resolve every entry and payload, collect each list into a
      set, and give every field an older peer may have left out its default. */
  function FromProto(p: GetDataResponseProto, messageVersion: int32): (r: Result<GetDataResponse, DecodeError>)
    ensures r.Success? <==> EntriesResolvable(p.dataSet) && PayloadsResolvable(p.persistableNetworkPayloadItems)
    ensures r.Failure? && !EntriesResolvable(p.dataSet) ==> r.error == UnknownStorageEntryCase
    ensures r.Failure? && EntriesResolvable(p.dataSet) ==> r.error == UnknownPayloadCase
    // the sets hold exactly the resolved items, so duplicates collapse
    ensures r.Success? ==> r.value.dataSet == ResolvedEntries(p.dataSet)
    ensures r.Success? ==> r.value.persistableNetworkPayloadSet == ResolvedPayloads(p.persistableNetworkPayloadItems)
    ensures r.Success? ==> |r.value.dataSet| <= |p.dataSet|
    ensures r.Success? ==> |r.value.persistableNetworkPayloadSet| <= |p.persistableNetworkPayloadItems|
    ensures r.Success? ==> r.value.messageVersion == messageVersion
    ensures r.Success? ==> r.value.supportedCapabilities == Elements(p.supportedCapabilities)
    // absent fields take their defaults
    ensures r.Success? ==> r.value.requestNonce == (if p.requestNonce.Some? then p.requestNonce.value else 0)
    ensures r.Success? ==> (r.value.isGetUpdatedDataResponse <==> p.isGetUpdatedDataResponse == Some(true))
    ensures r.Success? ==> (r.value.wasTruncated <==> p.wasTruncated == Some(true))
    ensures r.Success? ==> r.value.version == (if p.version.Some? then p.version.value else "")
  {
    var dataSet := DecodeEntries(p.dataSet);
    var payloads := DecodePayloads(p.persistableNetworkPayloadItems);
    if dataSet.Failure? then Failure(dataSet.error)
    else if payloads.Failure? then Failure(payloads.error)
    else Success(WithDefaults(p, messageVersion, dataSet.value, payloads.value))
  }

  /** Decoding a whole envelope. */
  function FromEnvelope(env: NetworkEnvelope): Result<GetDataResponse, DecodeError> {
    FromProto(env.getDataResponse, env.messageVersion)
  }

  /** Whatever order the sets are streamed in, decoding the wire form gives
      back the response field for field. */
  lemma RoundTrip(r: GetDataResponse, entries: seq<ProtectedEntry>, payloads: seq<NetworkPayload>,
                  capabilities: seq<int32>)
    requires IsEnumeration(entries, r.dataSet)
    requires IsEnumeration(payloads, r.persistableNetworkPayloadSet)
    requires IsEnumeration(capabilities, r.supportedCapabilities)
    ensures FromEnvelope(Encode(r, entries, payloads, capabilities)) == Success(r)
  {
    forall e ensures DecodeEntry(EncodeEntry(e)) == Success(e) {
      EntryCodecInverse(e);
    }
    forall x ensures PayloadFromProto(PayloadToProto(x)) == Success(x) {
      PayloadCodecInverse(x);
    }
    var env := Encode(r, entries, payloads, capabilities);
    var p := env.getDataResponse;
    CollectEncoded(entries, EncodeEntry, DecodeEntry);
    CollectEncoded(payloads, PayloadToProto, PayloadFromProto);
    assert DecodeEntries(p.dataSet) == Success(r.dataSet);
    assert DecodePayloads(p.persistableNetworkPayloadItems) == Success(r.persistableNetworkPayloadSet);
    assert FromProto(p, env.messageVersion) == Success(WithDefaults(p, r.messageVersion, r.dataSet, r.persistableNetworkPayloadSet));
  }

  /** `toProtoNetworkEnvelope`: stream the sets and build the wire form. */
  method ToProtoNetworkEnvelope(r: GetDataResponse) returns (env: NetworkEnvelope)
    ensures FromEnvelope(env) == Success(r)
    ensures |env.getDataResponse.dataSet| == |r.dataSet|
    ensures |env.getDataResponse.persistableNetworkPayloadItems| == |r.persistableNetworkPayloadSet|
    ensures |env.getDataResponse.supportedCapabilities| == |r.supportedCapabilities|
    ensures forall e :: e in r.dataSet ==> EncodeEntry(e) in env.getDataResponse.dataSet
  {
    var entries := Enumerate(r.dataSet);
    var payloads := Enumerate(r.persistableNetworkPayloadSet);
    var capabilities := Enumerate(r.supportedCapabilities);
    env := Encode(r, entries, payloads, capabilities);
    RoundTrip(r, entries, payloads, capabilities);
    forall e | e in r.dataSet ensures EncodeEntry(e) in env.getDataResponse.dataSet {
      var i :| 0 <= i < |entries| && entries[i] == e;
      assert env.getDataResponse.dataSet[i] == EncodeEntry(e);
    }
  }
}
