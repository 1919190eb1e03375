/** Properties of the data response across the wire: what a receiver sees
    of a freshly built response, how it reads a message from an older peer,
    and how duplicate list items collapse. */
module GetDataResponseProperties {
  import opened Collections
  import opened StoragePayloads
  import opened GetDataMessages

  /** A receiver decodes a freshly built response to the caller's content
      and correlation fields and to the responder's own capabilities and
      version string, and completes the request kind the flag names. */
  lemma NewResponseAcrossTheWire(
    dataSet: set<ProtectedEntry>, payloadSet: set<NetworkPayload>, nonce: int32,
    isUpdate: bool, wasTruncated: bool, self: Responder,
    entries: seq<ProtectedEntry>, payloads: seq<NetworkPayload>, capabilities: seq<int32>)
    requires IsEnumeration(entries, dataSet)
    requires IsEnumeration(payloads, payloadSet)
    requires IsEnumeration(capabilities, self.capabilities)
    ensures var sent := NewGetDataResponse(dataSet, payloadSet, nonce, isUpdate, wasTruncated, self);
            var received := FromEnvelope(Encode(sent, entries, payloads, capabilities));
            && received.Success?
            && received.value.dataSet == dataSet
            && received.value.persistableNetworkPayloadSet == payloadSet
            && received.value.requestNonce == nonce
            && received.value.wasTruncated == wasTruncated
            && received.value.supportedCapabilities == self.capabilities
            && received.value.version == self.version
            && AssociatedRequest(received.value) == (if isUpdate then GetUpdatedDataRequest else PreliminaryGetDataRequest)
  {
    var sent := NewGetDataResponse(dataSet, payloadSet, nonce, isUpdate, wasTruncated, self);
    RoundTrip(sent, entries, payloads, capabilities);
  }

  /** A message from a peer older than the payload list, the truncation flag
      and the version string still decodes: to no payloads, not truncated,
      and an empty version. */
  lemma OldPeerMessageDecodes(p: GetDataResponseProto, messageVersion: int32)
    requires p.persistableNetworkPayloadItems == []
    requires p.wasTruncated.None? && p.version.None?
    requires forall i :: 0 <= i < |p.dataSet| ==> !p.dataSet[i].EntryNotSet?
    ensures FromProto(p, messageVersion).Success?
    ensures FromProto(p, messageVersion).value.persistableNetworkPayloadSet == {}
    ensures !FromProto(p, messageVersion).value.wasTruncated
    ensures FromProto(p, messageVersion).value.version == ""
  {
    var r := FromProto(p, messageVersion);
    assert r.Success?;
    assert |r.value.persistableNetworkPayloadSet| <= 0;
  }

  /** A message whose entry list names the same wrapper twice, anywhere,
      decodes to fewer entries than the list holds, and every wrapper's entry
      is among them. */
  lemma DuplicateEntriesCollapse(p: GetDataResponseProto, messageVersion: int32, i: nat, j: nat)
    requires FromProto(p, messageVersion).Success?
    requires i < j < |p.dataSet| && p.dataSet[i] == p.dataSet[j]
    ensures |FromProto(p, messageVersion).value.dataSet| < |p.dataSet|
    ensures forall k :: 0 <= k < |p.dataSet| ==> DecodeEntry(p.dataSet[k]).value in FromProto(p, messageVersion).value.dataSet
  {
    var decoded := CollectToSet(p.dataSet, DecodeEntry);
    assert decoded == DecodeEntries(p.dataSet);
    CollectWithDuplicate(p.dataSet, DecodeEntry, i, j);
  }

  /** The request kind a response answers survives the wire. */
  lemma AssociatedRequestSurvivesWire(r: GetDataResponse, entries: seq<ProtectedEntry>,
                                      payloads: seq<NetworkPayload>, capabilities: seq<int32>)
    requires IsEnumeration(entries, r.dataSet)
    requires IsEnumeration(payloads, r.persistableNetworkPayloadSet)
    requires IsEnumeration(capabilities, r.supportedCapabilities)
    ensures FromEnvelope(Encode(r, entries, payloads, capabilities)).Success?
    ensures AssociatedRequest(FromEnvelope(Encode(r, entries, payloads, capabilities)).value) == AssociatedRequest(r)
  {
    RoundTrip(r, entries, payloads, capabilities);
  }
}
