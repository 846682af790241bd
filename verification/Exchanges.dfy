/** One attestation from end to end, run by the four programs themselves. */
module Exchanges {
  import opened Agreement
  import opened Attestators
  import opened Blocks
  import opened Bytes
  import opened DataTable
  import opened Extractors
  import opened Hashing
  import opened Nonces
  import opened Protocol
  import opened Verifiers
  import opened Walks

  /** Two tables of the same program: the extractor's and the client's. */
  ghost predicate Describes(table: RaTable, view: seq<AreaInfo>)
    reads table, table.repr, table.areas, set a, o | a in table.areas && o in a.repr :: o
  {
    table.Valid() && table.AreasValid() && table.View() == view
  }

  /**
   Extractor, manager, attestator, forwarder and verifier, one after the other. The client passes, with only time to
   decide how, if its memory agrees with the reference wherever the nonce makes the walk read; otherwise it is rejected,
   unless its hash collides with the right one.
   */
  method AttestOnce(v: Version, server: RaTable, client: RaTable, reference: Image, memory: Image, request: Request,
                    sendTime: int64, receiveTime: int64, validitySeconds: uint16, ghost view: seq<AreaInfo>)
    returns (result: VerifierResult)
    requires server != client && Describes(server, view) && Describes(client, view)
    requires client.isAidSet && client.isAttestatorNumberSet
    requires request.Fits() && request.nonce != []
    requires CanAnswer(v, view, request.nonce) && Succeeds(v, view, request.nonce)
    modifies server`currentNonce, server`preparedData, client`currentNonce, client`preparedData
    ensures result.Verdict? && result.requestId == request.id
    ensures result.elapsed == (receiveTime - sendTime) % 0x1_0000_0000
    ensures AgreeWhereRead(v, view, request.nonce, memory, reference) ==>
      result.status == (if receiveTime - sendTime < validitySeconds then SuccessInTime else ExpiredSuccess)
      && !result.compromised
    ensures !AgreeWhereRead(v, view, request.nonce, memory, reference) ==>
      || (result.status == (if receiveTime - sendTime < validitySeconds then Failed else ExpiredFailed)
          && result.compromised)
      || HashesCollide(Blake(), request.nonce, PreparedFor(v, view, request.nonce, memory),
                       PreparedFor(v, view, request.nonce, reference), client.appAid, client.appAttestatorNumber)
  {
    hide RaTable.Valid, RaTable.AreasValid, RaTable.View, PreparedFor, CanPrepare, CanDecode, Succeeds, HashesCollide,
      AgreeWhereRead, HashOf, Verification, EncodeRequest, EncodeResponse, EncodeTime, ParseRequest;
    var data := ExtractOne(v, server, reference, request.nonce, view);
    PreparedIsShort(v, view, reference, request.nonce);
    var stored := Stored(request.nonce, data, sendTime, validitySeconds);
    var db := map[request.id := stored];
    var sent := BuildRequest(request.id, request.nonce);
    RequestRoundTrip(request, []);
    assert EncodeRequest(request) + [] == sent[..];
    var response := AttestatorRoutine(v, client, memory, Some(sent[..]), false, view);
    BlakeHasLength();
    ExchangeDecides(Blake(), BLAKE_HASH_SIZE, v, view, reference, memory, client.appAid, client.appAttestatorNumber,
                    request, [], receiveTime, db);
    result := Verify(EncodeTime(receiveTime) + response.value, db);
  }
}
