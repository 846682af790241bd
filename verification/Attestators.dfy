/** The attestator inside the client: it answers a request with a hash over the memory that the nonce selects. */
module Attestators {
  import opened Blocks
  import opened Bytes
  import opened DataPreparation
  import opened DataTable
  import opened Defines
  import opened Hashing
  import opened Nonces
  import opened Protocol
  import opened Results
  import opened Rfc7693
  import opened Walks

  /** The request can be decoded on this table, and nonce and data together fit a 32-bit size. */
  ghost predicate CanAnswer(v: Version, view: seq<AreaInfo>, nonce: seq<byte>) {
    && CanPrepare(v, view, Some(nonce))
    && (nonce != [] && Succeeds(v, view, nonce) ==>
      |nonce| + SelectedSize(v, view, nonce) + AID_SIZE < 0x1_0000_0000)
  }

  /** What a client with this memory answers; nothing if no data can be prepared. */
  ghost function Answer(hash: Hash, v: Version, view: seq<AreaInfo>, img: Image, aid: Aid, number: uint64, r: Request):
    (a: Option<Response>)
    requires CanAnswer(v, view, r.nonce)
  {
    if r.nonce == [] || !Succeeds(v, view, r.nonce) then None
    else Some(Response(aid, number, r.id, HashOf(hash, r.nonce, PreparedFor(v, view, r.nonce, img), aid, number)))
  }

  lemma PreparedIsShort(v: Version, view: seq<AreaInfo>, img: Image, nonce: seq<byte>)
    requires CanAnswer(v, view, nonce) && nonce != [] && Succeeds(v, view, nonce)
    ensures |PreparedFor(v, view, nonce, img)| <= SelectedSize(v, view, nonce)
  {
    WindowInsideArea(v, Selected(view, nonce).areaLabel, SelectedSize(v, view, nonce), nonce);
  }

  /** `attestator_routine`: parse, set the nonce, prepare, hash, drop the prepared data, pack the response. */
  method AttestatorRoutine(v: Version, table: RaTable, img: Image, inBuffer: Option<seq<byte>>, forceExit: bool,
                           ghost view: seq<AreaInfo>)
    returns (response: Option<seq<byte>>)
    requires table.isAidSet && table.isAttestatorNumberSet
    requires table.Valid() && table.AreasValid() && table.View() == view
    requires inBuffer.Some? ==> HoldsRequest(inBuffer.value) && CanAnswer(v, view, ParseRequest(inBuffer.value).nonce)
    modifies table`currentNonce, table`preparedData
    ensures forceExit || inBuffer == None ==>
      response == None && table.currentNonce == old(table.currentNonce) && table.preparedData == old(table.preparedData)
    ensures !forceExit && inBuffer.Some? ==>
      var r := ParseRequest(inBuffer.value);
      var a := Answer(Blake(), v, view, img, table.appAid, table.appAttestatorNumber, r);
      && (a.Some? ==> a.value.Fits())
      && response == (if a.Some? then Some(EncodeResponse(a.value)) else None)
      && table.currentNonce == Some(r.nonce)
      && table.preparedData ==
         (if a.Some? || r.nonce == [] then None else old(table.preparedData))
  {
    hide Digest, RaTable.Valid, RaTable.AreasValid, RaTable.View, PreparedFor, HashOf, CanPrepare, EncodeResponse;
    if forceExit || inBuffer == None {
      return None;
    }
    var r := ParseRequest(inBuffer.value);
    table.SetCurrentNonce(r.nonce);
    var rc := PrepareData(v, table, img, view, Some(r.nonce));
    if rc != Success {
      return None;
    }
    PreparedIsShort(v, view, img, r.nonce);
    var rh, packed := DoHash(r.nonce, table.preparedData.value, table.appAid, table.appAttestatorNumber, None);
    BlakeOf(r.nonce, table.preparedData.value, table.appAid, table.appAttestatorNumber);
    if rh != Success {
      assert false; // hashing without a key does not fail
    }
    table.ResetPreparedData();
    var buffer := BuildResponse(Response(table.appAid, table.appAttestatorNumber, r.id, packed));
    return Some(buffer[..]);
  }
}
