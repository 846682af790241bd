/** The extractor: it prepares data from the reference program, with the same table, for nonces not yet sent. */
module Extractors {
  import opened Blocks
  import opened Bytes
  import opened DataPreparation
  import opened DataTable
  import opened Nonces
  import opened Walks

  /** What goes into the data base; a failed preparation is not noticed, and stores what was prepared before. */
  ghost function Extracted(v: Version, view: seq<AreaInfo>, nonce: seq<byte>, img: Image, before: Option<seq<byte>>):
    seq<byte>
    requires CanPrepare(v, view, Some(nonce))
  {
    match Outcome(v, view, Some(nonce), img, before).1
    case None => []
    case Some(data) => data
  }

  /** One turn of the extraction loop, with the nonce that was generated for it. */
  method ExtractOne(v: Version, table: RaTable, img: Image, nonce: seq<byte>, ghost view: seq<AreaInfo>)
    returns (data: seq<byte>)
    requires table.Valid() && table.AreasValid() && table.View() == view && CanPrepare(v, view, Some(nonce))
    modifies table`currentNonce, table`preparedData
    ensures data == Extracted(v, view, nonce, img, old(table.preparedData)) && table.currentNonce == Some(nonce)
    ensures nonce != [] && Succeeds(v, view, nonce) ==> data == PreparedFor(v, view, nonce, img)
    ensures nonce != [] && !Succeeds(v, view, nonce) ==>
      data == if old(table.preparedData) == None then [] else old(table.preparedData).value
    ensures nonce == [] ==> data == []
  {
    hide RaTable.Valid, RaTable.AreasValid, RaTable.View, PreparedFor, CanPrepare;
    table.SetCurrentNonce(nonce);
    var rc := PrepareData(v, table, img, view, Some(nonce));
    data := if table.preparedData == None then [] else table.preparedData.value;
  }
}
