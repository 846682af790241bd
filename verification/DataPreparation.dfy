/** The random walk of the normal data preparation block. */
module DataPreparation {
  import opened Blocks
  import opened Bytes
  import opened DataTable
  import opened Memory
  import opened NonceInterpretation
  import opened Nonces
  import opened NumberTheory
  import opened Results
  import opened Walks

  /** One walk over an area: every read is inside it, so every lookup finds a block. */
  method Walk(area: MemoryArea, img: Image, ghost d: Decoded, generator: uint32, size: uint32, offset: uint32)
    returns (buffer: array<byte>)
    requires area.Valid() && Sum(area.blocks) < 0x1_0000_0000 && InArea(d, Sum(area.blocks))
    requires d.generator == generator && d.actualBufferSize == size && d.initialOffset == offset
    ensures fresh(buffer) && buffer[..] == Prepared(Flatten(area.blocks, img), d)
    ensures buffer.Length == size && forall i {:trigger buffer[i]} :: 0 <= i < size ==>
      buffer[i] == Flatten(area.blocks, img)[offset + (generator * i) % size]
  {
    buffer := new byte[size];
    ghost var flat := Flatten(area.blocks, img);
    var i: int := 0;
    while i < size
      invariant 0 <= i <= size
      invariant forall k :: 0 <= k < i ==> buffer[k] == flat[offset + Index(generator, k, size)]
    {
      var index := Index(generator, i, size);
      var found := area.GetByte(Wrap32(index + offset), img);
      buffer[i] := found.value;
      i := i + 1;
    }
    assert buffer[..] == Prepared(flat, d);
    PreparedInOrder(flat, d);
  }

  /** `ra_prepare_data`. A failed decode leaves the previously prepared data where it was. */
  method PrepareData(v: Version, table: RaTable, img: Image, ghost view: seq<AreaInfo>, ghost nonce: Option<seq<byte>>)
    returns (rc: RaResult)
    requires table.currentNonce == nonce && CanPrepare(v, view, nonce)
    requires HasNonce(nonce) ==> Holds(table, view, nonce.value)
    modifies table`preparedData
    ensures (rc, table.preparedData) == Outcome(v, view, nonce, img, old(table.preparedData))
    ensures nonce == None || nonce.value == [] ==> rc == ErrorUndefinedParameters && table.preparedData == None
    ensures nonce.Some? && nonce.value != [] ==>
      if Succeeds(v, view, nonce.value) then rc == Success
      else rc == ErrorGeneric && table.preparedData == old(table.preparedData)
    ensures rc == Success ==>
      var bytes, d := nonce.value, Expected(v, view, nonce.value);
      var area := view[(bytes[|bytes| - 3] as int + 0x100 * bytes[|bytes| - 2] as int) % |view|];
      var flat := Flatten(area.blocks, img);
      && table.preparedData.Some? && |table.preparedData.value| == d.actualBufferSize
      && 0 < d.actualBufferSize && d.initialOffset + d.actualBufferSize <= |flat|
      && forall i {:trigger table.preparedData.value[i]} :: 0 <= i < d.actualBufferSize ==>
        table.preparedData.value[i] == flat[d.initialOffset + (d.generator * i) % d.actualBufferSize]
  {
    hide Holds, ClosestPrime, Decodable, NonceFits, Prepared;
    if table.currentNonce == None || |table.currentNonce.value| == 0 {
      table.ResetPreparedData();
      return ErrorUndefinedParameters;
    }
    var info := new DecodedInfo();
    rc := DecodeNonce(v, table, info, view, nonce.value);
    if rc != Success {
      return ErrorGeneric;
    }
    ghost var selected := Selected(view, nonce.value);
    WindowInsideArea(v, selected.areaLabel, Sum(selected.blocks), nonce.value);
    var area := FindSelected(v, table, info.areaLabel, view, nonce.value);
    if area == null {
      assert false; // the lookup that would answer with an empty-area error
    }
    var buffer := Walk(area, img, info.Value(), info.generator, info.actualBufferSize, info.initialOffset);
    SelectedFields(v, view, nonce.value);
    table.SetPreparedData(buffer[..]);
    return Success;
  }
}
