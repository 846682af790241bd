/** The Goldbach variant of the data preparation block. */
module GoldbachPreparation {
  import opened Blocks
  import opened Bytes
  import opened DataTable
  import opened GoldbachWalks
  import opened Memory
  import opened NonceInterpretation
  import opened Nonces
  import opened NumberTheory
  import opened Results
  import Walks

  /** As for the normal walk, and the decoded window has a row in the partition table. */
  ghost predicate CanPrepare(v: Version, view: seq<AreaInfo>, nonce: Option<seq<byte>>) {
    && Walks.CanPrepare(v, view, nonce)
    && (Walks.HasNonce(nonce) && Succeeds(v, view, nonce.value) ==>
        4 <= Even(Expected(v, view, nonce.value).actualBufferSize) <= 20480)
  }

  ghost function PreparedFor(v: Version, t: Partitions, view: seq<AreaInfo>, nonce: seq<byte>, img: Image): seq<byte>
    requires t.Valid() && CanPrepare(v, view, Some(nonce)) && nonce != [] && Succeeds(v, view, nonce)
  {
    var selected, d := Selected(view, nonce), Expected(v, view, nonce);
    WindowInsideArea(v, selected.areaLabel, Sum(selected.blocks), nonce);
    Prepared(Flatten(selected.blocks, img), SplitOf(d, t))
  }

  /** What is stored, in terms of the bytes of the nonce, the decoded window and the table. */
  lemma PreparedForInOrder(v: Version, t: Partitions, view: seq<AreaInfo>, nonce: seq<byte>, img: Image)
    requires t.Valid() && CanPrepare(v, view, Some(nonce)) && nonce != [] && Succeeds(v, view, nonce)
    ensures var d := Expected(v, view, nonce);
      var area := view[(nonce[|nonce| - 3] as int + 0x100 * nonce[|nonce| - 2] as int) % |view|];
      var size := if d.actualBufferSize % 2 == 0 then d.actualBufferSize else d.actualBufferSize - 1;
      AddsHalves(PreparedFor(v, t, view, nonce, img), Flatten(area.blocks, img), d.initialOffset,
                 t.left(size), t.right(size), d.generator)
  {
    hide AddsHalves, Flatten, Interpret, Prepared;
    SelectedFields(v, view, nonce);
    ExpectedWindow(v, view, nonce);
    PreparedInOrder(Flatten(Selected(view, nonce).blocks, img), SplitOf(Expected(v, view, nonce), t));
  }

  /** One turn of the loop: both indices, both bytes, and their sum. */
  method AddedBytes(area: MemoryArea, img: Image, left: uint32, right: uint32, leftGenerator: uint32,
    rightGenerator: uint32, offset: uint32, i: uint32) returns (b: byte)
    requires area.Valid() && Sum(area.blocks) < 0x1_0000_0000
    requires 0 < left && 0 < right && offset + left + right <= Sum(area.blocks)
    ensures b == Add(
      Flatten(area.blocks, img)[offset + Index(rightGenerator, i, left)],
      Flatten(area.blocks, img)[offset + left + Index(leftGenerator, i, right)])
  {
    hide Add, Flatten, Index;
    var leftIndex := Index(rightGenerator, i, left);
    var rightIndex := Index(leftGenerator, i, right);
    var leftByte := area.GetByte(Wrap32(leftIndex + offset), img);
    var rightByte := area.GetByte(Wrap32(rightIndex + left + offset), img);
    return Add(leftByte.value, rightByte.value);
  }

  /** Both walks at once over an area; every read is inside it, so every lookup finds a block. */
  method WalkHalves(area: MemoryArea, img: Image, left: uint32, right: uint32, leftGenerator: uint32,
    rightGenerator: uint32, offset: uint32, ghost s: Split) returns (buffer: array<byte>)
    requires area.Valid() && Sum(area.blocks) < 0x1_0000_0000
    requires s.Valid() && left == s.left && right == s.right && offset == s.offset
    requires leftGenerator == s.RightStep() && rightGenerator == s.LeftStep()
    requires offset + left + right <= Sum(area.blocks)
    ensures fresh(buffer) && buffer[..] == Prepared(Flatten(area.blocks, img), s)
  {
    hide Add, Flatten, Index;
    var maxSize := if left > right then left else right;
    buffer := new byte[maxSize];
    ghost var flat := Flatten(area.blocks, img);
    var i: int := 0;
    while i < maxSize
      invariant 0 <= i <= maxSize
      invariant forall k :: 0 <= k < i ==> buffer[k] == Add(flat[s.LeftAt(k)], flat[s.RightAt(k)])
    {
      buffer[i] := AddedBytes(area, img, left, right, leftGenerator, rightGenerator, offset, i);
      i := i + 1;
    }
  }

  /** `ra_prepare_data`: an odd window loses its last byte, then is split by the partition table. */
  method PrepareData(v: Version, t: Partitions, table: RaTable, img: Image, ghost view: seq<AreaInfo>,
    ghost nonce: Option<seq<byte>>) returns (rc: RaResult)
    requires t.Valid() && table.currentNonce == nonce && CanPrepare(v, view, nonce)
    requires Walks.HasNonce(nonce) ==> Holds(table, view, nonce.value)
    modifies table`preparedData
    ensures !Walks.HasNonce(nonce) ==> rc == ErrorUndefinedParameters && table.preparedData == None
    ensures Walks.HasNonce(nonce) && !Succeeds(v, view, nonce.value) ==>
      rc == ErrorGeneric && table.preparedData == old(table.preparedData)
    ensures Walks.HasNonce(nonce) && Succeeds(v, view, nonce.value) ==>
      rc == Success && table.preparedData == Some(PreparedFor(v, t, view, nonce.value, img))
    ensures nonce == None || nonce.value == [] <==> rc == ErrorUndefinedParameters
    ensures rc == Success ==>
      var bytes, d := nonce.value, Expected(v, view, nonce.value);
      var area := view[(bytes[|bytes| - 3] as int + 0x100 * bytes[|bytes| - 2] as int) % |view|];
      var size := if d.actualBufferSize % 2 == 0 then d.actualBufferSize else d.actualBufferSize - 1;
      table.preparedData.Some? &&
      AddsHalves(table.preparedData.value, Flatten(area.blocks, img), d.initialOffset, t.left(size), t.right(size),
                 d.generator)
  {
    hide Holds, Interpret, Decodable, NonceFits, SplitOf, Flatten, Prepared, AddsHalves;
    if table.currentNonce == None || |table.currentNonce.value| == 0 {
      table.ResetPreparedData();
      return ErrorUndefinedParameters;
    }
    var info := new DecodedInfo();
    rc := DecodeNonce(v, table, info, view, nonce.value);
    if rc != Success {
      return ErrorGeneric;
    }
    ExpectedWindow(v, view, nonce.value);
    var buffer := WalkSelected(v, t, table, info, img, view, nonce.value);
    PreparedForInOrder(v, t, view, nonce.value, img);
    table.SetPreparedData(buffer[..]);
    return Success;
  }

  /** The part of `ra_prepare_data` between decoding and storing the result. */
  method WalkSelected(ghost v: Version, t: Partitions, table: RaTable, info: DecodedInfo, img: Image,
    ghost view: seq<AreaInfo>, ghost nonce: seq<byte>) returns (buffer: array<byte>)
    requires Holds(table, view, nonce) && CanDecode(v, view, nonce)
    requires info.areaLabel == Selected(view, nonce).areaLabel
    requires t.Valid() && 4 <= Even(info.actualBufferSize) <= 20480
    requires info.initialOffset + info.actualBufferSize <= Sum(Selected(view, nonce).blocks)
    ensures fresh(buffer)
    ensures buffer[..] == Prepared(Flatten(Selected(view, nonce).blocks, img), SplitOf(info.Value(), t))
  {
    var area := FindSelected(v, table, info.areaLabel, view, nonce);
    if area == null {
      assert false; // the lookup that would answer with an empty-area error
    }
    buffer := WalkWindow(t, area, img, Even(info.actualBufferSize), info.generator, info.initialOffset, info.Value());
  }

  /** Splits the evened window of an area and walks it. */
  method WalkWindow(t: Partitions, area: MemoryArea, img: Image, size: uint32, generator: uint32, offset: uint32,
    ghost d: Decoded) returns (buffer: array<byte>)
    requires t.Valid() && area.Valid() && Sum(area.blocks) < 0x1_0000_0000 && 4 <= size <= 20480
    requires size == Even(d.actualBufferSize) && generator == d.generator && offset == d.initialOffset
    requires offset + size <= Sum(area.blocks)
    ensures fresh(buffer) && buffer[..] == Prepared(Flatten(area.blocks, img), SplitOf(d, t))
  {
    var left, right := t.left(size), t.right(size);
    var leftGenerator, rightGenerator := generator % left, generator % right;
    buffer := WalkHalves(area, img, left, right, leftGenerator, rightGenerator, offset, SplitOf(d, t));
  }
}
