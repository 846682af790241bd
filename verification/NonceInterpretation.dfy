/** The four diversified `decode_nonce` blocks: each fills the fields of `*ret` step by step. */
module NonceInterpretation {
  import opened Blocks
  import opened Bytes
  import opened DataTable
  import opened GenericFunctions
  import opened Labels
  import opened Memory
  import opened Nonces
  import opened NumberTheory
  import opened Results

  /** The caller's structure; its fields hold anything until they are filled. */
  class DecodedInfo {
    var areaLabel: uint16
    var bufferSize: uint32
    var actualBufferSize: uint32
    var generator: uint32
    var initialOffset: uint32

    /** A structure on the stack: no field is given a value. */
    constructor () {
    }

    ghost function Value(): Decoded
      reads this
    {
      Decoded(areaLabel, bufferSize, actualBufferSize, generator, initialOffset)
    }
  }

  /** The table is well formed; its areas and its nonce are the given values. */
  ghost predicate Holds(table: RaTable, view: seq<AreaInfo>, nonce: seq<byte>)
    reads table, table.repr, table.areas, set a, o | a in table.areas && o in a.repr :: o
  {
    && table.Valid() && table.AreasValid() && table.View() == view && table.currentNonce == Some(nonce)
  }

  /** Looking up the selected label finds the selected area. */
  method FindSelected(ghost v: Version, table: RaTable, l: uint16, ghost view: seq<AreaInfo>, ghost nonce: seq<byte>)
    returns (area: MemoryArea?)
    requires Holds(table, view, nonce) && CanDecode(v, view, nonce) && l == Selected(view, nonce).areaLabel
    ensures area != null && area in table.areas && area.Valid()
    ensures AreaInfo(area.areaLabel, area.blocks) == Selected(view, nonce)
  {
    ghost var i := AreaIndex(nonce, |view|);
    assert table.View()[i] == view[i];
    LookupFindsPosition(table.Labels(), i);
    area := table.GetMemoryArea(l);
  }

  /** The label at the position that the nonce selects. */
  method SelectLabel(ghost v: Version, table: RaTable, ghost view: seq<AreaInfo>, ghost nonce: seq<byte>)
    returns (l: uint16)
    requires Holds(table, view, nonce) && CanDecode(v, view, nonce)
    ensures l == Selected(view, nonce).areaLabel
  {
    WrapIsModulo(|view|, 0x1_0000);
    var labelIndex := AreaIndex(table.currentNonce.value, table.memoryAreasCount);
    var areaLabels := new uint16[table.memoryAreasCount];
    table.GetLabelsList(areaLabels);
    assert areaLabels[labelIndex] == areaLabels[..table.memoryAreasCount][labelIndex];
    assert table.View()[labelIndex] == view[labelIndex];
    return areaLabels[labelIndex];
  }

  /** The steps that all versions start with: choose a label, look its area up, take the total size. */
  method SelectArea(ghost v: Version, table: RaTable, ret: DecodedInfo, ghost view: seq<AreaInfo>,
                    ghost nonce: seq<byte>)
    requires Holds(table, view, nonce) && CanDecode(v, view, nonce)
    modifies ret`areaLabel, ret`bufferSize
    ensures ret.areaLabel == Selected(view, nonce).areaLabel && ret.bufferSize == SelectedSize(v, view, nonce)
    ensures ret.areaLabel == view[(nonce[|nonce| - 3] as int + 0x100 * nonce[|nonce| - 2] as int) % |view|].areaLabel
    ensures ret.bufferSize == Sum(view[(nonce[|nonce| - 3] as int + 0x100 * nonce[|nonce| - 2] as int) % |view|].blocks)
  {
    SelectedFields(v, view, nonce);
    ret.areaLabel := SelectLabel(v, table, view, nonce);
    var area := FindSelected(v, table, ret.areaLabel, view, nonce);
    TotalIsExact(area.blocks);
    ret.bufferSize := area.totalSize;
  }

  /** The last steps of version 1: offset and generator from the first eight bytes of the nonce. */
  method ChooseWalk(bytes: seq<byte>, ret: DecodedInfo)
    requires 4 <= |bytes| && ret.actualBufferSize != 0 && (ret.bufferSize == ret.actualBufferSize || 8 <= |bytes|)
    modifies ret`initialOffset, ret`generator
    ensures var slack := ret.bufferSize - ret.actualBufferSize;
      ret.initialOffset ==
        if slack == 0 then 0 else Word32(bytes, 4) % (if slack < 0 then slack + 0x1_0000_0000 else slack)
    ensures ret.generator == AtLeastTwo(Word32(bytes, 0) % ret.actualBufferSize)
  {
    if ret.bufferSize != ret.actualBufferSize {
      WrapSubtract(ret.bufferSize, ret.actualBufferSize);
      ret.initialOffset := Word32(bytes, 4) % Wrap32(ret.bufferSize - ret.actualBufferSize);
    } else {
      ret.initialOffset := 0;
    }
    ret.generator := Word32(bytes, 0) % ret.actualBufferSize;
    ret.generator := AtLeastTwo(ret.generator);
  }

  /**
   Version 1. Its error test compares the result of the prime search with -1, which is never returned: below
   size 2 the decode still succeeds, with the window size that happened to be in the structure.
   */
  method DecodeNonce1(table: RaTable, ret: DecodedInfo, ghost view: seq<AreaInfo>, ghost nonce: seq<byte>)
    returns (rc: RaResult)
    requires Holds(table, view, nonce) && CanDecode(V1, view, nonce)
    requires !Succeeds(V1, view, nonce) ==> ret.actualBufferSize != 0
    modifies ret
    ensures rc == Success
    ensures Succeeds(V1, view, nonce) ==> ret.Value() == Expected(V1, view, nonce)
    ensures ret.areaLabel == Selected(view, nonce).areaLabel && ret.bufferSize == SelectedSize(V1, view, nonce)
    ensures !Succeeds(V1, view, nonce) ==> ret.actualBufferSize == old(ret.actualBufferSize)
    ensures ret.areaLabel == view[(nonce[|nonce| - 3] as int + 0x100 * nonce[|nonce| - 2] as int) % |view|].areaLabel
    ensures ret.bufferSize == Sum(view[(nonce[|nonce| - 3] as int + 0x100 * nonce[|nonce| - 2] as int) % |view|].blocks)
    ensures 2 <= ret.bufferSize ==> IsClosestPrime(ret.actualBufferSize, ret.bufferSize)
    ensures ret.bufferSize == ret.actualBufferSize ==> ret.initialOffset == 0
    ensures ret.bufferSize != ret.actualBufferSize ==>
      var slack := ret.bufferSize - ret.actualBufferSize;
      ret.initialOffset ==
        (nonce[4] as int + 0x100 * nonce[5] as int + 0x1_0000 * nonce[6] as int + 0x100_0000 * nonce[7] as int)
        % (if slack < 0 then slack + 0x1_0000_0000 else slack)
    ensures 0 < ret.actualBufferSize &&
      var g :=
        (nonce[0] as int + 0x100 * nonce[1] as int + 0x1_0000 * nonce[2] as int + 0x100_0000 * nonce[3] as int)
        % ret.actualBufferSize;
      ret.generator == if g < 2 then 2 else g
  {
    var bytes := table.currentNonce.value;
    SelectArea(V1, table, ret, view, nonce);
    var _, window := FindClosestPrime(ret.bufferSize, ret.actualBufferSize);
    ret.actualBufferSize := window;
    if ret.bufferSize >= 2 {
      ClosestPrimeIsUnique(window, ret.bufferSize);
    }
    ChooseWalk(bytes, ret);
    return Success;
  }

  /** Version 2: the whole area, with the largest prime not above its size as generator. */
  method DecodeNonce2(table: RaTable, ret: DecodedInfo, ghost view: seq<AreaInfo>, ghost nonce: seq<byte>)
    returns (rc: RaResult)
    requires Holds(table, view, nonce) && CanDecode(V2, view, nonce)
    modifies ret
    ensures rc == if Succeeds(V2, view, nonce) then Success else ErrorGeneric
    ensures rc == Success ==> ret.Value() == Expected(V2, view, nonce)
    ensures ret.areaLabel == view[(nonce[|nonce| - 3] as int + 0x100 * nonce[|nonce| - 2] as int) % |view|].areaLabel
    ensures ret.bufferSize == Sum(view[(nonce[|nonce| - 3] as int + 0x100 * nonce[|nonce| - 2] as int) % |view|].blocks)
    ensures rc == Success <==> 2 <= ret.bufferSize
    ensures rc == Success ==> IsClosestPrime(ret.generator, ret.bufferSize)
    ensures rc == Success ==> ret.actualBufferSize == ret.bufferSize && ret.initialOffset == 0
  {
    SelectArea(V2, table, ret, view, nonce);
    ret.actualBufferSize := ret.bufferSize;
    if ret.bufferSize != ret.actualBufferSize {
      assert false; // the branch that would take an offset from the nonce
    } else {
      ret.initialOffset := 0;
    }
    var prc, g := FindClosestPrime(ret.bufferSize, ret.generator);
    ret.generator := g;
    if prc != Success {
      return ErrorGeneric;
    }
    ClosestPrimeIsUnique(g, ret.bufferSize);
    ret.generator := AtLeastTwo(ret.generator);
    return Success;
  }

  /** Version 3: the arithmetic of version 2 with the offset fixed. */
  method DecodeNonce3(table: RaTable, ret: DecodedInfo, ghost view: seq<AreaInfo>, ghost nonce: seq<byte>)
    returns (rc: RaResult)
    requires Holds(table, view, nonce) && CanDecode(V3, view, nonce)
    modifies ret
    ensures rc == if Succeeds(V3, view, nonce) then Success else ErrorGeneric
    ensures rc == Success ==> ret.Value() == Expected(V3, view, nonce)
    ensures ret.areaLabel == view[(nonce[|nonce| - 3] as int + 0x100 * nonce[|nonce| - 2] as int) % |view|].areaLabel
    ensures ret.bufferSize == Sum(view[(nonce[|nonce| - 3] as int + 0x100 * nonce[|nonce| - 2] as int) % |view|].blocks)
    ensures rc == Success <==> 2 <= ret.bufferSize
    ensures rc == Success ==> IsClosestPrime(ret.generator, ret.bufferSize)
    ensures rc == Success ==> ret.actualBufferSize == ret.bufferSize && ret.initialOffset == 0
  {
    SelectArea(V3, table, ret, view, nonce);
    ret.actualBufferSize := ret.bufferSize;
    ret.initialOffset := 0;
    var prc, g := FindClosestPrime(ret.bufferSize, ret.generator);
    ret.generator := g;
    if prc != Success {
      return ErrorGeneric;
    }
    ClosestPrimeIsUnique(g, ret.bufferSize);
    ret.generator := AtLeastTwo(ret.generator);
    return Success;
  }

  /** Version 4: a prime window from the start of the area, and the next smaller prime as generator. */
  method DecodeNonce4(table: RaTable, ret: DecodedInfo, ghost view: seq<AreaInfo>, ghost nonce: seq<byte>)
    returns (rc: RaResult)
    requires Holds(table, view, nonce) && CanDecode(V4, view, nonce)
    modifies ret
    ensures rc == if Succeeds(V4, view, nonce) then Success else ErrorGeneric
    ensures rc == Success ==> ret.Value() == Expected(V4, view, nonce)
    ensures ret.areaLabel == view[(nonce[|nonce| - 3] as int + 0x100 * nonce[|nonce| - 2] as int) % |view|].areaLabel
    ensures ret.bufferSize == Sum(view[(nonce[|nonce| - 3] as int + 0x100 * nonce[|nonce| - 2] as int) % |view|].blocks)
    ensures rc == Success <==> 3 <= ret.bufferSize
    ensures rc == Success ==> IsClosestPrime(ret.actualBufferSize, ret.bufferSize)
    ensures rc == Success ==> IsClosestPrime(ret.generator, ret.actualBufferSize - 1) && ret.initialOffset == 0
  {
    SelectArea(V4, table, ret, view, nonce);
    var prc, window := FindClosestPrime(ret.bufferSize, ret.actualBufferSize);
    ret.actualBufferSize := window;
    if prc != Success {
      return ErrorGeneric;
    }
    ClosestPrimeIsUnique(window, ret.bufferSize);
    ret.initialOffset := 0;
    var grc, g := FindClosestPrime(ret.actualBufferSize - 1, ret.generator);
    ret.generator := g;
    if grc != Success {
      return ErrorGeneric;
    }
    ClosestPrimeIsUnique(g, window - 1);
    ret.generator := AtLeastTwo(ret.generator);
    return Success;
  }

  /** The diversified block that was linked in. */
  method DecodeNonce(v: Version, table: RaTable, ret: DecodedInfo, ghost view: seq<AreaInfo>, ghost nonce: seq<byte>)
    returns (rc: RaResult)
    requires Holds(table, view, nonce) && CanDecode(v, view, nonce)
    requires v == V1 ==> Succeeds(V1, view, nonce)
    modifies ret
    ensures rc == if Succeeds(v, view, nonce) then Success else ErrorGeneric
    ensures rc == Success ==> ret.Value() == Expected(v, view, nonce)
  {
    match v
    case V1 => rc := DecodeNonce1(table, ret, view, nonce);
    case V2 => rc := DecodeNonce2(table, ret, view, nonce);
    case V3 => rc := DecodeNonce3(table, ret, view, nonce);
    case V4 => rc := DecodeNonce4(table, ret, view, nonce);
  }
}
