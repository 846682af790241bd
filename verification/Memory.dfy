/** Memory areas: a doubly linked list of blocks that has to behave like one flat byte string. */
module Memory {
  import opened AreaFormat
  import opened Blocks
  import opened Bytes
  import opened Results

  class BlockItem {
    const block: Block
    var previous: BlockItem?
    var next: BlockItem?
    ghost const position: nat

    constructor (block: Block, ghost position: nat)
      ensures this.block == block && this.position == position
    {
      this.block := block;
      this.position := position;
    }
  }

  /** How a byte lookup ends; the last case is the dereference of the null pointer after the last block. */
  datatype Lookup = Found(value: byte) | EmptyArea | NullDereference

  class MemoryArea {
    var areaLabel: uint16
    var totalBlocks: uint32
    var totalSize: uint32
    var head: BlockItem?
    var tail: BlockItem?
    ghost var items: seq<BlockItem>
    ghost var blocks: seq<Block>
    ghost var repr: set<BlockItem>

    /** The items are chained in both directions, and each knows its position, so that no two coincide. */
    ghost predicate Linked()
      reads this`head, this`tail, this`items, this`blocks, this`repr, repr
    {
      && |blocks| == |items|
      && (forall i :: 0 <= i < |items| ==> items[i] in repr && items[i].position == i && items[i].block == blocks[i])
      && (if items == [] then head == null && tail == null else
          && head == items[0] && head.previous == null
          && tail == items[|items| - 1] && tail.next == null)
      && (forall i :: 0 <= i < |items| - 1 ==> items[i].next == items[i + 1])
      && (forall i :: 1 <= i < |items| ==> items[i].previous == items[i - 1])
    }

    ghost predicate Valid()
      reads this, repr
    {
      && Linked()
      && totalBlocks == Wrap32(|blocks|)
      && totalSize == Wrap32(Sum(blocks))
    }

    constructor (areaLabel: uint16)
      ensures Valid() && this.areaLabel == areaLabel && blocks == [] && repr == {}
    {
      this.areaLabel := areaLabel;
      totalBlocks, totalSize := 0, 0;
      head, tail := null, null;
      items, blocks, repr := [], [], {};
    }

    /** The pointer part of an insertion: empty list and tail insertion. */
    method Link(item: BlockItem)
      requires Linked() && item.position == |blocks|
      modifies this`head, this`tail, this`items, this`blocks, this`repr, repr, item
      ensures Linked() && blocks == old(blocks) + [item.block] && repr == old(repr) + {item}
    {
      if head == null && tail == null {
        item.next, item.previous := null, null;
        head := item;
        tail := item;
      } else {
        item.previous := tail;
        item.next := null;
        tail.next := item;
        tail := item;
      }
      items, blocks, repr := items + [item], blocks + [item.block], repr + {item};
    }

    /** `ra_mA_insert_block`; both totals are 32 bits wide. */
    method InsertBlock(block: Block) returns (rc: RaResult)
      requires Valid()
      modifies this, repr
      ensures Valid() && rc == Success
      ensures areaLabel == old(areaLabel) && blocks == old(blocks) + [block]
      ensures fresh(repr - old(repr))
    {
      var item := new BlockItem(block, |blocks|);
      WrapAdd(|blocks|, 1, 0x1_0000_0000);
      WrapAdd(Sum(blocks), block.size, 0x1_0000_0000);
      SumAppend(blocks, block);
      totalBlocks := Wrap32(totalBlocks + 1);
      totalSize := Wrap32(totalSize + block.size);
      Link(item);
      return Success;
    }

    /** The loop of `ra_mA_get_byte`: lower bound and moving index always sum to the wanted index. */
    method FindItem(byteIndex: uint32) returns (iter: BlockItem?, moving: uint32, ghost k: nat)
      requires Valid()
      ensures k <= |items| && iter == if k < |items| then items[k] else null
      ensures Sum(blocks) < 0x1_0000_0000 ==>
        if k < |blocks| then moving < blocks[k].size && byteIndex == SumTo(blocks, k) + moving
        else Sum(blocks) <= byteIndex
    {
      var lower: uint32 := 0;
      iter, moving, k := head, byteIndex, 0;
      ghost var bs := blocks;
      ghost var fits := Sum(bs) < 0x1_0000_0000;
      while iter != null && (byteIndex < lower || byteIndex >= Wrap32(lower + iter.block.size))
        invariant 0 <= k <= |items| && iter == if k < |items| then items[k] else null
        invariant fits ==> lower == SumTo(bs, k) && lower + moving == byteIndex
        decreases |items| - k
      {
        SumIsMonotone(bs, k + 1, |bs|);
        lower := Wrap32(lower + iter.block.size);
        moving := Wrap32(moving - iter.block.size);
        assert k + 1 < |items| ==> items[k].next == items[k + 1];
        iter := iter.next;
        k := k + 1;
      }
      if iter != null {
        SumIsMonotone(bs, k + 1, |bs|);
      }
    }

    /** `ra_mA_get_byte`: the flat byte, from the address that its block gives it. */
    method GetByte(byteIndex: uint32, img: Image) returns (r: Lookup)
      requires Valid()
      ensures blocks == [] ==> r == EmptyArea
      ensures blocks != [] && Sum(blocks) < 0x1_0000_0000 ==>
        r == if byteIndex < Sum(blocks) then Found(Flatten(blocks, img)[byteIndex]) else NullDereference
      ensures byteIndex < Sum(blocks) < 0x1_0000_0000 ==> r.Found? && IsByteAt(blocks, byteIndex, img, r.value)
    {
      assert blocks == [] ==> head == null && tail == null && totalBlocks == 0 && totalSize == 0;
      hide Wrap, SumTo, FlattenTo, IsByteAt;
      if byteIndex < Sum(blocks) {
        FlatByteAt(blocks, byteIndex, img);
      }
      if head == null && tail == null && totalBlocks == 0 && totalSize == 0 {
        return EmptyArea;
      }
      var iter, moving, k := FindItem(byteIndex);
      if iter == null {
        return NullDereference;
      }
      if Sum(blocks) < 0x1_0000_0000 {
        FlattenAt(blocks, |blocks|, k, moving, img);
      }
      return Found(img.Read(iter.block.offset + moving));
    }

    /** `ra_mA_get_buffer`: the blocks copied one after the other. */
    method GetBuffer(buffer: array?<byte>, img: Image) returns (rc: RaResult)
      requires Valid()
      requires buffer != null ==> Sum(blocks) <= buffer.Length && Sum(blocks) < 0x1_0000_0000
      modifies if buffer == null then {} else {buffer}
      ensures rc == if buffer == null then ErrorNullPointer else Success
      ensures buffer != null ==> buffer[..] == Flatten(blocks, img) + old(buffer[Sum(blocks)..])
    {
      if buffer == null {
        return ErrorNullPointer;
      }
      var iter, currentSize := head, 0;
      ghost var k, bs, before := 0, blocks, buffer[..];
      while iter != null
        invariant 0 <= k <= |items| && iter == if k < |items| then items[k] else null
        invariant currentSize == SumTo(bs, k) <= Sum(bs)
        invariant buffer[..currentSize] == FlattenTo(bs, k, img) && buffer[currentSize..] == before[currentSize..]
        decreases |items| - k
      {
        SumIsMonotone(bs, k + 1, |bs|);
        Memcpy(buffer, currentSize, BlockBytes(iter.block, img));
        currentSize := currentSize + iter.block.size;
        assert k + 1 < |items| ==> items[k].next == items[k + 1];
        iter := iter.next;
        k := k + 1;
      }
      return Success;
    }

    /** `ra_mA_dump_info_binary`, with the bytes written to the file as `out`. */
    method Dump() returns (rc: RaResult, out: seq<byte>)
      requires Valid()
      ensures rc == Success <==> totalBlocks != 0 && totalSize != 0
      ensures rc == Success ==> out == EncodeArea(areaLabel, blocks)
    {
      out := [];
      if totalBlocks == 0 || totalSize == 0 {
        return ErrorGeneric, out;
      }
      out := out + Encode(areaLabel, 2);
      out := out + Encode(totalBlocks, 4);
      var iter := head;
      ghost var k, bs := 0, blocks;
      while true
        invariant 0 <= k < |items| && iter == items[k]
        invariant out == Encode(areaLabel, 2) + Encode(totalBlocks, 4) + EncodeBlocks(bs, k)
        decreases |items| - k
      {
        out := out + Encode(iter.block.offset, 8);
        out := out + Encode(iter.block.size, 4);
        assert k + 1 < |items| ==> items[k].next == items[k + 1];
        iter := iter.next;
        if iter == null {
          break;
        }
        k := k + 1;
      }
      return Success, out;
    }
  }

  /** `ra_mA_parse_ads_binary_info`: reads an area at `pointer` and returns where it ends. */
  method ParseArea(data: seq<byte>, pointer: nat) returns (area: MemoryArea, end: nat)
    requires AreaFits(data, pointer)
    ensures fresh(area) && fresh(area.repr) && area.Valid()
    ensures area.areaLabel == LabelAt(data, pointer)
    ensures area.blocks == BlocksAt(data, pointer + 6, CountAt(data, pointer))
    ensures end == pointer + 6 + 12 * CountAt(data, pointer)
  {
    area := new MemoryArea(0xFFFF);
    area.areaLabel := LabelAt(data, pointer);
    end := pointer + 2;
    var totalBlocks: int := CountAt(data, pointer);
    end := end + 4;
    var i: int := 0;
    while i < totalBlocks
      invariant 0 <= i <= totalBlocks && end == pointer + 6 + 12 * i
      invariant fresh(area) && fresh(area.repr) && area.Valid()
      invariant area.areaLabel == LabelAt(data, pointer)
      invariant area.blocks == BlocksAt(data, pointer + 6, i)
    {
      var block := BlockAt(data, end);
      end := end + 12;
      var rc := area.InsertBlock(block);
      assert BlocksAt(data, pointer + 6, i + 1) == BlocksAt(data, pointer + 6, i) + [block];
      i := i + 1;
    }
  }
}
