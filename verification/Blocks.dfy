/** Blocks of process memory and the flat byte string that a list of blocks stands for. */
module Blocks {
  import opened Bytes

  /** A process image: what each 64-bit address holds, and the address that block offsets are relative to. */
  datatype Image = Image(bytes: int -> byte, base: uint64) {
    function Read(offset: int): byte {
      bytes(Wrap64(base + offset))
    }
  }

  datatype Block = Block(offset: uint64, size: uint32)

  /** A memory area as a value. */
  datatype AreaInfo = AreaInfo(areaLabel: uint16, blocks: seq<Block>)

  function BlockBytes(b: Block, img: Image): (s: seq<byte>)
    ensures |s| == b.size
  {
    seq(b.size, i requires 0 <= i < b.size => img.Read(b.offset + i))
  }

  /** The size of the first n blocks together. */
  function SumTo(bs: seq<Block>, n: nat): nat
    requires n <= |bs|
  {
    if n == 0 then 0 else SumTo(bs, n - 1) + bs[n - 1].size
  }

  function Sum(bs: seq<Block>): nat {
    SumTo(bs, |bs|)
  }

  /** The bytes of the first n blocks, one after the other. */
  function FlattenTo(bs: seq<Block>, n: nat, img: Image): (s: seq<byte>)
    requires n <= |bs|
    ensures |s| == SumTo(bs, n)
  {
    if n == 0 then [] else FlattenTo(bs, n - 1, img) + BlockBytes(bs[n - 1], img)
  }

  function Flatten(bs: seq<Block>, img: Image): (s: seq<byte>)
    ensures |s| == Sum(bs)
  {
    FlattenTo(bs, |bs|, img)
  }

  lemma {:induction false} SumOfPrefix(bs: seq<Block>, cs: seq<Block>, n: nat)
    requires n <= |bs| && n <= |cs| && forall i :: 0 <= i < n ==> bs[i] == cs[i]
    ensures SumTo(bs, n) == SumTo(cs, n)
  {
    if n > 0 {
      SumOfPrefix(bs, cs, n - 1);
    }
  }

  lemma SumAppend(bs: seq<Block>, b: Block)
    ensures Sum(bs + [b]) == Sum(bs) + b.size
  {
    SumOfPrefix(bs, bs + [b], |bs|);
  }

  lemma {:induction false} SumIsMonotone(bs: seq<Block>, k: nat, n: nat)
    requires k <= n <= |bs|
    ensures SumTo(bs, k) <= SumTo(bs, n)
  {
    if k < n {
      SumIsMonotone(bs, k, n - 1);
    }
  }

  /** Byte j of block k sits after the bytes of the blocks before it. */
  lemma {:induction false} FlattenAt(bs: seq<Block>, n: nat, k: nat, j: nat, img: Image)
    requires k < n <= |bs| && j < bs[k].size
    ensures SumTo(bs, k) + j < SumTo(bs, n)
    ensures FlattenTo(bs, n, img)[SumTo(bs, k) + j] == img.Read(bs[k].offset + j)
  {
    if k + 1 < n {
      FlattenAt(bs, n - 1, k, j, img);
    }
  }

  /** The address of flat byte i: what is left of it in its block, on top of base and offset, modulo 2^64. */
  lemma FlatAddress(bs: seq<Block>, i: nat, k: nat, img: Image)
    requires k < |bs| && SumTo(bs, k) <= i < SumTo(bs, k) + bs[k].size
    ensures i < Sum(bs)
    ensures Flatten(bs, img)[i] ==
      img.bytes((img.base + bs[k].offset + (i - SumTo(bs, k))) % 0x1_0000_0000_0000_0000)
  {
    hide Wrap;
    FlattenAt(bs, |bs|, k, i - SumTo(bs, k), img);
    WrapIsModulo(img.base + bs[k].offset + (i - SumTo(bs, k)), 0x1_0000_0000_0000_0000);
  }

  /** b is what the image holds at the address that flat index i has, in whichever block it falls. */
  ghost predicate IsByteAt(bs: seq<Block>, i: nat, img: Image, b: byte) {
    forall k {:trigger SumTo(bs, k)} :: 0 <= k < |bs| && SumTo(bs, k) <= i < SumTo(bs, k) + bs[k].size ==>
      b == img.bytes((img.base + bs[k].offset + (i - SumTo(bs, k))) % 0x1_0000_0000_0000_0000)
  }

  lemma FlatByteAt(bs: seq<Block>, i: nat, img: Image)
    requires i < Sum(bs)
    ensures IsByteAt(bs, i, img, Flatten(bs, img)[i])
  {
    hide SumTo, FlattenTo;
    forall k: nat | k < |bs| && SumTo(bs, k) <= i < SumTo(bs, k) + bs[k].size
      ensures Flatten(bs, img)[i] ==
        img.bytes((img.base + bs[k].offset + (i - SumTo(bs, k))) % 0x1_0000_0000_0000_0000)
    {
      FlatAddress(bs, i, k, img);
    }
  }

  /** The 32-bit total is the true total exactly when that total fits. */
  lemma TotalIsExact(bs: seq<Block>)
    ensures Wrap32(Sum(bs)) == Sum(bs) <==> Sum(bs) < 0x1_0000_0000
  {
  }
}
