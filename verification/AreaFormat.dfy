/** The binary form in which memory areas are dumped and parsed. */
module AreaFormat {
  import opened Blocks
  import opened Bytes
  import opened Sequences

  /** The first n blocks: eight bytes of offset and four of size each. */
  function EncodeBlocks(bs: seq<Block>, n: nat): (s: seq<byte>)
    requires n <= |bs|
    ensures |s| == 12 * n
  {
    if n == 0 then [] else EncodeBlocks(bs, n - 1) + Encode(bs[n - 1].offset, 8) + Encode(bs[n - 1].size, 4)
  }

  function EncodeArea(areaLabel: uint16, bs: seq<Block>): (s: seq<byte>)
    ensures |s| == 6 + 12 * |bs|
  {
    Encode(areaLabel, 2) + Encode(Wrap32(|bs|), 4) + EncodeBlocks(bs, |bs|)
  }

  /** The block whose 12 bytes start at `at`. */
  function BlockAt(data: seq<byte>, at: nat): (b: Block)
    requires at + 12 <= |data|
  {
    Capacities();
    Block(Decode(data[at..at + 8]), Decode(data[at + 8..at + 12]))
  }

  function BlocksAt(data: seq<byte>, at: nat, count: nat): (bs: seq<Block>)
    requires at + 12 * count <= |data|
    ensures |bs| == count
  {
    seq(count, k requires 0 <= k < count => BlockAt(data, at + 12 * k))
  }

  /** The number of blocks that the area starting at `at` announces. */
  function CountAt(data: seq<byte>, at: nat): (n: uint32)
    requires at + 6 <= |data|
  {
    Capacities();
    Decode(data[at + 2..at + 6])
  }

  function LabelAt(data: seq<byte>, at: nat): (n: uint16)
    requires at + 6 <= |data|
  {
    Capacities();
    Decode(data[at..at + 2])
  }

  /** The area starting at `at` lies inside the data, and its count fits the signed loop counter. */
  predicate AreaFits(data: seq<byte>, at: nat) {
    at + 6 <= |data| && CountAt(data, at) < 0x8000_0000 && at + 6 + 12 * CountAt(data, at) <= |data|
  }

  /** Two bytes of label and four of count, least significant first. */
  lemma AreaHeader(data: seq<byte>, at: nat)
    requires at + 6 <= |data|
    ensures LabelAt(data, at) == data[at] as int + 0x100 * data[at + 1] as int
    ensures CountAt(data, at) ==
      data[at + 2] as int + 0x100 * data[at + 3] as int + 0x1_0000 * data[at + 4] as int
      + 0x100_0000 * data[at + 5] as int
  {
    assert data[at..at + 2] == [data[at], data[at + 1]];
    DecodeTwo(data[at], data[at + 1]);
    assert data[at + 2..at + 6] == [data[at + 2], data[at + 3], data[at + 4], data[at + 5]];
    DecodeFour(data[at + 2], data[at + 3], data[at + 4], data[at + 5]);
  }

  /** Block k: eight bytes of offset and four of size, behind the header and k times twelve bytes. */
  lemma BlockEntry(data: seq<byte>, at: nat, count: nat, k: nat)
    requires at + 6 + 12 * count <= |data| && k < count
    ensures var b, p := BlocksAt(data, at + 6, count)[k], at + 6 + 12 * k;
      && b.offset ==
           data[p] as int + 0x100 * data[p + 1] as int + 0x1_0000 * data[p + 2] as int + 0x100_0000 * data[p + 3] as int
           + 0x1_0000_0000 * data[p + 4] as int + 0x100_0000_0000 * data[p + 5] as int
           + 0x1_0000_0000_0000 * data[p + 6] as int + 0x100_0000_0000_0000 * data[p + 7] as int
      && b.size ==
           data[p + 8] as int + 0x100 * data[p + 9] as int + 0x1_0000 * data[p + 10] as int
           + 0x100_0000 * data[p + 11] as int
  {
    hide Decode;
    var p := at + 6 + 12 * k;
    DecodeEight(data[p..p + 8]);
    assert data[p + 8..p + 12] == [data[p + 8], data[p + 9], data[p + 10], data[p + 11]];
    DecodeFour(data[p + 8], data[p + 9], data[p + 10], data[p + 11]);
  }

  lemma BlockInSlice(data: seq<byte>, at: nat, s: seq<byte>, p: nat)
    requires at + |s| <= |data| && data[at..at + |s|] == s && p + 12 <= |s|
    ensures BlockAt(data, at + p) == BlockAt(s, p)
  {
    SliceOfSlice(data, at, s, p, p + 8);
    SliceOfSlice(data, at, s, p + 8, p + 12);
    assert data[at + p..at + p + 8] == s[p..p + 8];
    assert data[at + p + 8..at + p + 12] == s[p + 8..p + 12];
  }

  lemma {:induction false} EncodedBlock(bs: seq<Block>, n: nat, k: nat)
    requires k < n <= |bs|
    ensures BlockAt(EncodeBlocks(bs, n), 12 * k) == bs[k]
  {
    var s, front := EncodeBlocks(bs, n), EncodeBlocks(bs, n - 1);
    if k < n - 1 {
      EncodedBlock(bs, n - 1, k);
      SliceOfConcat(front, Encode(bs[n - 1].offset, 8), Encode(bs[n - 1].size, 4));
      BlockInSlice(s, 0, front, 12 * k);
    } else {
      FixedWidths(0, bs[k].size, bs[k].offset);
      SliceOfConcat(front, Encode(bs[k].offset, 8), Encode(bs[k].size, 4));
      assert s[12 * k + 8..12 * k + 12] == s[12 * k + 8..];
    }
  }

  lemma HeaderAt(data: seq<byte>, at: nat, areaLabel: uint16, count: uint32)
    requires at + 6 <= |data| && data[at..at + 6] == Encode(areaLabel, 2) + Encode(count, 4)
    ensures LabelAt(data, at) == areaLabel && CountAt(data, at) == count
  {
    FixedWidths(areaLabel, count, 0);
    var h := data[at..at + 6];
    assert data[at..at + 2] == h[..2] == Encode(areaLabel, 2);
    assert data[at + 2..at + 6] == h[2..] == Encode(count, 4);
  }

  lemma BlocksInSlice(data: seq<byte>, at: nat, s: seq<byte>, bs: seq<Block>)
    requires |s| == 12 * |bs| && at + |s| <= |data| && data[at..at + |s|] == s
    requires forall k :: 0 <= k < |bs| ==> BlockAt(s, 12 * k) == bs[k]
    ensures BlocksAt(data, at, |bs|) == bs
  {
    forall k | 0 <= k < |bs|
      ensures BlocksAt(data, at, |bs|)[k] == bs[k]
    {
      BlockInSlice(data, at, s, 12 * k);
    }
  }

  /** Parsing what was dumped gives the same area, and leaves the cursor at whatever follows. */
  lemma AreaRoundTrip(before: seq<byte>, areaLabel: uint16, bs: seq<Block>, rest: seq<byte>)
    requires |bs| < 0x8000_0000
    ensures var data, at := before + EncodeArea(areaLabel, bs) + rest, |before|;
      && AreaFits(data, at)
      && LabelAt(data, at) == areaLabel
      && BlocksAt(data, at + 6, CountAt(data, at)) == bs
      && data[at + 6 + 12 * CountAt(data, at)..] == rest
  {
    var data, at := before + EncodeArea(areaLabel, bs) + rest, |before|;
    HeaderAt(data, at, areaLabel, |bs|);
    forall k | 0 <= k < |bs|
      ensures BlockAt(EncodeBlocks(bs, |bs|), 12 * k) == bs[k]
    {
      EncodedBlock(bs, |bs|, k);
    }
    BlocksInSlice(data, at + 6, EncodeBlocks(bs, |bs|), bs);
  }
}
