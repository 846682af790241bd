/** The streaming BLAKE2s of the repository: a lazy two-block buffer and a counter in two words. */
module Blake2s {
  import opened Bytes
  import opened Rfc7693

  /** How many blocks have been compressed after n bytes: all but the last two, full or not. */
  function Lazy(n: nat): nat {
    if n <= 128 then 0 else (n - 65) / 64
  }

  lemma LazyKeepsTwoBlocks(n: nat)
    ensures Lazy(n) == var blocks := (n + 63) / 64; if blocks <= 2 then 0 else blocks - 2
    ensures n - 64 * Lazy(n) <= 128
    ensures 0 < Lazy(n) ==> 64 < n - 64 * Lazy(n)
  {
  }

  lemma LazyIsUnique(c: nat, buffered: nat)
    requires buffered <= 128 && (c == 0 || 64 < buffered)
    ensures Lazy(64 * c + buffered) == c
  {
  }

  lemma {:induction false} ChainOfPrefix(h0: seq<Word>, d: seq<byte>, e: seq<byte>, k: nat)
    requires |h0| == 8 && 64 * k <= |d| && d <= e
    ensures Chain(h0, d, k) == Chain(h0, e, k)
  {
    hide F;
    if k > 0 {
      ChainOfPrefix(h0, d, e, k - 1);
      assert PaddedBlock(d, k - 1) == PaddedBlock(e, k - 1);
    }
  }

  /** The 32 bytes of the parameter structure, whose fields beyond the fourth are all 0. */
  function ParamBlock(digestLength: byte, keyLength: byte): (p: seq<byte>)
    ensures |p| == 32
  {
    [digestLength, keyLength, 1, 1] + seq(28, _ => 0)
  }

  class Blake2sState {
    const h: array<Word>
    const buf: array<byte>
    var t0: uint32
    var t1: uint32
    var f0: Word
    var f1: Word
    var buflen: nat
    var lastNode: byte
    ghost var seed: seq<Word>
    ghost var absorbed: seq<byte>

    ghost predicate Shaped()
      reads this
    {
      h.Length == 8 && buf.Length == 128 && |seed| == 8 && lastNode == 0 && f1 == 0
    }

    ghost function Counter(): uint64
      reads this
    {
      t0 + 0x1_0000_0000 * t1
    }

    /** c blocks of the absorbed bytes are in the chaining value, the rest is in the buffer. */
    ghost predicate Holds(c: nat)
      reads this, h, buf
    {
      && Shaped() && f0 == 0
      && 64 * c + buflen == |absorbed| && buflen <= 128
      && h[..] == Chain(seed, absorbed, c)
      && Counter() == Wrap64(64 * c)
      && buf[..buflen] == absorbed[64 * c..]
    }

    ghost predicate Valid()
      reads this, h, buf
    {
      Holds(Lazy(|absorbed|))
    }

    /** A structure on the stack. */
    constructor ()
      ensures fresh(h) && fresh(buf) && h.Length == 8 && buf.Length == 128
    {
      h := new Word[8];
      buf := new byte[128];
    }

    /** `blake2s_init0`: everything zero, then the IV. */
    method Init0()
      requires h.Length == 8 && buf.Length == 128
      modifies this, h, buf
      ensures Shaped() && f0 == 0 && t0 == 0 && t1 == 0 && buflen == 0 && h[..] == IV
    {
      forall i | 0 <= i < 128 {
        buf[i] := 0;
      }
      t0, t1, f0, f1, buflen, lastNode := 0, 0, 0, 0, 0, 0;
      seed, absorbed := IV, [];
      for i := 0 to 8
        modifies h
        invariant forall j :: 0 <= j < i ==> h[j] == IV[j]
      {
        h[i] := IV[i];
      }
    }

    /** `blake2s_init_param`: the IV with the parameter words xored in. */
    method InitParam(p: seq<byte>)
      requires h.Length == 8 && buf.Length == 128 && |p| == 32
      modifies this, h, buf
      ensures Valid() && absorbed == []
      ensures seed == seq(8, i requires 0 <= i < 8 => Xor(IV[i], LoadWord(p[4 * i..4 * i + 4])))
    {
      hide Xor, LoadWord;
      Init0();
      for i := 0 to 8
        modifies h
        invariant forall j :: 0 <= j < i ==> h[j] == Xor(IV[j], LoadWord(p[4 * j..4 * j + 4]))
        invariant forall j :: i <= j < 8 ==> h[j] == IV[j]
      {
        h[i] := Xor(h[i], LoadWord(p[4 * i..4 * i + 4]));
      }
      seed, absorbed := h[..], [];
    }

    /** `blake2s_init`: -1 unless the digest length is 1 to 32. */
    method Init(outlen: byte) returns (rc: int)
      requires h.Length == 8 && buf.Length == 128
      modifies this, h, buf
      ensures rc == if 1 <= outlen <= 32 then 0 else -1
      ensures rc == 0 ==> Valid() && absorbed == [] && seed == Initial(0, outlen as int)
    {
      if outlen == 0 || outlen > 32 {
        return -1;
      }
      InitParam(ParamBlock(outlen, 0));
      ParamWords(outlen, 0);
      return 0;
    }

    /** `blake2s_init_key`: also needs a key of 1 to 32 bytes, and absorbs it as a block of its own. */
    method InitKey(outlen: byte, key: seq<byte>) returns (rc: int)
      requires h.Length == 8 && buf.Length == 128
      modifies this, h, buf
      ensures rc == if 1 <= outlen <= 32 && 1 <= |key| <= 32 then 0 else -1
      ensures rc == 0 ==> Valid() && absorbed == PaddedBlock(key, 0) && seed == Initial(|key|, outlen as int)
    {
      if outlen == 0 || outlen > 32 {
        return -1;
      }
      if |key| == 0 || |key| > 32 {
        return -1;
      }
      hide Initial, PaddedBlock, ParamBlock;
      InitParam(ParamBlock(outlen, |key| as byte));
      ParamWords(outlen, |key| as byte);
      var block := KeyBlock(key);
      Update(block);
      return 0;
    }

    /** `blake2s_increment_counter`: the carry goes into the second word. */
    method IncrementCounter(inc: uint32)
      modifies this`t0, this`t1
      ensures Counter() == Wrap64(old(Counter()) + inc)
    {
      WrapOnce(t0 + inc, 0x1_0000_0000);
      WrapOnce(Counter() + inc, 0x1_0000_0000_0000_0000);
      t0 := Wrap32(t0 + inc);
      var carry := if t0 < inc then 1 else 0;
      WrapOnce(t1 + carry, 0x1_0000_0000);
      t1 := Wrap32(t1 + carry);
    }

    /** The first part of `blake2s_compress`: the working vector. */
    method Prepare(v: array<Word>)
      requires Shaped() && v.Length == 16 && v != h && (f0 == 0 || f0 == 0xFFFF_FFFF)
      modifies v
      ensures v[..] == Start(h[..], Counter(), f0 != 0)
    {
      hide Start, WordsAfter;
      for i := 0 to 8
        invariant v[..i] == h[..i]
      {
        v[i] := h[i];
      }
      assert v[..8] == h[..];
      PrepareRest(v);
      StartInWords(h[..], t0, t1, f0);
      assert v[..] == v[..8] + v[8..];
    }

    /** The words behind the copied chaining value. */
    method PrepareRest(v: array<Word>)
      requires Shaped() && v.Length == 16 && v != h
      modifies v
      ensures v[..8] == old(v[..8]) && v[8..] == WordsAfter(t0, t1, f0)
    {
      hide Xor, ToWord;
      v[8], v[9], v[10], v[11] := IV[0], IV[1], IV[2], IV[3];
      v[12], v[13] := Xor(ToWord(t0), IV[4]), Xor(ToWord(t1), IV[5]);
      v[14], v[15] := Xor(f0, IV[6]), Xor(f1, IV[7]);
    }

    /** The last part of `blake2s_compress`: both halves of the working vector go into the chaining value. */
    method FoldIn(v: array<Word>, ghost before: seq<Word>, ghost mixed: seq<Word>)
      requires h.Length == 8 && v.Length == 16 && v != h && h[..] == before && v[..] == mixed
      modifies h
      ensures h[..] == Folded(before, mixed)
    {
      hide Xor;
      for i := 0 to 8
        modifies h
        invariant forall j :: 0 <= j < i ==> h[j] == Xor(Xor(before[j], mixed[j]), mixed[j + 8])
        invariant forall j :: i <= j < 8 ==> h[j] == before[j]
      {
        h[i] := Xor(Xor(h[i], v[i]), v[i + 8]);
      }
    }

    /** `blake2s_compress`. */
    method Compress(block: seq<byte>)
      requires Shaped() && |block| == 64 && (f0 == 0 || f0 == 0xFFFF_FFFF)
      modifies h
      ensures h[..] == F(old(h[..]), LoadBlock(block), Counter(), f0 != 0)
    {
      hide Lanes, Start, Xor, LoadBlock, Rounds, Folded;
      var m := LoadMessage(block);
      var v := new Word[16];
      Prepare(v);
      ghost var before, start, words := h[..], v[..], LoadBlock(block);
      MixAll(v, m, start, words);
      FoldIn(v, before, Rounds(start, words, 10));
    }

    /** The buffer takes bytes that fit. */
    method Append(bytes: seq<byte>, ghost c: nat)
      requires Holds(c) && buflen + |bytes| <= 128
      modifies this`buflen, this`absorbed, buf
      ensures Holds(c) && absorbed == old(absorbed) + bytes && buflen == old(buflen) + |bytes|
    {
      hide Chain;
      ChainOfPrefix(seed, absorbed, absorbed + bytes, c);
      Memcpy(buf, buflen, bytes);
      buflen := buflen + |bytes|;
      absorbed := absorbed + bytes;
    }

    /** Counts and compresses the first block of the buffer, and leaves the buffer as it was. */
    method CompressFirst(ghost c: nat)
      requires Holds(c) && 64 <= buflen
      modifies this`t0, this`t1, h
      ensures Counter() == Wrap64(64 * (c + 1)) && h[..] == Chain(seed, absorbed, c + 1)
    {
      hide F, LoadBlock;
      WrapAdd(64 * c, 64, 0x1_0000_0000_0000_0000);
      assert buf[..64] == PaddedBlock(absorbed, c);
      IncrementCounter(64);
      Compress(buf[..64]);
    }

    /** A full buffer gives up its first block and moves the second one to the front. */
    method Flush(ghost c: nat)
      requires Holds(c) && buflen == 128
      modifies this`t0, this`t1, this`buflen, h, buf
      ensures Holds(c + 1) && buflen == 64
    {
      hide Chain, Wrap64;
      CompressFirst(c);
      Memcpy(buf, 0, buf[64..128]);
      buflen := buflen - 64;
    }

    /** One turn of the loop of `blake2s_update`: either everything fits, or the buffer is filled and flushed. */
    method Absorb(input: seq<byte>, ghost c: nat) returns (taken: nat, ghost c': nat)
      requires Holds(c) && input != [] && (c == 0 || 64 <= buflen)
      modifies this`t0, this`t1, this`buflen, this`absorbed, h, buf
      ensures taken <= |input| && Holds(c') && absorbed == old(absorbed) + input[..taken]
      ensures c' == 0 || 64 < buflen || (buflen == 64 && taken < |input|)
      ensures taken == 0 ==> buflen < old(buflen)
    {
      hide Chain, Wrap64;
      var fill := 128 - buflen;
      if |input| > fill {
        Append(input[..fill], c);
        Flush(c);
        return fill, c + 1;
      } else {
        assert input[..|input|] == input;
        Append(input, c);
        return |input|, c;
      }
    }

    /** `blake2s_update`: compresses only when more than two blocks would be waiting. */
    method Update(input: seq<byte>)
      requires Valid()
      modifies this`t0, this`t1, this`buflen, this`absorbed, h, buf
      ensures Valid() && absorbed == old(absorbed) + input
    {
      hide Chain, Wrap64;
      var at := 0;
      ghost var c := Lazy(|absorbed|);
      while at < |input|
        invariant at <= |input| && Holds(c) && absorbed == old(absorbed) + input[..at]
        invariant c == 0 || 64 < buflen || (buflen == 64 && at < |input|)
        decreases |input| - at, buflen
      {
        ghost var done := input[..at];
        var taken: nat;
        taken, c := Absorb(input[at..], c);
        assert input[..at + taken] == done + input[at..][..taken];
        at := at + taken;
      }
      LazyIsUnique(c, buflen);
    }

    /** Any way of cutting the input into calls absorbs the same bytes. */
    method UpdateInPieces(pieces: seq<seq<byte>>)
      requires Valid()
      modifies this`t0, this`t1, this`buflen, this`absorbed, h, buf
      ensures Valid() && absorbed == old(absorbed) + Joined(pieces)
    {
      hide Holds;
      for i := 0 to |pieces|
        invariant Valid() && absorbed == old(absorbed) + Joined(pieces[..i])
      {
        assert pieces[..i + 1][..i] == pieces[..i];
        Update(pieces[i]);
      }
      assert pieces[..|pieces|] == pieces;
    }

    /** `blake2s_final`: the first outlen bytes of the digest of everything absorbed. */
    method Final(out: array<byte>, outlen: byte)
      requires Valid() && outlen <= 32 && outlen as int <= out.Length && out != buf && out as object != h as object
      modifies this`t0, this`t1, this`buflen, this`f0, h, buf, out
      ensures out[..] == StoreWords(Finish(seed, absorbed))[..outlen] + old(out[outlen..])
      ensures Counter() == Wrap64(|absorbed|)
    {
      hide F, Chain, LoadBlock, Wrap64, StoreWords;
      ghost var c := Lazy(|absorbed|);
      if buflen > 64 {
        CompressFirst(c);
        buflen := buflen - 64;
        Memcpy(buf, 0, buf[64..64 + buflen]);
        c := c + 1;
      }
      assert c == BlockCount(absorbed) - 1;
      assert out[..] == old(out[..]);
      FinishBlock(c);
      assert out[..] == old(out[..]);
      var buffer := StoreHash();
      Memcpy(out, 0, buffer[..outlen]);
      assert out[..] == buffer[..outlen] + old(out[outlen..]);
    }

    /** The last block: counted, flagged, filled up with zeros and compressed. */
    method FinishBlock(ghost c: nat)
      requires Holds(c) && buflen <= 64 && c == BlockCount(absorbed) - 1
      modifies this`t0, this`t1, this`f0, h, buf
      ensures h[..] == Finish(seed, absorbed) && Counter() == Wrap64(|absorbed|)
    {
      hide F, Chain, LoadBlock;
      WrapAdd(64 * c, buflen, 0x1_0000_0000_0000_0000);
      IncrementCounter(buflen);
      SetLastBlock();
      Memcpy(buf, buflen, seq(128 - buflen, _ => 0));
      assert buf[..64] == PaddedBlock(absorbed, c);
      Compress(buf[..64]);
    }

    /** `blake2s_set_lastblock`; `last_node` is never set, so the second flag stays 0. */
    method SetLastBlock()
      requires lastNode == 0
      modifies this`f0
      ensures f0 == 0xFFFF_FFFF
    {
      if lastNode != 0 {
        assert false; // the tree mode that would set the second flag
      }
      f0 := 0xFFFF_FFFF;
    }

    /** The eight words, little-endian. */
    method StoreHash() returns (buffer: seq<byte>)
      requires h.Length == 8
      ensures buffer == StoreWords(h[..]) && |buffer| == 32
    {
      var b := new byte[32];
      for i := 0 to 8
        invariant b[..4 * i] == StoreWords(h[..i])
      {
        assert h[..i + 1][..i] == h[..i];
        Memcpy(b, 4 * i, Encode(h[i] as int, 4));
      }
      assert h[..8] == h[..];
      return b[..];
    }
  }

  function Joined(pieces: seq<seq<byte>>): seq<byte> {
    if pieces == [] then [] else Joined(pieces[..|pieces| - 1]) + pieces[|pieces| - 1]
  }

  /** Start and absorbed bytes fix the chaining value, both counter words, and what the buffer holds. */
  lemma StateIsDetermined(a: Blake2sState, b: Blake2sState)
    requires a.Valid() && b.Valid() && a.seed == b.seed && a.absorbed == b.absorbed
    ensures a.h[..] == b.h[..] && a.t0 == b.t0 && a.t1 == b.t1
    ensures a.buflen == b.buflen && a.buf[..a.buflen] == b.buf[..b.buflen]
    ensures a.buf[..a.buflen] == a.absorbed[64 * Lazy(|a.absorbed|)..]
  {
    hide Chain, Wrap64;
    SplitWords(a.t0, a.t1);
    SplitWords(b.t0, b.t1);
  }

  lemma SplitWords(low: uint32, high: uint32)
    ensures var t := low + 0x1_0000_0000 * high; t % 0x1_0000_0000 == low && t / 0x1_0000_0000 == high
  {
  }

  /** `blake2s`, with None for a null pointer: what is written where the digest goes, and the result code. */
  method Blake2s(out: array?<byte>, input: Option<seq<byte>>, key: Option<seq<byte>>, outlen: byte) returns (rc: int)
    requires out != null && outlen <= 32 ==> outlen as int <= out.Length
    modifies if out == null then {} else {out}
    ensures rc == if input.Some? && out != null && 1 <= outlen <= 32 && (key.Some? ==> |key.value| <= 32) then 0 else -1
    ensures rc == 0 ==>
      out[..] == Digest(input.value, if key.Some? then key.value else [], outlen as int) + old(out[outlen..])
  {
    hide StoreWords, Finish, PaddedBlock, Initial;
    if input == None {
      return -1;
    }
    if out == null {
      return -1;
    }
    var k := if key == None then [] else key.value;
    var s := new Blake2sState();
    if |k| > 0 {
      rc := s.InitKey(outlen, k);
    } else {
      rc := s.Init(outlen);
    }
    if rc < 0 {
      return -1;
    }
    s.Update(input.value);
    assert s.absorbed == Keyed(k, input.value);
    s.Final(out, outlen);
    return 0;
  }

  /** The key at the start of a block of zeros. */
  method KeyBlock(key: seq<byte>) returns (block: seq<byte>)
    requires |key| <= 64
    ensures block == PaddedBlock(key, 0)
  {
    var b := new byte[64](_ => 0);
    Memcpy(b, 0, key);
    return b[..];
  }

  /** The first part of `blake2s_compress`: the message words. */
  method LoadMessage(block: seq<byte>) returns (m: array<Word>)
    requires |block| == 64
    ensures fresh(m) && m.Length == 16 && m[..] == LoadBlock(block)
  {
    hide LoadWord;
    m := new Word[16];
    for i := 0 to 16
      invariant forall j :: 0 <= j < i ==> m[j] == LoadWord(block[4 * j..4 * j + 4])
    {
      m[i] := LoadWord(block[4 * i..4 * i + 4]);
    }
  }

  /** The ten rounds of `blake2s_compress`. */
  method MixAll(v: array<Word>, m: array<Word>, ghost start: seq<Word>, ghost words: seq<Word>)
    requires v.Length == 16 && m.Length == 16 && v != m && v[..] == start && m[..] == words
    modifies v
    ensures v[..] == Rounds(start, words, 10)
  {
    hide Lanes;
    for r := 0 to 10
      invariant v[..] == Rounds(start, words, r)
    {
      Round(v, m, r);
    }
  }

  /** The eight mixings of the round macro. */
  method Round(v: array<Word>, m: array<Word>, r: nat)
    requires v.Length == 16 && m.Length == 16 && v != m && r < 10
    modifies v
    ensures v[..] == Lanes(old(v[..]), m[..], r, 8)
  {
    hide G;
    for j := 0 to 8
      invariant v[..] == Lanes(old(v[..]), m[..], r, j)
    {
      MixLane(v, LaneAt(j), Scheduled(m[..], r, 2 * j), Scheduled(m[..], r, 2 * j + 1));
    }
  }

  /** The macro G, in place on four entries of the working vector. */
  method MixLane(v: array<Word>, l: Lane, x: Word, y: Word)
    requires v.Length == 16 && l.Valid()
    modifies v
    ensures v[..] == G(old(v[..]), l, x, y)
  {
    hide FirstHalf, SecondHalf;
    MixFirst(v, l, x);
    MixSecond(v, l, y);
  }

  method MixFirst(v: array<Word>, l: Lane, x: Word)
    requires v.Length == 16 && l.Valid()
    modifies v
    ensures v[..] == Put(old(v[..]), l, FirstHalf(Get(old(v[..]), l), x))
  {
    hide Plus, Xor, Rotr16, Rotr12;
    v[l.a] := Plus(Plus(v[l.a], v[l.b]), x);
    v[l.d] := Rotr16(Xor(v[l.d], v[l.a]));
    v[l.c] := Plus(v[l.c], v[l.d]);
    v[l.b] := Rotr12(Xor(v[l.b], v[l.c]));
  }

  method MixSecond(v: array<Word>, l: Lane, y: Word)
    requires v.Length == 16 && l.Valid()
    modifies v
    ensures v[..] == Put(old(v[..]), l, SecondHalf(Get(old(v[..]), l), y))
  {
    hide Plus, Xor, Rotr8, Rotr7;
    v[l.a] := Plus(Plus(v[l.a], v[l.b]), y);
    v[l.d] := Rotr8(Xor(v[l.d], v[l.a]));
    v[l.c] := Plus(v[l.c], v[l.d]);
    v[l.b] := Rotr7(Xor(v[l.b], v[l.c]));
  }

  /** The second half of the working vector before the first round. */
  function WordsAfter(t0: uint32, t1: uint32, f0: Word): (v: seq<Word>)
    ensures |v| == 8
  {
    [IV[0], IV[1], IV[2], IV[3],
     Xor(ToWord(t0), IV[4]), Xor(ToWord(t1), IV[5]), Xor(f0, IV[6]), Xor(0, IV[7])]
  }

  /** The code keeps the counter in two words and xors both flags in; the standard has one counter and one flag. */
  lemma StartInWords(h: seq<Word>, t0: uint32, t1: uint32, f0: Word)
    requires |h| == 8 && (f0 == 0 || f0 == 0xFFFF_FFFF)
    ensures Start(h, t0 + 0x1_0000_0000 * t1, f0 != 0) == h + WordsAfter(t0, t1, f0)
  {
    hide Xor, ToWord;
    XorCommutes(ToWord(t0), IV[4]);
    XorCommutes(ToWord(t1), IV[5]);
    XorCommutes(f0, IV[6]);
    XorCommutes(0, IV[7]);
    XorZero(IV[6]);
    XorZero(IV[7]);
    var t := t0 + 0x1_0000_0000 * t1;
    assert t % 0x1_0000_0000 == t0 && t / 0x1_0000_0000 == t1;
  }

  lemma XorZero(w: Word)
    ensures Xor(w, 0) == w && ToWord(0) == 0
  {
  }

  lemma XorCommutes(a: Word, b: Word)
    ensures Xor(a, b) == Xor(b, a)
  {
  }

  /** Only the first parameter word differs from 0. */
  lemma ParamWords(nn: byte, kk: byte)
    requires nn <= 32 && kk <= 32
    ensures var p := ParamBlock(nn, kk);
      seq(8, i requires 0 <= i < 8 => Xor(IV[i], LoadWord(p[4 * i..4 * i + 4]))) == Initial(kk as int, nn as int)
  {
    hide ToWord, Xor;
    var p := ParamBlock(nn, kk);
    assert p[0..4] == [nn, kk, 1, 1];
    DecodeFour(nn, kk, 1, 1);
    DecodeFour(0, 0, 0, 0);
    forall i | 1 <= i < 8
      ensures Xor(IV[i], LoadWord(p[4 * i..4 * i + 4])) == IV[i]
    {
      assert p[4 * i..4 * i + 4] == [0, 0, 0, 0];
      XorZero(IV[i]);
    }
  }
}
