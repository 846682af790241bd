/** Two published digests, byte for byte: the example of RFC 7693, and one that uses every word of a block and a key. */
module KnownAnswers {
  import opened Bytes
  import opened HalfRounds
  import opened Rfc7693
  import opened Traces

  /** Section 3.2: chaining value, initial values, both halves of the counter, and the final flag. */
  lemma WorkingVector(h: seq<Word>, t: uint64, last: bool)
    requires |h| == 8
    ensures var v := Start(h, t, last);
      && (forall i :: 0 <= i < 8 ==> v[i] == h[i])
      && v[8] == 0x6A09E667 && v[9] == 0xBB67AE85 && v[10] == 0x3C6EF372 && v[11] == 0xA54FF53A
      && v[12] == Xor(0x510E527F, ToWord(t % 0x1_0000_0000)) && v[13] == Xor(0x9B05688C, ToWord(t / 0x1_0000_0000))
      && v[14] == (if last then Xor(0x1F83D9AB, 0xFFFF_FFFF) else 0x1F83D9AB) && v[15] == 0x5BE0CD19
  {
    hide Xor, ToWord;
  }

  /** The parameters of section 2.5 go into the first initial word, the other seven are those of section 2.6. */
  lemma InitialWords(kk: nat, nn: nat)
    requires kk <= 32 && nn <= 32
    ensures var h := Initial(kk, nn);
      && h[0] == Xor(0x6A09E667, ToWord(0x0101_0000 + 0x100 * kk + nn))
      && h[1] == 0xBB67AE85 && h[2] == 0x3C6EF372 && h[3] == 0xA54FF53A
      && h[4] == 0x510E527F && h[5] == 0x9B05688C && h[6] == 0x1F83D9AB && h[7] == 0x5BE0CD19
  {
    hide Xor, ToWord;
  }

  lemma WordAt(block: seq<byte>, i: nat)
    requires |block| == 64 && i < 16
    ensures LoadBlock(block)[i] == LoadWord([block[4 * i], block[4 * i + 1], block[4 * i + 2], block[4 * i + 3]])
  {
    assert block[4 * i..4 * i + 4] == [block[4 * i], block[4 * i + 1], block[4 * i + 2], block[4 * i + 3]];
  }

  lemma LoadFour(a: byte, b: byte, c: byte, d: byte)
    ensures 0 <= a as int + 0x100 * b as int + 0x1_0000 * c as int + 0x100_0000 * d as int < 0x1_0000_0000
    ensures LoadWord([a, b, c, d]) == ToWord(a as int + 0x100 * b as int + 0x1_0000 * c as int + 0x100_0000 * d as int)
  {
    hide ToWord;
    DecodeFour(a, b, c, d);
  }

  lemma EncodeFour(a: byte, b: byte, c: byte, d: byte)
    ensures Encode(a as int + 0x100 * b as int + 0x1_0000 * c as int + 0x100_0000 * d as int, 4) == [a, b, c, d]
  {
    DecodeFour(a, b, c, d);
    EncodeDecode([a, b, c, d]);
  }

  lemma StoreFour(h: seq<Word>)
    requires 4 <= |h|
    ensures StoreWords(h[..4]) ==
      Encode(h[0] as int, 4) + Encode(h[1] as int, 4) + Encode(h[2] as int, 4) + Encode(h[3] as int, 4)
  {
    assert h[..1] == [h[0]] && [h[0]][..0] == [];
    assert StoreWords([h[0]]) == Encode(h[0] as int, 4);
    hide Encode, StoreWords;
    StoreNext(h, 1);
    StoreNext(h, 2);
    StoreNext(h, 3);
  }

  lemma StoreEight(h: seq<Word>)
    requires |h| == 8
    ensures StoreWords(h) ==
      Encode(h[0] as int, 4) + Encode(h[1] as int, 4) + Encode(h[2] as int, 4) + Encode(h[3] as int, 4) +
      Encode(h[4] as int, 4) + Encode(h[5] as int, 4) + Encode(h[6] as int, 4) + Encode(h[7] as int, 4)
  {
    hide Encode, StoreWords;
    StoreFour(h);
    StoreNext(h, 4);
    StoreNext(h, 5);
    StoreNext(h, 6);
    StoreNext(h, 7);
    assert h[..8] == h;
  }

  lemma StoreNext(h: seq<Word>, n: nat)
    requires n < |h|
    ensures StoreWords(h[..n + 1]) == StoreWords(h[..n]) + Encode(h[n] as int, 4)
  {
    hide Encode;
    assert h[..n + 1][..n] == h[..n];
  }

  // ---------- RFC 7693, appendix B ----------

  lemma AbcLoaded(i: nat)
    requires i < 16
    ensures LoadBlock(PaddedBlock([0x61, 0x62, 0x63], 0))[i] == ToWord(if i == 0 then 0x636261 else 0)
  {
    hide LoadBlock, LoadWord, ToWord;
    LoadFour(0x61, 0x62, 0x63, 0);
    LoadFour(0, 0, 0, 0);
    WordAt(PaddedBlock([0x61, 0x62, 0x63], 0), i);
  }

  lemma AbcWords()
    ensures ABC.Are(LoadBlock(PaddedBlock([0x61, 0x62, 0x63], 0)))
  {
    hide LoadBlock, PaddedBlock;
    var m := LoadBlock(PaddedBlock([0x61, 0x62, 0x63], 0));
    forall i: nat | i < 16
      ensures m[i] == ToWord(if i == 0 then 0x636261 else 0)
    {
      AbcLoaded(i);
    }
  }

  lemma AbcStart()
    ensures ABC_0.Are(Start(Initial(0, 32), 3, true))
  {
    var h := Initial(0, 32);
    assert h[0] == 0x6B08E647;
    hide Initial, Start;
    WorkingVector(h, 3, true);
  }

  lemma AbcFolded(v: seq<Word>)
    requires ABC_20.Are(v)
    ensures StoreWords(Folded(Initial(0, 32), v)) ==
      [0x50, 0x8C, 0x5E, 0x8C] + [0x32, 0x7C, 0x14, 0xE2] + [0xE1, 0xA7, 0x2B, 0xA3] + [0x4E, 0xEB, 0x45, 0x2F] +
      [0x37, 0x45, 0x8B, 0x20] + [0x9E, 0xD6, 0x3A, 0x29] + [0x4D, 0x99, 0x9B, 0x4C] + [0x86, 0x67, 0x59, 0x82]
  {
    hide StoreWords, Encode;
    var h := Folded(Initial(0, 32), v);
    StoreEight(h);
    assert h[0] == 0x8C5E8C50;
    EncodeFour(0x50, 0x8C, 0x5E, 0x8C);
    assert h[1] == 0xE2147C32;
    EncodeFour(0x32, 0x7C, 0x14, 0xE2);
    assert h[2] == 0xA32BA7E1;
    EncodeFour(0xE1, 0xA7, 0x2B, 0xA3);
    assert h[3] == 0x2F45EB4E;
    EncodeFour(0x4E, 0xEB, 0x45, 0x2F);
    assert h[4] == 0x208B4537;
    EncodeFour(0x37, 0x45, 0x8B, 0x20);
    assert h[5] == 0x293AD69E;
    EncodeFour(0x9E, 0xD6, 0x3A, 0x29);
    assert h[6] == 0x4C9B994D;
    EncodeFour(0x4D, 0x99, 0x9B, 0x4C);
    assert h[7] == 0x82596786;
    EncodeFour(0x86, 0x67, 0x59, 0x82);
  }

  /** The example of appendix B. */
  lemma AbcDigest()
    ensures Digest([0x61, 0x62, 0x63], [], 32) ==
      [0x50, 0x8C, 0x5E, 0x8C] + [0x32, 0x7C, 0x14, 0xE2] + [0xE1, 0xA7, 0x2B, 0xA3] + [0x4E, 0xEB, 0x45, 0x2F] +
      [0x37, 0x45, 0x8B, 0x20] + [0x9E, 0xD6, 0x3A, 0x29] + [0x4D, 0x99, 0x9B, 0x4C] + [0x86, 0x67, 0x59, 0x82]
  {
    hide Rounds, Start, Initial, Folded, StoreWords, LoadBlock, PaddedBlock, Words.Are;
    var m := LoadBlock(PaddedBlock([0x61, 0x62, 0x63], 0));
    var s := Start(Initial(0, 32), 3, true);
    AbcWords();
    AbcStart();
    Abc9(s, m);
    AbcFolded(Rounds(s, m, 10));
    assert Keyed([], [0x61, 0x62, 0x63]) == [0x61, 0x62, 0x63];
    assert Finish(Initial(0, 32), [0x61, 0x62, 0x63]) == F(Initial(0, 32), m, 3, true);
  }

  // ---------- the self-test of the repository: 64 bytes under a key of 32 ----------

  /** The bytes 0 to n - 1, as the self-test makes its key and its messages. */
  function Count(n: nat): (s: seq<byte>)
    requires n <= 0x100
    ensures |s| == n
  {
    seq(n, i requires 0 <= i < n => i as byte)
  }

  lemma CountWord(i: nat)
    requires i < 16
    ensures LoadWord([(4 * i) as byte, (4 * i + 1) as byte, (4 * i + 2) as byte, (4 * i + 3) as byte]) ==
      ToWord(0x0302_0100 + 0x0404_0404 * i)
  {
    hide LoadWord, ToWord;
    LoadFour((4 * i) as byte, (4 * i + 1) as byte, (4 * i + 2) as byte, (4 * i + 3) as byte);
  }

  lemma CountLoaded(i: nat, n: uint32, w: Word)
    requires i < 16 && n == 0x0302_0100 + 0x0404_0404 * i && w == ToWord(n)
    ensures LoadBlock(PaddedBlock(Count(64), 0))[i] == w
    ensures LoadBlock(PaddedBlock(Count(32), 0))[i] == if i < 8 then w else 0
  {
    assert ToWord(0) == 0;
    hide LoadBlock, LoadWord, ToWord;
    CountWord(i);
    LoadFour(0, 0, 0, 0);
    WordAt(PaddedBlock(Count(64), 0), i);
    WordAt(PaddedBlock(Count(32), 0), i);
  }

  lemma CountWords()
    ensures KEY.Are(LoadBlock(PaddedBlock(Count(32), 0))) && MESSAGE.Are(LoadBlock(PaddedBlock(Count(64), 0)))
  {
    hide LoadBlock, PaddedBlock, Count;
    CountLoaded(0, 0x03020100, 0x03020100);
    CountLoaded(1, 0x07060504, 0x07060504);
    CountLoaded(2, 0x0B0A0908, 0x0B0A0908);
    CountLoaded(3, 0x0F0E0D0C, 0x0F0E0D0C);
    CountLoaded(4, 0x13121110, 0x13121110);
    CountLoaded(5, 0x17161514, 0x17161514);
    CountLoaded(6, 0x1B1A1918, 0x1B1A1918);
    CountLoaded(7, 0x1F1E1D1C, 0x1F1E1D1C);
    CountLoaded(8, 0x23222120, 0x23222120);
    CountLoaded(9, 0x27262524, 0x27262524);
    CountLoaded(10, 0x2B2A2928, 0x2B2A2928);
    CountLoaded(11, 0x2F2E2D2C, 0x2F2E2D2C);
    CountLoaded(12, 0x33323130, 0x33323130);
    CountLoaded(13, 0x37363534, 0x37363534);
    CountLoaded(14, 0x3B3A3938, 0x3B3A3938);
    CountLoaded(15, 0x3F3E3D3C, 0x3F3E3D3C);
  }

  lemma KeyInitial()
    ensures var h := Initial(32, 32); h[0] == 0x6B08C647 && forall i :: 1 <= i < 8 ==> h[i] == IV[i]
  {
    assert ToWord(0x0101_2020) == 0x0101_2020;
    InitialWords(32, 32);
  }

  lemma KeyStart()
    ensures KEY_0.Are(Start(Initial(32, 32), 64, false))
  {
    hide Initial, Start;
    KeyInitial();
    WorkingVector(Initial(32, 32), 64, false);
  }

  /** The chaining value behind the key block. */
  lemma MessageStart(v: seq<Word>)
    requires KEY_20.Are(v)
    ensures MESSAGE_0.Are(Start(Folded(Initial(32, 32), v), 128, true))
  {
    KeyInitial();
    hide Initial;
    var h := Folded(Initial(32, 32), v);
    assert h[0] == 0xE065E50D;
    assert h[1] == 0x01A7D670;
    assert h[2] == 0xC933BBA4;
    assert h[3] == 0x866AA41E;
    assert h[4] == 0x18AB3E05;
    assert h[5] == 0x26EDC492;
    assert h[6] == 0x04C59A4F;
    assert h[7] == 0x95DD5A91;
    hide Start, Folded;
    WorkingVector(h, 128, true);
  }

  lemma MessageFolded(h: seq<Word>, v: seq<Word>)
    requires |h| == 8 && MESSAGE_0.Are(Start(h, 128, true)) && MESSAGE_20.Are(v)
    ensures StoreWords(Folded(h, v)) ==
      [0x89, 0x75, 0xB0, 0x57] + [0x7F, 0xD3, 0x55, 0x66] + [0xD7, 0x50, 0xB3, 0x62] + [0xB0, 0x89, 0x7A, 0x26] +
      [0xC3, 0x99, 0x13, 0x6D] + [0xF0, 0x7B, 0xAB, 0xAB] + [0xBD, 0xE6, 0x20, 0x3F] + [0xF2, 0x95, 0x4E, 0xD4]
  {
    hide StoreWords, Encode;
    WorkingVector(h, 128, true);
    hide Start;
    var d := Folded(h, v);
    StoreEight(d);
    assert d[0] == 0x57B07589;
    EncodeFour(0x89, 0x75, 0xB0, 0x57);
    assert d[1] == 0x6655D37F;
    EncodeFour(0x7F, 0xD3, 0x55, 0x66);
    assert d[2] == 0x62B350D7;
    EncodeFour(0xD7, 0x50, 0xB3, 0x62);
    assert d[3] == 0x267A89B0;
    EncodeFour(0xB0, 0x89, 0x7A, 0x26);
    assert d[4] == 0x6D1399C3;
    EncodeFour(0xC3, 0x99, 0x13, 0x6D);
    assert d[5] == 0xABAB7BF0;
    EncodeFour(0xF0, 0x7B, 0xAB, 0xAB);
    assert d[6] == 0x3F20E6BD;
    EncodeFour(0xBD, 0xE6, 0x20, 0x3F);
    assert d[7] == 0xD44E95F2;
    EncodeFour(0xF2, 0x95, 0x4E, 0xD4);
  }

  lemma KeyedBlocks(key: seq<byte>, message: seq<byte>, h0: seq<Word>)
    requires |h0| == 8 && key != [] && |message| == 64
    ensures Finish(h0, Keyed(key, message)) ==
      F(F(h0, LoadBlock(PaddedBlock(key, 0)), 64, false), LoadBlock(PaddedBlock(message, 0)), 128, true)
  {
    hide F, LoadBlock;
    var d := Keyed(key, message);
    assert PaddedBlock(d, 0) == PaddedBlock(key, 0);
    assert PaddedBlock(d, 1) == PaddedBlock(message, 0);
    assert Chain(h0, d, 0) == h0;
  }

  /** Entry 64 of the keyed table: all sixteen words of the second block are different. */
  lemma KeyedDigest()
    ensures Digest(Count(64), Count(32), 32) ==
      [0x89, 0x75, 0xB0, 0x57] + [0x7F, 0xD3, 0x55, 0x66] + [0xD7, 0x50, 0xB3, 0x62] + [0xB0, 0x89, 0x7A, 0x26] +
      [0xC3, 0x99, 0x13, 0x6D] + [0xF0, 0x7B, 0xAB, 0xAB] + [0xBD, 0xE6, 0x20, 0x3F] + [0xF2, 0x95, 0x4E, 0xD4]
  {
    hide Rounds, Start, Initial, Folded, StoreWords, LoadBlock, PaddedBlock, Words.Are, Finish, Keyed, Count;
    var h0 := Initial(32, 32);
    var k, m := LoadBlock(PaddedBlock(Count(32), 0)), LoadBlock(PaddedBlock(Count(64), 0));
    KeyedBlocks(Count(32), Count(64), h0);
    CountWords();
    KeyStart();
    Key9(Start(h0, 64, false), k);
    var h1 := F(h0, k, 64, false);
    MessageStart(Rounds(Start(h0, 64, false), k, 10));
    Message9(Start(h1, 128, true), m);
    MessageFolded(h1, Rounds(Start(h1, 128, true), m, 10));
  }

}
