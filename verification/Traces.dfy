/** The working vectors of three compressions, before and after every half round, as literals. */
module Traces {
  import opened Bytes
  import opened HalfRounds
  import opened Orders
  import opened Rfc7693

  /** The block that holds the three bytes of "abc": final, counter 3, no key. */
  const ABC := Words(
    0x00636261, 0x00000000, 0x00000000, 0x00000000, 0x00000000, 0x00000000, 0x00000000, 0x00000000,
    0x00000000, 0x00000000, 0x00000000, 0x00000000, 0x00000000, 0x00000000, 0x00000000, 0x00000000)

  const ABC_0 := Words(
    0x6B08E647, 0xBB67AE85, 0x3C6EF372, 0xA54FF53A, 0x510E527F, 0x9B05688C, 0x1F83D9AB, 0x5BE0CD19,
    0x6A09E667, 0xBB67AE85, 0x3C6EF372, 0xA54FF53A, 0x510E527C, 0x9B05688C, 0xE07C2654, 0x5BE0CD19)

  const ABC_1 := Words(
    0xD6C0C1DF, 0x8C871712, 0xC6A650D4, 0xD26FB9FC, 0x7F898693, 0x8D07C52D, 0xB9D6AA3A, 0x88609304,
    0xDE856F07, 0xB5F896C7, 0x81E69EEB, 0xE17775ED, 0xAB1F9B2C, 0x7AF31ADA, 0x5A2DEFEB, 0x2CDD25E3)

  const ABC_2 := Words(
    0x16A3242E, 0xD7B5E238, 0xCE8CE24B, 0x927AEDE1, 0xA7B430D9, 0x93A4A14E, 0xA44E7C31, 0x41D4759B,
    0x95BF33D3, 0x9A99C181, 0x608A3A6B, 0xB666383E, 0x7A8DD50F, 0xBE378ED7, 0x353D1EE6, 0x3BB44C6B)

  const ABC_3 := Words(
    0x45A27C43, 0xE55DC879, 0x58DBB52B, 0xAE79AE21, 0xB2518D08, 0xF18DA1CF, 0xD9107925, 0xBECBABB9,
    0xAF8DA365, 0xBCD3A30B, 0x6E3CC443, 0xBFFF967A, 0x99C5AAB8, 0x14E80C1D, 0xCD1841F2, 0xDA816E41)

  const ABC_4 := Words(
    0x3AE30FE3, 0x0982A96B, 0xE88185B4, 0x3E339B16, 0xF24338CD, 0x0E66D326, 0xE005ED0C, 0xD591A277,
    0x180B1F3A, 0xFCF43914, 0x30DB62D6, 0x4847831C, 0x7F00C58E, 0xFB847886, 0xC544E836, 0x524AB0E2)

  const ABC_5 := Words(
    0xC7FBB954, 0x82BDD5A1, 0xA1DA3009, 0x81854003, 0xDF1A828F, 0x2B4FC472, 0x3E9EBC43, 0xB4180759,
    0x1794374B, 0xCD92CFBA, 0x960C9CD6, 0x61C3AEAC, 0x724AC5EB, 0xCC86AA39, 0xCA3B2C3D, 0x8C0CEA01)

  const ABC_6 := Words(
    0x7A3BE783, 0x997546C1, 0xD45246DF, 0xEDB5F821, 0x7F98A742, 0x10E864E2, 0xD4AB70D0, 0xC63CB1AB,
    0x6038DA9E, 0x414594B0, 0xF2C218B5, 0x8DA0DCB7, 0xD7CD7AF5, 0xAB4909DF, 0x85031A52, 0xC4EDFC98)

  const ABC_7 := Words(
    0xF9274DDF, 0xBCCCDE42, 0x0F34F8F2, 0xDBC4F66A, 0x01CA493E, 0x78571EE8, 0x9796AAA3, 0x92FEA351,
    0x1A76201A, 0x39E046A3, 0xAD621088, 0x5883E457, 0xC60D1763, 0x561EB0DF, 0x0CA2C9D5, 0x758E9081)

  const ABC_8 := Words(
    0x2A8B8CB7, 0x1ACA82B2, 0x14045D7F, 0xCC7258ED, 0x383CF67C, 0xE090E7F9, 0x3025D276, 0x57D04DE4,
    0x994BACF0, 0xF0982759, 0xF17EE300, 0xD48FC2D5, 0xDC854C10, 0x523898A9, 0xC03A0F89, 0x47D6CD88)

  const ABC_9 := Words(
    0x3740EACD, 0x6FAB8B4E, 0x9A8C4DE0, 0xDD192A67, 0x507AE597, 0xFAC8D0B2, 0x64A9A894, 0x491693CA,
    0xE967CE91, 0x103879DE, 0x02B657D9, 0x339F66B2, 0x80F86354, 0x2D9DA922, 0xF0BAF0C9, 0xF3B64049)

  const ABC_10 := Words(
    0xC4AA2DDB, 0x111343A3, 0xD54A700A, 0x574A00A9, 0x857D5A48, 0xB1E11989, 0x6F5C52DF, 0xDD2C53A3,
    0x678E5F8E, 0x9718D4E9, 0x622CB684, 0x92976076, 0x0E41A517, 0x359DC2BE, 0x87A87DDD, 0x643F9CEC)

  const ABC_11 := Words(
    0xE5E8A422, 0x20ACD1D9, 0x04A77ECC, 0x663EB60A, 0x56849536, 0xAB75A6FD, 0xC12D7BE0, 0x375E5C5C,
    0xD98B80D4, 0xE76B0A78, 0x2920A9E2, 0x9EE64FA5, 0x44C8DCE0, 0xB0BF3E26, 0x6E5C30BC, 0x43AE9EE6)

  const ABC_12 := Words(
    0x3453921C, 0xD7595EE1, 0x592E776D, 0x3ED6A974, 0x4D997CB3, 0xDE9212C3, 0x35ADF5C9, 0x9916FD65,
    0x96562E89, 0x4EAD0792, 0xEBFC2712, 0x2385F5B2, 0xF34600FB, 0xD7BC20FB, 0xEB452A7B, 0xECE1AA40)

  const ABC_13 := Words(
    0x5A6BA00C, 0x68935B8B, 0x24FCDB7D, 0xB5A83775, 0x77274320, 0x8B9DC3BF, 0x5D031AA0, 0xACE8C5E2,
    0x4BDF0106, 0x7C463622, 0x17AD3E69, 0xA9D861CA, 0xA7545FD2, 0xDC39CC39, 0xE463B1BE, 0x79B9310C)

  const ABC_14 := Words(
    0xBE851B2D, 0xA85F6358, 0x81E6FC3B, 0x0BB28000, 0xFA55A33A, 0x87BE1FAD, 0x4119370F, 0x1E2261AA,
    0xA1318FD3, 0xF4329816, 0x071783C2, 0x6E536A8D, 0x9A81A601, 0xE7EC80F1, 0xACC09948, 0xF849A584)

  const ABC_15 := Words(
    0xCA1EFA88, 0x2AC57C9B, 0x0BDF3356, 0x01DFABAF, 0x4F385C2E, 0x4931EEB0, 0xA41EC9A1, 0x427985CF,
    0x8D6A2B06, 0x6250A1B2, 0x47BBD0DE, 0xE4C82DA4, 0xD3D278D8, 0x6A2931AB, 0x96A1DD5C, 0x3245F17A)

  const ABC_16 := Words(
    0x07E5B85A, 0x069CC164, 0xF9DE3141, 0xA56F4680, 0x9E440AD2, 0x9AB659EA, 0x3C84B971, 0x21DBD9CF,
    0x46699F8C, 0x765257EC, 0xAF1D998C, 0x75E4C3B6, 0x523878DC, 0x30715015, 0x397FEE81, 0x4F1FA799)

  const ABC_17 := Words(
    0x3B238515, 0xAF98CD09, 0x53EBE7F3, 0x223A3009, 0xCF24454D, 0xA3C7AE3B, 0xA17840F9, 0x8C133D9A,
    0x06DB670E, 0xED92AC6A, 0xA1A88191, 0x5315601F, 0x0480D371, 0x2BE4C35C, 0xEE57D8E8, 0xB80713B8)

  const ABC_18 := Words(
    0x435148C4, 0xA5AA2D11, 0x4B354173, 0xD543BC9E, 0xBDA2591C, 0xBF1D2569, 0x4FCB3120, 0x707ADA48,
    0x565B3FDE, 0x32C9C916, 0xEAF4A1AB, 0xB1018F28, 0x8078D978, 0x68ADE4B5, 0x9778FDA3, 0x2863B92E)

  const ABC_19 := Words(
    0x984AD6F9, 0x735CBAD9, 0x8B33D18C, 0xBA97A218, 0x4DAD074F, 0xD3279602, 0xF33C37D9, 0xCDA50CAF,
    0x41D492BF, 0x9D5E6936, 0x6E28B200, 0xA65F5CD4, 0x72E0D256, 0xB3C593B6, 0xF40403DD, 0xC5955FCF)

  const ABC_20 := Words(
    0xD9C994AA, 0xCFEC3AA6, 0x700D0AB2, 0x2C38670E, 0xAF6A1F66, 0x1D023EF3, 0x1D9EC27D, 0x945357A5,
    0x3E9FFEBD, 0x969FE811, 0xEF485E21, 0xA632797A, 0xDEEF082E, 0xAF3D80E1, 0x4E86829B, 0x4DEAFD3A)

  lemma Abc0(s: seq<Word>, m: seq<Word>)
    requires |s| == |m| == 16 && ABC_0.Are(s) && ABC.Are(m)
    ensures ABC_2.Are(Rounds(s, m, 1))
  {
    assert Rounds(s, m, 0) == s;
    hide Rounds, Words.Are, AreScheduled;
    Order0(m, ABC);
    RoundGives(s, m, 0, ABC_0, Order(ABC, 0), ABC_1, ABC_2);
  }

  lemma Abc1(s: seq<Word>, m: seq<Word>)
    requires |s| == |m| == 16 && ABC_0.Are(s) && ABC.Are(m)
    ensures ABC_4.Are(Rounds(s, m, 2))
  {
    hide Rounds, Words.Are, AreScheduled;
    Abc0(s, m);
    Order1(m, ABC);
    RoundGives(s, m, 1, ABC_2, Order(ABC, 1), ABC_3, ABC_4);
  }

  lemma Abc2(s: seq<Word>, m: seq<Word>)
    requires |s| == |m| == 16 && ABC_0.Are(s) && ABC.Are(m)
    ensures ABC_6.Are(Rounds(s, m, 3))
  {
    hide Rounds, Words.Are, AreScheduled;
    Abc1(s, m);
    Order2(m, ABC);
    RoundGives(s, m, 2, ABC_4, Order(ABC, 2), ABC_5, ABC_6);
  }

  lemma Abc3(s: seq<Word>, m: seq<Word>)
    requires |s| == |m| == 16 && ABC_0.Are(s) && ABC.Are(m)
    ensures ABC_8.Are(Rounds(s, m, 4))
  {
    hide Rounds, Words.Are, AreScheduled;
    Abc2(s, m);
    Order3(m, ABC);
    RoundGives(s, m, 3, ABC_6, Order(ABC, 3), ABC_7, ABC_8);
  }

  lemma Abc4(s: seq<Word>, m: seq<Word>)
    requires |s| == |m| == 16 && ABC_0.Are(s) && ABC.Are(m)
    ensures ABC_10.Are(Rounds(s, m, 5))
  {
    hide Rounds, Words.Are, AreScheduled;
    Abc3(s, m);
    Order4(m, ABC);
    RoundGives(s, m, 4, ABC_8, Order(ABC, 4), ABC_9, ABC_10);
  }

  lemma Abc5(s: seq<Word>, m: seq<Word>)
    requires |s| == |m| == 16 && ABC_0.Are(s) && ABC.Are(m)
    ensures ABC_12.Are(Rounds(s, m, 6))
  {
    hide Rounds, Words.Are, AreScheduled;
    Abc4(s, m);
    Order5(m, ABC);
    RoundGives(s, m, 5, ABC_10, Order(ABC, 5), ABC_11, ABC_12);
  }

  lemma Abc6(s: seq<Word>, m: seq<Word>)
    requires |s| == |m| == 16 && ABC_0.Are(s) && ABC.Are(m)
    ensures ABC_14.Are(Rounds(s, m, 7))
  {
    hide Rounds, Words.Are, AreScheduled;
    Abc5(s, m);
    Order6(m, ABC);
    RoundGives(s, m, 6, ABC_12, Order(ABC, 6), ABC_13, ABC_14);
  }

  lemma Abc7(s: seq<Word>, m: seq<Word>)
    requires |s| == |m| == 16 && ABC_0.Are(s) && ABC.Are(m)
    ensures ABC_16.Are(Rounds(s, m, 8))
  {
    hide Rounds, Words.Are, AreScheduled;
    Abc6(s, m);
    Order7(m, ABC);
    RoundGives(s, m, 7, ABC_14, Order(ABC, 7), ABC_15, ABC_16);
  }

  lemma Abc8(s: seq<Word>, m: seq<Word>)
    requires |s| == |m| == 16 && ABC_0.Are(s) && ABC.Are(m)
    ensures ABC_18.Are(Rounds(s, m, 9))
  {
    hide Rounds, Words.Are, AreScheduled;
    Abc7(s, m);
    Order8(m, ABC);
    RoundGives(s, m, 8, ABC_16, Order(ABC, 8), ABC_17, ABC_18);
  }

  lemma Abc9(s: seq<Word>, m: seq<Word>)
    requires |s| == |m| == 16 && ABC_0.Are(s) && ABC.Are(m)
    ensures ABC_20.Are(Rounds(s, m, 10))
  {
    hide Rounds, Words.Are, AreScheduled;
    Abc8(s, m);
    Order9(m, ABC);
    RoundGives(s, m, 9, ABC_18, Order(ABC, 9), ABC_19, ABC_20);
  }

  /** The block that holds a key of the bytes 0 to 31: not final, counter 64. */
  const KEY := Words(
    0x03020100, 0x07060504, 0x0B0A0908, 0x0F0E0D0C, 0x13121110, 0x17161514, 0x1B1A1918, 0x1F1E1D1C,
    0x00000000, 0x00000000, 0x00000000, 0x00000000, 0x00000000, 0x00000000, 0x00000000, 0x00000000)

  const KEY_0 := Words(
    0x6B08C647, 0xBB67AE85, 0x3C6EF372, 0xA54FF53A, 0x510E527F, 0x9B05688C, 0x1F83D9AB, 0x5BE0CD19,
    0x6A09E667, 0xBB67AE85, 0x3C6EF372, 0xA54FF53A, 0x510E523F, 0x9B05688C, 0x1F83D9AB, 0x5BE0CD19)

  const KEY_1 := Words(
    0x263D8FA2, 0x783EBCB1, 0x2B40BAAC, 0x5B46FAB6, 0x0E16DFD0, 0x63812FB7, 0x51940FDB, 0x1D8FA2E7,
    0x6B7198DF, 0xC72E543D, 0x6F222AC3, 0xD80F71A1, 0xB56DC461, 0xC330AB46, 0x2B2CC6CA, 0x1C4D34BD)

  const KEY_2 := Words(
    0x79D847D7, 0xE58DE31A, 0xAE585A1B, 0x014CB14A, 0xCB12F282, 0xEDDFC2EB, 0xE33AA2B0, 0x3070309C,
    0x5D9FB290, 0x1E9797A1, 0x1FF8FD88, 0x86EA4EFF, 0xA5ED609F, 0xFB588DD1, 0x3B1D00F3, 0x24F23CD2)

  const KEY_3 := Words(
    0x5632719F, 0x48BAFF5C, 0x3C12ED7B, 0x99EC41E3, 0xC080697E, 0xDB6DEAF7, 0xDD751C45, 0x88B8ECF4,
    0x51738826, 0xD4CE33AA, 0x10F1D25E, 0x11633CA1, 0x990CF490, 0x7B727EE2, 0xF4C02A47, 0xAD44D854)

  const KEY_4 := Words(
    0x64177C72, 0x3DDE73C8, 0x96A1E325, 0x99B8C58E, 0x4324A776, 0xE2E1DEB1, 0x7BF39125, 0x4241093F,
    0x9233743B, 0x8B74432C, 0x5B9E4229, 0xF06ADCA2, 0xF6D5EFC3, 0x9C322C5C, 0xCC738A40, 0x90DDD9E9)

  const KEY_5 := Words(
    0xBC5DFB8E, 0x0EC10B36, 0xC6F7E751, 0xCB8E2BAF, 0xD1A1DDD6, 0xD049E8A6, 0xD0F5828B, 0x88F9FF1D,
    0xC5CF3CCE, 0xCE0AE4D5, 0xE8831103, 0x936BD226, 0x677076AA, 0xC470E4B7, 0x89C5E902, 0x8BDCAA60)

  const KEY_6 := Words(
    0x9A364E23, 0x9EF9A652, 0xE94867DF, 0xF20A0D97, 0xC2A2C6EB, 0x51044A26, 0xC9E6BE10, 0x563E5205,
    0x6C1B5DFA, 0x10A486E3, 0x8FAB7AC7, 0x6645FA09, 0xE6729E2F, 0xBF0E75CC, 0x62128D19, 0x58D46249)

  const KEY_7 := Words(
    0x5544DA4D, 0xD2FEA110, 0xD47E3A3E, 0xD25781F1, 0xCA70AF29, 0x82C557C6, 0x403AA381, 0xC7300B5E,
    0xE11A3CC6, 0xAE477DC9, 0x3C1ED4EF, 0x120A8D36, 0xC8F94147, 0x155AB6E1, 0x037C88EB, 0x6DEF8291)

  const KEY_8 := Words(
    0x40F5CAF6, 0xF1260721, 0xE5A2BD2B, 0xC21255B5, 0xB899FE4B, 0xDA82CB2B, 0x5A080333, 0x32831B04,
    0x726DE766, 0x69B50147, 0x03A2E32E, 0xC2D734D1, 0x97E9C4E5, 0xB105EF06, 0x017BE3CA, 0x0DF97F44)

  const KEY_9 := Words(
    0xB50552FB, 0xE4778E15, 0x3AAE1EE8, 0x4833761C, 0x654B72FF, 0x8D873BDE, 0x411370EA, 0x5E2105F3,
    0x1DCAF708, 0x210766DF, 0x555F3152, 0x431CFCCC, 0x9DB8A13C, 0xAEEC11DD, 0x27100255, 0x7047CE8F)

  const KEY_10 := Words(
    0x45C41702, 0x66D93E3B, 0xD3CABB74, 0xC4D3F93E, 0x957FDB41, 0xCF4516EA, 0x71DAAFE1, 0x6548330A,
    0xBBF8F8B3, 0xB7AAA3DD, 0x5EBAF642, 0xAC19CF84, 0x09391A86, 0x71FFE4A6, 0xA230A162, 0xC9059225)

  const KEY_11 := Words(
    0x1CAE86DE, 0x76213E4A, 0x3C2D0ED9, 0x529B364C, 0x06FD4980, 0x9FE9555D, 0x7312CCB2, 0x15B208AB,
    0x48C44B90, 0xD0427EC2, 0x7AE3FBBD, 0xC074A972, 0xAAFD6369, 0x8DFCBA1E, 0x4EF11AE4, 0x55ECF6D5)

  const KEY_12 := Words(
    0x059A8407, 0x289FCC74, 0x436D5656, 0xABB50D8E, 0xD409754D, 0x39DAA019, 0x8FDCFB6B, 0xDF3B8043,
    0x6C4E1F3D, 0x4FAC2E54, 0xD8A09A20, 0xE74A3A8F, 0xDB63EE6E, 0x75EEF78A, 0xE1358123, 0x421E041E)

  const KEY_13 := Words(
    0x3BBF867D, 0x173F336F, 0x528CB7A4, 0x0C8875FA, 0x281763BF, 0x5EF5CD5E, 0x8FF48EBD, 0x9A0CCAB2,
    0x40B4A781, 0xD7586EF1, 0x85053B24, 0x68E08E54, 0xBD2C8584, 0x0191242F, 0xDB826E85, 0xE69677A9)

  const KEY_14 := Words(
    0x6E94DA1E, 0x01E06DA8, 0xDB5B5D83, 0x0FBA41DC, 0x3F16AF19, 0x82ACF5E9, 0x3F430951, 0x392238CA,
    0x72ABB739, 0x504DE4BC, 0xE7C59CE6, 0x91002DC7, 0xC95F2012, 0x8B7D22B0, 0xC1B886AE, 0x3F4DE6A1)

  const KEY_15 := Words(
    0xE0EDD5B2, 0x2B628D2C, 0x3783DC0F, 0x42373ACC, 0x4AA2B151, 0x90D68702, 0x49CF8E02, 0xB56EF413,
    0x621AE4DE, 0xECF48D37, 0xF2187113, 0x5D36BAC0, 0x4649C8B1, 0xFA897FA5, 0x29D7F907, 0x6B232452)

  const KEY_16 := Words(
    0xACC9E925, 0x8BDBBDE4, 0xFCB7362A, 0x3B8F3084, 0x4C15CB87, 0x960883BC, 0xDFA77346, 0x132CBECF,
    0x62F52B79, 0xA94EF8F9, 0x24ACA816, 0xD02E32C9, 0x9F58448E, 0x51533020, 0xB037AD8E, 0xDCF9530A)

  const KEY_17 := Words(
    0x4DD3D06B, 0xC2AD0E1E, 0x5F0C1742, 0x3DE3FB0A, 0xA31DBCA7, 0xA0C894B6, 0x784D30CC, 0x685C00E0,
    0xB7045176, 0xC482972E, 0x550706FA, 0xC2267A83, 0xCAC4995C, 0xA9B32D7E, 0x2B5BF27B, 0x4E9EBA76)

  const KEY_18 := Words(
    0x1E4FB78C, 0xFAE9750B, 0x7CB91E41, 0xCB1261D2, 0x7C804D5E, 0xE1CF6DEC, 0x867FD7A6, 0x8E3122D5,
    0x83A99ACC, 0x92DC3A33, 0xC31FBF13, 0x9F3ACA46, 0x355D5F85, 0x9C4CE179, 0x888ED8AB, 0x8EC11817)

  const KEY_19 := Words(
    0x16544782, 0x5C826E58, 0x2211B796, 0x191B8B28, 0xA33C397F, 0x085CFDFA, 0xE4742550, 0xB4E07718,
    0xEE668641, 0x42C98755, 0xDEB22309, 0xD1806033, 0x0F4D3BE8, 0xAC5F0C2E, 0x4FE9B91D, 0xA088A765)

  const KEY_20 := Words(
    0xEA3DCEED, 0xECE06EF0, 0x61894D64, 0xE620012B, 0x02E1CC5B, 0x86BEB119, 0x8EDDD916, 0x1A35B3F8,
    0x6150EDA7, 0x56201605, 0x94D405B2, 0xC505500F, 0x4B44A021, 0x3B561D07, 0x959B9AF2, 0xD4082470)

  lemma Key0(s: seq<Word>, m: seq<Word>)
    requires |s| == |m| == 16 && KEY_0.Are(s) && KEY.Are(m)
    ensures KEY_2.Are(Rounds(s, m, 1))
  {
    assert Rounds(s, m, 0) == s;
    hide Rounds, Words.Are, AreScheduled;
    Order0(m, KEY);
    RoundGives(s, m, 0, KEY_0, Order(KEY, 0), KEY_1, KEY_2);
  }

  lemma Key1(s: seq<Word>, m: seq<Word>)
    requires |s| == |m| == 16 && KEY_0.Are(s) && KEY.Are(m)
    ensures KEY_4.Are(Rounds(s, m, 2))
  {
    hide Rounds, Words.Are, AreScheduled;
    Key0(s, m);
    Order1(m, KEY);
    RoundGives(s, m, 1, KEY_2, Order(KEY, 1), KEY_3, KEY_4);
  }

  lemma Key2(s: seq<Word>, m: seq<Word>)
    requires |s| == |m| == 16 && KEY_0.Are(s) && KEY.Are(m)
    ensures KEY_6.Are(Rounds(s, m, 3))
  {
    hide Rounds, Words.Are, AreScheduled;
    Key1(s, m);
    Order2(m, KEY);
    RoundGives(s, m, 2, KEY_4, Order(KEY, 2), KEY_5, KEY_6);
  }

  lemma Key3(s: seq<Word>, m: seq<Word>)
    requires |s| == |m| == 16 && KEY_0.Are(s) && KEY.Are(m)
    ensures KEY_8.Are(Rounds(s, m, 4))
  {
    hide Rounds, Words.Are, AreScheduled;
    Key2(s, m);
    Order3(m, KEY);
    RoundGives(s, m, 3, KEY_6, Order(KEY, 3), KEY_7, KEY_8);
  }

  lemma Key4(s: seq<Word>, m: seq<Word>)
    requires |s| == |m| == 16 && KEY_0.Are(s) && KEY.Are(m)
    ensures KEY_10.Are(Rounds(s, m, 5))
  {
    hide Rounds, Words.Are, AreScheduled;
    Key3(s, m);
    Order4(m, KEY);
    RoundGives(s, m, 4, KEY_8, Order(KEY, 4), KEY_9, KEY_10);
  }

  lemma Key5(s: seq<Word>, m: seq<Word>)
    requires |s| == |m| == 16 && KEY_0.Are(s) && KEY.Are(m)
    ensures KEY_12.Are(Rounds(s, m, 6))
  {
    hide Rounds, Words.Are, AreScheduled;
    Key4(s, m);
    Order5(m, KEY);
    RoundGives(s, m, 5, KEY_10, Order(KEY, 5), KEY_11, KEY_12);
  }

  lemma Key6(s: seq<Word>, m: seq<Word>)
    requires |s| == |m| == 16 && KEY_0.Are(s) && KEY.Are(m)
    ensures KEY_14.Are(Rounds(s, m, 7))
  {
    hide Rounds, Words.Are, AreScheduled;
    Key5(s, m);
    Order6(m, KEY);
    RoundGives(s, m, 6, KEY_12, Order(KEY, 6), KEY_13, KEY_14);
  }

  lemma Key7(s: seq<Word>, m: seq<Word>)
    requires |s| == |m| == 16 && KEY_0.Are(s) && KEY.Are(m)
    ensures KEY_16.Are(Rounds(s, m, 8))
  {
    hide Rounds, Words.Are, AreScheduled;
    Key6(s, m);
    Order7(m, KEY);
    RoundGives(s, m, 7, KEY_14, Order(KEY, 7), KEY_15, KEY_16);
  }

  lemma Key8(s: seq<Word>, m: seq<Word>)
    requires |s| == |m| == 16 && KEY_0.Are(s) && KEY.Are(m)
    ensures KEY_18.Are(Rounds(s, m, 9))
  {
    hide Rounds, Words.Are, AreScheduled;
    Key7(s, m);
    Order8(m, KEY);
    RoundGives(s, m, 8, KEY_16, Order(KEY, 8), KEY_17, KEY_18);
  }

  lemma Key9(s: seq<Word>, m: seq<Word>)
    requires |s| == |m| == 16 && KEY_0.Are(s) && KEY.Are(m)
    ensures KEY_20.Are(Rounds(s, m, 10))
  {
    hide Rounds, Words.Are, AreScheduled;
    Key8(s, m);
    Order9(m, KEY);
    RoundGives(s, m, 9, KEY_18, Order(KEY, 9), KEY_19, KEY_20);
  }

  /** The block that holds the bytes 0 to 63, behind that key block: final, counter 128. */
  const MESSAGE := Words(
    0x03020100, 0x07060504, 0x0B0A0908, 0x0F0E0D0C, 0x13121110, 0x17161514, 0x1B1A1918, 0x1F1E1D1C,
    0x23222120, 0x27262524, 0x2B2A2928, 0x2F2E2D2C, 0x33323130, 0x37363534, 0x3B3A3938, 0x3F3E3D3C)

  const MESSAGE_0 := Words(
    0xE065E50D, 0x01A7D670, 0xC933BBA4, 0x866AA41E, 0x18AB3E05, 0x26EDC492, 0x04C59A4F, 0x95DD5A91,
    0x6A09E667, 0xBB67AE85, 0x3C6EF372, 0xA54FF53A, 0x510E52FF, 0x9B05688C, 0xE07C2654, 0x5BE0CD19)

  const MESSAGE_1 := Words(
    0xDB38AEE0, 0x7B87C14F, 0xE2890C1D, 0x09519416, 0x9A0D75DA, 0x62CAFE91, 0xE0041C85, 0x0F4FA15D,
    0xDEA56887, 0x5DA55888, 0xE869D2F6, 0x1501F1B4, 0xFDADD503, 0xD5B70169, 0x6AA3DE0D, 0x94D38FF8)

  const MESSAGE_2 := Words(
    0xF020A548, 0xBA84C47F, 0xDDDC264D, 0xAF5D8CCB, 0x3AF4F711, 0x5F1EA347, 0xB29394F1, 0xEA5FE0D6,
    0xAE6B791A, 0xEBFD84FA, 0xE885123C, 0x4D6AE88E, 0x64697BBF, 0xF0021FD6, 0xF1327838, 0xBEB14950)

  const MESSAGE_3 := Words(
    0x56906591, 0x7F387802, 0xB7F7426A, 0x4C7AE6E8, 0xFFA308BE, 0xB24EEC88, 0x571E5842, 0x4707EAF9,
    0x149239A7, 0x08169A55, 0x4E0F05E7, 0xE3985658, 0xB7F8BE67, 0xB51838A4, 0xCD2FAD04, 0xAAA7FF88)

  const MESSAGE_4 := Words(
    0xBD2BD6F1, 0xB00334A5, 0x2F9E934E, 0x7F26F92A, 0x47DE9E0F, 0x71A75C4E, 0x1726757E, 0x8E20B124,
    0xF20B89E4, 0xE3ABE0C7, 0xA9BA699C, 0x589AE552, 0x05DF205A, 0x7B4DB508, 0x31D69857, 0xB315BE73)

  const MESSAGE_5 := Words(
    0xB39DF93E, 0x19417A27, 0x7658AC62, 0xE01FE803, 0xC223E124, 0x53A04F9B, 0x27242C80, 0x78345A03,
    0x4DB3A793, 0x11457AAD, 0x9F65C569, 0x464ECAF9, 0xD931EBC8, 0xB66E6A55, 0x6FF3EFC0, 0x93B9E617)

  const MESSAGE_6 := Words(
    0xF7B8B8FB, 0x46496BAF, 0xAA702448, 0xE2B90E87, 0x866D12B9, 0x23AFEC31, 0xB8A0A615, 0x6961A5F8,
    0x256C07F7, 0x30B453EF, 0x5DE01553, 0x8BE89438, 0xED1E32FD, 0x8DE3A49F, 0x1DE332A8, 0x2A63AE19)

  const MESSAGE_7 := Words(
    0x7341AD3A, 0xCE3A926A, 0x7C526C54, 0xC03E4A97, 0xEF932AF4, 0x86623774, 0xE1642466, 0x952322BD,
    0x6742E531, 0x7F369239, 0x1CCB08E3, 0x982A717E, 0x67A96CDD, 0x8E0E4966, 0xF1B16BEB, 0xBC8F8C1B)

  const MESSAGE_8 := Words(
    0x86E7887D, 0x61BCD50F, 0xF805FBBB, 0xB26D5300, 0xBB6DED1A, 0x3572FF15, 0x187BEEF0, 0x22A5CF11,
    0x829BD20B, 0x16CDF244, 0xDE600B35, 0x522A980F, 0x12C68574, 0x32114251, 0xBE6B414D, 0x5FE74A30)

  const MESSAGE_9 := Words(
    0x799F2C25, 0xE6437AAB, 0x2CF69718, 0xCF02A1D8, 0xEA6FE01C, 0x53B2B79A, 0x24EF4856, 0x09B30A35,
    0x3AD19E1F, 0xC184B97E, 0x89FCB947, 0x560203E7, 0x98665057, 0xFF4D2AE6, 0xF89E0832, 0x02CE0BFE)

  const MESSAGE_10 := Words(
    0x50D14D72, 0x49504A9B, 0xDE7209E9, 0x97C0F1C4, 0x9B759BE3, 0x4F20E561, 0xD69FB1F3, 0x60B65020,
    0x32A43E54, 0x22C7DC5D, 0xD14D9BD0, 0x9465D0D5, 0x9DE92AE8, 0x674EF1A7, 0xDA10F2C1, 0x3047D847)

  const MESSAGE_11 := Words(
    0x596C2650, 0x22EEB7F1, 0xA94E895C, 0xF3DA61FA, 0x35B46501, 0x60A85E96, 0xD57ABD9D, 0x2F7586C8,
    0xF4DB8259, 0x10160E85, 0x7F5251BE, 0x73F195FD, 0xE981D94C, 0x349A5D63, 0x5FE753EB, 0x2448994A)

  const MESSAGE_12 := Words(
    0x600B95A0, 0xC88451E0, 0xD6CF414A, 0xE754CB04, 0xFB2060CE, 0xBC03AA71, 0x207F7AB9, 0xD8A86F83,
    0xD7A57B5E, 0x1FA9BE9C, 0x5A7BF2A8, 0xA65BF6B2, 0xE68362AF, 0xD2C6CC6D, 0x777F40A4, 0xCE6CB77C)

  const MESSAGE_13 := Words(
    0xF4D2BC1A, 0xA4214CAC, 0x8C2230B3, 0xB7A133B6, 0xCF57AD6E, 0xC4103C7D, 0xA0EC6FE0, 0x6983EBC1,
    0xE488C80F, 0xD14B30F9, 0x5454F614, 0x78925E43, 0xC7B1E3D4, 0xE4691915, 0x4439BD75, 0xD54B4A2E)

  const MESSAGE_14 := Words(
    0x66EFD898, 0x12C6E1A6, 0xDF2B93F2, 0x009F221B, 0x99DAD27E, 0x39681EF5, 0xD2F96E85, 0x9A47965C,
    0x949E671F, 0xCA3CCDE7, 0x3FE3BB79, 0xDF27BC1F, 0x3024B646, 0x5787A66B, 0x39BFAECC, 0x37D556B6)

  const MESSAGE_15 := Words(
    0x3B064481, 0xEAD34E00, 0x5A9E341A, 0x92E96C53, 0x0887809D, 0x642843DA, 0x4D7CAEEA, 0x3C4B236D,
    0x9017798F, 0x506A1A23, 0xD0178E49, 0xE45F3732, 0xA56D0A4C, 0xCA510F72, 0xF2C7F5E8, 0x7201DCF2)

  const MESSAGE_16 := Words(
    0xCE8DF840, 0xDA95E6A0, 0x7D694C3B, 0xB97AAEFE, 0x08E7CCAC, 0x36040676, 0x462E8124, 0xB3816838,
    0x68F7A625, 0x9433D9DA, 0x174462CA, 0x58B50949, 0x43EAFF34, 0x610ABC3C, 0x43B96AFA, 0x058F103C)

  const MESSAGE_17 := Words(
    0xE4364839, 0x9FDBD592, 0x58022120, 0x4B4D6D37, 0xF4A90AE4, 0x2EAC9449, 0xBEA4A13C, 0x403E5F12,
    0xE6ED5E83, 0x7AABAEB7, 0x047E87D6, 0xA702BAC1, 0x5CC506F9, 0x4C05A9FF, 0x5CC87390, 0x46434707)

  const MESSAGE_18 := Words(
    0x177530AB, 0x0563BEC0, 0x9F9DCEDC, 0x49F253D5, 0xFA99432A, 0x5B158EA3, 0x12AA41D2, 0xEABC5F7A,
    0xB36A85E3, 0x8B1A0803, 0x4C91485C, 0x05AE1CAB, 0xB3AF9877, 0x9FB3541D, 0x3D9B2164, 0xFD5DC030)

  const MESSAGE_19 := Words(
    0xBD477CCA, 0x3F376A6D, 0x35350589, 0x21B41842, 0x52C15469, 0xF744684E, 0xCB0B9ADF, 0x53CF05E3,
    0x15AEE26C, 0x0ABDCDA1, 0xCD79D142, 0x296BBB72, 0x5DB9CDF2, 0x4505A976, 0x74399BE9, 0xAB59D7DE)

  const MESSAGE_20 := Words(
    0x3CAB9384, 0x96812203, 0x714DA0D3, 0x444F063E, 0xA6C9A488, 0x4986FC1F, 0x979B052B, 0x565AEEA8,
    0x8B7E0300, 0xF173270C, 0xDACD4BA0, 0xE45F2B90, 0xD371034E, 0xC4C0437D, 0xAC7E79D9, 0x17C921CB)

  lemma Message0(s: seq<Word>, m: seq<Word>)
    requires |s| == |m| == 16 && MESSAGE_0.Are(s) && MESSAGE.Are(m)
    ensures MESSAGE_2.Are(Rounds(s, m, 1))
  {
    assert Rounds(s, m, 0) == s;
    hide Rounds, Words.Are, AreScheduled;
    Order0(m, MESSAGE);
    RoundGives(s, m, 0, MESSAGE_0, Order(MESSAGE, 0), MESSAGE_1, MESSAGE_2);
  }

  lemma Message1(s: seq<Word>, m: seq<Word>)
    requires |s| == |m| == 16 && MESSAGE_0.Are(s) && MESSAGE.Are(m)
    ensures MESSAGE_4.Are(Rounds(s, m, 2))
  {
    hide Rounds, Words.Are, AreScheduled;
    Message0(s, m);
    Order1(m, MESSAGE);
    RoundGives(s, m, 1, MESSAGE_2, Order(MESSAGE, 1), MESSAGE_3, MESSAGE_4);
  }

  lemma Message2(s: seq<Word>, m: seq<Word>)
    requires |s| == |m| == 16 && MESSAGE_0.Are(s) && MESSAGE.Are(m)
    ensures MESSAGE_6.Are(Rounds(s, m, 3))
  {
    hide Rounds, Words.Are, AreScheduled;
    Message1(s, m);
    Order2(m, MESSAGE);
    RoundGives(s, m, 2, MESSAGE_4, Order(MESSAGE, 2), MESSAGE_5, MESSAGE_6);
  }

  lemma Message3(s: seq<Word>, m: seq<Word>)
    requires |s| == |m| == 16 && MESSAGE_0.Are(s) && MESSAGE.Are(m)
    ensures MESSAGE_8.Are(Rounds(s, m, 4))
  {
    hide Rounds, Words.Are, AreScheduled;
    Message2(s, m);
    Order3(m, MESSAGE);
    RoundGives(s, m, 3, MESSAGE_6, Order(MESSAGE, 3), MESSAGE_7, MESSAGE_8);
  }

  lemma Message4(s: seq<Word>, m: seq<Word>)
    requires |s| == |m| == 16 && MESSAGE_0.Are(s) && MESSAGE.Are(m)
    ensures MESSAGE_10.Are(Rounds(s, m, 5))
  {
    hide Rounds, Words.Are, AreScheduled;
    Message3(s, m);
    Order4(m, MESSAGE);
    RoundGives(s, m, 4, MESSAGE_8, Order(MESSAGE, 4), MESSAGE_9, MESSAGE_10);
  }

  lemma Message5(s: seq<Word>, m: seq<Word>)
    requires |s| == |m| == 16 && MESSAGE_0.Are(s) && MESSAGE.Are(m)
    ensures MESSAGE_12.Are(Rounds(s, m, 6))
  {
    hide Rounds, Words.Are, AreScheduled;
    Message4(s, m);
    Order5(m, MESSAGE);
    RoundGives(s, m, 5, MESSAGE_10, Order(MESSAGE, 5), MESSAGE_11, MESSAGE_12);
  }

  lemma Message6(s: seq<Word>, m: seq<Word>)
    requires |s| == |m| == 16 && MESSAGE_0.Are(s) && MESSAGE.Are(m)
    ensures MESSAGE_14.Are(Rounds(s, m, 7))
  {
    hide Rounds, Words.Are, AreScheduled;
    Message5(s, m);
    Order6(m, MESSAGE);
    RoundGives(s, m, 6, MESSAGE_12, Order(MESSAGE, 6), MESSAGE_13, MESSAGE_14);
  }

  lemma Message7(s: seq<Word>, m: seq<Word>)
    requires |s| == |m| == 16 && MESSAGE_0.Are(s) && MESSAGE.Are(m)
    ensures MESSAGE_16.Are(Rounds(s, m, 8))
  {
    hide Rounds, Words.Are, AreScheduled;
    Message6(s, m);
    Order7(m, MESSAGE);
    RoundGives(s, m, 7, MESSAGE_14, Order(MESSAGE, 7), MESSAGE_15, MESSAGE_16);
  }

  lemma Message8(s: seq<Word>, m: seq<Word>)
    requires |s| == |m| == 16 && MESSAGE_0.Are(s) && MESSAGE.Are(m)
    ensures MESSAGE_18.Are(Rounds(s, m, 9))
  {
    hide Rounds, Words.Are, AreScheduled;
    Message7(s, m);
    Order8(m, MESSAGE);
    RoundGives(s, m, 8, MESSAGE_16, Order(MESSAGE, 8), MESSAGE_17, MESSAGE_18);
  }

  lemma Message9(s: seq<Word>, m: seq<Word>)
    requires |s| == |m| == 16 && MESSAGE_0.Are(s) && MESSAGE.Are(m)
    ensures MESSAGE_20.Are(Rounds(s, m, 10))
  {
    hide Rounds, Words.Are, AreScheduled;
    Message8(s, m);
    Order9(m, MESSAGE);
    RoundGives(s, m, 9, MESSAGE_18, Order(MESSAGE, 9), MESSAGE_19, MESSAGE_20);
  }

}
