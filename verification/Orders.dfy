/** Which message word each round uses when; written out word by word. */
module Orders {
  import opened HalfRounds
  import opened Rfc7693

  function Order(m: Words, r: nat): Words
    requires r < 10
  {
    match r
    case 0 => Words(
      m.w0, m.w1, m.w2, m.w3, m.w4, m.w5, m.w6, m.w7, m.w8, m.w9, m.w10, m.w11, m.w12, m.w13, m.w14, m.w15)
    case 1 => Words(
      m.w14, m.w10, m.w4, m.w8, m.w9, m.w15, m.w13, m.w6, m.w1, m.w12, m.w0, m.w2, m.w11, m.w7, m.w5, m.w3)
    case 2 => Words(
      m.w11, m.w8, m.w12, m.w0, m.w5, m.w2, m.w15, m.w13, m.w10, m.w14, m.w3, m.w6, m.w7, m.w1, m.w9, m.w4)
    case 3 => Words(
      m.w7, m.w9, m.w3, m.w1, m.w13, m.w12, m.w11, m.w14, m.w2, m.w6, m.w5, m.w10, m.w4, m.w0, m.w15, m.w8)
    case 4 => Words(
      m.w9, m.w0, m.w5, m.w7, m.w2, m.w4, m.w10, m.w15, m.w14, m.w1, m.w11, m.w12, m.w6, m.w8, m.w3, m.w13)
    case 5 => Words(
      m.w2, m.w12, m.w6, m.w10, m.w0, m.w11, m.w8, m.w3, m.w4, m.w13, m.w7, m.w5, m.w15, m.w14, m.w1, m.w9)
    case 6 => Words(
      m.w12, m.w5, m.w1, m.w15, m.w14, m.w13, m.w4, m.w10, m.w0, m.w7, m.w6, m.w3, m.w9, m.w2, m.w8, m.w11)
    case 7 => Words(
      m.w13, m.w11, m.w7, m.w14, m.w12, m.w1, m.w3, m.w9, m.w5, m.w0, m.w15, m.w4, m.w8, m.w6, m.w2, m.w10)
    case 8 => Words(
      m.w6, m.w15, m.w14, m.w9, m.w11, m.w3, m.w0, m.w8, m.w12, m.w2, m.w13, m.w7, m.w1, m.w4, m.w10, m.w5)
    case _ => Words(
      m.w10, m.w2, m.w8, m.w4, m.w7, m.w6, m.w1, m.w5, m.w15, m.w11, m.w9, m.w14, m.w3, m.w12, m.w13, m.w0)
  }

  lemma Row0(m: seq<Word>)
    requires |m| == 16
    ensures Scheduled(m, 0, 0) == m[0] && Scheduled(m, 0, 1) == m[1]
    ensures Scheduled(m, 0, 2) == m[2] && Scheduled(m, 0, 3) == m[3]
    ensures Scheduled(m, 0, 4) == m[4] && Scheduled(m, 0, 5) == m[5]
    ensures Scheduled(m, 0, 6) == m[6] && Scheduled(m, 0, 7) == m[7]
    ensures Scheduled(m, 0, 8) == m[8] && Scheduled(m, 0, 9) == m[9]
    ensures Scheduled(m, 0, 10) == m[10] && Scheduled(m, 0, 11) == m[11]
    ensures Scheduled(m, 0, 12) == m[12] && Scheduled(m, 0, 13) == m[13]
    ensures Scheduled(m, 0, 14) == m[14] && Scheduled(m, 0, 15) == m[15]
  {
  }

  lemma Order0(s: seq<Word>, m: Words)
    requires m.Are(s)
    ensures AreScheduled(s, 0, Order(m, 0))
  {
    hide Scheduled;
    Row0(s);
  }

  lemma Row1(m: seq<Word>)
    requires |m| == 16
    ensures Scheduled(m, 1, 0) == m[14] && Scheduled(m, 1, 1) == m[10]
    ensures Scheduled(m, 1, 2) == m[4] && Scheduled(m, 1, 3) == m[8]
    ensures Scheduled(m, 1, 4) == m[9] && Scheduled(m, 1, 5) == m[15]
    ensures Scheduled(m, 1, 6) == m[13] && Scheduled(m, 1, 7) == m[6]
    ensures Scheduled(m, 1, 8) == m[1] && Scheduled(m, 1, 9) == m[12]
    ensures Scheduled(m, 1, 10) == m[0] && Scheduled(m, 1, 11) == m[2]
    ensures Scheduled(m, 1, 12) == m[11] && Scheduled(m, 1, 13) == m[7]
    ensures Scheduled(m, 1, 14) == m[5] && Scheduled(m, 1, 15) == m[3]
  {
  }

  lemma Order1(s: seq<Word>, m: Words)
    requires m.Are(s)
    ensures AreScheduled(s, 1, Order(m, 1))
  {
    hide Scheduled;
    Row1(s);
  }

  lemma Row2(m: seq<Word>)
    requires |m| == 16
    ensures Scheduled(m, 2, 0) == m[11] && Scheduled(m, 2, 1) == m[8]
    ensures Scheduled(m, 2, 2) == m[12] && Scheduled(m, 2, 3) == m[0]
    ensures Scheduled(m, 2, 4) == m[5] && Scheduled(m, 2, 5) == m[2]
    ensures Scheduled(m, 2, 6) == m[15] && Scheduled(m, 2, 7) == m[13]
    ensures Scheduled(m, 2, 8) == m[10] && Scheduled(m, 2, 9) == m[14]
    ensures Scheduled(m, 2, 10) == m[3] && Scheduled(m, 2, 11) == m[6]
    ensures Scheduled(m, 2, 12) == m[7] && Scheduled(m, 2, 13) == m[1]
    ensures Scheduled(m, 2, 14) == m[9] && Scheduled(m, 2, 15) == m[4]
  {
  }

  lemma Order2(s: seq<Word>, m: Words)
    requires m.Are(s)
    ensures AreScheduled(s, 2, Order(m, 2))
  {
    hide Scheduled;
    Row2(s);
  }

  lemma Row3(m: seq<Word>)
    requires |m| == 16
    ensures Scheduled(m, 3, 0) == m[7] && Scheduled(m, 3, 1) == m[9]
    ensures Scheduled(m, 3, 2) == m[3] && Scheduled(m, 3, 3) == m[1]
    ensures Scheduled(m, 3, 4) == m[13] && Scheduled(m, 3, 5) == m[12]
    ensures Scheduled(m, 3, 6) == m[11] && Scheduled(m, 3, 7) == m[14]
    ensures Scheduled(m, 3, 8) == m[2] && Scheduled(m, 3, 9) == m[6]
    ensures Scheduled(m, 3, 10) == m[5] && Scheduled(m, 3, 11) == m[10]
    ensures Scheduled(m, 3, 12) == m[4] && Scheduled(m, 3, 13) == m[0]
    ensures Scheduled(m, 3, 14) == m[15] && Scheduled(m, 3, 15) == m[8]
  {
  }

  lemma Order3(s: seq<Word>, m: Words)
    requires m.Are(s)
    ensures AreScheduled(s, 3, Order(m, 3))
  {
    hide Scheduled;
    Row3(s);
  }

  lemma Row4(m: seq<Word>)
    requires |m| == 16
    ensures Scheduled(m, 4, 0) == m[9] && Scheduled(m, 4, 1) == m[0]
    ensures Scheduled(m, 4, 2) == m[5] && Scheduled(m, 4, 3) == m[7]
    ensures Scheduled(m, 4, 4) == m[2] && Scheduled(m, 4, 5) == m[4]
    ensures Scheduled(m, 4, 6) == m[10] && Scheduled(m, 4, 7) == m[15]
    ensures Scheduled(m, 4, 8) == m[14] && Scheduled(m, 4, 9) == m[1]
    ensures Scheduled(m, 4, 10) == m[11] && Scheduled(m, 4, 11) == m[12]
    ensures Scheduled(m, 4, 12) == m[6] && Scheduled(m, 4, 13) == m[8]
    ensures Scheduled(m, 4, 14) == m[3] && Scheduled(m, 4, 15) == m[13]
  {
  }

  lemma Order4(s: seq<Word>, m: Words)
    requires m.Are(s)
    ensures AreScheduled(s, 4, Order(m, 4))
  {
    hide Scheduled;
    Row4(s);
  }

  lemma Row5(m: seq<Word>)
    requires |m| == 16
    ensures Scheduled(m, 5, 0) == m[2] && Scheduled(m, 5, 1) == m[12]
    ensures Scheduled(m, 5, 2) == m[6] && Scheduled(m, 5, 3) == m[10]
    ensures Scheduled(m, 5, 4) == m[0] && Scheduled(m, 5, 5) == m[11]
    ensures Scheduled(m, 5, 6) == m[8] && Scheduled(m, 5, 7) == m[3]
    ensures Scheduled(m, 5, 8) == m[4] && Scheduled(m, 5, 9) == m[13]
    ensures Scheduled(m, 5, 10) == m[7] && Scheduled(m, 5, 11) == m[5]
    ensures Scheduled(m, 5, 12) == m[15] && Scheduled(m, 5, 13) == m[14]
    ensures Scheduled(m, 5, 14) == m[1] && Scheduled(m, 5, 15) == m[9]
  {
  }

  lemma Order5(s: seq<Word>, m: Words)
    requires m.Are(s)
    ensures AreScheduled(s, 5, Order(m, 5))
  {
    hide Scheduled;
    Row5(s);
  }

  lemma Row6(m: seq<Word>)
    requires |m| == 16
    ensures Scheduled(m, 6, 0) == m[12] && Scheduled(m, 6, 1) == m[5]
    ensures Scheduled(m, 6, 2) == m[1] && Scheduled(m, 6, 3) == m[15]
    ensures Scheduled(m, 6, 4) == m[14] && Scheduled(m, 6, 5) == m[13]
    ensures Scheduled(m, 6, 6) == m[4] && Scheduled(m, 6, 7) == m[10]
    ensures Scheduled(m, 6, 8) == m[0] && Scheduled(m, 6, 9) == m[7]
    ensures Scheduled(m, 6, 10) == m[6] && Scheduled(m, 6, 11) == m[3]
    ensures Scheduled(m, 6, 12) == m[9] && Scheduled(m, 6, 13) == m[2]
    ensures Scheduled(m, 6, 14) == m[8] && Scheduled(m, 6, 15) == m[11]
  {
  }

  lemma Order6(s: seq<Word>, m: Words)
    requires m.Are(s)
    ensures AreScheduled(s, 6, Order(m, 6))
  {
    hide Scheduled;
    Row6(s);
  }

  lemma Row7(m: seq<Word>)
    requires |m| == 16
    ensures Scheduled(m, 7, 0) == m[13] && Scheduled(m, 7, 1) == m[11]
    ensures Scheduled(m, 7, 2) == m[7] && Scheduled(m, 7, 3) == m[14]
    ensures Scheduled(m, 7, 4) == m[12] && Scheduled(m, 7, 5) == m[1]
    ensures Scheduled(m, 7, 6) == m[3] && Scheduled(m, 7, 7) == m[9]
    ensures Scheduled(m, 7, 8) == m[5] && Scheduled(m, 7, 9) == m[0]
    ensures Scheduled(m, 7, 10) == m[15] && Scheduled(m, 7, 11) == m[4]
    ensures Scheduled(m, 7, 12) == m[8] && Scheduled(m, 7, 13) == m[6]
    ensures Scheduled(m, 7, 14) == m[2] && Scheduled(m, 7, 15) == m[10]
  {
  }

  lemma Order7(s: seq<Word>, m: Words)
    requires m.Are(s)
    ensures AreScheduled(s, 7, Order(m, 7))
  {
    hide Scheduled;
    Row7(s);
  }

  lemma Row8(m: seq<Word>)
    requires |m| == 16
    ensures Scheduled(m, 8, 0) == m[6] && Scheduled(m, 8, 1) == m[15]
    ensures Scheduled(m, 8, 2) == m[14] && Scheduled(m, 8, 3) == m[9]
    ensures Scheduled(m, 8, 4) == m[11] && Scheduled(m, 8, 5) == m[3]
    ensures Scheduled(m, 8, 6) == m[0] && Scheduled(m, 8, 7) == m[8]
    ensures Scheduled(m, 8, 8) == m[12] && Scheduled(m, 8, 9) == m[2]
    ensures Scheduled(m, 8, 10) == m[13] && Scheduled(m, 8, 11) == m[7]
    ensures Scheduled(m, 8, 12) == m[1] && Scheduled(m, 8, 13) == m[4]
    ensures Scheduled(m, 8, 14) == m[10] && Scheduled(m, 8, 15) == m[5]
  {
  }

  lemma Order8(s: seq<Word>, m: Words)
    requires m.Are(s)
    ensures AreScheduled(s, 8, Order(m, 8))
  {
    hide Scheduled;
    Row8(s);
  }

  lemma Row9(m: seq<Word>)
    requires |m| == 16
    ensures Scheduled(m, 9, 0) == m[10] && Scheduled(m, 9, 1) == m[2]
    ensures Scheduled(m, 9, 2) == m[8] && Scheduled(m, 9, 3) == m[4]
    ensures Scheduled(m, 9, 4) == m[7] && Scheduled(m, 9, 5) == m[6]
    ensures Scheduled(m, 9, 6) == m[1] && Scheduled(m, 9, 7) == m[5]
    ensures Scheduled(m, 9, 8) == m[15] && Scheduled(m, 9, 9) == m[11]
    ensures Scheduled(m, 9, 10) == m[9] && Scheduled(m, 9, 11) == m[14]
    ensures Scheduled(m, 9, 12) == m[3] && Scheduled(m, 9, 13) == m[12]
    ensures Scheduled(m, 9, 14) == m[13] && Scheduled(m, 9, 15) == m[0]
  {
  }

  lemma Order9(s: seq<Word>, m: Words)
    requires m.Are(s)
    ensures AreScheduled(s, 9, Order(m, 9))
  {
    hide Scheduled;
    Row9(s);
  }

}
