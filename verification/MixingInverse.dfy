/** For any message block, the ten rounds of BLAKE2s are a bijection on the working vector: here is the inverse. */
module MixingInverse {
  import opened Rfc7693

  function Rotl16(w: Word): Word { (w << 16) | (w >> 16) }

  function Rotl12(w: Word): Word { (w << 12) | (w >> 20) }

  function Rotl8(w: Word): Word { (w << 8) | (w >> 24) }

  function Rotl7(w: Word): Word { (w << 7) | (w >> 25) }

  function Minus(a: Word, b: Word): Word { a - b }

  function UndoFirstHalf(q: Quad, x: Word): Quad {
    var b := Xor(Rotl12(q.b), q.c);
    var c := Minus(q.c, q.d);
    var d := Xor(Rotl16(q.d), q.a);
    var a := Minus(Minus(q.a, x), b);
    Quad(a, b, c, d)
  }

  function UndoSecondHalf(q: Quad, y: Word): Quad {
    var b := Xor(Rotl7(q.b), q.c);
    var c := Minus(q.c, q.d);
    var d := Xor(Rotl8(q.d), q.a);
    var a := Minus(Minus(q.a, y), b);
    Quad(a, b, c, d)
  }

  function Unmix(q: Quad, x: Word, y: Word): Quad {
    UndoFirstHalf(UndoSecondHalf(q, y), x)
  }

  lemma Rotations(w: Word)
    ensures Rotl16(Rotr16(w)) == w && Rotr16(Rotl16(w)) == w
    ensures Rotl12(Rotr12(w)) == w && Rotr12(Rotl12(w)) == w
    ensures Rotl8(Rotr8(w)) == w && Rotr8(Rotl8(w)) == w
    ensures Rotl7(Rotr7(w)) == w && Rotr7(Rotl7(w)) == w
  {
  }

  lemma XorCancels(a: Word, b: Word)
    ensures Xor(Xor(a, b), b) == a
  {
  }

  lemma MinusCancelsPlus(a: Word, b: Word)
    ensures Minus(Plus(a, b), b) == a
  {
    assert Minus(a + b, b) == a;
  }

  lemma PlusCancelsMinus(a: Word, b: Word)
    ensures Plus(Minus(a, b), b) == a
  {
    assert Plus(a - b, b) == a;
  }

  lemma Cancels(a: Word, b: Word)
    ensures Xor(Xor(a, b), b) == a
    ensures Minus(Plus(a, b), b) == a && Plus(Minus(a, b), b) == a
  {
    XorCancels(a, b);
    MinusCancelsPlus(a, b);
    PlusCancelsMinus(a, b);
  }

  lemma FirstHalfUndone(q: Quad, x: Word)
    ensures UndoFirstHalf(FirstHalf(q, x), x) == q
  {
    var p := FirstHalf(q, x);
    Rotations(Xor(q.d, p.a));
    Rotations(Xor(q.b, p.c));
    Cancels(q.d, p.a);
    Cancels(q.b, p.c);
    Cancels(q.c, p.d);
    Cancels(Plus(q.a, q.b), x);
    Cancels(q.a, q.b);
  }

  lemma FirstHalfRedone(q: Quad, x: Word)
    ensures FirstHalf(UndoFirstHalf(q, x), x) == q
  {
    var u := UndoFirstHalf(q, x);
    Rotations(q.d);
    Rotations(q.b);
    Cancels(Rotl16(q.d), q.a);
    Cancels(Rotl12(q.b), q.c);
    Cancels(q.c, q.d);
    Cancels(Minus(q.a, x), u.b);
    Cancels(q.a, x);
  }

  lemma SecondHalfUndone(q: Quad, y: Word)
    ensures UndoSecondHalf(SecondHalf(q, y), y) == q
  {
    var p := SecondHalf(q, y);
    Rotations(Xor(q.d, p.a));
    Rotations(Xor(q.b, p.c));
    Cancels(q.d, p.a);
    Cancels(q.b, p.c);
    Cancels(q.c, p.d);
    Cancels(Plus(q.a, q.b), y);
    Cancels(q.a, q.b);
  }

  lemma SecondHalfRedone(q: Quad, y: Word)
    ensures SecondHalf(UndoSecondHalf(q, y), y) == q
  {
    var u := UndoSecondHalf(q, y);
    Rotations(q.d);
    Rotations(q.b);
    Cancels(Rotl8(q.d), q.a);
    Cancels(Rotl7(q.b), q.c);
    Cancels(q.c, q.d);
    Cancels(Minus(q.a, y), u.b);
    Cancels(q.a, y);
  }

  function UndoG(v: seq<Word>, l: Lane, x: Word, y: Word): (w: seq<Word>)
    requires |v| == 16 && l.Valid()
    ensures |w| == 16
  {
    Put(v, l, Unmix(Get(v, l), x, y))
  }

  /** One application of G is undone, and undoing one is done again. */
  lemma GBackAndForth(v: seq<Word>, l: Lane, x: Word, y: Word)
    requires |v| == 16 && l.Valid()
    ensures UndoG(G(v, l, x, y), l, x, y) == v
    ensures G(UndoG(v, l, x, y), l, x, y) == v
  {
    var q := Get(v, l);
    var u := UndoSecondHalf(q, y);
    SecondHalfUndone(FirstHalf(q, x), y);
    FirstHalfUndone(q, x);
    FirstHalfRedone(u, x);
    SecondHalfRedone(q, y);
    assert Get(G(v, l, x, y), l) == Mix(q, x, y);
    assert Get(UndoG(v, l, x, y), l) == Unmix(q, x, y);
    PutGet(v, l, Mix(q, x, y));
    PutGet(v, l, Unmix(q, x, y));
  }

  lemma PutGet(v: seq<Word>, l: Lane, q: Quad)
    requires |v| == 16 && l.Valid()
    ensures Put(Put(v, l, q), l, Get(v, l)) == v
  {
  }

  function UndoLanes(v: seq<Word>, m: seq<Word>, r: nat, n: nat): (w: seq<Word>)
    requires |v| == 16 && |m| == 16 && r < 10 && n <= 8
    ensures |w| == 16
    decreases n
  {
    if n == 0 then v
    else UndoLanes(UndoG(v, LaneAt(n - 1), Scheduled(m, r, 2 * n - 2), Scheduled(m, r, 2 * n - 1)), m, r, n - 1)
  }

  function UndoRounds(v: seq<Word>, m: seq<Word>, n: nat): (w: seq<Word>)
    requires |v| == 16 && |m| == 16 && n <= 10
    ensures |w| == 16
    decreases n
  {
    if n == 0 then v else UndoRounds(UndoLanes(v, m, n - 1, 8), m, n - 1)
  }

  lemma {:induction false} LanesBackAndForth(v: seq<Word>, m: seq<Word>, r: nat, n: nat)
    requires |v| == 16 && |m| == 16 && r < 10 && n <= 8
    ensures UndoLanes(Lanes(v, m, r, n), m, r, n) == v
    ensures Lanes(UndoLanes(v, m, r, n), m, r, n) == v
    decreases n
  {
    hide G, UndoG, LaneAt, Scheduled;
    if n > 0 {
      var l, x, y := LaneAt(n - 1), Scheduled(m, r, 2 * n - 2), Scheduled(m, r, 2 * n - 1);
      LanesBackAndForth(v, m, r, n - 1);
      GBackAndForth(Lanes(v, m, r, n - 1), l, x, y);
      LanesBackAndForth(UndoG(v, l, x, y), m, r, n - 1);
      GBackAndForth(v, l, x, y);
    }
  }

  /** The mixing of any number of rounds is a bijection, whatever the message words are. */
  lemma {:induction false} RoundsBackAndForth(v: seq<Word>, m: seq<Word>, n: nat)
    requires |v| == 16 && |m| == 16 && n <= 10
    ensures UndoRounds(Rounds(v, m, n), m, n) == v
    ensures Rounds(UndoRounds(v, m, n), m, n) == v
    decreases n
  {
    hide Lanes, UndoLanes;
    if n > 0 {
      RoundsBackAndForth(v, m, n - 1);
      LanesBackAndForth(Rounds(v, m, n - 1), m, n - 1, 8);
      RoundsBackAndForth(UndoLanes(v, m, n - 1, 8), m, n - 1);
      LanesBackAndForth(v, m, n - 1, 8);
    }
  }
}
