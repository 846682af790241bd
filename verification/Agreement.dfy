/** Attestator, extractor and verifier together: which memories pass, and which do not. */
module Agreement {
  import opened Attestators
  import opened Blocks
  import opened Bytes
  import opened Defines
  import opened Hashing
  import opened Nonces
  import opened Protocol
  import opened Verifiers
  import opened Walks
  import GoldbachPreparation
  import GoldbachWalks

  /** Two different inputs with the same digest. */
  ghost predicate Collision(hash: Hash, x: seq<byte>, y: seq<byte>) {
    x != y && hash(x) == hash(y)
  }

  /** Two preparations under one nonce that hash to the same. */
  ghost predicate HashesCollide(hash: Hash, nonce: seq<byte>, d1: seq<byte>, d2: seq<byte>, aid: Aid, number: uint64) {
    Collision(hash, HashInput(nonce, d1, aid, number), HashInput(nonce, d2, aid, number))
  }

  /** The response of a client that has prepared this data for the nonce. */
  ghost function Reply(hash: Hash, id: uint64, nonce: seq<byte>, data: seq<byte>, aid: Aid, number: uint64): Response {
    Response(aid, number, id, HashOf(hash, nonce, data, aid, number))
  }

  /** In time or too late, as a success. */
  ghost predicate Passes(hash: Hash, t: int64, r: Response, db: map<uint64, Stored>)
    requires r.Fits() && r.requestId in db
  {
    var v, s := Verification(hash, Forward(t, r), db), db[r.requestId];
    && v.Verdict? && !v.compromised
    && v.status == (if t - s.sendTime < s.validitySeconds then SuccessInTime else ExpiredSuccess)
  }

  /** In time or too late, as a failure. */
  ghost predicate IsRejected(hash: Hash, t: int64, r: Response, db: map<uint64, Stored>)
    requires r.Fits() && r.requestId in db
  {
    var v, s := Verification(hash, Forward(t, r), db), db[r.requestId];
    v.Verdict? && v.status == (if t - s.sendTime < s.validitySeconds then Failed else ExpiredFailed) && v.compromised
  }

  /** The same data passes, late or in time; other data is rejected, unless it collides. */
  lemma DataDecides(hash: Hash, n: uint32, t: int64, id: uint64, data: seq<byte>, aid: Aid, number: uint64,
                    db: map<uint64, Stored>)
    requires HasLength(hash, n) && id in db
    ensures var s := db[id]; var r := Reply(hash, id, s.nonce, data, aid, number);
      && r.Fits()
      && var v := Verification(hash, Forward(t, r), db);
      && v.Verdict? && v.requestId == id && v.elapsed == (t - s.sendTime) % 0x1_0000_0000
      && if data == s.data then
           v.status == (if t - s.sendTime < s.validitySeconds then SuccessInTime else ExpiredSuccess) && !v.compromised
         else
           || (v.status == (if t - s.sendTime < s.validitySeconds then Failed else ExpiredFailed) && v.compromised)
           || HashesCollide(hash, s.nonce, data, s.data, aid, number)
  {
    hide Forward, Verification, HashInput;
    var s := db[id];
    FullHashPassesIffEqual(hash, t, Reply(hash, id, s.nonce, data, aid, number), db);
    SameNonceSeparatesData(s.nonce, data, s.data, aid, number);
  }

  // ---------- the whole exchange, normal walk ----------

  /** The request carries a nonce for which the extractor has stored the data of the reference program. */
  ghost predicate Issued(v: Version, view: seq<AreaInfo>, reference: Image, request: Request, db: map<uint64, Stored>) {
    && CanAnswer(v, view, request.nonce) && request.nonce != [] && Succeeds(v, view, request.nonce)
    && request.id in db
    && db[request.id].nonce == request.nonce
    && db[request.id].data == PreparedFor(v, view, request.nonce, reference)
  }

  ghost function SelectedBytes(view: seq<AreaInfo>, nonce: seq<byte>, img: Image): seq<byte>
    requires 0 < |view| < 0x1_0000 && 3 <= |nonce|
  {
    Flatten(Selected(view, nonce).blocks, img)
  }

  /** The two images hold the same byte wherever the walk of the nonce reads. */
  ghost predicate AgreeWhereRead(v: Version, view: seq<AreaInfo>, nonce: seq<byte>, a: Image, b: Image)
    requires CanDecode(v, view, nonce) && Succeeds(v, view, nonce)
  {
    var x, y, d := SelectedBytes(view, nonce, a), SelectedBytes(view, nonce, b), Expected(v, view, nonce);
    WindowInsideArea(v, Selected(view, nonce).areaLabel, SelectedSize(v, view, nonce), nonce);
    forall k :: 0 <= k < |x| && Reads(d, k) ==> x[k] == y[k]
  }

  lemma PreparedAlike(v: Version, view: seq<AreaInfo>, nonce: seq<byte>, a: Image, b: Image)
    requires CanDecode(v, view, nonce) && Succeeds(v, view, nonce)
    ensures PreparedFor(v, view, nonce, a) == PreparedFor(v, view, nonce, b) <==> AgreeWhereRead(v, view, nonce, a, b)
  {
    hide Prepared, Reads;
    WindowInsideArea(v, Selected(view, nonce).areaLabel, SelectedSize(v, view, nonce), nonce);
    PreparedAgrees(SelectedBytes(view, nonce, a), SelectedBytes(view, nonce, b), Expected(v, view, nonce));
  }

  /** The answer of a client to the request as it came over the network. */
  ghost function AnswerTo(hash: Hash, v: Version, view: seq<AreaInfo>, img: Image, aid: Aid, number: uint64,
                          received: seq<byte>): Option<Response>
    requires HoldsRequest(received) && CanAnswer(v, view, ParseRequest(received).nonce)
  {
    Answer(hash, v, view, img, aid, number, ParseRequest(received))
  }

  /**
   From the bytes of the request to the verdict: a client whose memory agrees with the reference wherever the
   walk reads always passes, with nothing but the time to decide which success it is; any other is rejected,
   unless it has found a collision.
   */
  lemma ExchangeDecides(hash: Hash, n: uint32, v: Version, view: seq<AreaInfo>, reference: Image, memory: Image,
                        aid: Aid, number: uint64, request: Request, rest: seq<byte>, t: int64, db: map<uint64, Stored>)
    requires HasLength(hash, n) && request.Fits() && Issued(v, view, reference, request, db)
    ensures HoldsRequest(EncodeRequest(request) + rest) && ParseRequest(EncodeRequest(request) + rest) == request
    ensures var a := AnswerTo(hash, v, view, memory, aid, number, EncodeRequest(request) + rest);
      var s := db[request.id];
      && a.Some? && a.value.Fits()
      && var verdict := Verification(hash, Forward(t, a.value), db);
      && verdict.Verdict? && verdict.requestId == request.id
      && verdict.elapsed == (t - s.sendTime) % 0x1_0000_0000
      && if AgreeWhereRead(v, view, request.nonce, memory, reference) then
           && verdict.status == (if t - s.sendTime < s.validitySeconds then SuccessInTime else ExpiredSuccess)
           && !verdict.compromised
         else
           || (verdict.status == (if t - s.sendTime < s.validitySeconds then Failed else ExpiredFailed)
               && verdict.compromised)
           || HashesCollide(hash, s.nonce, PreparedFor(v, view, s.nonce, memory), s.data, aid, number)
  {
    hide HashInput, Verification, Forward, EncodeRequest, ParseRequest, HashOf, AgreeWhereRead, PreparedFor;
    RequestRoundTrip(request, rest);
    PreparedAlike(v, view, request.nonce, memory, reference);
    DataDecides(hash, n, t, request.id, PreparedFor(v, view, request.nonce, memory), aid, number, db);
  }

  /** Completeness: an area that holds what the reference holds passes, for every nonce and at every time. */
  lemma HonestMemoryPasses(hash: Hash, n: uint32, v: Version, view: seq<AreaInfo>, reference: Image, memory: Image,
                           aid: Aid, number: uint64, request: Request, t: int64, db: map<uint64, Stored>)
    requires HasLength(hash, n) && request.Fits() && Issued(v, view, reference, request, db)
    requires SelectedBytes(view, request.nonce, memory) == SelectedBytes(view, request.nonce, reference)
    ensures var a := Answer(hash, v, view, memory, aid, number, request);
      a.Some? && a.value.Fits() && a.value.requestId in db && Passes(hash, t, a.value, db)
  {
    hide HashInput, Verification, Forward, EncodeRequest, ParseRequest, HashOf, PreparedFor, Reads;
    assert AgreeWhereRead(v, view, request.nonce, memory, reference);
    ExchangeDecides(hash, n, v, view, reference, memory, aid, number, request, [], t, db);
  }

  /** Soundness: where the walk is full, passing means having the bytes of the window, or a collision. */
  lemma PassingBindsWindow(hash: Hash, n: uint32, v: Version, view: seq<AreaInfo>, reference: Image, memory: Image,
                           aid: Aid, number: uint64, request: Request, t: int64, db: map<uint64, Stored>)
    requires HasLength(hash, n) && request.Fits() && Issued(v, view, reference, request, db)
    requires WalksFully(v, SelectedSize(v, view, request.nonce))
    ensures var a, d := Answer(hash, v, view, memory, aid, number, request), Expected(v, view, request.nonce);
      var x, y := SelectedBytes(view, request.nonce, memory), SelectedBytes(view, request.nonce, reference);
      && a.Some? && a.value.Fits() && a.value.requestId in db && InArea(d, |x|) && InArea(d, |y|)
      && if Window(x, d) == Window(y, d) then Passes(hash, t, a.value, db)
         else
           || IsRejected(hash, t, a.value, db)
           || HashesCollide(hash, request.nonce, PreparedFor(v, view, request.nonce, memory), db[request.id].data,
                            aid, number)
  {
    hide HashesCollide, Verification, Forward, EncodeRequest, ParseRequest, HashOf, AgreeWhereRead, PreparedFor, Window,
      Expected, WalksFully, Succeeds, NonceFits;
    ExchangeDecides(hash, n, v, view, reference, memory, aid, number, request, [], t, db);
    WindowIffRead(v, view, request.nonce, memory, reference);
  }

  lemma WindowIffRead(v: Version, view: seq<AreaInfo>, nonce: seq<byte>, a: Image, b: Image)
    requires CanDecode(v, view, nonce) && Succeeds(v, view, nonce) && WalksFully(v, SelectedSize(v, view, nonce))
    ensures var x, y, d := SelectedBytes(view, nonce, a), SelectedBytes(view, nonce, b), Expected(v, view, nonce);
      InArea(d, |x|) && InArea(d, |y|) && (AgreeWhereRead(v, view, nonce, a, b) <==> Window(x, d) == Window(y, d))
  {
    hide Reads;
    var x, y, d := SelectedBytes(view, nonce, a), SelectedBytes(view, nonce, b), Expected(v, view, nonce);
    var l, size := Selected(view, nonce).areaLabel, SelectedSize(v, view, nonce);
    WindowInsideArea(v, l, size, nonce);
    GeneratorIsCoprime(v, l, size, nonce);
    forall k: nat
      ensures Reads(d, k) <==> d.initialOffset <= k < d.initialOffset + d.actualBufferSize
    {
      FullWalkReads(d, k);
    }
    if Window(x, d) == Window(y, d) {
      forall k | 0 <= k < |x| && Reads(d, k)
        ensures x[k] == y[k]
      {
        assert Window(x, d)[k - d.initialOffset] == Window(y, d)[k - d.initialOffset];
      }
    }
  }

  // ---------- the Goldbach walk ----------

  /** The request carries a nonce whose window has a row in the table, and the reference's data is stored for it. */
  ghost predicate GoldbachIssued(v: Version, t: GoldbachWalks.Partitions, view: seq<AreaInfo>, reference: Image,
                                 request: Request, db: map<uint64, Stored>) {
    && t.Valid() && GoldbachPreparation.CanPrepare(v, view, Some(request.nonce))
    && request.nonce != [] && Succeeds(v, view, request.nonce)
    && request.id in db
    && db[request.id].nonce == request.nonce
    && db[request.id].data == GoldbachPreparation.PreparedFor(v, t, view, request.nonce, reference)
  }

  ghost predicate SumsAgree(v: Version, t: GoldbachWalks.Partitions, view: seq<AreaInfo>, nonce: seq<byte>, a: Image,
                            b: Image)
    requires t.Valid() && GoldbachPreparation.CanPrepare(v, view, Some(nonce))
    requires nonce != [] && Succeeds(v, view, nonce)
  {
    ExpectedWindow(v, view, nonce);
    GoldbachWalks.SumsAgree(SelectedBytes(view, nonce, a), SelectedBytes(view, nonce, b),
                            GoldbachWalks.SplitOf(Expected(v, view, nonce), t))
  }

  lemma GoldbachPreparedAlike(v: Version, t: GoldbachWalks.Partitions, view: seq<AreaInfo>, nonce: seq<byte>, a: Image,
                              b: Image)
    requires t.Valid() && GoldbachPreparation.CanPrepare(v, view, Some(nonce))
    requires nonce != [] && Succeeds(v, view, nonce)
    ensures
      GoldbachPreparation.PreparedFor(v, t, view, nonce, a) == GoldbachPreparation.PreparedFor(v, t, view, nonce, b)
      <==> SumsAgree(v, t, view, nonce, a, b)
  {
    hide Interpret, Flatten, GoldbachWalks.SumsAgree, GoldbachWalks.SplitOf, GoldbachWalks.Prepared;
    ExpectedWindow(v, view, nonce);
    var s := GoldbachWalks.SplitOf(Expected(v, view, nonce), t);
    GoldbachWalks.PreparedAgrees(SelectedBytes(view, nonce, a), SelectedBytes(view, nonce, b), s);
  }

  /**
   The exchange with the Goldbach walk, for every nonce whose window has a row: memory on which both walks add up to
   the reference's sums at every step passes; any other is rejected, unless its hash collides.
   */
  lemma GoldbachExchangeDecides(hash: Hash, n: uint32, v: Version, t: GoldbachWalks.Partitions, view: seq<AreaInfo>,
                                reference: Image, memory: Image, aid: Aid, number: uint64, request: Request,
                                rest: seq<byte>, time: int64, db: map<uint64, Stored>)
    requires HasLength(hash, n) && request.Fits() && GoldbachIssued(v, t, view, reference, request, db)
    ensures HoldsRequest(EncodeRequest(request) + rest) && ParseRequest(EncodeRequest(request) + rest) == request
    ensures var data := GoldbachPreparation.PreparedFor(v, t, view, request.nonce, memory);
      var r, s := Reply(hash, request.id, request.nonce, data, aid, number), db[request.id];
      && r.Fits()
      && var verdict := Verification(hash, Forward(time, r), db);
      && verdict.Verdict? && verdict.requestId == request.id
      && if SumsAgree(v, t, view, request.nonce, memory, reference) then
           && verdict.status == (if time - s.sendTime < s.validitySeconds then SuccessInTime else ExpiredSuccess)
           && !verdict.compromised
         else
           || (verdict.status == (if time - s.sendTime < s.validitySeconds then Failed else ExpiredFailed)
               && verdict.compromised)
           || HashesCollide(hash, s.nonce, data, s.data, aid, number)
  {
    hide HashesCollide, Verification, Forward, EncodeRequest, ParseRequest, HashOf, SumsAgree,
      GoldbachPreparation.PreparedFor, GoldbachPreparation.CanPrepare;
    RequestRoundTrip(request, rest);
    GoldbachPreparedAlike(v, t, view, request.nonce, memory, reference);
    DataDecides(hash, n, time, request.id, GoldbachPreparation.PreparedFor(v, t, view, request.nonce, memory), aid,
                number, db);
  }

  /** One changed byte: rejected, unless it collides, exactly when one of the two walks reads it. */
  lemma GoldbachChangeDecides(hash: Hash, n: uint32, t: int64, id: uint64, flat: seq<byte>, s: GoldbachWalks.Split,
                              k: nat, value: byte, aid: Aid, number: uint64, db: map<uint64, Stored>)
    requires s.Valid() && s.offset + s.left + s.right <= |flat| && k < |flat| && value != flat[k]
    requires HasLength(hash, n) && id in db && db[id].data == GoldbachWalks.Prepared(flat, s)
    ensures var data := GoldbachWalks.Prepared(flat[k := value], s);
      var r := Reply(hash, id, db[id].nonce, data, aid, number);
      && r.Fits()
      && if GoldbachWalks.IsRead(s, k) then
           IsRejected(hash, t, r, db) || HashesCollide(hash, db[id].nonce, data, db[id].data, aid, number)
         else
           Passes(hash, t, r, db)
  {
    hide HashesCollide, Verification, Forward, HashOf, GoldbachWalks.Prepared, GoldbachWalks.IsRead;
    GoldbachWalks.SingleChangeShows(flat, s, k, value);
    DataDecides(hash, n, t, id, GoldbachWalks.Prepared(flat[k := value], s), aid, number, db);
  }
}
