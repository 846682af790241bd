/** The verifier: it reads one forwarded response and compares it with the hash of what the extractor has stored. */
module Verifiers {
  import opened Bytes
  import opened Defines
  import opened Hashing
  import opened Protocol
  import opened Rfc7693

  datatype Status = SuccessInTime | ExpiredSuccess | Failed | ExpiredFailed

  /** What the data base has on a request. */
  datatype Stored = Stored(nonce: seq<byte>, data: seq<byte>, sendTime: int64, validitySeconds: uint16) {
    predicate Fits() {
      |nonce| + |data| + AID_SIZE < 0x1_0000_0000
    }
  }

  /** How a run ends; an over-long hash makes the comparison read behind the computed one. */
  datatype VerifierResult =
    | HeaderError
    | HashBufferError
    | DataBaseError
    | Overread
    | Verdict(requestId: uint64, status: Status, compromised: bool, elapsed: uint32)

  /** The bytes after the header, as many as it announces; fewer if there are not that many. */
  function HashBytes(stream: seq<byte>): (h: seq<byte>)
    requires VERIFIER_RESP_HEADER_SIZE <= |stream|
  {
    var rest := stream[VERIFIER_RESP_HEADER_SIZE..];
    var n := ParseHeader(stream[..VERIFIER_RESP_HEADER_SIZE]).hashSize;
    if n <= |rest| then rest[..n] else rest
  }

  predicate InTime(received: int64, s: Stored) {
    received - s.sendTime < s.validitySeconds
  }

  /** In time or not, right or wrong: the four answers. */
  function StatusOf(right: bool, inTime: bool): Status {
    if right then if inTime then SuccessInTime else ExpiredSuccess
    else if inTime then Failed else ExpiredFailed
  }

  /** What the verifier does with a stream, given what is stored on each request. */
  function Verification(hash: Hash, stream: seq<byte>, db: map<uint64, Stored>): VerifierResult {
    if |stream| < VERIFIER_RESP_HEADER_SIZE then HeaderError
    else
      var h := ParseHeader(stream[..VERIFIER_RESP_HEADER_SIZE]);
      var received := HashBytes(stream);
      if |received| != h.hashSize then HashBufferError
      else if h.requestId !in db then DataBaseError
      else
        var s := db[h.requestId];
        var computed := HashOf(hash, s.nonce, s.data, h.aid, h.attestatorNumber);
        var right := received <= computed;
        if |received| > |computed| then Overread
        else Verdict(h.requestId, StatusOf(right, InTime(h.time, s)), !right, Wrap32(h.time - s.sendTime))
  }

  /** The `main` of the verifier. */
  method Verify(stream: seq<byte>, db: map<uint64, Stored>) returns (r: VerifierResult)
    requires forall id :: id in db ==> db[id].Fits()
    ensures r == Verification(Blake(), stream, db)
    ensures |stream| < 44 <==> r == HeaderError
  {
    hide Digest, ParseHeader, HashOf;
    if |stream| < VERIFIER_RESP_HEADER_SIZE {
      return HeaderError;
    }
    var h := ParseHeader(stream[..VERIFIER_RESP_HEADER_SIZE]);
    var received := HashBytes(stream);
    if |received| != h.hashSize {
      return HashBufferError;
    }
    if h.requestId !in db {
      return DataBaseError;
    }
    var s := db[h.requestId];
    var rh, computed := DoHash(s.nonce, s.data, h.aid, h.attestatorNumber, None);
    BlakeOf(s.nonce, s.data, h.aid, h.attestatorNumber);
    if |received| > |computed| {
      return Overread;
    }
    var compromised, status := false, SuccessInTime;
    if computed[..|received|] == received {
      if h.time - s.sendTime < s.validitySeconds {
        status := SuccessInTime;
      } else {
        status := ExpiredSuccess;
      }
    } else {
      if h.time - s.sendTime < s.validitySeconds {
        status := Failed;
      } else {
        status := ExpiredFailed;
      }
      compromised := true;
    }
    return Verdict(h.requestId, status, compromised, Wrap32(h.time - s.sendTime));
  }

  /** For a response that was forwarded whole, the verdict is about its own fields and nothing else. */
  lemma ForwardedVerification(hash: Hash, t: int64, r: Response, db: map<uint64, Stored>)
    requires r.Fits() && r.requestId in db
    ensures var s := db[r.requestId];
      var computed := HashOf(hash, s.nonce, s.data, r.aid, r.attestatorNumber);
      var right := r.hash <= computed;
      Verification(hash, Forward(t, r), db) ==
        if |r.hash| > |computed| then Overread
        else if t - s.sendTime < s.validitySeconds then
          Verdict(r.requestId, if right then SuccessInTime else Failed, !right, Wrap32(t - s.sendTime))
        else
          Verdict(r.requestId, if right then ExpiredSuccess else ExpiredFailed, !right, Wrap32(t - s.sendTime))
  {
    hide ParseHeader, HashOf, Forward;
    ResponseRoundTrip(t, r);
    var stream := Forward(t, r);
    assert stream[44..][..|r.hash|] == r.hash;
  }

  /** The comparison is as long as the response says: a response with no hash at all always passes. */
  lemma EmptyHashPasses(hash: Hash, t: int64, aid: Aid, number: uint64, id: uint64, db: map<uint64, Stored>)
    requires id in db
    ensures var v, s := Verification(hash, Forward(t, Response(aid, number, id, [])), db), db[id];
      && v.Verdict? && !v.compromised
      && v.status == (if t - s.sendTime < s.validitySeconds then SuccessInTime else ExpiredSuccess)
  {
    hide HashOf, Verification, Forward;
    ForwardedVerification(hash, t, Response(aid, number, id, []), db);
  }

  /** A hash of full length passes exactly when it is the computed one; time decides between the answers left. */
  lemma FullHashPassesIffEqual(hash: Hash, t: int64, r: Response, db: map<uint64, Stored>)
    requires r.Fits() && r.requestId in db
    requires var s := db[r.requestId]; |r.hash| == |HashOf(hash, s.nonce, s.data, r.aid, r.attestatorNumber)|
    ensures var v, s := Verification(hash, Forward(t, r), db), db[r.requestId];
      && v.Verdict? && v.requestId == r.requestId && v.elapsed == (t - s.sendTime) % 0x1_0000_0000
      && if r.hash == HashOf(hash, s.nonce, s.data, r.aid, r.attestatorNumber) then
           v.status == (if t - s.sendTime < s.validitySeconds then SuccessInTime else ExpiredSuccess) && !v.compromised
         else
           v.status == (if t - s.sendTime < s.validitySeconds then Failed else ExpiredFailed) && v.compromised
  {
    hide HashOf, Verification, Forward, Wrap;
    ForwardedVerification(hash, t, r, db);
    WrapIsModulo(t - db[r.requestId].sendTime, 0x1_0000_0000);
  }

  /** Any stream that begins with a header: what is compared, and what each of the outcomes says. */
  lemma StreamDecides(hash: Hash, h: Header, rest: seq<byte>, db: map<uint64, Stored>)
    ensures var v := Verification(hash, EncodeHeader(h) + rest, db);
      if |rest| < h.hashSize then v == HashBufferError
      else if h.requestId !in db then v == DataBaseError
      else
        var s, received := db[h.requestId], rest[..h.hashSize];
        var computed := HashOf(hash, s.nonce, s.data, h.aid, h.attestatorNumber);
        if |computed| < h.hashSize then v == Overread
        else
          && v.Verdict? && v.requestId == h.requestId && v.elapsed == (h.time - s.sendTime) % 0x1_0000_0000
          && if received == computed[..h.hashSize] then
               && v.status == (if h.time - s.sendTime < s.validitySeconds then SuccessInTime else ExpiredSuccess)
               && !v.compromised
             else
               && v.status == (if h.time - s.sendTime < s.validitySeconds then Failed else ExpiredFailed)
               && v.compromised
  {
    hide ParseHeader, EncodeHeader, HashOf, Wrap;
    var stream := EncodeHeader(h) + rest;
    HeaderRoundTrip(h);
    assert stream[..VERIFIER_RESP_HEADER_SIZE] == EncodeHeader(h) && stream[VERIFIER_RESP_HEADER_SIZE..] == rest;
    if h.requestId in db {
      WrapIsModulo(h.time - db[h.requestId].sendTime, 0x1_0000_0000);
    }
  }
}
